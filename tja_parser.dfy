/**
  The TJA chart parser (`parse_tja_file` in parser/tja-parser.py): a single
  pass over the lines of a chart file that keeps the current course, whether
  a chart body is being collected, and the rows collected so far, and returns
  every completed chart as (course, rows of note codes) in file order.

  `Step` is the transition on one line, `Run` folds it over a file, and
  `ParseTjaFile` is the loop itself, proved to compute `Parse`.
 */
module TjaParser {
  import opened Wrappers
  import opened Text

  /** The course names in `SUPPORTED_COURSES`. */
  datatype Course = Easy | Normal | Hard | Oni | Ura | Edit

  function CourseName(c: Course): string
  {
    match c
    case Easy => "Easy"
    case Normal => "Normal"
    case Hard => "Hard"
    case Oni => "Oni"
    case Ura => "Ura"
    case Edit => "Edit"
  }

  /** Membership in `SUPPORTED_COURSES`: an exact, case-sensitive match or nothing. */
  function CourseNamed(name: string): (c: Option<Course>)
    ensures c.Some? ==> CourseName(c.value) == name
    ensures c.None? ==> forall k: Course :: CourseName(k) != name
  {
    if name == "Easy" then Some(Easy)
    else if name == "Normal" then Some(Normal)
    else if name == "Hard" then Some(Hard)
    else if name == "Oni" then Some(Oni)
    else if name == "Ura" then Some(Ura)
    else if name == "Edit" then Some(Edit)
    else None
  }

  /** A completed chart: the course current at its `#END` (possibly none) and its rows. */
  datatype Chart = Chart(course: Option<Course>, rows: seq<seq<int>>)

  /** A character of `VALID_NOTES`: one of the ten ASCII digits. */
  predicate IsNote(c: char)
  {
    '0' <= c <= '9'
  }

  /** A note code, the value `int(c)` of a note character. */
  predicate IsCode(x: int)
  {
    0 <= x <= 9
  }

  /** A row the parser may emit: non-empty, every code a note code. */
  predicate ValidRow(row: seq<int>)
  {
    row != [] && forall k :: 0 <= k < |row| ==> IsCode(row[k])
  }

  predicate ValidRows(rows: seq<seq<int>>)
  {
    forall i :: 0 <= i < |rows| ==> ValidRow(rows[i])
  }

  /** `all(c in VALID_NOTES for c in section)` */
  predicate AllNotes(section: string)
  {
    forall k :: 0 <= k < |section| ==> IsNote(section[k])
  }

  /** `[int(c) for c in section]` */
  function Codes(section: string): (row: seq<int>)
    requires AllNotes(section)
    ensures |row| == |section|
    ensures forall k :: 0 <= k < |row| ==> row[k] == section[k] as int - '0' as int
  {
    seq(|section|, k requires 0 <= k < |section| => section[k] as int - '0' as int)
  }

  /** The row a stripped section contributes: one row if it is non-empty and all digits, else none. */
  function RowOf(section: string): (r: Option<seq<int>>)
    ensures r.Some? <==> section != [] && AllNotes(section)
    ensures r.Some? ==> ValidRow(r.value) && |r.value| == |section|
  {
    if section != [] && AllNotes(section) then Some(Codes(section)) else None
  }

  /** The digit text of a row of note codes: the inverse of `RowOf`. */
  function RowText(row: seq<int>): (s: string)
    requires ValidRow(row)
    ensures |s| == |row|
    ensures forall k :: 0 <= k < |s| ==> IsNote(s[k]) && s[k] as int - '0' as int == row[k]
  {
    seq(|row|, k requires 0 <= k < |row| => ('0' as int + row[k]) as char)
  }

  /** Sections and rows are in one-to-one correspondence: a row prints back as the section it came from, and every valid row is read back from its text. */
  lemma RowOfRoundTrip(section: string, row: seq<int>)
    ensures RowOf(section) == Some(row) ==> RowText(row) == section
    ensures ValidRow(row) ==> RowOf(RowText(row)) == Some(row)
  {
    if RowOf(section) == Some(row) {
      assert forall k :: 0 <= k < |row| ==> RowText(row)[k] == section[k];
    }
    if ValidRow(row) {
      var s := RowText(row);
      assert AllNotes(s);
      assert forall k :: 0 <= k < |row| ==> Codes(s)[k] == row[k];
      assert Codes(s) == row;
    }
  }

  /** The sections of a body line: `line.split('//')[0].split(',')`. */
  function Sections(line: string): seq<string>
  {
    Split(BeforeComment(line), ',')
  }

  /** The rows collected from a list of sections, each stripped, in order. */
  function RowsOf(sections: seq<string>): (rows: seq<seq<int>>)
    ensures ValidRows(rows)
    ensures |rows| <= |sections|
    decreases |sections|
  {
    if sections == [] then []
    else
      var last := sections[|sections| - 1];
      RowsOf(sections[..|sections| - 1]) +
      match RowOf(Strip(last)) case Some(row) => [row] case None => []
  }

  /** Each section contributes on its own, in order: rows of a concatenation are the concatenated rows. */
  lemma {:induction false} RowsOfAppend(a: seq<string>, b: seq<string>)
    ensures RowsOf(a + b) == RowsOf(a) + RowsOf(b)
    decreases |b|
  {
    if b != [] {
      var b' := b[..|b| - 1];
      assert (a + b)[..|a + b| - 1] == a + b';
      assert (a + b)[|a + b| - 1] == b[|b| - 1];
      RowsOfAppend(a, b');
    } else {
      assert a + b == a;
    }
  }

  /** One section gives exactly one row when it is valid after stripping, and none otherwise. */
  lemma RowsOfOne(section: string)
    ensures RowsOf([section]) == match RowOf(Strip(section)) case Some(row) => [row] case None => []
  {
    assert [section][..0] == [];
  }

  /** Extending a prefix of the sections by one more section adds exactly that section's row, if any. */
  lemma RowsOfStep(sections: seq<string>, j: nat)
    requires j < |sections|
    ensures RowsOf(sections[..j + 1]) ==
      RowsOf(sections[..j]) + match RowOf(Strip(sections[j])) case Some(row) => [row] case None => []
  {
    assert sections[..j + 1] == sections[..j] + [sections[j]];
    RowsOfAppend(sections[..j], [sections[j]]);
    RowsOfOne(sections[j]);
  }

  /** The rows a body line adds to the current chart. */
  function BodyRows(line: string): (rows: seq<seq<int>>)
    ensures ValidRows(rows)
  {
    RowsOf(Sections(line))
  }

  /** The parser's state: `current_course`, `collecting`, `current_chart` and the `charts` returned so far. */
  datatype ParserState = ParserState(
    course: Option<Course>,
    collecting: bool,
    current: seq<seq<int>>,
    charts: seq<Chart>)

  const Initial := ParserState(None, false, [], [])

  /** Lines that change nothing: blank after stripping, or a `//` comment. */
  predicate IsSkipped(line: string)
  {
    line == [] || StartsWith(line, "//")
  }

  predicate IsCourseLine(line: string)
  {
    StartsWith(line, "COURSE:")
  }

  /** A `COURSE:` line is neither blank nor a comment. */
  lemma CourseLineNotSkipped(line: string)
    requires IsCourseLine(line)
    ensures !IsSkipped(line)
  {
    assert line[0] == 'C';
  }

  /** `line.split(':')[1].strip()`, the declared course name. */
  function CourseField(line: string): string
    requires IsCourseLine(line)
  {
    assert line[6] == ':';
    Strip(Split(line, ':')[1])
  }

  /** A line that sets a supported course. */
  predicate DeclaresCourse(raw: string)
  {
    var line := Strip(raw);
    !IsSkipped(line) && IsCourseLine(line) && CourseNamed(CourseField(line)).Some?
  }

  /** Every collected and emitted row is valid, every emitted chart is non-empty, and outside a body nothing is pending. */
  predicate WellFormed(st: ParserState)
  {
    ValidRows(st.current) &&
    (!st.collecting ==> st.current == []) &&
    forall i :: 0 <= i < |st.charts| ==> st.charts[i].rows != [] && ValidRows(st.charts[i].rows)
  }

  /** The effect of one line of the file, in the order the source tests the cases. */
  function Step(st: ParserState, raw: string): (st': ParserState)
    ensures WellFormed(st) ==> WellFormed(st')
    ensures st.charts <= st'.charts && |st'.charts| <= |st.charts| + 1
  {
    var line := Strip(raw);
    if IsSkipped(line) then st
    else if IsCourseLine(line) then st.(course := CourseNamed(CourseField(line)))
    else if Contains(line, "#START") && st.course.Some? then st.(collecting := true, current := [])
    else if Contains(line, "#END") && st.collecting then
      st.(collecting := false, current := [],
          charts := if st.current != [] then st.charts + [Chart(st.course, st.current)] else st.charts)
    else if st.collecting then st.(current := st.current + BodyRows(line))
    else st
  }

  /** The state after the given lines, starting from `st`. */
  function Run(st: ParserState, lines: seq<string>): ParserState
    decreases |lines|
  {
    if lines == [] then st
    else Step(Run(st, lines[..|lines| - 1]), lines[|lines| - 1])
  }

  /** `parse_tja_file`: the charts of a whole file. */
  function Parse(lines: seq<string>): seq<Chart>
  {
    Run(Initial, lines).charts
  }

  /** Reading a file in two parts is reading it in one. */
  lemma {:induction false} RunAppend(st: ParserState, a: seq<string>, b: seq<string>)
    ensures Run(st, a + b) == Run(Run(st, a), b)
    decreases |b|
  {
    if b == [] {
      assert a + b == a;
    } else {
      var b' := b[..|b| - 1];
      assert (a + b)[..|a + b| - 1] == a + b';
      assert (a + b)[|a + b| - 1] == b[|b| - 1];
      RunAppend(st, a, b');
    }
  }

  lemma {:induction false} RunWellFormed(st: ParserState, lines: seq<string>)
    requires WellFormed(st)
    ensures WellFormed(Run(st, lines))
    decreases |lines|
  {
    if lines != [] {
      RunWellFormed(st, lines[..|lines| - 1]);
    }
  }

  /** Every emitted chart has at least one row, every row is non-empty, and every code lies in 0..9. */
  lemma ParseEmitsValidRows(lines: seq<string>)
    ensures forall i :: 0 <= i < |Parse(lines)| ==>
      Parse(lines)[i].rows != [] && ValidRows(Parse(lines)[i].rows)
  {
    RunWellFormed(Initial, lines);
  }

  /** Charts are only ever appended: the charts of a prefix of the file come first, in file order. */
  lemma {:induction false} ChartsInFileOrder(a: seq<string>, b: seq<string>)
    ensures Parse(a) <= Parse(a + b)
    decreases |b|
  {
    if b == [] {
      assert a + b == a;
    } else {
      var b' := b[..|b| - 1];
      assert (a + b)[..|a + b| - 1] == a + b';
      ChartsInFileOrder(a, b');
    }
  }

  /** A blank or comment line can be removed from anywhere in the file without changing the result. */
  lemma SkippedLineIgnored(a: seq<string>, c: string, b: seq<string>)
    requires IsSkipped(Strip(c))
    ensures Parse(a + [c] + b) == Parse(a + b)
  {
    RunAppend(Initial, a + [c], b);
    RunAppend(Initial, a, b);
    assert (a + [c])[..|a + [c]| - 1] == a;
  }

  /**
    Without a supported course nothing is collected: from a state with no course
    and no open body, lines that declare no supported course leave the course
    unset, start no body and emit no chart, whatever `#START`/`#END` lines they hold.
   */
  lemma {:induction false} NoCourseNoCharts(st: ParserState, lines: seq<string>)
    requires st.course.None? && !st.collecting
    requires forall i :: 0 <= i < |lines| ==> !DeclaresCourse(lines[i])
    ensures Run(st, lines).course.None? && !Run(st, lines).collecting
    ensures Run(st, lines).charts == st.charts
    decreases |lines|
  {
    if lines != [] {
      NoCourseNoCharts(st, lines[..|lines| - 1]);
    }
  }

  /** An unsupported `COURSE:` line outside a body clears the course: the section after it emits nothing. */
  lemma UnsupportedCourseSectionSkipped(st: ParserState, header: string, body: seq<string>)
    requires !st.collecting
    requires IsCourseLine(Strip(header)) && CourseNamed(CourseField(Strip(header))).None?
    requires forall i :: 0 <= i < |body| ==> !DeclaresCourse(body[i])
    ensures Run(st, [header] + body).charts == st.charts
  {
    RunAppend(st, [header], body);
    assert [header][..0] == [];
    CourseLineNotSkipped(Strip(header));
    NoCourseNoCharts(Step(st, header), body);
  }

  /** A file that declares no supported course yields no chart at all. */
  lemma NoSupportedCourseEmptyParse(lines: seq<string>)
    requires forall i :: 0 <= i < |lines| ==> !DeclaresCourse(lines[i])
    ensures Parse(lines) == []
  {
    NoCourseNoCharts(Initial, lines);
  }

  /**
    The `#END` rule: a line containing `#END` while a body is open (and not
    taken by an earlier case) closes it, appends the accumulated rows under the
    current course when there are any, and empties the accumulator either way;
    no other line appends a chart.
   */
  lemma EndEmits(st: ParserState, raw: string)
    ensures var st' := Step(st, raw);
      var line := Strip(raw);
      var closes := !IsSkipped(line) && !IsCourseLine(line) &&
                    !(Contains(line, "#START") && st.course.Some?) &&
                    Contains(line, "#END") && st.collecting;
      (closes ==> !st'.collecting && st'.current == []) &&
      st'.charts == if closes && st.current != [] then st.charts + [Chart(st.course, st.current)] else st.charts
  {
  }

  /** `#START` under a supported course opens a body with an empty accumulator, even when one was already open. */
  lemma StartRestarts(st: ParserState, raw: string)
    requires st.course.Some?
    requires var line := Strip(raw); !IsSkipped(line) && !IsCourseLine(line) && Contains(line, "#START")
    ensures Step(st, raw) == st.(collecting := true, current := [])
  {
  }

  /** A `COURSE:` line inside a body changes only the course: collection goes on, so the chart is emitted under the new course (or none). */
  lemma CourseChangeMidBody(st: ParserState, raw: string)
    requires IsCourseLine(Strip(raw))
    ensures Step(st, raw) == st.(course := CourseNamed(CourseField(Strip(raw))))
  {
    CourseLineNotSkipped(Strip(raw));
  }

  /** The inner loop of the parser on a body line: each stripped, all-digit section becomes one more row, in order. */
  method CollectRows(currentChart: seq<seq<int>>, line: string) returns (chart: seq<seq<int>>)
    ensures chart == currentChart + BodyRows(line)
  {
    chart := currentChart;
    var sections := Split(BeforeComment(line), ',');
    var j := 0;
    while j < |sections|
      invariant 0 <= j <= |sections|
      invariant chart == currentChart + RowsOf(sections[..j])
    {
      RowsOfStep(sections, j);
      var section := Strip(sections[j]);
      if section != [] && AllNotes(section) {
        chart := chart + [Codes(section)];
      }
      j := j + 1;
    }
    assert sections[..j] == sections;
  }

  /** The parser loop as written: a pass over the lines with `continue` after each handled case. */
  method ParseTjaFile(lines: seq<string>) returns (charts: seq<Chart>)
    ensures charts == Parse(lines)
  {
    charts := [];
    var currentCourse: Option<Course> := None;
    var collecting := false;
    var currentChart: seq<seq<int>> := [];
    var i := 0;
    while i < |lines|
      invariant 0 <= i <= |lines|
      invariant Run(Initial, lines[..i]) == ParserState(currentCourse, collecting, currentChart, charts)
    {
      assert lines[..i + 1][..i] == lines[..i];
      ghost var st := ParserState(currentCourse, collecting, currentChart, charts);
      assert Run(Initial, lines[..i + 1]) == Step(st, lines[i]);
      var line := Strip(lines[i]);
      if line == [] || StartsWith(line, "//") {
        // skip
      } else if StartsWith(line, "COURSE:") {
        var courseName := CourseField(line);
        currentCourse := CourseNamed(courseName);
      } else if Contains(line, "#START") && currentCourse.Some? {
        collecting := true;
        currentChart := [];
      } else if Contains(line, "#END") && collecting {
        collecting := false;
        if currentChart != [] {
          charts := charts + [Chart(currentCourse, currentChart)];
        }
        currentChart := [];
      } else if collecting {
        currentChart := CollectRows(currentChart, line);
      }
      i := i + 1;
    }
    assert lines[..i] == lines;
  }
}
