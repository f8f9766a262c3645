/**
  The label encoder of parser/tja-parser.py: `save_label_tensor` pads the
  rows of one chart with zeros into a rectangular matrix, and
  `process_dataset_tja` walks the chart files of a dataset and writes, for
  each, the padded first chart under the mirrored path with a `.pt` suffix.

  Paths are sequences of components relative to a root; the file system
  walk is the input list of chart files with their lines.
 */
module LabelEncoder {
  import opened Wrappers
  import opened Text
  import opened Matrices
  import opened TjaParser

  /** `[len(line) for line in chart_lines]` */
  function Lengths(rows: seq<seq<int>>): (lens: seq<nat>)
    ensures |lens| == |rows| && forall i :: 0 <= i < |rows| ==> lens[i] == |rows[i]|
  {
    seq(|rows|, i requires 0 <= i < |rows| => |rows[i]|)
  }

  /**
    `save_label_tensor`'s padding: no matrix for an empty chart (it returns
    False and writes nothing); otherwise every row right-padded with 0 to the
    longest row's length, rows kept in order.
   */
  function EncodeLabels(rows: seq<seq<int>>): (r: Option<Matrix>)
    ensures r.None? <==> rows == []
    ensures r.Some? ==> Rectangular(r.value) && |r.value.rows| == |rows| && r.value.cols == Max(Lengths(rows))
    ensures r.Some? ==> forall i :: 0 <= i < |rows| ==> rows[i] <= r.value.rows[i]
    ensures r.Some? ==> forall i, j :: 0 <= i < |rows| && |rows[i]| <= j < r.value.cols ==> r.value.rows[i][j] == 0
  {
    if rows == [] then None
    else
      var w := Max(Lengths(rows));
      Some(Matrix(seq(|rows|, i requires 0 <= i < |rows| => PadRight(rows[i], w)), w))
  }

  /** Every entry of the label matrix is the chart's note at that place, or the sentinel 0 past the end of its row. */
  lemma EncodeLabelsEntries(rows: seq<seq<int>>)
    requires rows != []
    ensures var m := EncodeLabels(rows).value;
      forall i, j :: 0 <= i < |rows| && 0 <= j < m.cols ==> m.rows[i][j] == Entry(Matrix(rows, m.cols), i, j)
  {
  }

  /** The encoding loses nothing: cutting each padded row back to its original length gives the chart back. */
  lemma EncodeLabelsInverse(rows: seq<seq<int>>)
    requires rows != []
    ensures var m := EncodeLabels(rows).value;
      seq(|rows|, i requires 0 <= i < |rows| => m.rows[i][..|rows[i]|]) == rows
  {
    var m := EncodeLabels(rows).value;
    var back := seq(|rows|, i requires 0 <= i < |rows| => m.rows[i][..|rows[i]|]);
    forall i | 0 <= i < |rows| ensures back[i] == rows[i] {
      assert rows[i] <= m.rows[i];
    }
  }

  /** The chart with rows `[[1,2],[3]]` encodes to `[[1,2],[3,0]]`. */
  lemma EncodeLabelsExample()
    ensures EncodeLabels([[1, 2], [3]]) == Some(Matrix([[1, 2], [3, 0]], 2))
  {
    var rows: seq<seq<int>> := [[1, 2], [3]];
    assert Max(Lengths(rows)) == 2 by {
      var lens := Lengths(rows);
      assert lens == [2, 1];
      assert lens[..1] == [2] && lens[..1][..0] == [];
    }
    var m := EncodeLabels(rows).value;
    assert m.rows[0] == [1, 2];
    assert m.rows[1] == [3, 0];
    assert m.rows == [[1, 2], [3, 0]];
  }

  /** `PurePath.suffix`: from the last dot on, unless that dot starts the name or ends it. */
  function SuffixStart(name: string): Option<nat>
  {
    match LastIndexOf(name, '.')
    case Some(i) => if 0 < i < |name| - 1 then Some(i) else None
    case None => None
  }

  /** `PurePath.with_suffix(suffix)` on a file name: the old suffix replaced, or the new one appended. */
  function WithSuffix(name: string, suffix: string): (r: string)
    ensures SuffixStart(name).None? ==> r == name + suffix
  {
    match SuffixStart(name)
    case Some(i) => name[..i] + suffix
    case None => name + suffix
  }

  /** A chart file `d1/.../dk/name` relative to the dataset directory, with the lines it reads. */
  datatype ChartFile = ChartFile(path: seq<string>, lines: seq<string>)

  /** `relative.with_suffix(".pt")`: the same directories, the file's suffix replaced by `.pt`. */
  function LabelPath(path: seq<string>): seq<string>
  {
    if path == [] then [] else path[..|path| - 1] + [WithSuffix(path[|path| - 1], ".pt")]
  }

  /** A chart file named `stem.tja` (any case) with a non-empty stem is written to `stem.pt` in the mirrored directory. */
  lemma LabelPathMirrors(path: seq<string>)
    requires path != [] && |FileName(path)| > 4 && EndsWithIgnoreCase(FileName(path), ".tja")
    ensures var name := FileName(path);
      LabelPath(path) == path[..|path| - 1] + [name[..|name| - 4] + ".pt"]
  {
    var name := FileName(path);
    var n := |name|;
    assert Lower(name)[n - 4..] == ".tja";
    LowerAt(name, n - 4);
    LowerAt(name, n - 3);
    LowerAt(name, n - 2);
    LowerAt(name, n - 1);
    assert Lower(name)[n - 4] == '.' && name[n - 4] == '.';
    assert forall k :: n - 4 < k < n ==> Lower(name)[k] != '.';
    assert LastIndexOf(name[..n - 3], '.') == Some(n - 4);
    assert LastIndexOf(name[..n - 2], '.') == LastIndexOf(name[..n - 3], '.') by { assert name[..n - 2][..n - 3] == name[..n - 3]; }
    assert LastIndexOf(name[..n - 1], '.') == LastIndexOf(name[..n - 2], '.') by { assert name[..n - 1][..n - 2] == name[..n - 2]; }
    assert LastIndexOf(name, '.') == LastIndexOf(name[..n - 1], '.');
    assert SuffixStart(name) == Some(n - 4);
  }

  /** What happens to one file of the walk. */
  datatype FileOutcome =
    | NotChart                                  // name does not end in `.tja` (any case)
    | NoCharts                                  // parsed, no completed chart: skipped
    | Saved(output: seq<string>, labels: Matrix)   // the first chart, encoded and written
    | EmptyChart                                // `save_label_tensor` returned False

  /** The decision `process_dataset_tja` takes for one file: only the first chart is encoded. */
  function Outcome(f: ChartFile): FileOutcome
  {
    if !EndsWithIgnoreCase(FileName(f.path), ".tja") then NotChart
    else
      var charts := Parse(f.lines);
      if charts == [] then NoCharts
      else match EncodeLabels(charts[0].rows)
        case Some(m) => Saved(LabelPath(f.path), m)
        case None => EmptyChart
  }

  /** The "empty chart" branch is dead: a parsed chart always has a row, so every chart file with a chart is saved, as its first chart padded. */
  lemma FirstChartAlwaysSaved(f: ChartFile)
    requires EndsWithIgnoreCase(FileName(f.path), ".tja") && Parse(f.lines) != []
    ensures Outcome(f).Saved? && Outcome(f).output == LabelPath(f.path)
    ensures EncodeLabels(Parse(f.lines)[0].rows) == Some(Outcome(f).labels)
  {
    ParseEmitsValidRows(f.lines);
  }

  /** The label files written by the outcomes so far; a later file mapped to the same path overwrites. */
  function Written(outcomes: seq<FileOutcome>): map<seq<string>, Matrix>
    decreases |outcomes|
  {
    if outcomes == [] then map[]
    else
      var w := Written(outcomes[..|outcomes| - 1]);
      match outcomes[|outcomes| - 1]
      case Saved(p, m) => w[p := m]
      case _ => w
  }

  /** One more outcome writes its label file, if it saved one, over whatever that path held. */
  lemma WrittenStep(outcomes: seq<FileOutcome>, o: FileOutcome)
    ensures Written(outcomes + [o]) == if o.Saved? then Written(outcomes)[o.output := o.labels] else Written(outcomes)
  {
    assert (outcomes + [o])[..|outcomes|] == outcomes;
  }

  /** Every written label file holds what some save wrote to that path. */
  lemma {:induction false} WrittenBySave(outcomes: seq<FileOutcome>, p: seq<string>)
    requires p in Written(outcomes)
    ensures exists i :: 0 <= i < |outcomes| && outcomes[i] == Saved(p, Written(outcomes)[p])
    decreases |outcomes|
  {
    var n := |outcomes| - 1;
    var before := outcomes[..n];
    var last := outcomes[n];
    if last.Saved? && last.output == p {
      assert Written(outcomes) == Written(before)[p := last.labels];
      assert outcomes[n] == Saved(p, Written(outcomes)[p]);
    } else {
      assert p in Written(before) && Written(outcomes)[p] == Written(before)[p];
      WrittenBySave(before, p);
      var i :| 0 <= i < n && before[i] == Saved(p, Written(before)[p]);
      assert outcomes[i] == before[i];
    }
  }

  /** Every written label file comes from a chart file whose first chart it encodes. */
  lemma {:induction false} WrittenFromFirstCharts(files: seq<ChartFile>, outcomes: seq<FileOutcome>, p: seq<string>)
    requires |outcomes| == |files|
    requires forall i :: 0 <= i < |files| ==> outcomes[i] == Outcome(files[i])
    requires p in Written(outcomes)
    ensures exists i :: 0 <= i < |files| && LabelPath(files[i].path) == p && Parse(files[i].lines) != [] &&
                        EncodeLabels(Parse(files[i].lines)[0].rows) == Some(Written(outcomes)[p])
  {
    WrittenBySave(outcomes, p);
    var i :| 0 <= i < |outcomes| && outcomes[i] == Saved(p, Written(outcomes)[p]);
    assert Outcome(files[i]) == Saved(p, Written(outcomes)[p]);
  }

  /** A save stays written, with its matrix, unless a later outcome saves to the same path. */
  lemma {:induction false} WrittenByLastSave(outcomes: seq<FileOutcome>, i: nat)
    requires i < |outcomes| && outcomes[i].Saved?
    requires forall j :: i < j < |outcomes| ==> !(outcomes[j].Saved? && outcomes[j].output == outcomes[i].output)
    ensures outcomes[i].output in Written(outcomes) && Written(outcomes)[outcomes[i].output] == outcomes[i].labels
    decreases |outcomes|
  {
    var n := |outcomes| - 1;
    var before := outcomes[..n];
    assert outcomes == before + [outcomes[n]];
    WrittenStep(before, outcomes[n]);
    if i < n {
      assert forall j :: i < j < n ==> before[j] == outcomes[j];
      WrittenByLastSave(before, i);
    }
  }

  /**
    Every chart file with a chart has its label file written, holding its
    first chart padded, unless a later file of the walk writes to the same
    path.
   */
  lemma {:induction false} ChartFilesWritten(files: seq<ChartFile>, outcomes: seq<FileOutcome>, i: nat)
    requires |outcomes| == |files|
    requires forall k :: 0 <= k < |files| ==> outcomes[k] == Outcome(files[k])
    requires i < |files| && EndsWithIgnoreCase(FileName(files[i].path), ".tja") && Parse(files[i].lines) != []
    requires forall j :: i < j < |files| ==> !(Outcome(files[j]).Saved? && LabelPath(files[j].path) == LabelPath(files[i].path))
    ensures var p := LabelPath(files[i].path);
      p in Written(outcomes) && EncodeLabels(Parse(files[i].lines)[0].rows) == Some(Written(outcomes)[p])
  {
    FirstChartAlwaysSaved(files[i]);
    forall j | i < j < |outcomes|
      ensures !(outcomes[j].Saved? && outcomes[j].output == outcomes[i].output)
    {
      if outcomes[j].Saved? {
        assert outcomes[j].output == LabelPath(files[j].path);
      }
    }
    WrittenByLastSave(outcomes, i);
  }

  /** The body of `process_dataset_tja`'s loop for one walked file. */
  method ProcessFile(f: ChartFile) returns (outcome: FileOutcome)
    ensures outcome == Outcome(f)
  {
    if EndsWithIgnoreCase(FileName(f.path), ".tja") {
      var charts := ParseTjaFile(f.lines);
      if charts == [] {
        outcome := NoCharts;
      } else {
        var encoded := EncodeLabels(charts[0].rows);
        if encoded.Some? {
          outcome := Saved(LabelPath(f.path), encoded.value);
        } else {
          outcome := EmptyChart;
        }
      }
    } else {
      outcome := NotChart;
    }
  }

  /** The outcomes of the walked files, in walk order. */
  function Outcomes(files: seq<ChartFile>): (r: seq<FileOutcome>)
    ensures |r| == |files| && forall i :: 0 <= i < |files| ==> r[i] == Outcome(files[i])
  {
    seq(|files|, i requires 0 <= i < |files| => Outcome(files[i]))
  }

  /** Walking one more file appends its outcome. */
  lemma OutcomesStep(files: seq<ChartFile>, i: nat)
    requires i < |files|
    ensures Outcomes(files[..i + 1]) == Outcomes(files[..i]) + [Outcome(files[i])]
  {
    var a, b := Outcomes(files[..i + 1]), Outcomes(files[..i]) + [Outcome(files[i])];
    assert |a| == |b|;
    forall k | 0 <= k < |a|
      ensures a[k] == b[k]
    {
      if k < i {
        assert files[..i + 1][k] == files[..i][k];
      }
    }
  }

  /** `process_dataset_tja`: the loop over the walked files, writing one label matrix per saved chart. */
  method ProcessDataset(files: seq<ChartFile>) returns (written: map<seq<string>, Matrix>, outcomes: seq<FileOutcome>)
    ensures |outcomes| == |files|
    ensures forall i :: 0 <= i < |files| ==> outcomes[i] == Outcome(files[i])
    ensures written == Written(outcomes)
  {
    written := map[];
    outcomes := [];
    for i := 0 to |files|
      invariant outcomes == Outcomes(files[..i])
      invariant written == Written(outcomes)
    {
      var outcome := ProcessFile(files[i]);
      WrittenStep(outcomes, outcome);
      OutcomesStep(files, i);
      if outcome.Saved? {
        written := written[outcome.output := outcome.labels];
      }
      outcomes := outcomes + [outcome];
    }
    assert files[..|files|] == files;
  }
}
