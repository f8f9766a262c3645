/**
  The dataset audit of scripts/final-check.py: for every `.ogg` file it
  looks for a decodable `.wav` twin of about the same length, for every
  folder holding an `.ogg` it looks for a chart, and for every audio file a
  chart references it looks for a file of that name or one close to it.

  Paths are `/`-separated strings. The file system, the audio decoder and
  the fuzzy matcher are inputs: which paths are files, which files decode
  and to how many milliseconds, what a folder lists, what a chart file
  reads as (and after how many lines reading fails), and the ranked
  matches the fuzzy matcher returns.
 */
module FinalCheck {
  import opened Wrappers
  import opened Text

  /** `os.path.basename`: everything after the last `/`. */
  function Basename(p: string): (r: string)
    ensures |r| <= |p| && p[|p| - |r|..] == r
    ensures '/' !in r
    ensures r == p || (|r| < |p| && p[|p| - |r| - 1] == '/')
  {
    match LastIndexOf(p, '/')
    case Some(i) => p[i + 1..]
    case None => p
  }

  /** `s.rstrip('/')` */
  function TrimSlashes(s: string): string
  {
    if s != [] && s[|s| - 1] == '/' then TrimSlashes(s[..|s| - 1]) else s
  }

  /** `os.path.dirname`: up to the last `/`, without trailing slashes unless it is all slashes. */
  function DirName(p: string): string
  {
    match LastIndexOf(p, '/')
    case None => []
    case Some(i) =>
      var head := p[..i + 1];
      if exists k :: 0 <= k < |head| && head[k] != '/' then TrimSlashes(head) else head
  }

  /** `os.path.join(folder, name)` for a folder without a trailing slash splits back into the folder and the name. */
  lemma JoinSplitsBack(folder: string, name: string)
    requires folder != [] && folder[|folder| - 1] != '/' && '/' !in name
    ensures Basename(folder + "/" + name) == name
    ensures DirName(folder + "/" + name) == folder
  {
    var p := folder + "/" + name;
    var i := |folder|;
    assert p[i] == '/';
    assert forall k :: i < k < |p| ==> p[k] != '/' by {
      forall k | i < k < |p| ensures p[k] != '/' {
        assert p[k] == name[k - i - 1];
      }
    }
    assert LastIndexOf(p, '/') == Some(i);
    var head := p[..i + 1];
    assert head == folder + "/";
    assert head[i - 1] != '/';
    assert TrimSlashes(head) == folder by {
      assert head[..|head| - 1] == folder;
      assert TrimSlashes(folder) == folder;
    }
    assert DirName(p) == TrimSlashes(head);
  }

  /** Where the final component of a path begins: just after its last `/`. */
  function NameStart(p: string): (s: nat)
    ensures s <= |p| && '/' !in p[s..] && (s == 0 || p[s - 1] == '/')
  {
    match LastIndexOf(p, '/')
    case Some(i) => i + 1
    case None => 0
  }

  /**
    Where `os.path.splitext` cuts: at the last dot of the final component,
    provided something other than a dot precedes it in that component.
   */
  function ExtStart(p: string): (r: Option<nat>)
    ensures r.Some? ==> NameStart(p) <= r.value < |p| && p[r.value] == '.'
  {
    match LastIndexOf(p, '.')
    case None => None
    case Some(d) =>
      var nameStart := NameStart(p);
      if nameStart <= d && exists k :: nameStart <= k < d && p[k] != '.' then Some(d) else None
  }

  /**
    `splitext` cuts exactly at the last dot of the final component when a
    character other than a dot comes before it in that component, and does
    not cut at all when there is no such dot.
   */
  lemma ExtStartSpec(p: string)
    ensures var s := NameStart(p);
      match ExtStart(p)
      case Some(d) => s <= d < |p| && p[d] == '.' && '.' !in p[d + 1..] && exists k :: s <= k < d && p[k] != '.'
      case None => forall d :: s <= d < |p| && p[d] == '.' && '.' !in p[d + 1..] ==> forall k :: s <= k < d ==> p[k] == '.'
  {
    var s := NameStart(p);
    match LastIndexOf(p, '.')
    case None =>
    case Some(d0) =>
      assert forall k :: d0 < k < |p| ==> p[k] != '.';
      var cuts := s <= d0 && exists k :: s <= k < d0 && p[k] != '.';
      assert ExtStart(p) == if cuts then Some(d0) else None;
      if cuts {
        assert '.' !in p[d0 + 1..];
      } else {
        forall d | s <= d < |p| && p[d] == '.' && '.' !in p[d + 1..]
          ensures forall k :: s <= k < d ==> p[k] == '.'
        {
          forall k | d < k < |p|
            ensures p[k] != '.'
          {
            assert p[k] == p[d + 1..][k - d - 1];
          }
          assert d == d0;
        }
      }
  }

  /** `os.path.splitext(p)[0]`: the path, or the path cut before a dot of its final component. */
  function StripExt(p: string): (r: string)
    ensures r <= p
    ensures r == p || (|r| < |p| && p[|r|] == '.' && '/' !in p[|r|..])
  {
    match ExtStart(p)
    case Some(d) =>
      assert p[d..] == p[NameStart(p)..][d - NameStart(p)..];
      p[..d]
    case None => p
  }

  /** The `.wav` twin of an `.ogg` file: `os.path.splitext(ogg_path)[0] + ".wav"`. */
  function WavPathFor(ogg: string): string
  {
    StripExt(ogg) + ".wav"
  }

  /**
    For an `.ogg` file (any case) whose name has something other than dots
    before the suffix, the twin is the same path with `.wav` in place of the
    suffix.
   */
  lemma WavPathReplacesSuffix(p: string)
    requires EndsWithIgnoreCase(p, ".ogg") && exists k :: NameStart(p) <= k < |p| - 4 && p[k] != '.'
    ensures WavPathFor(p) == p[..|p| - 4] + ".wav"
  {
    var n := |p|;
    assert Lower(p)[n - 4..] == ".ogg";
    LowerAt(p, n - 4);
    LowerAt(p, n - 3);
    LowerAt(p, n - 2);
    LowerAt(p, n - 1);
    assert LowerChar(p[n - 4]) == '.' && LowerChar(p[n - 3]) == 'o' && LowerChar(p[n - 2]) == 'g' && LowerChar(p[n - 1]) == 'g';
    assert p[n - 4] == '.';
    assert forall k :: n - 4 < k < n ==> p[k] != '.';
    assert LastIndexOf(p, '.') == Some(n - 4);
    assert ExtStart(p) == Some(n - 4);
  }

  /** A file called just `.ogg` has no suffix to `splitext`, so its twin is looked for at `.ogg.wav`. */
  lemma WavPathOfBareSuffix()
    ensures WavPathFor("a/.ogg") == "a/.ogg.wav"
  {
    var p := "a/.ogg";
    assert p[2] == '.' && p[3] != '.' && p[4] != '.' && p[5] != '.';
    assert LastIndexOf(p, '.') == Some(2);
    assert p[1] == '/' && p[2] != '/' && p[3] != '/' && p[4] != '/' && p[5] != '/';
    assert LastIndexOf(p, '/') == Some(1);
    assert ExtStart(p) == None;
  }

  /** What the file system and the audio decoder report. */
  datatype FileSystem = FileSystem(
    isFile: set<string>,                 // `os.path.isfile`
    decoded: map<string, nat>,           // files `AudioSegment` decodes, with their length in milliseconds
    listdir: string -> seq<string>,      // `os.listdir` of a folder
    lines: string -> seq<string>,        // the lines of a text file
    readFailsAt: string -> Option<nat>)  // the line before which reading a file raises, if any

  /**
    `check_wav_for_ogg`: `(True, wav)` when the twin exists and decodes,
    `(False, wav)` when it exists but does not decode, `(False, None)` when
    it is not a file.
   */
  function CheckWavForOgg(ogg: string, fs: FileSystem): (r: (bool, Option<string>))
    ensures r.0 <==> WavPathFor(ogg) in fs.isFile && WavPathFor(ogg) in fs.decoded
    ensures r.1.None? <==> WavPathFor(ogg) !in fs.isFile
    ensures r.1.Some? ==> r.1.value == WavPathFor(ogg)
  {
    var wavPath := WavPathFor(ogg);
    if wavPath !in fs.isFile then (false, None)
    else if wavPath in fs.decoded then (true, Some(wavPath))
    else (false, Some(wavPath))
  }

  /** The `corrupted_wav` branch is dead: whenever the twin is found usable, its path comes with it. */
  lemma HasWavHasPath(ogg: string, fs: FileSystem)
    ensures CheckWavForOgg(ogg, fs).0 ==> CheckWavForOgg(ogg, fs).1 == Some(WavPathFor(ogg))
  {
  }

  /** The default `tolerance_ms` of `compare_durations`. */
  const ToleranceMs: nat := 50

  /**
    `compare_durations`: whether both files decode and their lengths differ
    by at most the tolerance, with the two lengths; `(False, 0, 0)` when
    either fails to decode.
   */
  function CompareDurations(ogg: string, wav: string, fs: FileSystem, tolerance: nat): (r: (bool, nat, nat))
    ensures r.0 <==> ogg in fs.decoded && wav in fs.decoded &&
                     -(tolerance as int) <= fs.decoded[ogg] - fs.decoded[wav] <= tolerance
    ensures !(ogg in fs.decoded && wav in fs.decoded) ==> r == (false, 0, 0)
    ensures ogg in fs.decoded && wav in fs.decoded ==> r.1 == fs.decoded[ogg] && r.2 == fs.decoded[wav]
  {
    if ogg in fs.decoded && wav in fs.decoded then
      var oggLen, wavLen := fs.decoded[ogg], fs.decoded[wav];
      var diff := if oggLen >= wavLen then oggLen - wavLen else wavLen - oggLen;
      (diff <= tolerance, oggLen, wavLen)
    else (false, 0, 0)
  }

  /** What the `.ogg` loop of `main` concludes about one file. */
  datatype OggVerdict =
    | WavMissing(wavPath: string)
    | DurationMismatch(ogg: string, wav: string, oggLen: nat, wavLen: nat)
    | Matching

  function Verdict(ogg: string, fs: FileSystem): OggVerdict
  {
    var (hasWav, wavPath) := CheckWavForOgg(ogg, fs);
    if !hasWav then WavMissing(WavPathFor(ogg))
    else
      var (ok, oggLen, wavLen) := CompareDurations(ogg, wavPath.value, fs, ToleranceMs);
      if !ok then DurationMismatch(ogg, wavPath.value, oggLen, wavLen) else Matching
  }

  /**
    The verdict on one `.ogg` file: its twin is reported missing exactly
    when it is not a file or does not decode (so an undecodable `.wav` is
    reported missing, never corrupted); otherwise the pair is a mismatch
    exactly when the `.ogg` does not decode or the lengths differ by more
    than the tolerance, with lengths 0 and 0 when the `.ogg` does not decode.
   */
  lemma VerdictCases(ogg: string, fs: FileSystem)
    ensures var w := WavPathFor(ogg);
      (Verdict(ogg, fs) == WavMissing(w) <==> w !in fs.isFile || w !in fs.decoded) &&
      (Verdict(ogg, fs).DurationMismatch? <==>
         w in fs.isFile && w in fs.decoded &&
         !(ogg in fs.decoded && -(ToleranceMs as int) <= fs.decoded[ogg] - fs.decoded[w] <= ToleranceMs)) &&
      (Verdict(ogg, fs).DurationMismatch? ==>
         Verdict(ogg, fs).ogg == ogg && Verdict(ogg, fs).wav == w &&
         (ogg !in fs.decoded ==> Verdict(ogg, fs).oggLen == 0 && Verdict(ogg, fs).wavLen == 0))
  {
  }

  /** `missing_wav` after the loop has seen some `.ogg` files. */
  function MissingWavs(oggs: seq<string>, fs: FileSystem): seq<string>
    decreases |oggs|
  {
    if oggs == [] then []
    else
      var n := |oggs| - 1;
      MissingWavs(oggs[..n], fs) + match Verdict(oggs[n], fs) case WavMissing(w) => [w] case _ => []
  }

  /** `duration_mismatches` after the loop has seen some `.ogg` files. */
  function Mismatches(oggs: seq<string>, fs: FileSystem): seq<(string, string, nat, nat)>
    decreases |oggs|
  {
    if oggs == [] then []
    else
      var n := |oggs| - 1;
      Mismatches(oggs[..n], fs) +
        match Verdict(oggs[n], fs) case DurationMismatch(o, w, ol, wl) => [(o, w, ol, wl)] case _ => []
  }

  /** Every twin listed missing comes from an `.ogg` file whose verdict says so. */
  lemma {:induction false} MissingWavsSound(oggs: seq<string>, fs: FileSystem, w: string)
    requires w in MissingWavs(oggs, fs)
    ensures exists o :: o in oggs && Verdict(o, fs) == WavMissing(w)
    decreases |oggs|
  {
    var n := |oggs| - 1;
    if w in MissingWavs(oggs[..n], fs) {
      MissingWavsSound(oggs[..n], fs, w);
      var o :| o in oggs[..n] && Verdict(o, fs) == WavMissing(w);
      assert o in oggs;
    } else {
      assert Verdict(oggs[n], fs) == WavMissing(w);
    }
  }

  /** Every `.ogg` file whose twin is unusable has that twin listed missing. */
  lemma {:induction false} MissingWavsComplete(oggs: seq<string>, fs: FileSystem, o: string)
    requires o in oggs && Verdict(o, fs).WavMissing?
    ensures Verdict(o, fs).wavPath in MissingWavs(oggs, fs)
    decreases |oggs|
  {
    var n := |oggs| - 1;
    if o != oggs[n] {
      var i :| 0 <= i < |oggs| && oggs[i] == o;
      assert oggs[..n][i] == o;
      MissingWavsComplete(oggs[..n], fs, o);
    }
  }

  /** Every listed mismatch is the verdict on one of the `.ogg` files. */
  lemma {:induction false} MismatchesSound(oggs: seq<string>, fs: FileSystem, m: (string, string, nat, nat))
    requires m in Mismatches(oggs, fs)
    ensures m.0 in oggs && Verdict(m.0, fs) == DurationMismatch(m.0, m.1, m.2, m.3)
    decreases |oggs|
  {
    var n := |oggs| - 1;
    if m in Mismatches(oggs[..n], fs) {
      MismatchesSound(oggs[..n], fs, m);
      var i :| 0 <= i < n && oggs[..n][i] == m.0;
      assert oggs[i] == m.0;
    } else {
      var v := Verdict(oggs[n], fs);
      VerdictCases(oggs[n], fs);
      assert v.DurationMismatch? && m == (v.ogg, v.wav, v.oggLen, v.wavLen);
    }
  }

  /** Every `.ogg` file whose verdict is a mismatch has it listed. */
  lemma {:induction false} MismatchesComplete(oggs: seq<string>, fs: FileSystem, m: (string, string, nat, nat))
    requires m.0 in oggs && Verdict(m.0, fs) == DurationMismatch(m.0, m.1, m.2, m.3)
    ensures m in Mismatches(oggs, fs)
    decreases |oggs|
  {
    var n := |oggs| - 1;
    if m.0 != oggs[n] {
      var i :| 0 <= i < |oggs| && oggs[i] == m.0;
      assert oggs[..n][i] == m.0;
      MismatchesComplete(oggs[..n], fs, m);
    } else {
      assert Mismatches(oggs, fs) == Mismatches(oggs[..n], fs) + [m];
    }
  }

  /** A mismatch is listed exactly when some `.ogg` file's verdict is that mismatch. */
  lemma MismatchesExactly(oggs: seq<string>, fs: FileSystem, m: (string, string, nat, nat))
    ensures m in Mismatches(oggs, fs) <==> m.0 in oggs && Verdict(m.0, fs) == DurationMismatch(m.0, m.1, m.2, m.3)
  {
    if m in Mismatches(oggs, fs) {
      MismatchesSound(oggs, fs, m);
    }
    if m.0 in oggs && Verdict(m.0, fs) == DurationMismatch(m.0, m.1, m.2, m.3) {
      MismatchesComplete(oggs, fs, m);
    }
  }

  /**
    The `.ogg` loop of `main`. The `wav_path is None` branch that would fill
    `corrupted_wav` is never taken, so that list stays empty.
   */
  method CheckOggs(oggs: seq<string>, fs: FileSystem)
    returns (missingWav: seq<string>, corruptedWav: seq<Option<string>>, durationMismatches: seq<(string, string, nat, nat)>)
    ensures missingWav == MissingWavs(oggs, fs)
    ensures corruptedWav == []
    ensures durationMismatches == Mismatches(oggs, fs)
  {
    missingWav, corruptedWav, durationMismatches := [], [], [];
    for i := 0 to |oggs|
      invariant missingWav == MissingWavs(oggs[..i], fs)
      invariant corruptedWav == []
      invariant durationMismatches == Mismatches(oggs[..i], fs)
    {
      assert oggs[..i + 1][..i] == oggs[..i];
      var oggPath := oggs[i];
      var (hasWav, wavPath) := CheckWavForOgg(oggPath, fs);
      if !hasWav {
        missingWav := missingWav + [WavPathFor(oggPath)];
        continue;
      }
      if wavPath.None? {
        assert false;
      }
      var (ok, oggLen, wavLen) := CompareDurations(oggPath, wavPath.value, fs, ToleranceMs);
      if !ok {
        durationMismatches := durationMismatches + [(oggPath, wavPath.value, oggLen, wavLen)];
      }
    }
    assert oggs[..|oggs|] == oggs;
  }

  /** A folder listing holds a chart: some entry ends in `.tja`, in any case. */
  predicate HasChart(entries: seq<string>)
  {
    exists i :: 0 <= i < |entries| && EndsWithIgnoreCase(entries[i], ".tja")
  }

  /** `check_tja_for_folder`, on the folder's listing. */
  method CheckTjaForFolder(entries: seq<string>) returns (found: bool)
    ensures found <==> HasChart(entries)
  {
    for i := 0 to |entries|
      invariant forall k :: 0 <= k < i ==> !EndsWithIgnoreCase(entries[k], ".tja")
    {
      if EndsWithIgnoreCase(entries[i], ".tja") {
        return true;
      }
    }
    return false;
  }

  /** `missing_tja`: the folders holding an `.ogg` file whose listing has no chart. */
  function FoldersMissingTja(oggs: seq<string>, fs: FileSystem): set<string>
  {
    set o | o in oggs && !HasChart(fs.listdir(DirName(o))) :: DirName(o)
  }

  /** The folders among `folders` whose listing holds no chart. */
  function MissingAmong(folders: set<string>, fs: FileSystem): set<string>
  {
    set d | d in folders && !HasChart(fs.listdir(d))
  }

  /** Checking one more folder adds it to the result exactly when it has no chart. */
  lemma MissingAmongAdd(done: set<string>, folder: string, fs: FileSystem)
    ensures MissingAmong(done + {folder}, fs) ==
            MissingAmong(done, fs) + (if HasChart(fs.listdir(folder)) then {} else {folder})
  {
  }

  /** `set(os.path.dirname(f) for f in ogg_files)` */
  function SongFolders(oggs: seq<string>): set<string>
  {
    set o | o in oggs :: DirName(o)
  }

  /** The folders missing a chart, read off the set of song folders. */
  lemma FoldersMissingTjaAmong(oggs: seq<string>, fs: FileSystem)
    ensures FoldersMissingTja(oggs, fs) == MissingAmong(SongFolders(oggs), fs)
  {
    var folders := SongFolders(oggs);
    forall d | d in MissingAmong(folders, fs)
      ensures d in FoldersMissingTja(oggs, fs)
    {
      var o :| o in oggs && DirName(o) == d;
    }
  }

  /**
    The folder loop of `main`, over `set(os.path.dirname(f) for f in
    ogg_files)`: every folder holding an `.ogg` file is checked once, and
    those without a chart are collected.
   */
  method CheckFolders(oggs: seq<string>, fs: FileSystem) returns (missingTja: set<string>)
    ensures missingTja == FoldersMissingTja(oggs, fs)
  {
    var songFolders := SongFolders(oggs);
    var remaining := songFolders;
    missingTja := {};
    while remaining != {}
      invariant remaining <= songFolders
      invariant missingTja == MissingAmong(songFolders - remaining, fs)
      decreases |remaining|
    {
      var folder :| folder in remaining;
      var hasTja := CheckTjaForFolder(fs.listdir(folder));
      MissingAmongAdd(songFolders - remaining, folder, fs);
      assert songFolders - (remaining - {folder}) == (songFolders - remaining) + {folder};
      if !hasTja {
        missingTja := missingTja + {folder};
      }
      remaining := remaining - {folder};
    }
    assert songFolders - remaining == songFolders;
    FoldersMissingTjaAmong(oggs, fs);
  }

  /** The fuzzy matcher's default `threshold`. */
  const Threshold: nat := 80

  /** The first ranked match scoring at least `threshold`, as `fuzzy_find_audio_for_tja` returns it. */
  function FirstMatch(matches: seq<(string, nat)>, threshold: nat): Option<string>
    decreases |matches|
  {
    if matches == [] then None
    else if matches[0].1 >= threshold then Some(matches[0].0)
    else FirstMatch(matches[1..], threshold)
  }

  /**
    The matcher's answer is `None` exactly when no match reaches the
    threshold, and otherwise the name of the best-ranked one that does.
   */
  lemma {:induction false} FirstMatchSpec(matches: seq<(string, nat)>, threshold: nat)
    ensures var r := FirstMatch(matches, threshold);
      (r.None? <==> forall k :: 0 <= k < |matches| ==> matches[k].1 < threshold) &&
      (r.Some? ==> exists i :: 0 <= i < |matches| && matches[i].0 == r.value && matches[i].1 >= threshold &&
                              forall k :: 0 <= k < i ==> matches[k].1 < threshold)
    decreases |matches|
  {
    if matches != [] && matches[0].1 < threshold {
      var tail := matches[1..];
      FirstMatchSpec(tail, threshold);
      var r := FirstMatch(tail, threshold);
      assert FirstMatch(matches, threshold) == r;
      forall k | 0 < k < |matches|
        ensures matches[k] == tail[k - 1]
      {
      }
      if r.Some? {
        var i :| 0 <= i < |tail| && tail[i].0 == r.value && tail[i].1 >= threshold &&
                 forall k :: 0 <= k < i ==> tail[k].1 < threshold;
        assert matches[i + 1].0 == r.value && matches[i + 1].1 >= threshold;
      }
    }
  }

  /** `fuzzy_find_audio_for_tja`'s loop over the matches `process.extract` ranked. */
  method FuzzyFind(matches: seq<(string, nat)>, threshold: nat) returns (found: Option<string>)
    ensures found == FirstMatch(matches, threshold)
  {
    for i := 0 to |matches|
      invariant forall k :: 0 <= k < i ==> matches[k].1 < threshold
      invariant FirstMatch(matches, threshold) == FirstMatch(matches[i..], threshold)
    {
      assert matches[i..][1..] == matches[i + 1..];
      var (matchName, score) := matches[i];
      if score >= threshold {
        return Some(matchName);
      }
    }
    return None;
  }

  /** The audio file a chart line names, as `parse_tja_for_audio_references` reads it, if any. */
  function RefOfLine(raw: string): (r: Option<string>)
  {
    var line := Strip(raw);
    if StartsWith(line, "WAVE:") then
      var waveFile := Strip(line[5..]);
      if waveFile != [] then Some(waveFile) else None
    else if StartsWith(line, "#NEXTSONG") then
      var parts := Split(line, ',');
      if |parts| >= 4 then
        var waveFile := Strip(parts[3]);
        if EndsWithIgnoreCase(waveFile, ".ogg") || EndsWithIgnoreCase(waveFile, ".wav") then Some(waveFile) else None
      else None
    else None
  }

  /** How many lines are read before reading fails, if it does. */
  function Readable(lines: seq<string>, failAt: Option<nat>): (k: nat)
    ensures k <= |lines|
  {
    match failAt
    case Some(f) => if f < |lines| then f else |lines|
    case None => |lines|
  }

  /** The references named by the first `n` lines; a name given twice is kept once. */
  function RefsUpTo(lines: seq<string>, n: nat): set<string>
    requires n <= |lines|
  {
    if n == 0 then {}
    else RefsUpTo(lines, n - 1) + match RefOfLine(lines[n - 1]) case Some(r) => {r} case None => {}
  }

  /** The references of the lines read before any failure. */
  function RefsIn(lines: seq<string>, failAt: Option<nat>): set<string>
  {
    RefsUpTo(lines, Readable(lines, failAt))
  }

  /** Every reference collected from the first `n` lines is named by one of them. */
  lemma {:induction false} RefsUpToSound(lines: seq<string>, n: nat, r: string)
    requires n <= |lines| && r in RefsUpTo(lines, n)
    ensures exists i :: 0 <= i < n && RefOfLine(lines[i]) == Some(r)
  {
    if RefOfLine(lines[n - 1]) == Some(r) {
      assert 0 <= n - 1 < n;
    } else {
      RefsUpToSound(lines, n - 1, r);
      var i :| 0 <= i < n - 1 && RefOfLine(lines[i]) == Some(r);
      assert 0 <= i < n;
    }
  }

  /** Every reference named by one of the first `n` lines is collected. */
  lemma {:induction false} RefsUpToComplete(lines: seq<string>, n: nat, i: nat)
    requires i < n <= |lines| && RefOfLine(lines[i]).Some?
    ensures RefOfLine(lines[i]).value in RefsUpTo(lines, n)
  {
    if i < n - 1 {
      RefsUpToComplete(lines, n - 1, i);
    }
  }

  /** A reference is collected exactly when one of the lines read before any failure names it. */
  lemma RefsInExactly(lines: seq<string>, failAt: Option<nat>, r: string)
    ensures r in RefsIn(lines, failAt) <==> exists i :: 0 <= i < Readable(lines, failAt) && RefOfLine(lines[i]) == Some(r)
  {
    var k := Readable(lines, failAt);
    if r in RefsIn(lines, failAt) {
      RefsUpToSound(lines, k, r);
    }
    if exists i :: 0 <= i < k && RefOfLine(lines[i]) == Some(r) {
      var i :| 0 <= i < k && RefOfLine(lines[i]) == Some(r);
      RefsUpToComplete(lines, k, i);
    }
  }

  /**
    Only the two kinds of line name audio: a `WAVE:` line names whatever
    non-empty name follows it, a `#NEXTSONG` line only an `.ogg` or `.wav`
    file, in any case.
   */
  lemma RefOfLineKinds(raw: string)
    ensures var r := RefOfLine(raw);
      (r.Some? ==> r.value != []) &&
      (r.Some? && !StartsWith(Strip(raw), "WAVE:") ==>
         StartsWith(Strip(raw), "#NEXTSONG") && (EndsWithIgnoreCase(r.value, ".ogg") || EndsWithIgnoreCase(r.value, ".wav"))) &&
      (!StartsWith(Strip(raw), "WAVE:") && !StartsWith(Strip(raw), "#NEXTSONG") ==> r.None?)
  {
  }

  /** A reference is never padded with whitespace: both kinds of line strip what they take. */
  lemma RefIsStripped(raw: string)
    requires RefOfLine(raw).Some?
    ensures Strip(RefOfLine(raw).value) == RefOfLine(raw).value
  {
    var line := Strip(raw);
    var r := RefOfLine(raw).value;
    if StartsWith(line, "WAVE:") {
      StripSpec(line[5..]);
    } else {
      StripSpec(Split(line, ',')[3]);
    }
    StripSpec(r);
  }

  /**
    `parse_tja_for_audio_references` on a chart file: the set of references
    of its lines. A read that fails ends the loop, and the `except` branch
    returns the set collected so far, so only the lines before the failing
    one count.
   */
  method ParseAudioReferences(lines: seq<string>, failAt: Option<nat>) returns (audioFiles: set<string>)
    ensures audioFiles == RefsIn(lines, failAt)
  {
    var readable := Readable(lines, failAt);
    audioFiles := {};
    for i := 0 to readable
      invariant audioFiles == RefsUpTo(lines, i)
    {
      audioFiles := AddRef(audioFiles, lines[i]);
    }
  }

  /** One line of `parse_tja_for_audio_references`: its reference, if it names one, joins the set. */
  method AddRef(audioFiles: set<string>, raw: string) returns (audioFiles': set<string>)
    ensures audioFiles' == audioFiles + match RefOfLine(raw) case Some(r) => {r} case None => {}
  {
    audioFiles' := audioFiles;
    var waveFile := RefOfLine(raw);
    if waveFile.Some? {
      audioFiles' := audioFiles + {waveFile.value};
    }
  }

  /** `process.extract(ref, all_audio_files)`: the matcher's ranked (name, score) pairs. */
  type Extractor = (string, seq<string>) -> seq<(string, nat)>

  /** A reference counts as missing: no file has exactly that name, and the matcher finds nothing (or an empty name). */
  predicate Unmatched(ref: string, allAudio: seq<string>, extract: Extractor)
  {
    ref !in allAudio &&
    var m := FirstMatch(extract(ref, allAudio), Threshold);
    m.None? || m.value == []
  }

  /** `fuzzy_missing_audio`, as a set: each chart file with each of its unmatched references. */
  function UnmatchedRefs(tjas: seq<string>, allAudio: seq<string>, fs: FileSystem, extract: Extractor): set<(string, string)>
  {
    set t, r | t in tjas && r in RefsIn(fs.lines(t), fs.readFailsAt(t)) && Unmatched(r, allAudio, extract) :: (t, r)
  }

  /** A reference reported missing is never the exact name of a found audio file. */
  lemma ExactNameNeverMissing(tjas: seq<string>, allAudio: seq<string>, fs: FileSystem, extract: Extractor, t: string, r: string)
    requires (t, r) in UnmatchedRefs(tjas, allAudio, fs, extract)
    ensures r !in allAudio && t in tjas
    ensures var m := FirstMatch(extract(r, allAudio), Threshold); m.None? || m.value == []
  {
  }

  /** The references among `refs` that count as missing, each paired with the chart file naming it. */
  function UnmatchedAmong(tjaPath: string, refs: set<string>, allAudio: seq<string>, extract: Extractor): set<(string, string)>
  {
    set r | r in refs && Unmatched(r, allAudio, extract) :: (tjaPath, r)
  }

  /** Checking one more reference adds it exactly when it counts as missing. */
  lemma UnmatchedAmongAdd(tjaPath: string, done: set<string>, ref: string, allAudio: seq<string>, extract: Extractor)
    ensures UnmatchedAmong(tjaPath, done + {ref}, allAudio, extract) ==
            UnmatchedAmong(tjaPath, done, allAudio, extract) + (if Unmatched(ref, allAudio, extract) then {(tjaPath, ref)} else {})
  {
  }

  /** The inner loop of the reference check, over one chart file's references. */
  method UnmatchedInChart(tjaPath: string, audioRefs: set<string>, allAudio: seq<string>, extract: Extractor)
    returns (missing: set<(string, string)>)
    ensures missing == UnmatchedAmong(tjaPath, audioRefs, allAudio, extract)
  {
    missing := {};
    var remaining := audioRefs;
    while remaining != {}
      invariant remaining <= audioRefs
      invariant missing == UnmatchedAmong(tjaPath, audioRefs - remaining, allAudio, extract)
      decreases |remaining|
    {
      var ref :| ref in remaining;
      UnmatchedAmongAdd(tjaPath, audioRefs - remaining, ref, allAudio, extract);
      assert audioRefs - (remaining - {ref}) == (audioRefs - remaining) + {ref};
      if ref !in allAudio {
        var found := FuzzyFind(extract(ref, allAudio), Threshold);
        if found.None? || found.value == [] {
          missing := missing + {(tjaPath, ref)};
        }
      }
      remaining := remaining - {ref};
    }
    assert audioRefs - remaining == audioRefs;
  }

  /** The reference loop of `main`, over the chart files. */
  method CheckReferences(tjas: seq<string>, allAudio: seq<string>, fs: FileSystem, extract: Extractor)
    returns (fuzzyMissing: set<(string, string)>)
    ensures fuzzyMissing == UnmatchedRefs(tjas, allAudio, fs, extract)
  {
    fuzzyMissing := {};
    for i := 0 to |tjas|
      invariant fuzzyMissing == UnmatchedRefs(tjas[..i], allAudio, fs, extract)
    {
      var tjaPath := tjas[i];
      var audioRefs := ParseAudioReferences(fs.lines(tjaPath), fs.readFailsAt(tjaPath));
      var missing := UnmatchedInChart(tjaPath, audioRefs, allAudio, extract);
      assert UnmatchedRefs(tjas[..i + 1], allAudio, fs, extract) == fuzzyMissing + missing by {
        assert forall t :: t in tjas[..i + 1] <==> t in tjas[..i] || t == tjaPath;
      }
      fuzzyMissing := fuzzyMissing + missing;
    }
    assert tjas[..|tjas|] == tjas;
  }

  /** `f.lower().endswith(ext.lower())` on the file's name. */
  predicate HasExt(p: string, ext: string)
  {
    EndsWithIgnoreCase(Basename(p), Lower(ext))
  }

  /** The walked files whose name ends in `ext`, in any case, in walk order. */
  function WithExt(paths: seq<string>, ext: string): (r: seq<string>)
    ensures |r| <= |paths|
    decreases |paths|
  {
    if paths == [] then []
    else
      var n := |paths| - 1;
      WithExt(paths[..n], ext) + (if HasExt(paths[n], ext) then [paths[n]] else [])
  }

  /** Every file found is a walked file whose name ends in the extension, whatever the case. */
  lemma {:induction false} WithExtSound(paths: seq<string>, ext: string, p: string)
    requires p in WithExt(paths, ext)
    ensures p in paths && HasExt(p, ext)
    decreases |paths|
  {
    var n := |paths| - 1;
    var prev := WithExt(paths[..n], ext);
    var last := if HasExt(paths[n], ext) then [paths[n]] else [];
    assert WithExt(paths, ext) == prev + last;
    if p in prev {
      WithExtSound(paths[..n], ext, p);
      var i :| 0 <= i < n && paths[..n][i] == p;
      assert paths[i] == p;
    } else {
      assert p in last;
      assert p == paths[n];
    }
  }

  /** Every walked file whose name ends in the extension, whatever the case, is found. */
  lemma {:induction false} WithExtComplete(paths: seq<string>, ext: string, p: string)
    requires p in paths && HasExt(p, ext)
    ensures p in WithExt(paths, ext)
    decreases |paths|
  {
    var n := |paths| - 1;
    var prev := WithExt(paths[..n], ext);
    if p == paths[n] {
      assert WithExt(paths, ext) == prev + [p];
    } else {
      var i :| 0 <= i < |paths| && paths[i] == p;
      assert paths[..n][i] == p;
      WithExtComplete(paths[..n], ext, p);
      assert WithExt(paths, ext)[..|prev|] == prev;
    }
  }

  /** One more walked file is appended exactly when its name ends in the extension. */
  lemma WithExtStep(paths: seq<string>, ext: string, i: nat)
    requires i < |paths|
    ensures WithExt(paths[..i + 1], ext) == WithExt(paths[..i], ext) + if HasExt(paths[i], ext) then [paths[i]] else []
  {
    assert paths[..i + 1][..i] == paths[..i];
  }

  /** `find_files_with_ext`, over the files of the walk. */
  method FindFilesWithExt(walked: seq<string>, ext: string) returns (result: seq<string>)
    ensures result == WithExt(walked, ext)
  {
    result := [];
    for i := 0 to |walked|
      invariant result == WithExt(walked[..i], ext)
    {
      WithExtStep(walked, ext, i);
      if HasExt(walked[i], ext) {
        result := result + [walked[i]];
      }
    }
    assert walked[..|walked|] == walked;
  }

  /** `[os.path.basename(f) for f in files]` */
  function Basenames(paths: seq<string>): (r: seq<string>)
    ensures |r| == |paths| && forall i :: 0 <= i < |paths| ==> r[i] == Basename(paths[i])
  {
    seq(|paths|, i requires 0 <= i < |paths| => Basename(paths[i]))
  }

  /** The five lists `main` reports. */
  datatype Report = Report(
    missingWav: seq<string>,
    corruptedWav: seq<Option<string>>,
    durationMismatches: seq<(string, string, nat, nat)>,
    missingTja: set<string>,
    fuzzyMissingAudio: set<(string, string)>)

  /**
    `main(dataset_root)`, over the files of the walk: every list of the
    report is what its loop computes from the `.ogg`, `.wav` and `.tja`
    files found.
   */
  method CheckDataset(walked: seq<string>, fs: FileSystem, extract: Extractor) returns (report: Report)
    ensures var oggs, wavs, tjas := WithExt(walked, ".ogg"), WithExt(walked, ".wav"), WithExt(walked, ".tja");
      report.missingWav == MissingWavs(oggs, fs) &&
      report.corruptedWav == [] &&
      report.durationMismatches == Mismatches(oggs, fs) &&
      report.missingTja == FoldersMissingTja(oggs, fs) &&
      report.fuzzyMissingAudio == UnmatchedRefs(tjas, Basenames(oggs + wavs), fs, extract)
  {
    var oggFiles := FindFilesWithExt(walked, ".ogg");
    var wavFiles := FindFilesWithExt(walked, ".wav");
    var tjaFiles := FindFilesWithExt(walked, ".tja");
    var missingWav, corruptedWav, durationMismatches := CheckOggs(oggFiles, fs);
    var missingTja := CheckFolders(oggFiles, fs);
    var allAudioFiles := Basenames(oggFiles + wavFiles);
    var fuzzyMissingAudio := CheckReferences(tjaFiles, allAudioFiles, fs, extract);
    report := Report(missingWav, corruptedWav, durationMismatches, missingTja, fuzzyMissingAudio);
  }
}
