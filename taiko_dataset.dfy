/**
  The training data of model/taiko_dataset.py: `TaikoDataset` pairs every
  mel-feature file (`.pt`) found under the feature root with the label file
  at the same relative path under the label root, dropping features without
  a label; `pad_collate` zero-pads a batch of (feature, label) tensors to
  common shapes and stacks them.

  Paths are sequences of components. The directory walk is its list of
  files, each relative to the feature root, in walk order; the label files
  that exist are a set of paths. Loading a tensor from disk is not modelled:
  an item is the pair of paths it would load.
 */
module TaikoDatasets {
  import opened Wrappers
  import opened Text
  import opened Matrices

  type Path = seq<string>

  /** `file.endswith(".pt")`, case-sensitive. */
  predicate IsFeatureFile(p: Path)
  {
    EndsWith(FileName(p), ".pt")
  }

  /** `os.path.relpath(path, root)` for a path under `root`. */
  function RelPath(path: Path, root: Path): (r: Path)
    requires root <= path
    ensures root + r == path
  {
    path[|root|..]
  }

  /** The label file a feature file is matched with: the label root joined with the feature's path relative to the feature root. */
  function LabelFor(audioRoot: Path, labelRoot: Path, audioPath: Path): Path
    requires audioRoot <= audioPath
  {
    labelRoot + RelPath(audioPath, audioRoot)
  }

  /**
    The dataset's pairs in one pass over the walk: every feature file whose
    label exists, as (feature path, label path), in walk order. This is the
    reference the three passes of `__init__` are proved against.
   */
  function Pairs(audioRoot: Path, labelRoot: Path, walked: seq<Path>, existing: set<Path>): seq<(Path, Path)>
    decreases |walked|
  {
    if walked == [] then []
    else
      var p := walked[|walked| - 1];
      Pairs(audioRoot, labelRoot, walked[..|walked| - 1], existing) +
        (if IsFeatureFile(p) && labelRoot + p in existing then [(audioRoot + p, labelRoot + p)] else [])
  }

  /** First pass: the feature files of the walk, joined to the feature root. */
  function Discovered(audioRoot: Path, walked: seq<Path>): (r: seq<Path>)
    ensures forall k :: 0 <= k < |r| ==> audioRoot <= r[k]
    decreases |walked|
  {
    if walked == [] then []
    else
      var p := walked[|walked| - 1];
      Discovered(audioRoot, walked[..|walked| - 1]) + (if IsFeatureFile(p) then [audioRoot + p] else [])
  }

  /** Second pass: for each feature file, its label path if that file exists, `None` otherwise. */
  function Candidates(audioRoot: Path, labelRoot: Path, audioFiles: seq<Path>, existing: set<Path>): (r: seq<Option<Path>>)
    requires forall k :: 0 <= k < |audioFiles| ==> audioRoot <= audioFiles[k]
    ensures |r| == |audioFiles|
    ensures forall k :: 0 <= k < |r| ==>
              r[k] == (var l := LabelFor(audioRoot, labelRoot, audioFiles[k]); if l in existing then Some(l) else None)
  {
    seq(|audioFiles|, k requires 0 <= k < |audioFiles| =>
      var l := LabelFor(audioRoot, labelRoot, audioFiles[k]); if l in existing then Some(l) else None)
  }

  /** Third pass: the pairs whose label is not `None`, in order. */
  function KeepPaired(audioFiles: seq<Path>, labels: seq<Option<Path>>): seq<(Path, Path)>
    requires |audioFiles| == |labels|
    decreases |audioFiles|
  {
    if audioFiles == [] then []
    else
      var n := |audioFiles| - 1;
      KeepPaired(audioFiles[..n], labels[..n]) + (if labels[n].Some? then [(audioFiles[n], labels[n].value)] else [])
  }

  /** The three passes of `__init__` compute exactly the one-pass pairs. */
  lemma {:induction false} PassesComputePairs(audioRoot: Path, labelRoot: Path, walked: seq<Path>, existing: set<Path>)
    ensures var found := Discovered(audioRoot, walked);
      KeepPaired(found, Candidates(audioRoot, labelRoot, found, existing)) == Pairs(audioRoot, labelRoot, walked, existing)
    decreases |walked|
  {
    if walked != [] {
      var w := walked[..|walked| - 1];
      var p := walked[|walked| - 1];
      PassesComputePairs(audioRoot, labelRoot, w, existing);
      var found := Discovered(audioRoot, w);
      var c := Candidates(audioRoot, labelRoot, found, existing);
      if IsFeatureFile(p) {
        var found' := found + [audioRoot + p];
        var c' := Candidates(audioRoot, labelRoot, found', existing);
        assert Discovered(audioRoot, walked) == found';
        assert found'[..|found|] == found;
        assert c'[..|found|] == c;
        assert LabelFor(audioRoot, labelRoot, audioRoot + p) == labelRoot + p;
        assert KeepPaired(found', c') == KeepPaired(found, c) +
          (if c'[|found|].Some? then [(found'[|found|], c'[|found|].value)] else []);
      } else {
        assert Discovered(audioRoot, walked) == found;
      }
    }
  }

  /** Walking more files only appends pairs: the pairs of a walk are those of its first part followed by those of the rest. */
  lemma {:induction false} PairsAppend(audioRoot: Path, labelRoot: Path, w1: seq<Path>, w2: seq<Path>, existing: set<Path>)
    ensures Pairs(audioRoot, labelRoot, w1 + w2, existing) ==
            Pairs(audioRoot, labelRoot, w1, existing) + Pairs(audioRoot, labelRoot, w2, existing)
    decreases |w2|
  {
    if w2 == [] {
      assert w1 + w2 == w1;
    } else {
      var n := |w2| - 1;
      assert (w1 + w2)[..|w1 + w2| - 1] == w1 + w2[..n];
      PairsAppend(audioRoot, labelRoot, w1, w2[..n], existing);
    }
  }

  /** Every kept pair is a feature file of the walk whose label exists, joined to the two roots. */
  lemma {:induction false} PairsSound(audioRoot: Path, labelRoot: Path, walked: seq<Path>, existing: set<Path>, a: Path, l: Path)
    requires (a, l) in Pairs(audioRoot, labelRoot, walked, existing)
    ensures exists p :: p in walked && IsFeatureFile(p) && labelRoot + p in existing && a == audioRoot + p && l == labelRoot + p
    decreases |walked|
  {
    var n := |walked| - 1;
    var p := walked[n];
    if (a, l) in Pairs(audioRoot, labelRoot, walked[..n], existing) {
      PairsSound(audioRoot, labelRoot, walked[..n], existing, a, l);
      var q :| q in walked[..n] && IsFeatureFile(q) && labelRoot + q in existing && a == audioRoot + q && l == labelRoot + q;
      assert q in walked;
    } else {
      assert p in walked && IsFeatureFile(p) && labelRoot + p in existing && a == audioRoot + p && l == labelRoot + p;
    }
  }

  /** Every feature file of the walk whose label exists is kept, joined to the two roots. */
  lemma {:induction false} PairsComplete(audioRoot: Path, labelRoot: Path, walked: seq<Path>, existing: set<Path>, p: Path)
    requires p in walked && IsFeatureFile(p) && labelRoot + p in existing
    ensures (audioRoot + p, labelRoot + p) in Pairs(audioRoot, labelRoot, walked, existing)
    decreases |walked|
  {
    var n := |walked| - 1;
    if walked[n] != p {
      assert p in walked[..n] by {
        var i :| 0 <= i < |walked| && walked[i] == p;
        assert i < n && walked[..n][i] == p;
      }
      PairsComplete(audioRoot, labelRoot, walked[..n], existing, p);
    }
  }

  /** Features `a/x.pt`, `a/y.pt`, `b/z.pt` with labels only for `a/x.pt` and `b/z.pt` give two pairs, in walk order. */
  lemma PairsExample(audioRoot: Path, labelRoot: Path)
    ensures var x, y, z := ["a", "x.pt"], ["a", "y.pt"], ["b", "z.pt"];
      Pairs(audioRoot, labelRoot, [x, y, z], {labelRoot + x, labelRoot + z}) ==
        [(audioRoot + x, labelRoot + x), (audioRoot + z, labelRoot + z)]
  {
    var x, y, z: Path := ["a", "x.pt"], ["a", "y.pt"], ["b", "z.pt"];
    var existing := {labelRoot + x, labelRoot + z};
    assert labelRoot + y !in existing by {
      assert (labelRoot + y)[|labelRoot| + 1] != (labelRoot + x)[|labelRoot| + 1];
      assert (labelRoot + y)[|labelRoot|] != (labelRoot + z)[|labelRoot|];
    }
    assert IsFeatureFile(x) && IsFeatureFile(z) by {
      assert FileName(x) == "x.pt" && FileName(z) == "z.pt";
    }
    assert Pairs(audioRoot, labelRoot, [x], existing) == [(audioRoot + x, labelRoot + x)] by {
      assert [x][..0] == [];
    }
    assert Pairs(audioRoot, labelRoot, [x, y], existing) == [(audioRoot + x, labelRoot + x)] by {
      assert [x, y][..1] == [x];
    }
    assert [x, y, z][..2] == [x, y];
  }

  /** Every kept pair is aligned: its label is the feature's label path. */
  lemma {:induction false} KeepPairedAligned(audioRoot: Path, labelRoot: Path, audioFiles: seq<Path>, existing: set<Path>)
    requires forall k :: 0 <= k < |audioFiles| ==> audioRoot <= audioFiles[k]
    ensures var pairs := KeepPaired(audioFiles, Candidates(audioRoot, labelRoot, audioFiles, existing));
      forall k :: 0 <= k < |pairs| ==> audioRoot <= pairs[k].0 && pairs[k].1 == LabelFor(audioRoot, labelRoot, pairs[k].0)
    decreases |audioFiles|
  {
    if audioFiles != [] {
      var n := |audioFiles| - 1;
      var c := Candidates(audioRoot, labelRoot, audioFiles, existing);
      assert c[..n] == Candidates(audioRoot, labelRoot, audioFiles[..n], existing);
      KeepPairedAligned(audioRoot, labelRoot, audioFiles[..n], existing);
      assert KeepPaired(audioFiles, c) == KeepPaired(audioFiles[..n], c[..n]) +
        (if c[n].Some? then [(audioFiles[n], c[n].value)] else []);
      var prev := KeepPaired(audioFiles[..n], c[..n]);
      var pairs := KeepPaired(audioFiles, c);
      forall k | 0 <= k < |pairs|
        ensures audioRoot <= pairs[k].0 && pairs[k].1 == LabelFor(audioRoot, labelRoot, pairs[k].0)
      {
        if k < |prev| {
          assert pairs[k] == prev[k];
          assert audioRoot <= prev[k].0 && prev[k].1 == LabelFor(audioRoot, labelRoot, prev[k].0);
        } else {
          assert c[n].Some? && pairs[k] == (audioFiles[n], c[n].value);
          assert c[n].value == LabelFor(audioRoot, labelRoot, audioFiles[n]);
        }
      }
    }
  }

  /** The first pass of `__init__`: the `.pt` files of the walk, joined to the feature root. */
  method FindFeatures(audioRoot: Path, walked: seq<Path>) returns (audioFiles: seq<Path>)
    ensures audioFiles == Discovered(audioRoot, walked)
  {
    audioFiles := [];
    for i := 0 to |walked|
      invariant audioFiles == Discovered(audioRoot, walked[..i])
    {
      assert walked[..i + 1][..i] == walked[..i];
      if IsFeatureFile(walked[i]) {
        audioFiles := audioFiles + [audioRoot + walked[i]];
      }
    }
    assert walked[..|walked|] == walked;
  }

  /** The second pass: each feature's label path where that file exists, `None` where it does not. */
  method FindLabels(audioRoot: Path, labelRoot: Path, audioFiles: seq<Path>, existing: set<Path>)
    returns (labelFiles: seq<Option<Path>>)
    requires forall k :: 0 <= k < |audioFiles| ==> audioRoot <= audioFiles[k]
    ensures labelFiles == Candidates(audioRoot, labelRoot, audioFiles, existing)
  {
    labelFiles := [];
    for i := 0 to |audioFiles|
      invariant |labelFiles| == i
      invariant forall k :: 0 <= k < i ==> labelFiles[k] == Candidates(audioRoot, labelRoot, audioFiles, existing)[k]
    {
      var labelPath := labelRoot + RelPath(audioFiles[i], audioRoot);
      if labelPath in existing {
        labelFiles := labelFiles + [Some(labelPath)];
      } else {
        labelFiles := labelFiles + [None];
      }
    }
  }

  /** The third pass: the pairs whose label is not `None`, in order. */
  method DropUnlabelled(audioFiles: seq<Path>, labelFiles: seq<Option<Path>>) returns (pairs: seq<(Path, Path)>)
    requires |audioFiles| == |labelFiles|
    ensures pairs == KeepPaired(audioFiles, labelFiles)
  {
    pairs := [];
    for i := 0 to |audioFiles|
      invariant pairs == KeepPaired(audioFiles[..i], labelFiles[..i])
    {
      assert audioFiles[..i + 1][..i] == audioFiles[..i] && labelFiles[..i + 1][..i] == labelFiles[..i];
      if labelFiles[i].Some? {
        pairs := pairs + [(audioFiles[i], labelFiles[i].value)];
      }
    }
    assert audioFiles[..|audioFiles|] == audioFiles && labelFiles[..|labelFiles|] == labelFiles;
  }

  /** `zip(*filtered_pairs)` with nothing to unpack raises `ValueError`. */
  datatype DatasetError = NoPairs

  class TaikoDataset {
    const audioRoot: Path
    const labelRoot: Path
    var audioFiles: seq<Path>
    var labelFiles: seq<Path>

    /** At least one pair, and every label file sits at its feature file's relative path under the label root. */
    ghost predicate Valid()
      reads this
    {
      |audioFiles| == |labelFiles| && audioFiles != [] &&
      forall i :: 0 <= i < |audioFiles| ==>
        audioRoot <= audioFiles[i] && labelFiles[i] == LabelFor(audioRoot, labelRoot, audioFiles[i])
    }

    /** The tail of `__init__`: the two tuples that `zip(*filtered_pairs)` unpacks. */
    constructor FromPairs(audioRoot: Path, labelRoot: Path, pairs: seq<(Path, Path)>)
      ensures this.audioRoot == audioRoot && this.labelRoot == labelRoot
      ensures |audioFiles| == |labelFiles| == |pairs|
      ensures forall i :: 0 <= i < |pairs| ==> audioFiles[i] == pairs[i].0 && labelFiles[i] == pairs[i].1
    {
      this.audioRoot := audioRoot;
      this.labelRoot := labelRoot;
      audioFiles := seq(|pairs|, i requires 0 <= i < |pairs| => pairs[i].0);
      labelFiles := seq(|pairs|, i requires 0 <= i < |pairs| => pairs[i].1);
    }

    /**
      `TaikoDataset(audio_root, label_root)`: the three passes of `__init__`.
      It fails exactly when no feature file has a label; otherwise the
      dataset holds the one-pass pairs, in walk order.
     */
    static method New(audioRoot: Path, labelRoot: Path, walked: seq<Path>, existing: set<Path>)
      returns (r: Result<TaikoDataset, DatasetError>)
      ensures r.Failure? <==> Pairs(audioRoot, labelRoot, walked, existing) == []
      ensures r.Success? ==>
        var ds, pairs := r.value, Pairs(audioRoot, labelRoot, walked, existing);
        fresh(ds) && ds.Valid() && ds.audioRoot == audioRoot && ds.labelRoot == labelRoot &&
        |ds.audioFiles| == |pairs| &&
        forall i :: 0 <= i < |pairs| ==> (ds.audioFiles[i], ds.labelFiles[i]) == pairs[i]
    {
      var audioFiles := FindFeatures(audioRoot, walked);
      var labelFiles := FindLabels(audioRoot, labelRoot, audioFiles, existing);
      var pairs := DropUnlabelled(audioFiles, labelFiles);
      PassesComputePairs(audioRoot, labelRoot, walked, existing);
      assert forall k :: 0 <= k < |pairs| ==>
               audioRoot <= pairs[k].0 && pairs[k].1 == LabelFor(audioRoot, labelRoot, pairs[k].0) by {
        KeepPairedAligned(audioRoot, labelRoot, audioFiles, existing);
      }
      if pairs == [] {
        return Failure(NoPairs);
      }
      var ds := new TaikoDataset.FromPairs(audioRoot, labelRoot, pairs);
      return Success(ds);
    }

    /** `len(dataset)`: the number of pairs, never zero. */
    function Length(): (n: nat)
      reads this
      requires Valid()
      ensures n == |audioFiles| == |labelFiles| && n >= 1
    {
      |audioFiles|
    }

    /**
      `dataset[idx]`, as the pair of paths it loads: Python indexing, from the
      end for a negative index, `None` (an `IndexError`) out of range.
     */
    function Item(idx: int): (r: Option<(Path, Path)>)
      reads this
      requires Valid()
      ensures r.Some? <==> -(Length() as int) <= idx < Length()
      ensures r.Some? ==> audioRoot <= r.value.0 && r.value.1 == LabelFor(audioRoot, labelRoot, r.value.0)
      ensures 0 <= idx < Length() ==> r == Some((audioFiles[idx], labelFiles[idx]))
      ensures -(Length() as int) <= idx < 0 ==> r == Some((audioFiles[Length() + idx], labelFiles[Length() + idx]))
    {
      if 0 <= idx < |audioFiles| then Some((audioFiles[idx], labelFiles[idx]))
      else if -|audioFiles| <= idx < 0 then Some((audioFiles[|audioFiles| + idx], labelFiles[|audioFiles| + idx]))
      else None
    }
  }

  /** The number of entries of a tensor with these leading dimensions. */
  function Product(dims: seq<nat>): nat
    decreases |dims|
  {
    if dims == [] then 1 else dims[0] * Product(dims[1..])
  }

  /**
    A feature tensor (`[1, n_mels, time]` in practice): its leading
    dimensions and, flattened over them, one row per leading index with one
    column per time step.
   */
  datatype Feature = Feature(lead: seq<nat>, frames: Matrix)

  predicate FeatureValid(a: Feature)
  {
    Rectangular(a.frames) && |a.frames.rows| == Product(a.lead)
  }

  /** `a.shape[-1]` */
  function Time(a: Feature): nat
  {
    a.frames.cols
  }

  /** One feature padded with zeros on the time axis up to `w` steps; a feature already that long is kept as it is. */
  function PadTime(a: Feature, w: nat): (r: Feature)
    requires FeatureValid(a) && Time(a) <= w
    ensures FeatureValid(r) && r.lead == a.lead && Time(r) == w
    ensures forall i, j :: 0 <= i < |r.frames.rows| && 0 <= j < w ==> r.frames.rows[i][j] == Entry(a.frames, i, j)
    ensures Time(a) == w ==> r == a
  {
    if w - Time(a) > 0 then a.(frames := PadCols(a.frames, w)) else a
  }

  /** One label padded with zero rows at the bottom and zero columns on the right to `h` by `w`. */
  function PadLabel(l: Matrix, h: nat, w: nat): (r: Matrix)
    requires Rectangular(l) && |l.rows| <= h && l.cols <= w
    ensures Rectangular(r) && |r.rows| == h && r.cols == w
    ensures forall i, j :: 0 <= i < h && 0 <= j < w ==> r.rows[i][j] == Entry(l, i, j)
  {
    var p := PadCols(l, w);
    assert forall i, j :: 0 <= i < h && 0 <= j < w ==> Entry(p, i, j) == Entry(l, i, j);
    PadRows(p, h)
  }

  /** The tensors of a batch have the shapes their types promise: features as declared, labels two-dimensional. */
  predicate WellShaped(batch: seq<(Feature, Matrix)>)
  {
    forall i :: 0 <= i < |batch| ==> FeatureValid(batch[i].0) && Rectangular(batch[i].1)
  }

  function Times(batch: seq<(Feature, Matrix)>): (r: seq<nat>)
    ensures |r| == |batch| && forall i :: 0 <= i < |batch| ==> r[i] == Time(batch[i].0)
  {
    seq(|batch|, i requires 0 <= i < |batch| => Time(batch[i].0))
  }

  function LabelRows(batch: seq<(Feature, Matrix)>): (r: seq<nat>)
    ensures |r| == |batch| && forall i :: 0 <= i < |batch| ==> r[i] == |batch[i].1.rows|
  {
    seq(|batch|, i requires 0 <= i < |batch| => |batch[i].1.rows|)
  }

  function LabelCols(batch: seq<(Feature, Matrix)>): (r: seq<nat>)
    ensures |r| == |batch| && forall i :: 0 <= i < |batch| ==> r[i] == batch[i].1.cols
  {
    seq(|batch|, i requires 0 <= i < |batch| => batch[i].1.cols)
  }

  /** `torch.stack` needs every feature to have one shape once the time axes agree: the same leading dimensions. */
  predicate SameLead(batch: seq<(Feature, Matrix)>)
  {
    forall i :: 0 <= i < |batch| ==> batch[i].0.lead == batch[0].0.lead
  }

  /** A stacked batch: features and labels, one per item, all of one shape each. */
  datatype Batch = Batch(features: seq<Feature>, labels: seq<Matrix>)

  /** `max()` of an empty batch raises `ValueError`; `torch.stack` raises on features of different shapes. */
  datatype CollateError = EmptyBatch | ShapeMismatch

  /** The batch `pad_collate` returns: every feature padded to the longest time, every label to the most rows and the most columns. */
  function Collated(batch: seq<(Feature, Matrix)>): (b: Batch)
    requires WellShaped(batch)
  {
    var t, h, w := Max(Times(batch)), Max(LabelRows(batch)), Max(LabelCols(batch));
    Batch(seq(|batch|, i requires 0 <= i < |batch| => PadTime(batch[i].0, t)),
          seq(|batch|, i requires 0 <= i < |batch| => PadLabel(batch[i].1, h, w)))
  }

  /**
    What `pad_collate` promises: one padded tensor per item, in batch order,
    all features of one shape and all labels of one shape, that shape the
    smallest holding every item, and every original entry kept where it was
    with zeros around it.
   */
  lemma CollatedShapes(batch: seq<(Feature, Matrix)>)
    requires WellShaped(batch) && batch != [] && SameLead(batch)
    ensures var b, t, h, w := Collated(batch), Max(Times(batch)), Max(LabelRows(batch)), Max(LabelCols(batch));
      |b.features| == |batch| == |b.labels| &&
      (forall i :: 0 <= i < |batch| ==>
         b.features[i].lead == batch[0].0.lead && Time(b.features[i]) == t && FeatureValid(b.features[i]) &&
         Rectangular(b.labels[i]) && |b.labels[i].rows| == h && b.labels[i].cols == w) &&
      (exists i :: 0 <= i < |batch| && Time(batch[i].0) == t) &&
      (exists i :: 0 <= i < |batch| && |batch[i].1.rows| == h) &&
      (exists i :: 0 <= i < |batch| && batch[i].1.cols == w)
  {
    var t, h, w := Max(Times(batch)), Max(LabelRows(batch)), Max(LabelCols(batch));
    var ti :| 0 <= ti < |batch| && Times(batch)[ti] == t;
    var hi :| 0 <= hi < |batch| && LabelRows(batch)[hi] == h;
    var wi :| 0 <= wi < |batch| && LabelCols(batch)[wi] == w;
  }

  /** Padding keeps every entry: item `i` of the collated batch reads, at every place, what item `i` of the input held there, or 0. */
  lemma CollatedEntries(batch: seq<(Feature, Matrix)>, i: nat, r: nat, c: nat)
    requires WellShaped(batch) && i < |batch|
    ensures var b := Collated(batch);
      (r < |b.features[i].frames.rows| && c < Max(Times(batch)) ==> b.features[i].frames.rows[r][c] == Entry(batch[i].0.frames, r, c)) &&
      (r < Max(LabelRows(batch)) && c < Max(LabelCols(batch)) ==> b.labels[i].rows[r][c] == Entry(batch[i].1, r, c))
  {
  }

  /** The padding targets are at least every item's own extent, so no item is cut. */
  lemma BatchMaxima(batch: seq<(Feature, Matrix)>)
    ensures forall i :: 0 <= i < |batch| ==>
              Time(batch[i].0) <= Max(Times(batch)) &&
              |batch[i].1.rows| <= Max(LabelRows(batch)) && batch[i].1.cols <= Max(LabelCols(batch))
  {
    forall i | 0 <= i < |batch|
      ensures Time(batch[i].0) <= Max(Times(batch)) &&
              |batch[i].1.rows| <= Max(LabelRows(batch)) && batch[i].1.cols <= Max(LabelCols(batch))
    {
      assert Times(batch)[i] == Time(batch[i].0);
      assert LabelRows(batch)[i] == |batch[i].1.rows| && LabelCols(batch)[i] == batch[i].1.cols;
    }
  }

  /** `torch.stack` accepts features of one shape: the same leading dimensions and, once padded, the same time. */
  predicate Stackable(fs: seq<Feature>)
  {
    forall k :: 0 <= k < |fs| ==> fs[k].lead == fs[0].lead
  }

  /** Padding the time axis keeps the leading dimensions, so the padded features stack exactly when the batch's features agree on them. */
  lemma PaddingKeepsLead(batch: seq<(Feature, Matrix)>, fs: seq<Feature>)
    requires |fs| == |batch| && forall k :: 0 <= k < |batch| ==> fs[k].lead == batch[k].0.lead
    ensures Stackable(fs) <==> SameLead(batch)
  {
    if Stackable(fs) {
      forall k | 0 <= k < |batch| ensures batch[k].0.lead == batch[0].0.lead {
        assert fs[k].lead == fs[0].lead;
      }
    }
  }

  /** The first loop of `pad_collate`: every feature padded on its time axis to `t` steps. */
  method PadAudios(batch: seq<(Feature, Matrix)>, t: nat) returns (paddedAudios: seq<Feature>)
    requires WellShaped(batch) && forall i :: 0 <= i < |batch| ==> Time(batch[i].0) <= t
    ensures |paddedAudios| == |batch|
    ensures forall k :: 0 <= k < |batch| ==> paddedAudios[k] == PadTime(batch[k].0, t)
  {
    paddedAudios := [];
    for i := 0 to |batch|
      invariant |paddedAudios| == i
      invariant forall k :: 0 <= k < i ==> paddedAudios[k] == PadTime(batch[k].0, t)
    {
      var a := batch[i].0;
      var padLen := t - Time(a);
      if padLen > 0 {
        paddedAudios := paddedAudios + [a.(frames := PadCols(a.frames, t))];
      } else {
        paddedAudios := paddedAudios + [a];
      }
    }
  }

  /** The second loop of `pad_collate`: every label padded to `h` rows and `w` columns. */
  method PadLabels(batch: seq<(Feature, Matrix)>, h: nat, w: nat) returns (paddedLabels: seq<Matrix>)
    requires WellShaped(batch) && forall i :: 0 <= i < |batch| ==> |batch[i].1.rows| <= h && batch[i].1.cols <= w
    ensures |paddedLabels| == |batch|
    ensures forall k :: 0 <= k < |batch| ==> paddedLabels[k] == PadLabel(batch[k].1, h, w)
  {
    paddedLabels := [];
    for i := 0 to |batch|
      invariant |paddedLabels| == i
      invariant forall k :: 0 <= k < i ==> paddedLabels[k] == PadLabel(batch[k].1, h, w)
    {
      var l := batch[i].1;
      paddedLabels := paddedLabels + [PadRows(PadCols(l, w), h)];
    }
  }

  /** Items padded one by one to the batch's maxima make up the collated batch. */
  lemma CollatedFromItems(batch: seq<(Feature, Matrix)>, fs: seq<Feature>, ls: seq<Matrix>)
    requires WellShaped(batch) && batch != [] && |fs| == |batch| == |ls|
    requires forall k :: 0 <= k < |batch| ==> Time(batch[k].0) <= Max(Times(batch)) && fs[k] == PadTime(batch[k].0, Max(Times(batch)))
    requires forall k :: 0 <= k < |batch| ==>
               |batch[k].1.rows| <= Max(LabelRows(batch)) && batch[k].1.cols <= Max(LabelCols(batch)) &&
               ls[k] == PadLabel(batch[k].1, Max(LabelRows(batch)), Max(LabelCols(batch)))
    ensures Collated(batch) == Batch(fs, ls)
  {
    var b := Collated(batch);
    assert b.features == fs;
    assert b.labels == ls;
  }

  /**
    `pad_collate(batch)`: fails on an empty batch and on features whose
    leading dimensions differ; otherwise pads every item to the batch's
    largest shape and stacks.
   */
  method PadCollate(batch: seq<(Feature, Matrix)>) returns (r: Result<Batch, CollateError>)
    requires WellShaped(batch)
    ensures batch == [] ==> r == Failure(EmptyBatch)
    ensures batch != [] && !SameLead(batch) ==> r == Failure(ShapeMismatch)
    ensures batch != [] && SameLead(batch) ==> r == Success(Collated(batch))
  {
    if batch == [] {
      return Failure(EmptyBatch);
    }
    var maxAudioLen := Max(Times(batch));
    BatchMaxima(batch);
    var paddedAudios := PadAudios(batch, maxAudioLen);
    // the padded features all have `maxAudioLen` steps: they stack when their leading dimensions agree
    PaddingKeepsLead(batch, paddedAudios);
    if !Stackable(paddedAudios) {
      return Failure(ShapeMismatch);
    }
    var maxLabelSeqLen := Max(LabelRows(batch));
    var maxLabelFeatures := Max(LabelCols(batch));
    var paddedLabels := PadLabels(batch, maxLabelSeqLen, maxLabelFeatures);
    CollatedFromItems(batch, paddedAudios, paddedLabels);
    return Success(Batch(paddedAudios, paddedLabels));
  }
}
