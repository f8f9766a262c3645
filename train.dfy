/**
  The control logic of model/train.py: the train/validation/test split
  sizes, the scan for the widest label among the first samples, the
  truncate-or-pad alignment of predictions against labels that both
  `train_epoch` and `validate_epoch` apply to every batch, and the epoch
  loop's early stopping and checkpoint schedule.

  The network, the loss, the optimiser and the random split are not
  modelled: the losses an epoch produces are inputs (one pair of numbers
  per epoch), and a checkpoint is recorded as the epoch and losses it holds.
 */
module Training {
  import opened Wrappers
  import opened Matrices

  /** The sizes handed to `random_split`. */
  datatype SplitSizes = SplitSizes(train: nat, val: nat, test: nat)

  /**
    `int(0.7 * total)` training samples, `int(0.2 * total)` validation
    samples, and the remainder for testing, with the ratios taken exactly.
    The three sizes add up to the dataset, as `random_split` demands, and
    the test share never falls below a tenth.
   */
  function DatasetSplit(total: nat): (s: SplitSizes)
    ensures s.train + s.val + s.test == total
    ensures 10 * s.train <= 7 * total < 10 * (s.train + 1)
    ensures 10 * s.val <= 2 * total < 10 * (s.val + 1)
    ensures 10 * s.test >= total
  {
    var train := (7 * total) / 10;
    var val := (2 * total) / 10;
    SplitSizes(train, val, total - train - val)
  }

  /** `min(20, len(full_dataset))`: how many samples the width scan looks at. */
  const ScanLimit: nat := 20

  function Inspected(n: nat): (k: nat)
    ensures k <= n && k <= ScanLimit && (k == n || k == ScanLimit)
  {
    if n < ScanLimit then n else ScanLimit
  }

  /**
    The `max_features` loop: the widest label among the first twenty
    samples, 0 when there is none to look at.
   */
  method MaxFeatures(labels: seq<Matrix>) returns (maxFeatures: nat)
    ensures var k := Inspected(|labels|);
      (forall i :: 0 <= i < k ==> labels[i].cols <= maxFeatures) &&
      (k == 0 ==> maxFeatures == 0) &&
      (k > 0 ==> exists i :: 0 <= i < k && labels[i].cols == maxFeatures)
  {
    maxFeatures := 0;
    var k := Inspected(|labels|);
    for i := 0 to k
      invariant forall j :: 0 <= j < i ==> labels[j].cols <= maxFeatures
      invariant i == 0 ==> maxFeatures == 0
      invariant i > 0 ==> exists j :: 0 <= j < i && labels[j].cols == maxFeatures
    {
      var width := labels[i].cols;
      if width > maxFeatures {
        maxFeatures := width;
      }
    }
  }

  /** A batch of predictions or labels, `[batch, sequence, features]`. */
  datatype Tensor3 = Tensor3(items: seq<Matrix>, seqLen: nat, featLen: nat)

  /** Every item is `seqLen` by `featLen`. */
  predicate Shaped(p: Tensor3)
  {
    forall b :: 0 <= b < |p.items| ==>
      Rectangular(p.items[b]) && |p.items[b].rows| == p.seqLen && p.items[b].cols == p.featLen
  }

  /** Item `b` of `r` reads like item `b` of `p` on its first `t` rows and `f` columns, with 0 past `p`'s extent. */
  predicate AgreesWith(r: Tensor3, p: Tensor3, t: nat, f: nat)
    requires Shaped(r) && |r.items| == |p.items| && t <= r.seqLen && f <= r.featLen
  {
    forall b, i, j :: 0 <= b < |p.items| && 0 <= i < t && 0 <= j < f ==>
      r.items[b].rows[i][j] == Entry(p.items[b], i, j)
  }

  /**
    The sequence-length block: `preds[:, :t, :]` when the prediction is
    longer than the label, `F.pad(preds, (0, 0, 0, t - len))` when shorter,
    nothing when they agree.
   */
  function AlignSeq(p: Tensor3, t: nat): (r: Tensor3)
    requires Shaped(p)
    ensures Shaped(r) && |r.items| == |p.items| && r.seqLen == t && r.featLen == p.featLen
    ensures AgreesWith(r, p, t, p.featLen)
    ensures p.seqLen == t ==> r == p
  {
    if p.seqLen != t then
      if p.seqLen > t then Tensor3(seq(|p.items|, b requires 0 <= b < |p.items| => TakeRows(p.items[b], t)), t, p.featLen)
      else Tensor3(seq(|p.items|, b requires 0 <= b < |p.items| => PadRows(p.items[b], t)), t, p.featLen)
    else p
  }

  /**
    The feature block: `preds[:, :, :f]` when the prediction is wider than
    the label, `F.pad(preds, (0, f - width))` when narrower, nothing when
    they agree.
   */
  function AlignFeat(p: Tensor3, f: nat): (r: Tensor3)
    requires Shaped(p)
    ensures Shaped(r) && |r.items| == |p.items| && r.seqLen == p.seqLen && r.featLen == f
    ensures AgreesWith(r, p, p.seqLen, f)
    ensures p.featLen == f ==> r == p
  {
    if p.featLen != f then
      if p.featLen > f then Tensor3(seq(|p.items|, b requires 0 <= b < |p.items| => TakeCols(p.items[b], f)), p.seqLen, f)
      else Tensor3(seq(|p.items|, b requires 0 <= b < |p.items| => PadCols(p.items[b], f)), p.seqLen, f)
    else p
  }

  /**
    Both blocks together: the aligned prediction has the label's shape,
    holds the original prediction wherever both shapes reach and 0
    everywhere else, and is the prediction itself when the shapes already
    agree.
   */
  lemma AlignedPrediction(p: Tensor3, t: nat, f: nat)
    requires Shaped(p)
    ensures var r := AlignFeat(AlignSeq(p, t), f);
      Shaped(r) && |r.items| == |p.items| && r.seqLen == t && r.featLen == f &&
      AgreesWith(r, p, t, f) &&
      (p.seqLen == t && p.featLen == f ==> r == p)
  {
    var s := AlignSeq(p, t);
    var r := AlignFeat(s, f);
    forall b, i, j | 0 <= b < |p.items| && 0 <= i < t && 0 <= j < f
      ensures r.items[b].rows[i][j] == Entry(p.items[b], i, j)
    {
      assert r.items[b].rows[i][j] == Entry(s.items[b], i, j);
      if j < p.featLen {
        assert s.items[b].rows[i][j] == Entry(p.items[b], i, j);
      }
    }
  }

  /**
    The alignment statements of `train_epoch` and `validate_epoch` (the two
    are the same): the prediction batch reconciled with the label batch's
    sequence length and width.
   */
  method AlignToLabels(preds: Tensor3, labels: Tensor3) returns (aligned: Tensor3)
    requires Shaped(preds)
    ensures aligned == AlignFeat(AlignSeq(preds, labels.seqLen), labels.featLen)
  {
    aligned := preds;
    var targetSeqLen := labels.seqLen;
    if aligned.seqLen != targetSeqLen {
      if aligned.seqLen > targetSeqLen {
        aligned := Tensor3(seq(|aligned.items|, b requires 0 <= b < |aligned.items| => TakeRows(aligned.items[b], targetSeqLen)),
                           targetSeqLen, aligned.featLen);
      } else {
        aligned := Tensor3(seq(|aligned.items|, b requires 0 <= b < |aligned.items| => PadRows(aligned.items[b], targetSeqLen)),
                           targetSeqLen, aligned.featLen);
      }
    }
    assert aligned == AlignSeq(preds, targetSeqLen);
    var targetFeatLen := labels.featLen;
    if aligned.featLen != targetFeatLen {
      if aligned.featLen > targetFeatLen {
        aligned := Tensor3(seq(|aligned.items|, b requires 0 <= b < |aligned.items| => TakeCols(aligned.items[b], targetFeatLen)),
                           aligned.seqLen, targetFeatLen);
      } else {
        aligned := Tensor3(seq(|aligned.items|, b requires 0 <= b < |aligned.items| => PadCols(aligned.items[b], targetFeatLen)),
                           aligned.seqLen, targetFeatLen);
      }
    }
  }

  /** `num_epochs`, `patience`, and the period of the numbered checkpoints. */
  const NumEpochs: nat := 50
  const Patience: nat := 10
  const CheckpointEvery: nat := 10

  /** A checkpoint file as written: the epoch it was taken after and the two losses it records. */
  datatype Save =
    | BestModel(epoch: nat, trainLoss: real, valLoss: real)        // checkpoints/best_model.pth
    | EpochCheckpoint(epoch: nat, trainLoss: real, valLoss: real)  // checkpoints/checkpoint_epoch_{epoch+1}.pth

  /**
    The loop's state after some epochs: `best_val_loss` (`None` for the
    initial infinity), the epoch recorded in the best checkpoint,
    `patience_counter`, how many epochs ran, whether `break` was taken,
    and the checkpoints written so far, in order.
   */
  datatype LoopState = LoopState(bestValLoss: Option<real>, bestEpoch: nat, patienceCounter: nat,
                                 epochsRun: nat, stopped: bool, saves: seq<Save>)

  const Start := LoopState(None, 0, 0, 0, false, [])

  /** The numbered checkpoint an epoch writes, if its number is a multiple of ten. */
  function Periodic(epoch: nat, trainLoss: real, valLoss: real): seq<Save>
  {
    if (epoch + 1) % CheckpointEvery == 0 then [EpochCheckpoint(epoch, trainLoss, valLoss)] else []
  }

  /**
    One epoch of the loop body: a strictly better validation loss becomes
    the best and is saved, resetting the counter; otherwise the counter
    grows and the loop breaks once it reaches the patience, before the
    numbered checkpoint. A stopped loop runs no further epoch.
   */
  function EpochStep(st: LoopState, epoch: nat, trainLoss: real, valLoss: real, patience: nat): LoopState
  {
    if st.stopped then st
    else if st.bestValLoss.None? || valLoss < st.bestValLoss.value then
      LoopState(Some(valLoss), epoch, 0, epoch + 1, false,
                st.saves + [BestModel(epoch, trainLoss, valLoss)] + Periodic(epoch, trainLoss, valLoss))
    else if st.patienceCounter + 1 >= patience then
      st.(patienceCounter := st.patienceCounter + 1, epochsRun := epoch + 1, stopped := true)
    else
      st.(patienceCounter := st.patienceCounter + 1, epochsRun := epoch + 1,
          saves := st.saves + Periodic(epoch, trainLoss, valLoss))
  }

  /** The state after the first `n` epochs, with the losses epoch `e` produces given as `trainLoss(e)` and `valLoss(e)`. */
  function Run(trainLoss: nat -> real, valLoss: nat -> real, n: nat, patience: nat): LoopState
  {
    if n == 0 then Start
    else EpochStep(Run(trainLoss, valLoss, n - 1, patience), n - 1, trainLoss(n - 1), valLoss(n - 1), patience)
  }

  /**
    The epoch loop of the script: `for epoch in range(num_epochs)`, with
    early stopping by `break`.
   */
  method TrainingLoop(trainLoss: nat -> real, valLoss: nat -> real, numEpochs: nat, patience: nat)
    returns (st: LoopState)
    ensures st == Run(trainLoss, valLoss, numEpochs, patience)
  {
    var bestValLoss: Option<real> := None;
    var bestEpoch := 0;
    var patienceCounter := 0;
    var saves: seq<Save> := [];
    var stopped := false;
    var epochsRun := 0;
    for epoch := 0 to numEpochs
      invariant !stopped
      invariant Run(trainLoss, valLoss, epoch, patience) ==
                LoopState(bestValLoss, bestEpoch, patienceCounter, epoch, false, saves)
    {
      var trainLossE := trainLoss(epoch);
      var valLossE := valLoss(epoch);
      if bestValLoss.None? || valLossE < bestValLoss.value {
        bestValLoss := Some(valLossE);
        bestEpoch := epoch;
        patienceCounter := 0;
        saves := saves + [BestModel(epoch, trainLossE, valLossE)];
      } else {
        patienceCounter := patienceCounter + 1;
        if patienceCounter >= patience {
          stopped := true;
          epochsRun := epoch + 1;
          StoppedIsFinal(trainLoss, valLoss, epoch + 1, numEpochs, patience);
          break;
        }
      }
      if (epoch + 1) % CheckpointEvery == 0 {
        saves := saves + [EpochCheckpoint(epoch, trainLossE, valLossE)];
      }
    }
    if !stopped {
      epochsRun := numEpochs;
    }
    st := LoopState(bestValLoss, bestEpoch, patienceCounter, epochsRun, stopped, saves);
  }

  /** Once the loop has broken out, later epochs change nothing. */
  lemma {:induction false} StoppedIsFinal(trainLoss: nat -> real, valLoss: nat -> real, n: nat, m: nat, patience: nat)
    requires n <= m && Run(trainLoss, valLoss, n, patience).stopped
    ensures Run(trainLoss, valLoss, m, patience) == Run(trainLoss, valLoss, n, patience)
    decreases m
  {
    if n < m {
      StoppedIsFinal(trainLoss, valLoss, n, m - 1, patience);
    }
  }

  /**
    The meaning of the loop's state after `n` epochs: at most `n` epochs ran,
    all `n` unless the loop broke; there is a best loss exactly when an
    epoch ran; it is the validation loss of the recorded epoch, no epoch so
    far did better and every earlier epoch did strictly worse (the best is
    the first minimum); and the patience counter is the number of epochs
    since the best.
   */
  lemma {:induction false} RunInvariant(trainLoss: nat -> real, valLoss: nat -> real, n: nat, patience: nat)
    ensures var st := Run(trainLoss, valLoss, n, patience);
      st.epochsRun <= n && (!st.stopped ==> st.epochsRun == n) &&
      (st.bestValLoss.Some? <==> st.epochsRun > 0) &&
      (st.bestValLoss.Some? ==>
         st.bestEpoch < st.epochsRun && st.bestValLoss.value == valLoss(st.bestEpoch) &&
         st.patienceCounter == st.epochsRun - 1 - st.bestEpoch &&
         (forall e: nat :: e < st.epochsRun ==> valLoss(st.bestEpoch) <= valLoss(e)) &&
         (forall e: nat :: e < st.bestEpoch ==> valLoss(st.bestEpoch) < valLoss(e)))
  {
    if n > 0 {
      RunInvariant(trainLoss, valLoss, n - 1, patience);
    }
  }

  /**
    Early stopping: with a patience of at least one, the loop breaks exactly
    when the counter reaches the patience, and then the last epoch run is
    the best epoch plus the patience; a loop still running has seen fewer
    than `patience` epochs without improvement.
   */
  lemma StopsAtBestPlusPatience(trainLoss: nat -> real, valLoss: nat -> real, n: nat, patience: nat)
    requires patience >= 1
    ensures var st := Run(trainLoss, valLoss, n, patience);
      (st.stopped <==> st.patienceCounter == patience) &&
      (!st.stopped ==> st.patienceCounter < patience) &&
      (st.stopped ==> st.epochsRun - 1 == st.bestEpoch + patience)
  {
    StopsWhenPatienceRunsOut(trainLoss, valLoss, n, patience);
    RunInvariant(trainLoss, valLoss, n, patience);
  }

  lemma {:induction false} StopsWhenPatienceRunsOut(trainLoss: nat -> real, valLoss: nat -> real, n: nat, patience: nat)
    requires patience >= 1
    ensures var st := Run(trainLoss, valLoss, n, patience);
      (st.stopped ==> st.patienceCounter == patience) && (!st.stopped ==> st.patienceCounter < patience)
  {
    if n > 0 {
      StopsWhenPatienceRunsOut(trainLoss, valLoss, n - 1, patience);
    }
  }

  /** The best-model checkpoints after one more epoch: the earlier ones, and this epoch's if it improved. */
  lemma BestModelStep(st: LoopState, epoch: nat, trainLoss: real, valLoss: real, patience: nat, e: nat, tl: real, vl: real)
    ensures BestModel(e, tl, vl) in EpochStep(st, epoch, trainLoss, valLoss, patience).saves <==>
      BestModel(e, tl, vl) in st.saves ||
      (!st.stopped && (st.bestValLoss.None? || valLoss < st.bestValLoss.value) &&
       e == epoch && tl == trainLoss && vl == valLoss)
  {
    assert BestModel(e, tl, vl) !in Periodic(epoch, trainLoss, valLoss);
  }

  /** The numbered checkpoints after one more epoch: the earlier ones, and this epoch's if it is a tenth and did not break. */
  lemma CheckpointStep(st: LoopState, epoch: nat, trainLoss: real, valLoss: real, patience: nat, e: nat, tl: real, vl: real)
    ensures EpochCheckpoint(e, tl, vl) in EpochStep(st, epoch, trainLoss, valLoss, patience).saves <==>
      EpochCheckpoint(e, tl, vl) in st.saves ||
      (!EpochStep(st, epoch, trainLoss, valLoss, patience).stopped && !st.stopped && (epoch + 1) % CheckpointEvery == 0 &&
       e == epoch && tl == trainLoss && vl == valLoss)
  {
  }

  /**
    The numbered checkpoints: one for every epoch run whose number is a
    multiple of ten, holding that epoch's losses, except the epoch that
    breaks out of the loop, since `break` comes first.
   */
  lemma {:induction false} CheckpointSchedule(trainLoss: nat -> real, valLoss: nat -> real, n: nat, patience: nat,
                                              e: nat, tl: real, vl: real)
    ensures var st := Run(trainLoss, valLoss, n, patience);
      EpochCheckpoint(e, tl, vl) in st.saves <==>
        e < st.epochsRun && (e + 1) % CheckpointEvery == 0 && tl == trainLoss(e) && vl == valLoss(e) &&
        !(st.stopped && e + 1 == st.epochsRun)
  {
    RunInvariant(trainLoss, valLoss, n, patience);
    if n > 0 {
      var prev := Run(trainLoss, valLoss, n - 1, patience);
      CheckpointSchedule(trainLoss, valLoss, n - 1, patience, e, tl, vl);
      RunInvariant(trainLoss, valLoss, n - 1, patience);
      CheckpointStep(prev, n - 1, trainLoss(n - 1), valLoss(n - 1), patience, e, tl, vl);
    }
  }

  /**
    The best-model checkpoint is written in exactly the epochs whose
    validation loss is strictly below that of every earlier epoch, holding
    that epoch's losses.
   */
  lemma {:induction false} BestSaves(trainLoss: nat -> real, valLoss: nat -> real, n: nat, patience: nat,
                                     e: nat, tl: real, vl: real)
    ensures var st := Run(trainLoss, valLoss, n, patience);
      BestModel(e, tl, vl) in st.saves <==>
        e < st.epochsRun && tl == trainLoss(e) && vl == valLoss(e) &&
        forall k: nat :: k < e ==> valLoss(e) < valLoss(k)
  {
    RunInvariant(trainLoss, valLoss, n, patience);
    if n > 0 {
      var prev := Run(trainLoss, valLoss, n - 1, patience);
      BestSaves(trainLoss, valLoss, n - 1, patience, e, tl, vl);
      RunInvariant(trainLoss, valLoss, n - 1, patience);
      BestModelStep(prev, n - 1, trainLoss(n - 1), valLoss(n - 1), patience, e, tl, vl);
    }
  }

  /** The best-model file as it stands after some saves: the last one written, if any. */
  function LastBest(saves: seq<Save>): (r: Option<Save>)
    ensures r.Some? ==> r.value.BestModel? && r.value in saves
    ensures r.None? <==> forall k :: 0 <= k < |saves| ==> !saves[k].BestModel?
    ensures r.Some? ==> exists k :: 0 <= k < |saves| && saves[k] == r.value && forall j :: k < j < |saves| ==> !saves[j].BestModel?
    decreases |saves|
  {
    if saves == [] then None
    else if saves[|saves| - 1].BestModel? then Some(saves[|saves| - 1])
    else LastBest(saves[..|saves| - 1])
  }

  /** A numbered checkpoint leaves the best-model file as it was. */
  lemma LastBestIgnoresPeriodic(saves: seq<Save>, epoch: nat, trainLoss: real, valLoss: real)
    ensures LastBest(saves + Periodic(epoch, trainLoss, valLoss)) == LastBest(saves)
  {
    var p := Periodic(epoch, trainLoss, valLoss);
    if p != [] {
      assert (saves + p)[|saves + p| - 1] == EpochCheckpoint(epoch, trainLoss, valLoss);
      assert (saves + p)[..|saves|] == saves;
    } else {
      assert saves + p == saves;
    }
  }

  /** The best-model file holds the best epoch with its losses, or was never written while there is no best. */
  predicate BestFileCurrent(st: LoopState, trainLoss: nat -> real)
  {
    LastBest(st.saves) ==
      if st.bestValLoss.Some? then Some(BestModel(st.bestEpoch, trainLoss(st.bestEpoch), st.bestValLoss.value))
      else None
  }

  /** One epoch keeps the best-model file current. */
  lemma EpochKeepsBestFile(st: LoopState, trainLoss: nat -> real, epoch: nat, valLoss: real, patience: nat)
    requires BestFileCurrent(st, trainLoss)
    ensures BestFileCurrent(EpochStep(st, epoch, trainLoss(epoch), valLoss, patience), trainLoss)
  {
    var tl := trainLoss(epoch);
    if !st.stopped {
      if st.bestValLoss.None? || valLoss < st.bestValLoss.value {
        LastBestIgnoresPeriodic(st.saves + [BestModel(epoch, tl, valLoss)], epoch, tl, valLoss);
      } else if st.patienceCounter + 1 < patience {
        LastBestIgnoresPeriodic(st.saves, epoch, tl, valLoss);
      }
    }
  }

  /** The same step on the loop's states: epoch `n` keeps the best-model file current. */
  lemma RunKeepsBestFile(trainLoss: nat -> real, valLoss: nat -> real, n: nat, patience: nat)
    requires BestFileCurrent(Run(trainLoss, valLoss, n, patience), trainLoss)
    ensures BestFileCurrent(Run(trainLoss, valLoss, n + 1, patience), trainLoss)
  {
    EpochKeepsBestFile(Run(trainLoss, valLoss, n, patience), trainLoss, n, valLoss(n), patience);
  }

  /**
    The model reloaded after training is the best one: the best-model file
    last written holds the best epoch with its losses.
   */
  lemma {:induction false} ReloadedIsBest(trainLoss: nat -> real, valLoss: nat -> real, n: nat, patience: nat)
    ensures BestFileCurrent(Run(trainLoss, valLoss, n, patience), trainLoss)
  {
    if n > 0 {
      var m := n - 1;
      ReloadedIsBest(trainLoss, valLoss, m, patience);
      RunKeepsBestFile(trainLoss, valLoss, m, patience);
      assert m + 1 == n;
    }
  }
}
