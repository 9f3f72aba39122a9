/** `TrainingHelpers` (deep_abyasa/helpers/training.py): the epoch loop of `train` as it drives
    the learning-rate schedule and the metric, the evaluation pass `test`, the device list
    `get_ctx`, and `create_retrain_dataset`, which turns the recorded mismatches into index
    records for another round of training.

    The network, the loss, back-propagation and the optimiser step are not modelled. Each
    epoch's thresholded network outputs are given as data, batch by batch, already split per
    device. The optimiser's learning rate is tracked as the number of times it was multiplied
    by `lr_factor`. */
module Training {
  import opened Errors
  import opened PyDict
  import opened Strings
  import opened Accuracy
  import Datasets
  import EncodeLabels

  // ---------------------------------------------------------------------------
  // Devices

  datatype Context = Cpu | Gpu(id: nat)

  /** `get_ctx(num_gpus)`: GPUs `0 .. num_gpus - 1`, or the CPU alone when `num_gpus <= 0`. */
  function GetCtx(numGpus: int): (r: seq<Context>)
    ensures numGpus > 0 ==> |r| == numGpus && forall i :: 0 <= i < |r| ==> r[i] == Gpu(i)
    ensures numGpus <= 0 ==> r == [Cpu]
  {
    if numGpus > 0 then seq(numGpus, i requires 0 <= i => Gpu(i)) else [Cpu]
  }

  /** There is always at least one device and no device is listed twice. */
  lemma GetCtxDistinct(numGpus: int)
    ensures |GetCtx(numGpus)| >= 1
    ensures Distinct(GetCtx(numGpus))
  {
  }

  // ---------------------------------------------------------------------------
  // Learning-rate schedule

  /** An entry of `lr_steps`: an epoch number, or `np.inf`, which no epoch equals. */
  datatype Step = At(epoch: int) | Never

  /** The default `lr_steps = [10, 20, 30, np.inf]`. */
  const DefaultSteps: seq<Step> := [At(10), At(20), At(30), Never]

  /** Lines 27-29 for one epoch: the rate decays, and the counter advances, exactly when the epoch
      equals the step the counter points at; a counter past the end of the list is an index error. */
  function LrStep(steps: seq<Step>, counter: nat, epoch: int): (r: Result<nat>)
    ensures r.Err? <==> counter >= |steps|
    ensures r.Err? ==> r.error == IndexOutOfRange(counter)
    ensures r.Ok? ==> (r.value == counter + 1 <==> steps[counter] == At(epoch))
    ensures r.Ok? ==> (r.value == counter <==> steps[counter] != At(epoch))
  {
    if counter >= |steps| then Err(IndexOutOfRange(counter))
    else if steps[counter] == At(epoch) then Ok(counter + 1)
    else Ok(counter)
  }

  /** `lr_counter` after epochs `0 .. epochs - 1`: also the number of decays so far. */
  function LrCounter(steps: seq<Step>, epochs: nat): (r: Result<nat>)
    ensures r.Ok? ==> r.value <= epochs && r.value <= |steps|
  {
    if epochs == 0 then Ok(0)
    else
      var c :- LrCounter(steps, epochs - 1);
      LrStep(steps, c, epochs - 1)
  }

  /** An epoch decays the rate at most once: the counter grows by zero or one per epoch, and once
      the schedule fails it stays failed. */
  lemma LrCounterStep(steps: seq<Step>, epochs: nat)
    ensures LrCounter(steps, epochs + 1).Ok? ==> LrCounter(steps, epochs).Ok?
    ensures LrCounter(steps, epochs + 1).Ok? ==>
              var before, after := LrCounter(steps, epochs).value, LrCounter(steps, epochs + 1).value;
              after == before || after == before + 1
  {
  }

  /** A schedule like the default: ascending non-negative epochs, closed by `np.inf`. */
  ghost predicate Schedule(steps: seq<Step>) {
    && |steps| > 0
    && steps[|steps| - 1] == Never
    && (forall i :: 0 <= i < |steps| - 1 ==> steps[i].At? && steps[i].epoch >= 0)
    && (forall i, j :: 0 <= i < j < |steps| - 1 ==> steps[i].epoch < steps[j].epoch)
  }

  predicate Before(s: Step, epochs: int) {
    s.At? && s.epoch < epochs
  }

  /** The number of scheduled epochs below `epochs`. */
  function Below(steps: seq<Step>, epochs: int): (c: nat)
    ensures c <= |steps|
  {
    if |steps| == 0 then 0 else (if Before(steps[0], epochs) then 1 else 0) + Below(steps[1..], epochs)
  }

  /** The steps that are scheduled before `epochs` form the front of the list. */
  ghost predicate Ordered(steps: seq<Step>) {
    forall i, j :: 0 <= i < j < |steps| && steps[j].At? ==> steps[i].At? && steps[i].epoch < steps[j].epoch
  }

  lemma {:induction false} BelowIsPrefix(steps: seq<Step>, epochs: int)
    requires Ordered(steps)
    ensures forall i :: 0 <= i < |steps| ==> (i < Below(steps, epochs) <==> Before(steps[i], epochs))
    decreases |steps|
  {
    if |steps| > 0 {
      var tail := steps[1..];
      assert Ordered(tail) by {
        forall i, j | 0 <= i < j < |tail| && tail[j].At? ensures tail[i].At? && tail[i].epoch < tail[j].epoch {
          assert tail[i] == steps[i + 1] && tail[j] == steps[j + 1];
        }
      }
      BelowIsPrefix(tail, epochs);
      forall i | 0 <= i < |steps| ensures i < Below(steps, epochs) <==> Before(steps[i], epochs) {
        if i > 0 {
          assert steps[i] == tail[i - 1];
        }
      }
    }
  }

  /** One more epoch adds the step scheduled exactly at it, if there is one. */
  lemma {:induction false} BelowNext(steps: seq<Step>, epoch: int)
    requires Ordered(steps)
    ensures Below(steps, epoch + 1) == Below(steps, epoch) + (if At(epoch) in steps then 1 else 0)
    decreases |steps|
  {
    if |steps| > 0 {
      var tail := steps[1..];
      assert Ordered(tail) by {
        forall i, j | 0 <= i < j < |tail| && tail[j].At? ensures tail[i].At? && tail[i].epoch < tail[j].epoch {
          assert tail[i] == steps[i + 1] && tail[j] == steps[j + 1];
        }
      }
      BelowNext(tail, epoch);
      assert At(epoch) in steps <==> steps[0] == At(epoch) || At(epoch) in tail;
    }
  }

  lemma ScheduleIsOrdered(steps: seq<Step>)
    requires Schedule(steps)
    ensures Ordered(steps)
    ensures Below(steps, 0) == 0
  {
    BelowIsPrefix(steps, 0);
  }

  /** Under an ascending schedule closed by `np.inf` the counter never runs past the end of the
      list, and after `epochs` epochs the rate has decayed once for every scheduled epoch below
      `epochs`. */
  lemma {:induction false} ScheduledDecays(steps: seq<Step>, epochs: nat)
    requires Schedule(steps)
    ensures LrCounter(steps, epochs) == Ok(Below(steps, epochs))
    decreases epochs
  {
    ScheduleIsOrdered(steps);
    if epochs > 0 {
      var e := epochs - 1;
      ScheduledDecays(steps, e);
      var c := Below(steps, e);
      BelowIsPrefix(steps, e);
      BelowNext(steps, e);
      if At(e) in steps {
        var j :| 0 <= j < |steps| && steps[j] == At(e);
        assert steps[c] == At(e);
      }
    }
  }

  /** The default schedule never fails: 0, 1, 2 or 3 decays as training runs past epochs 10, 20
      and 30. */
  lemma DefaultStepsDecays(epochs: nat)
    ensures LrCounter(DefaultSteps, epochs) ==
              Ok(if epochs <= 10 then 0 else if epochs <= 20 then 1 else if epochs <= 30 then 2 else 3)
  {
    var s := DefaultSteps;
    assert s[1..][1..][1..][1..] == [];
    ScheduledDecays(s, epochs);
  }

  // ---------------------------------------------------------------------------
  // The metric over an epoch

  /** One batch of the data loader as the metric sees it: per device, the label slice, the
      thresholded output slice and the slice of sample ids. */
  datatype Batch = Batch(labels: seq<Matrix>, outs: seq<Matrix>, names: seq<seq<int>>)

  ghost predicate BatchOk(b: Batch) {
    |b.labels| == |b.outs| && AllComparable(b.labels, b.outs)
  }

  ghost predicate AllOk(bs: seq<Batch>) {
    forall i :: 0 <= i < |bs| ==> BatchOk(bs[i])
  }

  /** Prediction rows over the first `n` batches of a pass: what `num_inst` reaches after a reset. */
  function PassRows(bs: seq<Batch>, n: nat): nat
    requires n <= |bs|
  {
    if n == 0 then 0 else PassRows(bs, n - 1) + TotalRows(bs[n - 1].outs)
  }

  /** Correct rows over the first `n` batches of a pass: what `sum_metric` reaches after a reset. */
  function PassCorrect(bs: seq<Batch>, n: nat): nat
    requires AllOk(bs) && n <= |bs|
  {
    if n == 0 then 0 else PassCorrect(bs, n - 1) + TotalCorrect(bs[n - 1].labels, bs[n - 1].outs)
  }

  /** Over any prefix of a pass, no more rows are correct than were seen: the accuracy is at most 1. */
  lemma {:induction false} PassCorrectAtMostRows(bs: seq<Batch>, n: nat)
    requires AllOk(bs) && n <= |bs|
    ensures PassCorrect(bs, n) <= PassRows(bs, n)
  {
    if n > 0 {
      PassCorrectAtMostRows(bs, n - 1);
    }
  }

  /** The writes `get_incorrect_preds` makes for one batch. */
  function BatchWrites(b: Batch): seq<(int, Mismatch)>
    requires BatchOk(b)
  {
    Mismatches(b.labels, b.outs, b.names, Visited(b.labels, b.names))
  }

  /** The `pred_status` writes over the first `n` batches of a pass, in order. */
  function PassWrites(bs: seq<Batch>, n: nat): seq<(int, Mismatch)>
    requires AllOk(bs) && n <= |bs|
  {
    if n == 0 then [] else PassWrites(bs, n - 1) + BatchWrites(bs[n - 1])
  }

  /** Each batch's writes, batch by batch. */
  function WritesPerBatch(bs: seq<Batch>): (r: seq<seq<(int, Mismatch)>>)
    requires AllOk(bs)
    ensures |r| == |bs| && forall i :: 0 <= i < |bs| ==> r[i] == BatchWrites(bs[i])
  {
    seq(|bs|, i requires 0 <= i < |bs| => BatchWrites(bs[i]))
  }

  /** A pass's writes are its batches' writes one after another. */
  lemma {:induction false} PassWritesFlatten(bs: seq<Batch>, n: nat)
    requires AllOk(bs) && n <= |bs|
    ensures PassWrites(bs, n) == Flatten(WritesPerBatch(bs)[..n])
    decreases n
  {
    if n > 0 {
      PassWritesFlatten(bs, n - 1);
      assert WritesPerBatch(bs)[..n][..n - 1] == WritesPerBatch(bs)[..n - 1];
    }
  }

  /** A write belongs to a pass exactly when one of its batches makes it. */
  lemma PassWritesMembership(bs: seq<Batch>, w: (int, Mismatch))
    requires AllOk(bs)
    ensures w in PassWrites(bs, |bs|) <==> exists i :: 0 <= i < |bs| && w in BatchWrites(bs[i])
  {
    PassWritesFlatten(bs, |bs|);
    assert WritesPerBatch(bs)[..|bs|] == WritesPerBatch(bs);
    FlattenMembership(WritesPerBatch(bs), w);
  }

  /** The lists of `xss` one after another. */
  function Flatten<T>(xss: seq<seq<T>>): seq<T>
    decreases |xss|
  {
    if |xss| == 0 then [] else Flatten(xss[..|xss| - 1]) + xss[|xss| - 1]
  }

  /** An element of the concatenation comes from one of the lists, and every list's elements are in it. */
  lemma {:induction false} FlattenMembership<T>(xss: seq<seq<T>>, w: T)
    ensures w in Flatten(xss) <==> exists i :: 0 <= i < |xss| && w in xss[i]
    decreases |xss|
  {
    if |xss| > 0 {
      var n := |xss| - 1;
      FlattenMembership(xss[..n], w);
      assert forall i :: 0 <= i < n ==> xss[..n][i] == xss[i];
    }
  }

  /** The metric calls for one batch (lines 45-52): update the counters and, when `collect`,
      record the batch's mismatches. */
  method FeedBatch(b: Batch, metric: AccuracyMultiLabel, collect: bool)
    requires metric.Valid() && BatchOk(b)
    modifies metric
    ensures metric.Valid()
    ensures metric.numInst == old(metric.numInst) + TotalRows(b.outs)
    ensures metric.sumMetric == old(metric.sumMetric) + TotalCorrect(b.labels, b.outs)
    ensures metric.predStatus == if collect then PutAll(old(metric.predStatus), BatchWrites(b)) else old(metric.predStatus)
  {
    metric.Update(b.labels, b.outs);
    if collect {
      metric.GetIncorrectPreds(b.labels, b.outs, b.names);
    }
  }

  /** Lines 33-53 of one epoch, apart from the network: reset the counters, update them with
      every batch, and, in the final epoch only, record the batch's mismatches. */
  method TrainEpoch(bs: seq<Batch>, metric: AccuracyMultiLabel, collect: bool)
    requires metric.Valid() && AllOk(bs)
    modifies metric
    ensures metric.Valid()
    ensures metric.numInst == PassRows(bs, |bs|) && metric.sumMetric == PassCorrect(bs, |bs|)
    ensures metric.predStatus == if collect then PutAll(old(metric.predStatus), PassWrites(bs, |bs|)) else old(metric.predStatus)
  {
    ghost var start := metric.predStatus;
    metric.Reset();
    var i := 0;
    while i < |bs|
      invariant 0 <= i <= |bs|
      invariant metric.Valid()
      invariant metric.numInst == PassRows(bs, i) && metric.sumMetric == PassCorrect(bs, i)
      invariant metric.predStatus == if collect then PutAll(start, PassWrites(bs, i)) else start
    {
      FeedBatch(bs[i], metric, collect);
      assert PassRows(bs, i + 1) == PassRows(bs, i) + TotalRows(bs[i].outs);
      assert PassCorrect(bs, i + 1) == PassCorrect(bs, i) + TotalCorrect(bs[i].labels, bs[i].outs);
      if collect {
        assert PassWrites(bs, i + 1) == PassWrites(bs, i) + BatchWrites(bs[i]);
        PutAllAppend(start, PassWrites(bs, i), BatchWrites(bs[i]));
      }
      i := i + 1;
    }
  }

  /** `test(data_loader, model, metric)`: reset the counters and update them with every batch; the
      result stands for `metric.get()` as the pair `(sum_metric, num_inst)`. `pred_status` is
      left alone. */
  method Test(bs: seq<Batch>, metric: AccuracyMultiLabel) returns (correct: int, rows: int)
    requires metric.Valid() && AllOk(bs)
    modifies metric
    ensures metric.Valid()
    ensures correct == metric.sumMetric == PassCorrect(bs, |bs|) && rows == metric.numInst == PassRows(bs, |bs|)
    ensures metric.predStatus == old(metric.predStatus)
  {
    TrainEpoch(bs, metric, false);
    correct, rows := metric.sumMetric, metric.numInst;
  }

  /** Lines 33-61 of one epoch: the training pass, recording mismatches when `last`, then the
      test pass. `pred_status` is empty before every epoch that runs. The loss average between
      the two passes divides by a non-zero batch count here; `Train` handles the zero. */
  method RunEpoch(trainBatches: seq<Batch>, testBatches: seq<Batch>, metric: AccuracyMultiLabel, last: bool)
    requires metric.Valid() && metric.predStatus == Empty()
    requires AllOk(trainBatches) && AllOk(testBatches)
    modifies metric
    ensures metric.Valid()
    ensures metric.predStatus == if last then PutAll(Empty(), PassWrites(trainBatches, |trainBatches|)) else Empty()
    ensures metric.sumMetric == PassCorrect(testBatches, |testBatches|) && metric.numInst == PassRows(testBatches, |testBatches|)
  {
    TrainEpoch(trainBatches, metric, last);
    var _, _ := Test(testBatches, metric);
  }

  /** The number of epochs `range(epochs)` runs. */
  function EpochCount(epochs: int): nat {
    if epochs > 0 then epochs else 0
  }

  /** `len(train_dl)`, taken once before the first epoch: the length of the loader's first pass. */
  function NumBatch(train: seq<seq<Batch>>): nat {
    if |train| == 0 then 0 else |train[0]|
  }

  /** How `train` ends: the number of decays when every epoch runs, or the error raised. An empty
      loader fails in the first epoch, on the schedule lookup when the schedule is empty and
      otherwise on the loss average; else the schedule decides. */
  function TrainOutcome(train: seq<seq<Batch>>, epochs: int, lrSteps: seq<Step>): Result<nat> {
    if epochs > 0 && NumBatch(train) == 0 then
      Err(if |lrSteps| == 0 then IndexOutOfRange(0) else DivisionByZero)
    else LrCounter(lrSteps, EpochCount(epochs))
  }

  /** `train(...)`: clear `pred_status`, then for each epoch apply the schedule, run the training
      batches, average the loss over `num_batch` and evaluate on the test batches. `train[e]` and
      `test[e]` are epoch `e`'s batches. Returns `pred_status` and, beside it, the number of
      learning-rate decays. `num_batch` does not change, so the average divides by zero in the
      first epoch or never; in that epoch the training pass has no batch and leaves only the
      counter reset. */
  method Train(train: seq<seq<Batch>>, test: seq<seq<Batch>>, epochs: int, lrSteps: seq<Step>,
               metric: AccuracyMultiLabel, numGpus: int)
    returns (r: Result<Dict<int, Mismatch>>, decays: nat)
    requires metric.Valid()
    requires epochs <= |train| && epochs <= |test|
    requires forall e :: 0 <= e < |train| ==> AllOk(train[e])
    requires forall e :: 0 <= e < |test| ==> AllOk(test[e])
    modifies metric
    ensures metric.Valid()
    ensures TrainOutcome(train, epochs, lrSteps).Err? ==>
              r == Err(TrainOutcome(train, epochs, lrSteps).error) && metric.predStatus == Empty()
    ensures TrainOutcome(train, epochs, lrSteps).Ok? ==>
              r == Ok(metric.predStatus) && decays == TrainOutcome(train, epochs, lrSteps).value
    ensures r.Ok? && epochs <= 0 ==> metric.predStatus == Empty()
    ensures r.Ok? && epochs > 0 ==>
              && metric.predStatus == PutAll(Empty(), PassWrites(train[epochs - 1], |train[epochs - 1]|))
              && metric.sumMetric == PassCorrect(test[epochs - 1], |test[epochs - 1]|)
              && metric.numInst == PassRows(test[epochs - 1], |test[epochs - 1]|)
  {
    var ctx := GetCtx(numGpus);
    var n := EpochCount(epochs);
    var numBatch := NumBatch(train);
    metric.predStatus := Empty();
    if n > 0 && numBatch == 0 {
      var step := LrStep(lrSteps, 0, 0);
      if step.Err? {
        return Err(step.error), 0;
      }
      metric.Reset();
      return Err(DivisionByZero), step.value;
    }
    r, decays := RunEpochs(train, test, n, lrSteps, metric);
  }

  /** The loop of lines 26-59 over `n` epochs of a loader that is not empty. */
  method RunEpochs(train: seq<seq<Batch>>, test: seq<seq<Batch>>, n: nat, lrSteps: seq<Step>,
                   metric: AccuracyMultiLabel)
    returns (r: Result<Dict<int, Mismatch>>, decays: nat)
    requires metric.Valid() && metric.predStatus == Empty()
    requires n <= |train| && n <= |test|
    requires forall e :: 0 <= e < |train| ==> AllOk(train[e])
    requires forall e :: 0 <= e < |test| ==> AllOk(test[e])
    modifies metric
    ensures metric.Valid()
    ensures LrCounter(lrSteps, n).Err? ==> r == Err(LrCounter(lrSteps, n).error) && metric.predStatus == Empty()
    ensures LrCounter(lrSteps, n).Ok? ==> r == Ok(metric.predStatus) && decays == LrCounter(lrSteps, n).value
    ensures r.Ok? && n == 0 ==> metric.predStatus == Empty()
    ensures r.Ok? && n > 0 ==>
              && metric.predStatus == PutAll(Empty(), PassWrites(train[n - 1], |train[n - 1]|))
              && metric.sumMetric == PassCorrect(test[n - 1], |test[n - 1]|)
              && metric.numInst == PassRows(test[n - 1], |test[n - 1]|)
  {
    var counter := 0;
    var epoch := 0;
    while epoch < n
      invariant 0 <= epoch <= n
      invariant metric.Valid()
      invariant LrCounter(lrSteps, epoch) == Ok(counter)
      invariant metric.predStatus == if epoch == n && n > 0 then PutAll(Empty(), PassWrites(train[n - 1], |train[n - 1]|)) else Empty()
      invariant epoch > 0 ==> metric.sumMetric == PassCorrect(test[epoch - 1], |test[epoch - 1]|)
      invariant epoch > 0 ==> metric.numInst == PassRows(test[epoch - 1], |test[epoch - 1]|)
    {
      var step := LrStep(lrSteps, counter, epoch);
      if step.Err? {
        LrCounterFails(lrSteps, epoch, n);
        return Err(step.error), counter;
      }
      counter := step.value;
      RunEpoch(train[epoch], test[epoch], metric, epoch == n - 1);
      epoch := epoch + 1;
    }
    return Ok(metric.predStatus), counter;
  }

  /** A schedule that fails at some epoch reports the same error at every later epoch count. */
  lemma {:induction false} LrCounterFails(steps: seq<Step>, e: nat, n: nat)
    requires e < n
    requires LrCounter(steps, e).Ok? && LrStep(steps, LrCounter(steps, e).value, e).Err?
    ensures LrCounter(steps, n) == Err(LrStep(steps, LrCounter(steps, e).value, e).error)
    decreases n
  {
    if n - 1 > e {
      LrCounterFails(steps, e, n - 1);
    }
  }

  /** A key is written by the concatenation exactly when one of the lists writes it. */
  lemma FlattenKeys<K, V>(xss: seq<seq<(K, V)>>, k: K)
    ensures (exists j :: 0 <= j < |Flatten(xss)| && Flatten(xss)[j].0 == k) <==>
            exists i, v :: 0 <= i < |xss| && (k, v) in xss[i]
  {
    var w := Flatten(xss);
    if exists j :: 0 <= j < |w| && w[j].0 == k {
      var j :| 0 <= j < |w| && w[j].0 == k;
      FlattenMembership(xss, w[j]);
    }
    if exists i, v :: 0 <= i < |xss| && (k, v) in xss[i] {
      var i, v :| 0 <= i < |xss| && (k, v) in xss[i];
      FlattenMembership(xss, (k, v));
    }
  }

  /** After training, an id has an entry exactly when some batch of the final epoch records a
      mismatch under it; earlier epochs leave nothing behind. */
  lemma TrainedStatusKeys(bs: seq<Batch>, id: int)
    requires AllOk(bs)
    ensures id in PutAll(Empty<int, Mismatch>(), PassWrites(bs, |bs|)).entries <==>
            exists i, m :: 0 <= i < |bs| && (id, m) in BatchWrites(bs[i])
  {
    PutAllKeys(Empty<int, Mismatch>(), PassWrites(bs, |bs|), id);
    PassWritesFlatten(bs, |bs|);
    assert WritesPerBatch(bs)[..|bs|] == WritesPerBatch(bs);
    FlattenKeys(WritesPerBatch(bs), id);
  }

  // ---------------------------------------------------------------------------
  // Retraining records

  /** One element of the list `create_retrain_dataset` builds: `{'file': ..., 'elements': ...}`. */
  datatype Record = Record(file: string, elements: seq<string>)

  /** `v.reshape(1, -1).nonzero()[1]`: the positions of the nonzero entries, ascending. */
  function NonZero(v: seq<int>): (r: seq<int>)
    ensures forall k :: 0 <= k < |r| ==> 0 <= r[k] < |v| && v[r[k]] != 0
    ensures forall i :: 0 <= i < |v| && v[i] != 0 ==> i in r
    ensures forall k, m :: 0 <= k < m < |r| ==> r[k] < r[m]
  {
    if |v| == 0 then []
    else
      var n := |v| - 1;
      var front := NonZero(v[..n]);
      assert forall i :: 0 <= i < n ==> v[..n][i] == v[i];
      front + (if v[n] != 0 then [n] else [])
  }

  /** `[lookup[i] for i in b.tolist()]`: the first index missing from the lookup is a key error. */
  function Elements(lookup: Dict<int, string>, idxs: seq<int>): (r: Result<seq<string>>)
    ensures r.Ok? <==> forall k :: 0 <= k < |idxs| ==> idxs[k] in lookup.entries
    ensures r.Ok? ==> |r.value| == |idxs| && forall k :: 0 <= k < |idxs| ==> r.value[k] == lookup.entries[idxs[k]]
    ensures r.Err? ==> exists k :: 0 <= k < |idxs| && idxs[k] !in lookup.entries && r.error == MissingIndex(idxs[k])
                         && forall i :: 0 <= i < k ==> idxs[i] in lookup.entries
  {
    var m := FirstMissing(lookup, idxs);
    if m < |idxs| then Err(MissingIndex(idxs[m])) else Ok(GetAll(lookup, idxs))
  }

  /** The record for the mismatch stored under id `k`: the file `str(k) + '.png'` and the labels
      of the positions set in the actual vector. */
  function RetrainRecord(k: int, v: Mismatch, lookup: Dict<int, string>): (r: Result<Record>)
    ensures r.Ok? <==> Elements(lookup, NonZero(v.actual)).Ok?
    ensures r.Err? ==> r.error == Elements(lookup, NonZero(v.actual)).error
    ensures r.Ok? ==> r.value.file == IntToString(k) + ".png" && r.value.elements == Elements(lookup, NonZero(v.actual)).value
  {
    var elements :- Elements(lookup, NonZero(v.actual));
    Ok(Record(IntToString(k) + ".png", elements))
  }

  /** The record-building call applied to each `(k, v)` of `retrain.items()`. */
  function RecordOf(lookup: Dict<int, string>): (f: ((int, Mismatch)) -> Result<Record>)
    ensures forall e :: f(e) == RetrainRecord(e.0, e.1, lookup)
  {
    (e: (int, Mismatch)) => RetrainRecord(e.0, e.1, lookup)
  }

  /** `create_retrain_dataset(retrain, lookup)`: one record per entry of `retrain`, appended in the
      dict's iteration order; the first entry whose record fails stops it with that error. */
  method CreateRetrainDataset(retrain: Dict<int, Mismatch>, lookup: Dict<int, string>)
    returns (r: Result<seq<Record>>)
    requires Valid(retrain)
    ensures r == MapAll(Items(retrain), RecordOf(lookup))
  {
    var records := RecordOf(lookup);
    var items := Items(retrain);
    var out: seq<Record> := [];
    var i := 0;
    while i < |items|
      invariant 0 <= i <= |items|
      invariant MapAll(items[..i], records) == Ok(out)
    {
      var rec := records(items[i]);
      MapAllStep(items, records, i, out);
      if rec.Err? {
        return Err(rec.error);
      }
      out := out + [rec.value];
      i := i + 1;
    }
    assert items[..i] == items;
    return Ok(out);
  }

  /** The records: one per entry of `retrain`, in iteration order, each the record of that
      entry; the list exists exactly when every entry's record does. */
  lemma RetrainRecordsContent(retrain: Dict<int, Mismatch>, lookup: Dict<int, string>)
    requires Valid(retrain)
    ensures MapAll(Items(retrain), RecordOf(lookup)).Ok? <==>
              forall i :: 0 <= i < |retrain.order| ==> RetrainRecord(retrain.order[i], retrain.entries[retrain.order[i]], lookup).Ok?
    ensures MapAll(Items(retrain), RecordOf(lookup)).Ok? ==> |MapAll(Items(retrain), RecordOf(lookup)).value| == Len(retrain)
    ensures MapAll(Items(retrain), RecordOf(lookup)).Ok? ==> forall i :: 0 <= i < |retrain.order| ==>
              MapAll(Items(retrain), RecordOf(lookup)).value[i] ==
                RetrainRecord(retrain.order[i], retrain.entries[retrain.order[i]], lookup).value
  {
    var items := Items(retrain);
    var f := RecordOf(lookup);
    MapAllOk(items, f);
    assert forall i :: 0 <= i < |items| ==>
             f(items[i]) == RetrainRecord(retrain.order[i], retrain.entries[retrain.order[i]], lookup);
  }

  /** Each record's file name parses back, through the dataset's id rule, to the entry's id. */
  lemma RecordFileRoundTrip(k: int, v: Mismatch, lookup: Dict<int, string>)
    requires RetrainRecord(k, v, lookup).Ok?
    ensures Datasets.ParseId(RetrainRecord(k, v, lookup).value.file) == Ok(k)
  {
    Datasets.ParseIdOfFileName(k, ".png");
  }

  /** The nonzero positions of a one-hot code built from nonnegative indices are those indices. */
  lemma OneHotNonZero(n: nat, lab: seq<int>, pos: int)
    requires Datasets.AllInRange(lab, n)
    requires forall i :: 0 <= i < |lab| ==> 0 <= lab[i]
    ensures pos in NonZero(Datasets.OneHot(n, lab)) <==> pos in lab
  {
    var bits := Datasets.OneHot(n, lab);
    if pos in NonZero(bits) {
      Datasets.OneHotBit(n, lab, pos);
      var q :| 0 <= q < |lab| && Datasets.Position(lab[q], n) == pos;
      assert lab[q] == pos;
    }
    if pos in lab {
      var q :| 0 <= q < |lab| && lab[q] == pos;
      Datasets.OneHotBit(n, lab, pos);
    }
  }

  /** Every position of a vocabulary is a key of its index-to-label map. */
  lemma VocabularyPositions(vocabulary: seq<string>)
    ensures var itol := EncodeLabels.GenerateItolLtoi(vocabulary).itol;
            forall j :: 0 <= j < |vocabulary| ==> j in itol.entries && Values(itol)[j] == itol.entries[j]
  {
    var itol := EncodeLabels.GenerateItolLtoi(vocabulary).itol;
    forall j | 0 <= j < |vocabulary| ensures j in itol.entries && Values(itol)[j] == itol.entries[j] {
      assert itol.order[j] == j;
    }
  }

  /** A vocabulary without repeats is numbered in strictly ascending string order. */
  lemma VocabularyAscending(vocabulary: seq<string>)
    requires Distinct(vocabulary)
    ensures var itol := EncodeLabels.GenerateItolLtoi(vocabulary).itol;
            forall a, b :: 0 <= a < b < |vocabulary| ==> Less(itol.entries[a], itol.entries[b])
  {
    var itol := EncodeLabels.GenerateItolLtoi(vocabulary).itol;
    EncodeLabels.GenerateItolLtoiInverse(vocabulary);
    VocabularyPositions(vocabulary);
    forall a, b | 0 <= a < b < |vocabulary| ensures Less(itol.entries[a], itol.entries[b]) {
      assert Values(itol)[a] == itol.entries[a] && Values(itol)[b] == itol.entries[b];
    }
  }

  /** Looking up the nonzero positions of a one-hot code in a map that `ltoi` inverts on
      positions `0 .. n-1` gives exactly the labels whose positions the code lists. */
  lemma ElementsOfOneHot(itol: Dict<int, string>, ltoi: Dict<string, int>, n: nat, lab: seq<int>)
    requires forall j :: 0 <= j < n ==> j in itol.entries && itol.entries[j] in ltoi.entries && ltoi.entries[itol.entries[j]] == j
    requires forall l :: l in ltoi.entries ==> ltoi.entries[l] in itol.entries && itol.entries[ltoi.entries[l]] == l
    requires Datasets.AllInRange(lab, n)
    requires forall i :: 0 <= i < |lab| ==> 0 <= lab[i]
    ensures Elements(itol, NonZero(Datasets.OneHot(n, lab))).Ok?
    ensures forall x :: x in Elements(itol, NonZero(Datasets.OneHot(n, lab))).value <==>
              x in ltoi.entries && ltoi.entries[x] in lab
  {
    var idxs := NonZero(Datasets.OneHot(n, lab));
    var els := Elements(itol, idxs).value;
    forall x ensures x in els <==> x in ltoi.entries && ltoi.entries[x] in lab {
      if x in els {
        var j :| 0 <= j < |els| && els[j] == x;
        OneHotNonZero(n, lab, idxs[j]);
      }
      if x in ltoi.entries && ltoi.entries[x] in lab {
        var pos := ltoi.entries[x];
        OneHotNonZero(n, lab, pos);
        var j :| 0 <= j < |idxs| && idxs[j] == pos;
        assert els[j] == x;
      }
    }
  }

  /** Looking up ascending positions in a map whose values ascend with the keys gives ascending labels. */
  lemma ElementsAscending(itol: Dict<int, string>, idxs: seq<int>, n: nat)
    requires forall j :: 0 <= j < n ==> j in itol.entries
    requires forall a, b :: 0 <= a < b < n ==> Less(itol.entries[a], itol.entries[b])
    requires forall k :: 0 <= k < |idxs| ==> 0 <= idxs[k] < n
    requires forall k, m :: 0 <= k < m < |idxs| ==> idxs[k] < idxs[m]
    ensures Elements(itol, idxs).Ok?
    ensures StrictlyAscending(Elements(itol, idxs).value)
  {
  }

  /** With the index-to-label map of a vocabulary and an actual vector that is the one-hot code
      of the index list `lab` over that vocabulary, the record lists exactly the labels whose
      index `lab` holds, in string order and once each. */
  lemma RecordElementsAreRowLabels(vocabulary: seq<string>, k: int, p: Pred, lab: seq<int>)
    requires Distinct(vocabulary)
    requires Datasets.AllInRange(lab, |vocabulary|)
    requires forall i :: 0 <= i < |lab| ==> 0 <= lab[i]
    ensures var e := EncodeLabels.GenerateItolLtoi(vocabulary);
            var v := Mismatch(p, Datasets.OneHot(|vocabulary|, lab));
            && RetrainRecord(k, v, e.itol).Ok?
            && (forall x :: x in RetrainRecord(k, v, e.itol).value.elements <==>
                  x in e.ltoi.entries && e.ltoi.entries[x] in lab)
            && StrictlyAscending(RetrainRecord(k, v, e.itol).value.elements)
  {
    var n := |vocabulary|;
    var e := EncodeLabels.GenerateItolLtoi(vocabulary);
    EncodeLabels.GenerateItolLtoiInverse(vocabulary);
    VocabularyPositions(vocabulary);
    ElementsOfOneHot(e.itol, e.ltoi, n, lab);
    VocabularyAscending(vocabulary);
    ElementsAscending(e.itol, NonZero(Datasets.OneHot(n, lab)), n);
  }

  /** The round trip with the dataset's encoding: for a row whose label names all belong to the
      vocabulary, the record built from the row's one-hot code lists exactly those names, once
      each and in string order. */
  lemma RecordListsRowNames(vocabulary: seq<string>, k: int, p: Pred, names: seq<string>)
    requires Distinct(vocabulary)
    requires forall i :: 0 <= i < |names| ==> names[i] in vocabulary
    ensures var e := EncodeLabels.GenerateItolLtoi(vocabulary);
            var lab := Datasets.Lookup(e.ltoi, names);
            && lab.Ok?
            && var v := Mismatch(p, Datasets.OneHot(|vocabulary|, lab.value));
               && RetrainRecord(k, v, e.itol).Ok?
               && (forall x :: x in RetrainRecord(k, v, e.itol).value.elements <==> x in names)
               && StrictlyAscending(RetrainRecord(k, v, e.itol).value.elements)
  {
    var e := EncodeLabels.GenerateItolLtoi(vocabulary);
    assert forall i :: 0 <= i < |names| ==> names[i] in e.ltoi.entries;
    RecordOfRowIndices(vocabulary, k, p, names, Datasets.Lookup(e.ltoi, names).value);
  }

  /** `RecordListsRowNames` for the index list `lab` that looking the row's names up in `ltoi` gives. */
  lemma RecordOfRowIndices(vocabulary: seq<string>, k: int, p: Pred, names: seq<string>, lab: seq<int>)
    requires Distinct(vocabulary)
    requires Datasets.Lookup(EncodeLabels.GenerateItolLtoi(vocabulary).ltoi, names) == Ok(lab)
    ensures var e := EncodeLabels.GenerateItolLtoi(vocabulary);
            var v := Mismatch(p, Datasets.OneHot(|vocabulary|, lab));
            && RetrainRecord(k, v, e.itol).Ok?
            && (forall x :: x in RetrainRecord(k, v, e.itol).value.elements <==> x in names)
            && StrictlyAscending(RetrainRecord(k, v, e.itol).value.elements)
  {
    var e := EncodeLabels.GenerateItolLtoi(vocabulary);
    VocabularyIndexRange(vocabulary);
    IndicesInRange(e.ltoi, names, lab, |vocabulary|);
    RecordElementsAreRowLabels(vocabulary, k, p, lab);
    IndexedNames(e.ltoi, e.itol, names, lab);
  }

  /** The indices `ltoi` assigns to a vocabulary lie in `0 .. n-1`. */
  lemma VocabularyIndexRange(vocabulary: seq<string>)
    requires Distinct(vocabulary)
    ensures forall l :: l in EncodeLabels.GenerateItolLtoi(vocabulary).ltoi.entries ==>
              0 <= EncodeLabels.GenerateItolLtoi(vocabulary).ltoi.entries[l] < |vocabulary|
  {
    EncodeLabels.GenerateItolLtoiInverse(vocabulary);
  }

  /** Indices taken from a map whose values lie in `0 .. n-1` are positions of a vector of length `n`. */
  lemma IndicesInRange(ltoi: Dict<string, int>, names: seq<string>, lab: seq<int>, n: nat)
    requires |lab| == |names|
    requires forall i :: 0 <= i < |names| ==> names[i] in ltoi.entries && lab[i] == ltoi.entries[names[i]]
    requires forall l :: l in ltoi.entries ==> 0 <= ltoi.entries[l] < n
    ensures Datasets.AllInRange(lab, n) && forall i :: 0 <= i < |lab| ==> 0 <= lab[i]
  {
  }

  /** When `lab` holds the indices of `names` under a map that `itol` inverts, the labels whose
      index `lab` lists are exactly `names`. */
  lemma IndexedNames(ltoi: Dict<string, int>, itol: Dict<int, string>, names: seq<string>, lab: seq<int>)
    requires |lab| == |names|
    requires forall i :: 0 <= i < |names| ==> names[i] in ltoi.entries && lab[i] == ltoi.entries[names[i]]
    requires forall l :: l in ltoi.entries ==> ltoi.entries[l] in itol.entries && itol.entries[ltoi.entries[l]] == l
    ensures forall x :: (x in ltoi.entries && ltoi.entries[x] in lab) <==> x in names
  {
    forall x | x in ltoi.entries && ltoi.entries[x] in lab
      ensures x in names
    {
      var i :| 0 <= i < |lab| && lab[i] == ltoi.entries[x];
      assert itol.entries[ltoi.entries[names[i]]] == names[i];
    }
  }
}
