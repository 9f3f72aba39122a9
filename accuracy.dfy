/** `AccuracyMultiLabel` (deep_abyasa/metrics/accuracy.py): an evaluation metric
    for multi-label classification. A sample counts as correct only when its
    whole predicted vector equals its label vector. Besides the two counters
    it keeps `pred_status`, a dict from sample id to the mismatching
    `[prediction, label]` pair.

    A batch is an integer matrix (the `int32` view of the tensors). When a
    prediction's shape differs from the label's, each prediction row is first
    replaced by its argmax along axis 1, and that scalar is then compared
    with every position of the label row, as numpy's broadcasting does. */
module Accuracy {
  import opened PyDict

  /** A 2-D batch of `rows`; `width` is the tensor's second dimension, the length of each row. */
  datatype Matrix = Matrix(width: nat, rows: seq<seq<int>>)

  predicate SameShape(a: Matrix, b: Matrix) {
    |a.rows| == |b.rows| && a.width == b.width
  }

  ghost predicate NonEmptyRows(m: Matrix) {
    forall j :: 0 <= j < |m.rows| ==> |m.rows[j]| > 0
  }

  /** A 2-D array: every row is `width` long. */
  ghost predicate WellFormed(m: Matrix) {
    forall j :: 0 <= j < |m.rows| ==> |m.rows[j]| == m.width
  }

  /** A label batch and a prediction batch that `update` can compare: both are 2-D arrays, and when
      the shapes differ, the prediction rows are non-empty so that their argmax exists. */
  ghost predicate Comparable(target: Matrix, pred: Matrix) {
    WellFormed(target) && WellFormed(pred) && (SameShape(target, pred) || NonEmptyRows(pred))
  }

  ghost predicate AllComparable(labels: seq<Matrix>, preds: seq<Matrix>)
    requires |labels| == |preds|
  {
    forall b :: 0 <= b < |labels| ==> Comparable(labels[b], preds[b])
  }

  /** One prediction row as compared: the row itself, or its argmax. */
  datatype Pred = Vec(v: seq<int>) | Index(i: int)

  /** What `pred_status` records for a sample: `[p, l]`. */
  datatype Mismatch = Mismatch(pred: Pred, actual: seq<int>)

  /** `argmax` of a non-empty row: the first position holding its largest entry. */
  function ArgMax(row: seq<int>): (k: nat)
    requires |row| > 0
    ensures k < |row|
    ensures forall j :: 0 <= j < |row| ==> row[j] <= row[k]
    ensures forall j :: 0 <= j < k ==> row[j] < row[k]
  {
    if |row| == 1 then 0
    else
      var n := |row| - 1;
      var k := ArgMax(row[..n]);
      assert forall j :: 0 <= j < n ==> row[..n][j] == row[j];
      if row[n] > row[k] then n else k
  }

  /** One prediction row as compared: itself when the shapes agree, its argmax otherwise. */
  function PredOf(sameShape: bool, row: seq<int>): (p: Pred)
    requires sameShape || |row| > 0
    ensures sameShape ==> p == Vec(row)
    ensures !sameShape ==> p.Index? && 0 <= p.i < |row| && forall m :: 0 <= m < |row| ==> row[m] <= row[p.i]
  {
    if sameShape then Vec(row) else Index(ArgMax(row))
  }

  /** Lines 31-33 and 51-53: the prediction rows as they are compared with the label rows. */
  function Prepare(target: Matrix, pred: Matrix): (ps: seq<Pred>)
    requires Comparable(target, pred)
    ensures |ps| == |pred.rows|
    ensures forall j :: 0 <= j < |ps| ==> ps[j] == PredOf(SameShape(target, pred), pred.rows[j])
  {
    var same := SameShape(target, pred);
    seq(|pred.rows|, j requires 0 <= j < |pred.rows| => PredOf(same, pred.rows[j]))
  }

  /** `np.all(p == l)` */
  predicate RowCorrect(p: Pred, l: seq<int>) {
    match p
    case Vec(v) => v == l
    case Index(x) => forall m :: 0 <= m < |l| ==> l[m] == x
  }

  /** `sum(np.all(a == b) for a, b in zip(ps, ls))` over the first `n` pairs. */
  function CountCorrect(ps: seq<Pred>, ls: seq<seq<int>>, n: nat): (c: nat)
    requires n <= |ps| && n <= |ls|
    ensures c <= n
    ensures c == n <==> forall j :: 0 <= j < n ==> RowCorrect(ps[j], ls[j])
    ensures c == 0 <==> forall j :: 0 <= j < n ==> !RowCorrect(ps[j], ls[j])
  {
    if n == 0 then 0
    else CountCorrect(ps, ls, n - 1) + (if RowCorrect(ps[n - 1], ls[n - 1]) then 1 else 0)
  }

  function Min(a: nat, b: nat): nat {
    if a <= b then a else b
  }

  /** The increment of `sum_metric` for one batch: `zip` stops at the shorter of the two. */
  function BatchCorrect(target: Matrix, pred: Matrix): (c: nat)
    requires Comparable(target, pred)
    ensures c <= |pred.rows| && c <= |target.rows|
  {
    var ps := Prepare(target, pred);
    CountCorrect(ps, target.rows, Min(|ps|, |target.rows|))
  }

  /** Rows in all prediction batches: the total increment of `num_inst`. */
  function TotalRows(preds: seq<Matrix>): nat {
    if |preds| == 0 then 0 else TotalRows(preds[..|preds| - 1]) + |preds[|preds| - 1].rows|
  }

  /** Correct rows over all batch pairs: the total increment of `sum_metric`. */
  function TotalCorrect(labels: seq<Matrix>, preds: seq<Matrix>): (c: nat)
    requires |labels| == |preds| && AllComparable(labels, preds)
    ensures c <= TotalRows(preds)
  {
    if |labels| == 0 then 0
    else
      var n := |labels| - 1;
      AllComparablePrefix(labels, preds, n);
      TotalCorrect(labels[..n], preds[..n]) + BatchCorrect(labels[n], preds[n])
  }

  lemma AllComparableAppend(la: seq<Matrix>, pa: seq<Matrix>, lb: seq<Matrix>, pb: seq<Matrix>)
    requires |la| == |pa| && |lb| == |pb| && AllComparable(la, pa) && AllComparable(lb, pb)
    ensures AllComparable(la + lb, pa + pb)
  {
    forall b | 0 <= b < |la + lb| ensures Comparable((la + lb)[b], (pa + pb)[b]) {
      if b >= |la| {
        assert (la + lb)[b] == lb[b - |la|] && (pa + pb)[b] == pb[b - |la|];
      } else {
        assert (la + lb)[b] == la[b] && (pa + pb)[b] == pa[b];
      }
    }
  }

  lemma AllComparablePrefix(labels: seq<Matrix>, preds: seq<Matrix>, n: nat)
    requires |labels| == |preds| && AllComparable(labels, preds) && n <= |labels|
    ensures AllComparable(labels[..n], preds[..n])
  {
    assert forall b :: 0 <= b < n ==> labels[..n][b] == labels[b] && preds[..n][b] == preds[b];
  }

  /** The last batch pair's contribution, split off. */
  lemma TotalCorrectLast(labels: seq<Matrix>, preds: seq<Matrix>)
    requires |labels| == |preds| && AllComparable(labels, preds) && |labels| > 0
    ensures AllComparable(labels[..|labels| - 1], preds[..|labels| - 1])
    ensures TotalCorrect(labels, preds) ==
            TotalCorrect(labels[..|labels| - 1], preds[..|labels| - 1]) + BatchCorrect(labels[|labels| - 1], preds[|labels| - 1])
  {
    AllComparablePrefix(labels, preds, |labels| - 1);
  }

  /** Rows of `a + b` are the rows of `a` and then those of `b`. */
  lemma {:induction false} TotalRowsAppend(pa: seq<Matrix>, pb: seq<Matrix>)
    ensures TotalRows(pa + pb) == TotalRows(pa) + TotalRows(pb)
    decreases |pb|
  {
    if |pb| == 0 {
      assert pa + pb == pa;
    } else {
      var n := |pb| - 1;
      TotalRowsAppend(pa, pb[..n]);
      assert (pa + pb)[..|pa + pb| - 1] == pa + pb[..n];
    }
  }

  /** Updating with `a` and then with `b` adds what one update with `a + b` adds, so two equal
      calls add the same increments twice. */
  lemma {:induction false} TotalCorrectAppend(la: seq<Matrix>, pa: seq<Matrix>, lb: seq<Matrix>, pb: seq<Matrix>)
    requires |la| == |pa| && |lb| == |pb| && AllComparable(la, pa) && AllComparable(lb, pb)
    ensures AllComparable(la + lb, pa + pb)
    ensures TotalCorrect(la + lb, pa + pb) == TotalCorrect(la, pa) + TotalCorrect(lb, pb)
    decreases |lb|
  {
    AllComparableAppend(la, pa, lb, pb);
    if |lb| == 0 {
      assert la + lb == la && pa + pb == pa;
    } else {
      var n := |lb| - 1;
      var l, p := la + lb, pa + pb;
      var m := |l| - 1;
      AllComparablePrefix(lb, pb, n);
      AllComparableAppend(la, pa, lb[..n], pb[..n]);
      TotalCorrectLast(l, p);
      calc {
        TotalCorrect(l, p);
        TotalCorrect(l[..m], p[..m]) + BatchCorrect(l[m], p[m]);
        { assert l[..m] == la + lb[..n] && p[..m] == pa + pb[..n];
          assert l[m] == lb[n] && p[m] == pb[n]; }
        TotalCorrect(la + lb[..n], pa + pb[..n]) + BatchCorrect(lb[n], pb[n]);
        { TotalCorrectAppend(la, pa, lb[..n], pb[..n]); }
        TotalCorrect(la, pa) + TotalCorrect(lb[..n], pb[..n]) + BatchCorrect(lb[n], pb[n]);
        { TotalCorrectLast(lb, pb); }
        TotalCorrect(la, pa) + TotalCorrect(lb, pb);
      }
    }
  }

  /** A batch whose prediction rows all equal their label rows adds all its rows to `sum_metric`;
      one where every row differs somewhere adds nothing. */
  lemma BatchCorrectExtremes(target: Matrix, pred: Matrix)
    requires Comparable(target, pred) && SameShape(target, pred)
    ensures BatchCorrect(target, pred) == |pred.rows| <==> pred.rows == target.rows
    ensures BatchCorrect(target, pred) == 0 <==> forall j :: 0 <= j < |pred.rows| ==> pred.rows[j] != target.rows[j]
  {
    var ps := Prepare(target, pred);
    assert pred.rows == target.rows <==> forall j :: 0 <= j < |pred.rows| ==> RowCorrect(ps[j], target.rows[j]);
  }

  // ---------------------------------------------------------------------------
  // Mismatch records

  /** The `pred_status` writes for one batch: `(id, [p, l])` for each of the first `n` rows of the
      three-way `zip` whose prediction differs from its label, in row order. */
  function RowMismatches(ps: seq<Pred>, ls: seq<seq<int>>, ns: seq<int>, n: nat): (w: seq<(int, Mismatch)>)
    requires n <= |ps| && n <= |ls| && n <= |ns|
    ensures |w| <= n
  {
    if n == 0 then []
    else
      RowMismatches(ps, ls, ns, n - 1) +
      (if RowCorrect(ps[n - 1], ls[n - 1]) then [] else [(ns[n - 1], Mismatch(ps[n - 1], ls[n - 1]))])
  }

  /** A write is in the list exactly when some row among the first `n` mismatches with that id. */
  lemma {:induction false} RowMismatchesMembership(ps: seq<Pred>, ls: seq<seq<int>>, ns: seq<int>, n: nat, w: (int, Mismatch))
    requires n <= |ps| && n <= |ls| && n <= |ns|
    ensures w in RowMismatches(ps, ls, ns, n) <==>
            exists j :: 0 <= j < n && !RowCorrect(ps[j], ls[j]) && w == (ns[j], Mismatch(ps[j], ls[j]))
  {
    if n > 0 {
      RowMismatchesMembership(ps, ls, ns, n - 1, w);
    }
  }

  function Min3(a: nat, b: nat, c: nat): nat {
    Min(Min(a, b), c)
  }

  /** `zip(pred_label, label, name)` for one batch, kept to its mismatching rows. */
  function BatchMismatches(target: Matrix, pred: Matrix, names: seq<int>): seq<(int, Mismatch)>
    requires Comparable(target, pred)
  {
    var ps := Prepare(target, pred);
    RowMismatches(ps, target.rows, names, Min3(|ps|, |target.rows|, |names|))
  }

  /** All `pred_status` writes of `get_incorrect_preds` over the first `n` batch triples. */
  function Mismatches(labels: seq<Matrix>, preds: seq<Matrix>, names: seq<seq<int>>, n: nat): seq<(int, Mismatch)>
    requires |labels| == |preds| && AllComparable(labels, preds)
    requires n <= |labels| && n <= |names|
  {
    if n == 0 then [] else Mismatches(labels, preds, names, n - 1) + BatchMismatches(labels[n - 1], preds[n - 1], names[n - 1])
  }

  /** The batches `get_incorrect_preds` visits: `zip(labels, preds, names)` stops at the shortest. */
  function Visited(labels: seq<Matrix>, names: seq<seq<int>>): (n: nat)
    ensures n <= |labels| && n <= |names|
  {
    Min(|labels|, |names|)
  }

  /** Row `j` of a batch is visited, compares unequal, and `w` is the write it makes. */
  ghost predicate WrittenBy(target: Matrix, pred: Matrix, names: seq<int>, j: int, w: (int, Mismatch))
    requires Comparable(target, pred)
  {
    var ps := Prepare(target, pred);
    && 0 <= j < Min3(|ps|, |target.rows|, |names|)
    && !RowCorrect(ps[j], target.rows[j])
    && w == (names[j], Mismatch(ps[j], target.rows[j]))
  }

  /** A write is among one batch's records exactly when some row of the batch makes it. */
  lemma BatchMismatchesMembership(target: Matrix, pred: Matrix, names: seq<int>, w: (int, Mismatch))
    requires Comparable(target, pred)
    ensures w in BatchMismatches(target, pred, names) <==> exists j :: WrittenBy(target, pred, names, j, w)
  {
    var ps := Prepare(target, pred);
    var n := Min3(|ps|, |target.rows|, |names|);
    RowMismatchesMembership(ps, target.rows, names, n, w);
    if w in BatchMismatches(target, pred, names) {
      var j :| 0 <= j < n && !RowCorrect(ps[j], target.rows[j]) && w == (names[j], Mismatch(ps[j], target.rows[j]));
      assert WrittenBy(target, pred, names, j, w);
    }
  }

  /** A write is among the mismatch records exactly when one of the first `n` batches' lists holds it. */
  lemma {:induction false} MismatchesBatches(labels: seq<Matrix>, preds: seq<Matrix>, names: seq<seq<int>>, n: nat,
                                             w: (int, Mismatch))
    requires |labels| == |preds| && AllComparable(labels, preds)
    requires n <= |labels| && n <= |names|
    ensures w in Mismatches(labels, preds, names, n) <==>
            exists b :: 0 <= b < n && w in BatchMismatches(labels[b], preds[b], names[b])
  {
    if n == 0 {
      assert Mismatches(labels, preds, names, n) == [];
    } else {
      var m := n - 1;
      MismatchesBatches(labels, preds, names, m, w);
      MismatchesUnfold(labels, preds, names, n, w);
      if exists b :: 0 <= b < n && w in BatchMismatches(labels[b], preds[b], names[b]) {
        var b :| 0 <= b < n && w in BatchMismatches(labels[b], preds[b], names[b]);
        assert b < m || b == m;
      }
    }
  }

  /** The records of the first `n` batches are those of the first `n - 1` and then batch `n - 1`'s. */
  lemma MismatchesUnfold(labels: seq<Matrix>, preds: seq<Matrix>, names: seq<seq<int>>, n: nat,
                         w: (int, Mismatch))
    requires |labels| == |preds| && AllComparable(labels, preds)
    requires 0 < n <= |labels| && n <= |names|
    ensures w in Mismatches(labels, preds, names, n) <==>
            w in Mismatches(labels, preds, names, n - 1) || w in BatchMismatches(labels[n - 1], preds[n - 1], names[n - 1])
  {
    assert Mismatches(labels, preds, names, n) ==
           Mismatches(labels, preds, names, n - 1) + BatchMismatches(labels[n - 1], preds[n - 1], names[n - 1]);
  }

  /** A write is among the mismatch records exactly when some row of one of the first `n`
      batches makes it. */
  lemma MismatchesMembership(labels: seq<Matrix>, preds: seq<Matrix>, names: seq<seq<int>>, n: nat,
                             w: (int, Mismatch))
    requires |labels| == |preds| && AllComparable(labels, preds)
    requires n <= |labels| && n <= |names|
    ensures w in Mismatches(labels, preds, names, n) <==>
            exists b, j :: 0 <= b < n && WrittenBy(labels[b], preds[b], names[b], j, w)
  {
    MismatchesBatches(labels, preds, names, n, w);
    if w in Mismatches(labels, preds, names, n) {
      var b :| 0 <= b < n && w in BatchMismatches(labels[b], preds[b], names[b]);
      BatchMismatchesMembership(labels[b], preds[b], names[b], w);
    }
    if exists b, j :: 0 <= b < n && WrittenBy(labels[b], preds[b], names[b], j, w) {
      var b, j :| 0 <= b < n && WrittenBy(labels[b], preds[b], names[b], j, w);
      BatchMismatchesMembership(labels[b], preds[b], names[b], w);
    }
  }

  /** The writes of batch `b` follow those of the batches before it. */
  lemma MismatchesStep(d: Dict<int, Mismatch>, labels: seq<Matrix>, preds: seq<Matrix>, names: seq<seq<int>>, b: nat)
    requires |labels| == |preds| && AllComparable(labels, preds)
    requires b < |labels| && b < |names|
    ensures var ps := Prepare(labels[b], preds[b]);
            PutAll(d, Mismatches(labels, preds, names, b + 1)) ==
            PutAll(PutAll(d, Mismatches(labels, preds, names, b)), RowMismatches(ps, labels[b].rows, names[b], Min3(|ps|, |labels[b].rows|, |names[b]|)))
  {
    PutAllAppend(d, Mismatches(labels, preds, names, b), BatchMismatches(labels[b], preds[b], names[b]));
  }

  /** Adding one write to the end of a sequence of dict writes applies it last. */
  lemma PutAllSnoc<K, V>(d: Dict<K, V>, items: seq<(K, V)>, k: K, v: V)
    ensures PutAll(d, items + [(k, v)]) == Put(PutAll(d, items), k, v)
  {
    assert (items + [(k, v)])[..|items|] == items;
  }

  // ---------------------------------------------------------------------------
  // The metric

  class AccuracyMultiLabel {
    var sumMetric: int
    var numInst: int
    var predStatus: Dict<int, Mismatch>

    /** The counters never disagree and `pred_status` is a well-formed dict. */
    ghost predicate Valid()
      reads this
    {
      0 <= sumMetric <= numInst && PyDict.Valid(predStatus)
    }

    /** `__init__`: the base class zeroes both counters; `pred_status` starts empty. */
    constructor()
      ensures Valid()
      ensures sumMetric == 0 && numInst == 0 && predStatus == Empty()
    {
      sumMetric := 0;
      numInst := 0;
      predStatus := Empty();
    }

    /** `reset` of the base class, which `train` and `test` call: both counters back to zero. */
    method Reset()
      requires Valid()
      modifies this`sumMetric, this`numInst
      ensures Valid()
      ensures sumMetric == 0 && numInst == 0
    {
      sumMetric := 0;
      numInst := 0;
    }

    /** `update(labels, preds)`: every batch pair adds its correct rows to `sum_metric` and its
        prediction rows to `num_inst`. */
    method Update(labels: seq<Matrix>, preds: seq<Matrix>)
      requires Valid()
      requires |labels| == |preds| && AllComparable(labels, preds)
      modifies this`sumMetric, this`numInst
      ensures Valid()
      ensures numInst == old(numInst) + TotalRows(preds)
      ensures sumMetric == old(sumMetric) + TotalCorrect(labels, preds)
    {
      var b := 0;
      while b < |labels|
        invariant 0 <= b <= |labels|
        invariant AllComparable(labels[..b], preds[..b])
        invariant numInst == old(numInst) + TotalRows(preds[..b])
        invariant sumMetric == old(sumMetric) + TotalCorrect(labels[..b], preds[..b])
        invariant Valid()
      {
        assert labels[..b + 1][..b] == labels[..b] && preds[..b + 1][..b] == preds[..b];
        assert AllComparable(labels[..b + 1], preds[..b + 1]) by {
          assert forall c :: 0 <= c <= b ==> labels[..b + 1][c] == labels[c] && preds[..b + 1][c] == preds[c];
        }
        sumMetric := sumMetric + BatchCorrect(labels[b], preds[b]);
        numInst := numInst + |preds[b].rows|;
        b := b + 1;
      }
      assert labels[..b] == labels && preds[..b] == preds;
    }

    /** The inner loop of `get_incorrect_preds` (lines 55-59) over the first `rows` rows of one
        batch: each mismatching row writes its `[p, l]` pair under its id. */
    method RecordRows(ps: seq<Pred>, ls: seq<seq<int>>, ns: seq<int>, rows: nat)
      requires Valid()
      requires rows <= |ps| && rows <= |ls| && rows <= |ns|
      modifies this`predStatus
      ensures Valid()
      ensures predStatus == PutAll(old(predStatus), RowMismatches(ps, ls, ns, rows))
    {
      ghost var start := predStatus;
      var j := 0;
      while j < rows
        invariant 0 <= j <= rows
        invariant predStatus == PutAll(start, RowMismatches(ps, ls, ns, j))
      {
        ghost var done := RowMismatches(ps, ls, ns, j);
        if !RowCorrect(ps[j], ls[j]) {
          assert RowMismatches(ps, ls, ns, j + 1) == done + [(ns[j], Mismatch(ps[j], ls[j]))];
          PutAllSnoc(start, done, ns[j], Mismatch(ps[j], ls[j]));
          predStatus := Put(predStatus, ns[j], Mismatch(ps[j], ls[j]));
        } else {
          assert RowMismatches(ps, ls, ns, j + 1) == done + [];
          assert done + [] == done;
        }
        j := j + 1;
      }
      PutAllValid(start, RowMismatches(ps, ls, ns, rows));
    }

    /** `get_incorrect_preds(labels, preds, names)`: writes `pred_status[id] = [p, l]` for every
        visited row whose prediction differs from its label, batch by batch and row by row, so
        that a later write to the same id replaces an earlier one. */
    method GetIncorrectPreds(labels: seq<Matrix>, preds: seq<Matrix>, names: seq<seq<int>>)
      requires Valid()
      requires |labels| == |preds| && AllComparable(labels, preds)
      modifies this`predStatus
      ensures Valid()
      ensures predStatus == PutAll(old(predStatus), Mismatches(labels, preds, names, Visited(labels, names)))
    {
      ghost var start := predStatus;
      var batches := Visited(labels, names);
      var b := 0;
      while b < batches
        invariant 0 <= b <= batches
        invariant Valid()
        invariant predStatus == PutAll(start, Mismatches(labels, preds, names, b))
      {
        var ps := Prepare(labels[b], preds[b]);
        RecordRows(ps, labels[b].rows, names[b], Min3(|ps|, |labels[b].rows|, |names[b]|));
        MismatchesStep(start, labels, preds, names, b);
        b := b + 1;
      }
    }
  }

  /** What `get_incorrect_preds` leaves in `pred_status`: an id is present iff it was before or some
      visited mismatching row carries it; an id that no mismatching row carries keeps its old entry;
      and the entry of a mismatching row no later-written row overrides is its `[p, l]` pair. */
  lemma IncorrectPredsEffect(old_: Dict<int, Mismatch>, labels: seq<Matrix>, preds: seq<Matrix>, names: seq<seq<int>>, id: int)
    requires |labels| == |preds| && AllComparable(labels, preds)
    ensures var w := Mismatches(labels, preds, names, Visited(labels, names));
            var after := PutAll(old_, w);
            && (id in after.entries <==> id in old_.entries || exists m :: (id, m) in w)
            && ((forall m :: (id, m) !in w) && id in old_.entries ==> after.entries[id] == old_.entries[id])
            && (forall i :: 0 <= i < |w| && w[i].0 == id && (forall k :: i < k < |w| ==> w[k].0 != id) ==>
                  id in after.entries && after.entries[id] == w[i].1)
  {
    var w := Mismatches(labels, preds, names, Visited(labels, names));
    PutAllKeys(old_, w, id);
    if exists i :: 0 <= i < |w| && w[i].0 == id {
      var i :| 0 <= i < |w| && w[i].0 == id;
      assert (id, w[i].1) in w;
    }
    if exists m :: (id, m) in w {
      var m :| (id, m) in w;
      var i :| 0 <= i < |w| && w[i] == (id, m);
    }
    if forall m :: (id, m) !in w {
      assert forall i :: 0 <= i < |w| ==> w[i].0 != id by {
        forall i | 0 <= i < |w| ensures w[i].0 != id {
          assert (w[i].0, w[i].1) in w;
        }
      }
      PutAllUntouched(old_, w, id);
    }
    forall i | 0 <= i < |w| && w[i].0 == id && (forall k :: i < k < |w| ==> w[k].0 != id)
      ensures id in PutAll(old_, w).entries && PutAll(old_, w).entries[id] == w[i].1
    {
      PutAllLastWins(old_, w, i);
    }
  }

  /** The unit test's example: one label batch `[[0, 1, 1], [0, 1, 0]]`, predictions
      `[[0, 1, 0], [0, 1, 0]]`. One of two rows is right, and since the names tensor
      `[[1], [2]]` is not wrapped, the one batch is zipped with the name row `[1]`, so only
      row 0 is visited and recorded under id 1. */
  lemma TestExample()
    ensures var l := Matrix(3, [[0, 1, 1], [0, 1, 0]]);
            var p := Matrix(3, [[0, 1, 0], [0, 1, 0]]);
            && AllComparable([l], [p])
            && TotalRows([p]) == 2
            && TotalCorrect([l], [p]) == 1
            && Mismatches([l], [p], [[1], [2]], Visited([l], [[1], [2]])) == [(1, Mismatch(Vec([0, 1, 0]), [0, 1, 1]))]
  {
    var l := Matrix(3, [[0, 1, 1], [0, 1, 0]]);
    var p := Matrix(3, [[0, 1, 0], [0, 1, 0]]);
    assert [l][..0] == [] && [p][..0] == [];
    assert Prepare(l, p) == [Vec([0, 1, 0]), Vec([0, 1, 0])];
    assert [0, 1, 0] != [0, 1, 1] by {
      assert [0, 1, 0][2] != [0, 1, 1][2];
    }
  }
}
