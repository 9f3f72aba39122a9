/** Python's `dict`: a finite map that remembers insertion order.

    `order` lists the keys in the order they were first inserted and
    `entries` holds the current value of each. Assigning to an existing key
    (`d[k] = v`) replaces the value and keeps the key's position; assigning
    to a new key appends it. Iteration (`d.items()`, `d.keys()`,
    `d.values()`) follows `order`. The core depends on this order in two
    places: `reserve_dict` lets the key seen last win, and
    `create_retrain_dataset` emits records in iteration order. */
module PyDict {

  datatype Dict<K, V> = Dict(order: seq<K>, entries: map<K, V>)

  ghost predicate Distinct<T>(s: seq<T>) {
    forall i, j :: 0 <= i < j < |s| ==> s[i] != s[j]
  }

  /** A sequence without repeats holds each value at most once. */
  lemma {:induction false} DistinctCount<T>(s: seq<T>, x: T)
    requires Distinct(s)
    ensures multiset(s)[x] <= 1
    decreases |s|
  {
    if |s| > 0 {
      var n := |s| - 1;
      assert s == s[..n] + [s[n]];
      DistinctCount(s[..n], x);
      if x == s[n] {
        assert x !in s[..n];
      }
    }
  }

  /** Rearranging a sequence without repeats leaves it without repeats. */
  lemma DistinctPermutation<T>(a: seq<T>, b: seq<T>)
    requires Distinct(a) && multiset(a) == multiset(b)
    ensures Distinct(b)
  {
    forall i, j | 0 <= i < j < |b| ensures b[i] != b[j] {
      if b[i] == b[j] {
        assert b == b[..j] + b[j..];
        assert b[i] in b[..j];
        assert b[j..][0] == b[j];
        assert multiset(b)[b[i]] == multiset(b[..j])[b[i]] + multiset(b[j..])[b[i]];
        DistinctCount(a, b[i]);
      }
    }
  }

  /** The keys in `order` are listed once each and are exactly the keys of `entries`. */
  ghost predicate Valid<K, V>(d: Dict<K, V>) {
    && Distinct(d.order)
    && (forall k | k in d.entries :: k in d.order)
    && (forall i | 0 <= i < |d.order| :: d.order[i] in d.entries)
  }

  /** No two keys share a value. */
  ghost predicate Injective<K, V>(d: Dict<K, V>) {
    forall k1, k2 :: k1 in d.entries && k2 in d.entries && k1 != k2 ==> d.entries[k1] != d.entries[k2]
  }

  function Empty<K, V>(): (d: Dict<K, V>)
    ensures Valid(d) && |d.entries| == 0
  {
    Dict([], map[])
  }

  /** `len(d)` */
  function Len<K, V>(d: Dict<K, V>): nat {
    |d.order|
  }

  /** `d[k] = v` */
  function Put<K, V>(d: Dict<K, V>, k: K, v: V): Dict<K, V> {
    Dict(if k in d.entries then d.order else d.order + [k], d.entries[k := v])
  }

  /** Assigning to a key keeps a dict well formed. */
  lemma PutValid<K, V>(d: Dict<K, V>, k: K, v: V)
    requires Valid(d)
    ensures Valid(Put(d, k, v))
  {
  }

  /** `list(d.items())` */
  function Items<K, V>(d: Dict<K, V>): (r: seq<(K, V)>)
    requires Valid(d)
    ensures |r| == |d.order|
    ensures forall i :: 0 <= i < |r| ==> r[i].0 == d.order[i] && r[i].1 == d.entries[d.order[i]]
  {
    seq(|d.order|, i requires 0 <= i < |d.order| => (d.order[i], d.entries[d.order[i]]))
  }

  /** `list(d.values())` */
  function Values<K, V>(d: Dict<K, V>): (r: seq<V>)
    requires Valid(d)
    ensures |r| == |d.order|
    ensures forall i :: 0 <= i < |r| ==> r[i] == d.entries[d.order[i]]
  {
    seq(|d.order|, i requires 0 <= i < |d.order| => d.entries[d.order[i]])
  }

  /** A value is among `d.values()` exactly when some key holds it. */
  lemma ValuesMembership<K, V>(d: Dict<K, V>, v: V)
    requires Valid(d)
    ensures v in Values(d) <==> exists k :: k in d.entries && d.entries[k] == v
  {
    if exists k :: k in d.entries && d.entries[k] == v {
      var k :| k in d.entries && d.entries[k] == v;
      var i :| 0 <= i < |d.order| && d.order[i] == k;
      assert Values(d)[i] == v;
    }
  }

  /** The position of the first key of `ks` that `d` lacks, or `|ks|` when it has them all. */
  function FirstMissing<K, V>(d: Dict<K, V>, ks: seq<K>): (m: nat)
    ensures m <= |ks|
    ensures forall i :: 0 <= i < m ==> ks[i] in d.entries
    ensures m < |ks| ==> ks[m] !in d.entries
    decreases |ks|
  {
    if |ks| == 0 || ks[0] !in d.entries then 0
    else
      var m := FirstMissing(d, ks[1..]);
      assert forall i :: 1 <= i < |ks| ==> ks[i] == ks[1..][i - 1];
      m + 1
  }

  /** `[d[k] for k in ks]` when every key is present. */
  function GetAll<K, V>(d: Dict<K, V>, ks: seq<K>): (r: seq<V>)
    requires forall i :: 0 <= i < |ks| ==> ks[i] in d.entries
    ensures |r| == |ks|
    ensures forall i :: 0 <= i < |ks| ==> r[i] == d.entries[ks[i]]
  {
    seq(|ks|, i requires 0 <= i < |ks| => d.entries[ks[i]])
  }

  /** The assignments `d[k] = v` for every `(k, v)` of `items`, in order. */
  function PutAll<K, V>(d: Dict<K, V>, items: seq<(K, V)>): Dict<K, V>
    decreases |items|
  {
    if |items| == 0 then d
    else
      var n := |items| - 1;
      Put(PutAll(d, items[..n]), items[n].0, items[n].1)
  }

  /** Any sequence of assignments keeps a dict well formed. */
  lemma {:induction false} PutAllValid<K, V>(d: Dict<K, V>, items: seq<(K, V)>)
    requires Valid(d)
    ensures Valid(PutAll(d, items))
    decreases |items|
  {
    if |items| > 0 {
      var n := |items| - 1;
      PutAllValid(d, items[..n]);
      PutValid(PutAll(d, items[..n]), items[n].0, items[n].1);
    }
  }

  lemma {:induction false} PutAllAppend<K, V>(d: Dict<K, V>, a: seq<(K, V)>, b: seq<(K, V)>)
    ensures PutAll(d, a + b) == PutAll(PutAll(d, a), b)
    decreases |b|
  {
    if |b| == 0 {
      assert a + b == a;
    } else {
      var n := |b| - 1;
      assert (a + b)[..|a + b| - 1] == a + b[..n];
      assert (a + b)[|a + b| - 1] == b[n];
      PutAllAppend(d, a, b[..n]);
    }
  }

  /** A key is present afterwards iff it was present before or some assignment wrote it. */
  lemma {:induction false} PutAllKeys<K, V>(d: Dict<K, V>, items: seq<(K, V)>, k: K)
    ensures k in PutAll(d, items).entries <==> k in d.entries || exists i :: 0 <= i < |items| && items[i].0 == k
    decreases |items|
  {
    if |items| > 0 {
      var n := |items| - 1;
      PutAllKeys(d, items[..n], k);
      if exists i :: 0 <= i < n && items[..n][i].0 == k {
        var i :| 0 <= i < n && items[..n][i].0 == k;
        assert items[i].0 == k;
      }
      if exists i :: 0 <= i < |items| && items[i].0 == k {
        var i :| 0 <= i < |items| && items[i].0 == k;
        if i < n { assert items[..n][i].0 == k; }
      }
    }
  }

  /** When several assignments write the same key, the last one decides its value. */
  lemma {:induction false} PutAllLastWins<K, V>(d: Dict<K, V>, items: seq<(K, V)>, i: nat)
    requires i < |items|
    requires forall j :: i < j < |items| ==> items[j].0 != items[i].0
    ensures items[i].0 in PutAll(d, items).entries
    ensures PutAll(d, items).entries[items[i].0] == items[i].1
    decreases |items|
  {
    var n := |items| - 1;
    if i < n {
      assert items[..n][i] == items[i];
      PutAllLastWins(d, items[..n], i);
    }
  }

  /** A key that no assignment writes keeps its presence and its value. */
  lemma {:induction false} PutAllUntouched<K, V>(d: Dict<K, V>, items: seq<(K, V)>, k: K)
    requires forall i :: 0 <= i < |items| ==> items[i].0 != k
    ensures k in PutAll(d, items).entries <==> k in d.entries
    ensures k in d.entries ==> PutAll(d, items).entries[k] == d.entries[k]
    decreases |items|
  {
    if |items| > 0 {
      var n := |items| - 1;
      PutAllUntouched(d, items[..n], k);
    }
  }

  /** Keys already present keep their positions: the old order is a prefix of the new one. */
  lemma {:induction false} PutAllKeepsOrder<K, V>(d: Dict<K, V>, items: seq<(K, V)>)
    ensures |d.order| <= |PutAll(d, items).order|
    ensures PutAll(d, items).order[..|d.order|] == d.order
    decreases |items|
  {
    if |items| > 0 {
      var n := |items| - 1;
      PutAllKeepsOrder(d, items[..n]);
      var p := PutAll(d, items[..n]);
      assert (p.order + [items[n].0])[..|d.order|] == p.order[..|d.order|];
    }
  }

  /** The keys written by `items`, in order. */
  function KeysOf<K, V>(items: seq<(K, V)>): (r: seq<K>)
    ensures |r| == |items|
    ensures forall i :: 0 <= i < |items| ==> r[i] == items[i].0
  {
    seq(|items|, i requires 0 <= i < |items| => items[i].0)
  }

  /** Inserting pairwise-distinct keys that are all new appends them in order. */
  lemma {:induction false} PutAllFreshOrder<K, V>(d: Dict<K, V>, items: seq<(K, V)>)
    requires forall i, j :: 0 <= i < j < |items| ==> items[i].0 != items[j].0
    requires forall i :: 0 <= i < |items| ==> items[i].0 !in d.entries
    ensures PutAll(d, items).order == d.order + KeysOf(items)
    decreases |items|
  {
    if |items| > 0 {
      var n := |items| - 1;
      var front := items[..n];
      PutAllFreshOrder(d, front);
      var k := items[n].0;
      PutAllKeys(d, front, k);
      assert k !in PutAll(d, front).entries;
      assert KeysOf(items) == KeysOf(front) + [k];
    }
  }
}
