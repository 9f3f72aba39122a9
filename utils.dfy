/** `Utils` (deep_abyasa/helpers/utils.py): file-path construction for an
    explicit file list, the sorted list-to-dict conversion and dict inversion
    from which the label vocabularies are built. */
module Utils {
  import opened PyDict
  import opened Strings

  /** `os.path.join(root, f)` on POSIX: an absolute `f` replaces `root`; otherwise
      a `/` is inserted unless `root` is empty or already ends with one. */
  function JoinPath(root: string, f: string): string {
    if |f| > 0 && f[0] == '/' then f
    else if |root| == 0 || root[|root| - 1] == '/' then root + f
    else root + "/" + f
  }

  /** The joined path always ends with the file name, and for a relative name it extends `root`. */
  lemma JoinPathParts(root: string, f: string)
    ensures |f| <= |JoinPath(root, f)|
    ensures JoinPath(root, f)[|JoinPath(root, f)| - |f|..] == f
    ensures !(|f| > 0 && f[0] == '/') ==> JoinPath(root, f)[..|root|] == root
  {
  }

  /** `create_list_of_file_paths(root, files)` with an explicit `files` list. */
  function CreateListOfFilePaths(root: string, files: seq<string>): (r: seq<string>)
    ensures |r| == |files|
    ensures forall i :: 0 <= i < |files| ==> r[i] == JoinPath(root, files[i])
    ensures forall i :: 0 <= i < |files| && |root| > 0 && root[|root| - 1] != '/' && (|files[i]| == 0 || files[i][0] != '/')
              ==> r[i] == root + "/" + files[i]
  {
    seq(|files|, i requires 0 <= i < |files| => JoinPath(root, files[i]))
  }

  /** `[0, 1, ..., n - 1]` */
  function Range(n: nat): (r: seq<int>)
    ensures |r| == n && forall i :: 0 <= i < n ==> r[i] == i
  {
    seq(n, i => i)
  }

  /** `convert_list_to_dict(items)`: `{i: l for i, l in enumerate(sorted(items))}`. */
  function ConvertListToDict(items: seq<string>): (d: Dict<int, string>)
    ensures Valid(d)
    ensures d.order == Range(|items|)
    ensures forall i :: i in d.entries <==> 0 <= i < |items|
    ensures Ascending(Values(d))
    ensures multiset(Values(d)) == multiset(items)
  {
    var s := Sort(items);
    assert |s| == |multiset(s)| == |multiset(items)| == |items|;
    var d := Dict(Range(|s|), map i | 0 <= i < |s| :: s[i]);
    assert Valid(d) by {
      forall k | k in d.entries ensures k in d.order {
        assert d.order[k] == k;
      }
    }
    assert Values(d) == s;
    d
  }

  /** The keys of the dict are 0 .. n-1 in order, and the key-order values are `sorted(items)`. */
  lemma ConvertListToDictIsSorted(items: seq<string>)
    ensures Values(ConvertListToDict(items)) == Sort(items)
    ensures forall i, j :: 0 <= i < j < |items| ==> LessEq(ConvertListToDict(items).entries[i], ConvertListToDict(items).entries[j])
  {
    var d := ConvertListToDict(items);
    SortedIsUnique(Values(d), Sort(items));
    assert forall i :: 0 <= i < |items| ==> Values(d)[i] == d.entries[i];
  }

  function Swapped<K, V>(items: seq<(K, V)>): (r: seq<(V, K)>)
    ensures |r| == |items|
    ensures forall i :: 0 <= i < |items| ==> r[i] == (items[i].1, items[i].0)
  {
    seq(|items|, i requires 0 <= i < |items| => (items[i].1, items[i].0))
  }

  /** `reserve_dict(d)`: `{v: k for k, v in d.items()}`. */
  function ReserveDict<K, V>(d: Dict<K, V>): (r: Dict<V, K>)
    requires Valid(d)
    ensures Valid(r)
  {
    PutAllValid(Empty(), Swapped(Items(d)));
    PutAll(Empty(), Swapped(Items(d)))
  }

  /** The inverted dict's keys are exactly the original values, and each maps back to a key holding it. */
  lemma ReserveDictKeys<K, V>(d: Dict<K, V>, v: V)
    requires Valid(d)
    ensures v in ReserveDict(d).entries <==> exists k :: k in d.entries && d.entries[k] == v
    ensures v in ReserveDict(d).entries ==>
              ReserveDict(d).entries[v] in d.entries && d.entries[ReserveDict(d).entries[v]] == v
  {
    var items := Swapped(Items(d));
    PutAllKeys(Empty(), items, v);
    if exists k :: k in d.entries && d.entries[k] == v {
      var k :| k in d.entries && d.entries[k] == v;
      var i :| 0 <= i < |d.order| && d.order[i] == k;
      assert items[i].0 == v;
    }
    if v in ReserveDict(d).entries {
      var i :| 0 <= i < |items| && items[i].0 == v;
      ReserveDictWitness(d, v, i);
    }
  }

  /** The key the inverted dict keeps for `v` is the last key holding `v`. */
  lemma ReserveDictWitness<K, V>(d: Dict<K, V>, v: V, i: nat)
    requires Valid(d)
    requires i < |d.order| && d.entries[d.order[i]] == v
    ensures v in ReserveDict(d).entries
    ensures ReserveDict(d).entries[v] in d.entries && d.entries[ReserveDict(d).entries[v]] == v
  {
    var items := Swapped(Items(d));
    var last := LastWith(items, v, i);
    PutAllLastWins(Empty(), items, last);
  }

  /** The last position in `items` whose key is `v`, at or after `i`. */
  ghost function LastWith<A, B>(items: seq<(A, B)>, v: A, i: nat): (j: nat)
    requires i < |items| && items[i].0 == v
    ensures i <= j < |items| && items[j].0 == v
    ensures forall m :: j < m < |items| ==> items[m].0 != v
    decreases |items| - i
  {
    if exists m :: i < m < |items| && items[m].0 == v then
      var m :| i < m < |items| && items[m].0 == v;
      LastWith(items, v, m)
    else i
  }

  /** When values repeat, the key seen last in iteration order wins. */
  lemma ReserveDictLastWins<K, V>(d: Dict<K, V>, i: nat)
    requires Valid(d)
    requires i < |d.order|
    requires forall j :: i < j < |d.order| ==> d.entries[d.order[j]] != d.entries[d.order[i]]
    ensures d.entries[d.order[i]] in ReserveDict(d).entries
    ensures ReserveDict(d).entries[d.entries[d.order[i]]] == d.order[i]
  {
    PutAllLastWins(Empty(), Swapped(Items(d)), i);
  }

  /** For a dict with distinct values, inverting sends every value back to its key. */
  lemma ReserveDictInverts<K, V>(d: Dict<K, V>, k: K)
    requires Valid(d) && Injective(d)
    requires k in d.entries
    ensures d.entries[k] in ReserveDict(d).entries
    ensures ReserveDict(d).entries[d.entries[k]] == k
  {
    var i :| 0 <= i < |d.order| && d.order[i] == k;
    ReserveDictLastWins(d, i);
  }

  /** Inverting a dict with distinct values lists the values in the original iteration order. */
  lemma ReserveDictOrder<K, V>(d: Dict<K, V>)
    requires Valid(d) && Injective(d)
    ensures ReserveDict(d).order == Values(d)
  {
    var items := Swapped(Items(d));
    assert KeysOf(items) == Values(d);
    assert forall i, j :: 0 <= i < j < |items| ==> items[i].0 != items[j].0 by {
      forall i, j | 0 <= i < j < |items| ensures items[i].0 != items[j].0 {
        assert d.order[i] != d.order[j];
      }
    }
    PutAllFreshOrder(Empty(), items);
  }

  /** An inverted dict never maps two values to one key. */
  lemma ReserveDictIsInjective<K, V>(d: Dict<K, V>)
    requires Valid(d)
    ensures Injective(ReserveDict(d))
  {
    var r := ReserveDict(d);
    forall v1, v2 | v1 in r.entries && v2 in r.entries && v1 != v2 ensures r.entries[v1] != r.entries[v2] {
      ReserveDictKeys(d, v1);
      ReserveDictKeys(d, v2);
    }
  }

  /** Inverting twice gives back a dict with distinct values, iteration order included. */
  lemma ReserveDictTwice<K, V>(d: Dict<K, V>)
    requires Valid(d) && Injective(d)
    ensures ReserveDict(ReserveDict(d)) == d
  {
    var r := ReserveDict(d);
    ReserveDictOrder(d);
    ReserveDictIsInjective(d);
    var rr := ReserveDict(r);
    ReserveDictOrder(r);
    assert rr.order == d.order by {
      forall i | 0 <= i < |d.order| ensures Values(r)[i] == d.order[i] {
        assert r.order[i] == d.entries[d.order[i]];
        ReserveDictInverts(d, d.order[i]);
      }
    }
    forall k | k in d.entries ensures k in rr.entries && rr.entries[k] == d.entries[k] {
      ReserveDictInverts(d, k);
      ReserveDictInverts(r, d.entries[k]);
    }
    forall k | k in rr.entries ensures k in d.entries {
      ReserveDictKeys(r, k);
    }
    assert rr.entries == d.entries;
  }
}
