/** `JsonIndexMultiLabelDataset` (deep_abyasa/datasets/cv.py): a dataset over the rows of a
    JSON index table. Row `idx` yields the image of its file-name column, its label codes and
    a numeric id parsed from the file name. With one-hot encoding on, the codes are a 0/1
    vector indexed through a label-to-index map, either supplied by the caller or derived
    from the label column. Otherwise they are the raw label cell.

    The image itself (reading, transforming, reshaping) is not modelled. A dataset keeps the
    table it was built from, the two column names, the two flags and the map it settled on. */
module Datasets {
  import opened Errors
  import opened PyDict
  import opened Strings
  import opened Frames
  import EncodeLabels

  /** The fields `__init__` stores and later reads: the loaded index table, the file-name and
      label column names, the one-hot flag, the derive flag and the validated label map. */
  datatype Dataset = Dataset(
    index: Table,
    xCol: string,
    yCol: string,
    oneHot: bool,
    derive: bool,
    labels: Option<Dict<string, int>>)

  /** What `__init__` guarantees: a map exactly when encoding one-hot, and a well-formed table. */
  ghost predicate Consistent(ds: Dataset) {
    && WellFormed(ds.index)
    && (ds.labels.Some? <==> ds.oneHot)
    && (ds.labels.Some? ==> Valid(ds.labels.value))
  }

  // ---------------------------------------------------------------------------
  // Construction

  /** `validate_and_set_labels(labels)`: a non-empty supplied map takes precedence; otherwise,
      with the derive flag, the `ltoi` of the label column's distinct labels; otherwise one-hot
      encoding has no label source. Without one-hot encoding the method falls through to `None`. */
  function ValidateAndSetLabels(oneHot: bool, derive: bool, supplied: Dict<string, int>, index: Table, yCol: string)
    : (r: Result<Option<Dict<string, int>>>)
    requires WellFormed(index)
    ensures !oneHot ==> r == Ok(None)
    ensures oneHot && Len(supplied) > 0 ==> r == Ok(Some(supplied))
    ensures oneHot && Len(supplied) == 0 && !derive ==> r == Err(MissingLabelSource)
    ensures oneHot && Len(supplied) == 0 && derive ==>
              (r.Ok? <==> yCol in index.columns && index.height > 0)
    ensures oneHot && Len(supplied) == 0 && derive && yCol !in index.columns ==> r == Err(MissingColumn(yCol))
    ensures oneHot && Len(supplied) == 0 && derive && r.Ok? ==>
              && r.value.Some? && Valid(r.value.value)
              && (forall l :: l in r.value.value.entries <==>
                    exists i :: 0 <= i < index.height && l in EncodeLabels.CellLabels(index.columns[yCol][i]))
  {
    if oneHot && Len(supplied) > 0 then Ok(Some(supplied))
    else if oneHot && derive then
      var col :- Column(index, yCol);
      var labels :- EncodeLabels.ExtractArrayLike(col);
      Ok(Some(EncodeLabels.GenerateItolLtoi(labels).ltoi))
    else if oneHot then Err(MissingLabelSource)
    else Ok(None)
  }

  /** A derived map numbers the labels of the column 0, 1, ... in string order. */
  lemma DerivedLabelsAreSorted(index: Table, yCol: string, l1: string, l2: string)
    requires WellFormed(index)
    requires ValidateAndSetLabels(true, true, Empty(), index, yCol).Ok?
    requires var m := ValidateAndSetLabels(true, true, Empty(), index, yCol).value.value;
             l1 in m.entries && l2 in m.entries
    ensures var m := ValidateAndSetLabels(true, true, Empty(), index, yCol).value.value;
            && 0 <= m.entries[l1] < Len(m)
            && (Less(l1, l2) <==> m.entries[l1] < m.entries[l2])
  {
    var labels := EncodeLabels.ExtractArrayLike(index.columns[yCol]).value;
    EncodeLabels.GenerateItolLtoiInverse(labels);
    EncodeLabels.GenerateItolLtoiOrder(labels, l1, l2);
  }

  /** `__init__`: store the configuration and the table loaded from the index file, and settle
      on the label map. */
  function Create(index: Table, xCol: string, yCol: string, oneHot: bool, derive: bool, supplied: Dict<string, int>)
    : (r: Result<Dataset>)
    requires WellFormed(index) && Valid(supplied)
    ensures r.Ok? <==> ValidateAndSetLabels(oneHot, derive, supplied, index, yCol).Ok?
    ensures r.Err? ==> r.error == ValidateAndSetLabels(oneHot, derive, supplied, index, yCol).error
    ensures r.Ok? ==> Consistent(r.value)
    ensures r.Ok? ==> r.value == Dataset(index, xCol, yCol, oneHot, derive,
                                         ValidateAndSetLabels(oneHot, derive, supplied, index, yCol).value)
  {
    var labels :- ValidateAndSetLabels(oneHot, derive, supplied, index, yCol);
    Ok(Dataset(index, xCol, yCol, oneHot, derive, labels))
  }

  /** `__len__`: the number of rows of the index; exactly these positions can be fetched,
      counting from the front or, with a negative position, from the back. */
  function Length(ds: Dataset): (n: nat)
    ensures forall idx :: Locate(ds.index.height, idx).Ok? <==> -(n as int) <= idx < n
  {
    ds.index.height
  }

  // ---------------------------------------------------------------------------
  // Fetching one row

  /** The row `iloc[idx]` selects: a negative position counts from the end. */
  function Locate(height: nat, idx: int): (r: Result<nat>)
    ensures r.Ok? <==> -(height as int) <= idx < height
    ensures r.Ok? ==> r.value < height && (r.value == idx || r.value == idx + height)
    ensures r.Err? ==> r.error == IndexOutOfRange(idx)
  {
    if 0 <= idx < height then Ok(idx)
    else if -(height as int) <= idx < 0 then Ok(idx + height)
    else Err(IndexOutOfRange(idx))
  }

  /** `name[:-4]`: the file name without its last four characters (empty for a shorter name). */
  function Stem(name: string): (r: string)
    ensures |name| >= 4 ==> |r| == |name| - 4 && name == r + name[|name| - 4..]
    ensures |name| < 4 ==> r == ""
  {
    if |name| >= 4 then name[..|name| - 4] else ""
  }

  /** `float(name[:-4])` for an integer-valued stem: the image id. */
  function ParseId(name: string): (r: Result<int>)
    ensures r.Ok? <==> ParseInt(Stem(name)).Some?
    ensures r.Ok? ==> r.value == ParseInt(Stem(name)).value
    ensures r.Err? ==> r.error == NotANumber(Stem(name))
  {
    match ParseInt(Stem(name))
    case Some(k) => Ok(k)
    case None => Err(NotANumber(Stem(name)))
  }

  /** The file names the retraining records use, `str(k) + '.png'`, parse back to `k`. */
  lemma ParseIdOfFileName(k: int, ext: string)
    requires |ext| == 4
    ensures ParseId(IntToString(k) + ext) == Ok(k)
  {
    var name := IntToString(k) + ext;
    assert Stem(name) == IntToString(k);
    ParseIntOfIntToString(k);
  }

  /** The labels `for i in cell` visits: the elements of a list cell, or the one-character
      strings of a string cell. */
  function CellItems(c: Cell): (r: seq<string>)
    ensures c.Many? ==> r == c.items
    ensures c.Scalar? ==> |r| == |c.text| && forall i :: 0 <= i < |r| ==> r[i] == [c.text[i]]
  {
    match c
    case Many(xs) => xs
    case Scalar(t) => seq(|t|, i requires 0 <= i < |t| => [t[i]])
  }

  /** `[self.labels[i] for i in names]`: the first unknown label is a lookup error. */
  function Lookup(ltoi: Dict<string, int>, names: seq<string>): (r: Result<seq<int>>)
    ensures r.Ok? <==> forall k :: 0 <= k < |names| ==> names[k] in ltoi.entries
    ensures r.Ok? ==> |r.value| == |names| && forall k :: 0 <= k < |names| ==> r.value[k] == ltoi.entries[names[k]]
    ensures r.Err? ==> exists k :: 0 <= k < |names| && names[k] !in ltoi.entries && r.error == MissingLabel(names[k])
                         && forall i :: 0 <= i < k ==> names[i] in ltoi.entries
  {
    var m := FirstMissing(ltoi, names);
    if m < |names| then Err(MissingLabel(names[m])) else Ok(GetAll(ltoi, names))
  }

  /** A position `codes[l]` accepts in a vector of length `n`. */
  predicate InRange(l: int, n: nat) {
    -(n as int) <= l < n
  }

  /** The element `codes[l]` denotes; negative positions count from the end. */
  function Position(l: int, n: nat): (p: nat)
    requires InRange(l, n)
    ensures p < n && (p == l || p == l + n)
  {
    if l < 0 then l + n else l
  }

  predicate AllInRange(lab: seq<int>, n: nat) {
    forall k :: 0 <= k < |lab| ==> InRange(lab[k], n)
  }

  /** `mx.nd.zeros(n)` followed by `codes[l] = 1` for each `l` in turn. */
  function OneHot(n: nat, lab: seq<int>): (r: seq<int>)
    requires AllInRange(lab, n)
    ensures |r| == n
    ensures forall j :: 0 <= j < n ==> r[j] == 0 || r[j] == 1
    decreases |lab|
  {
    if |lab| == 0 then seq(n, _ => 0)
    else
      var m := |lab| - 1;
      assert AllInRange(lab[..m], n) by {
        assert forall k :: 0 <= k < m ==> lab[..m][k] == lab[k];
      }
      OneHot(n, lab[..m])[Position(lab[m], n) := 1]
  }

  /** Position `j` of the one-hot vector is set exactly when some index in the list denotes it. */
  lemma {:induction false} OneHotBit(n: nat, lab: seq<int>, j: nat)
    requires AllInRange(lab, n) && j < n
    ensures OneHot(n, lab)[j] == 1 <==> exists k :: 0 <= k < |lab| && Position(lab[k], n) == j
    decreases |lab|
  {
    if |lab| > 0 {
      var m := |lab| - 1;
      assert AllInRange(lab[..m], n) by {
        assert forall k :: 0 <= k < m ==> lab[..m][k] == lab[k];
      }
      OneHotBit(n, lab[..m], j);
      if exists k :: 0 <= k < m && Position(lab[..m][k], n) == j {
        var k :| 0 <= k < m && Position(lab[..m][k], n) == j;
        assert lab[k] == lab[..m][k];
      }
      if exists k :: 0 <= k < |lab| && Position(lab[k], n) == j {
        var k :| 0 <= k < |lab| && Position(lab[k], n) == j;
        if k < m {
          assert lab[..m][k] == lab[k];
        }
      }
    }
  }

  /** Repeating an index, or listing the indices in another order, leaves the vector as it is. */
  lemma OneHotIgnoresRepeats(n: nat, a: seq<int>, b: seq<int>)
    requires AllInRange(a, n) && AllInRange(b, n)
    requires forall x :: x in a <==> x in b
    ensures OneHot(n, a) == OneHot(n, b)
  {
    forall j | 0 <= j < n ensures OneHot(n, a)[j] == OneHot(n, b)[j] {
      OneHotBit(n, a, j);
      OneHotBit(n, b, j);
      if exists k :: 0 <= k < |a| && Position(a[k], n) == j {
        var k :| 0 <= k < |a| && Position(a[k], n) == j;
        assert a[k] in b;
        var i :| 0 <= i < |b| && b[i] == a[k];
      }
      if exists k :: 0 <= k < |b| && Position(b[k], n) == j {
        var k :| 0 <= k < |b| && Position(b[k], n) == j;
        assert b[k] in a;
        var i :| 0 <= i < |a| && a[i] == b[k];
      }
    }
  }

  /** The codes loop of `__getitem__` (lines 102-104): the first index out of range is an error,
      otherwise the result is the one-hot vector. */
  method Encode(n: nat, lab: seq<int>) returns (r: Result<seq<int>>)
    ensures r.Ok? <==> AllInRange(lab, n)
    ensures r.Ok? ==> r.value == OneHot(n, lab)
    ensures r.Err? ==> exists k :: 0 <= k < |lab| && !InRange(lab[k], n) && r.error == IndexOutOfRange(lab[k])
                         && forall i :: 0 <= i < k ==> InRange(lab[i], n)
  {
    var codes := new int[n](_ => 0);
    var k := 0;
    while k < |lab|
      invariant 0 <= k <= |lab|
      invariant forall i :: 0 <= i < k ==> InRange(lab[i], n)
      invariant AllInRange(lab[..k], n)
      invariant codes[..] == OneHot(n, lab[..k])
    {
      if !InRange(lab[k], n) {
        return Err(IndexOutOfRange(lab[k]));
      }
      assert lab[..k + 1][..k] == lab[..k];
      assert AllInRange(lab[..k + 1], n) by {
        assert forall i :: 0 <= i <= k ==> lab[..k + 1][i] == lab[i];
      }
      codes[Position(lab[k], n)] := 1;
      k := k + 1;
    }
    assert lab[..k] == lab;
    return Ok(codes[..]);
  }

  /** What `__getitem__` yields besides the image. */
  datatype Codes = OneHotCodes(bits: seq<int>) | RawCodes(cell: Cell)

  datatype Item = Item(codes: Codes, id: int)

  /** `__getitem__(idx)`, without the image: locate the row, parse the id from its file name,
      then encode its labels or pass the label cell through. */
  function Fetch(ds: Dataset, idx: int): (r: Result<Item>)
    requires Consistent(ds)
  {
    var row :- Locate(ds.index.height, idx);
    var files :- Column(ds.index, ds.xCol);
    var name :- if files[row].Scalar? then Ok(files[row].text) else Err(NotAString);
    var id :- ParseId(name);
    var cells :- Column(ds.index, ds.yCol);
    if ds.oneHot then
      var ltoi := ds.labels.value;
      var lab :- Lookup(ltoi, CellItems(cells[row]));
      if AllInRange(lab, Len(ltoi)) then Ok(Item(OneHotCodes(OneHot(Len(ltoi), lab)), id))
      else Err(IndexOutOfRange(FirstOutOfRange(lab, Len(ltoi))))
    else Ok(Item(RawCodes(cells[row]), id))
  }

  /** The first index in the list with no element of a length-`n` vector. */
  function FirstOutOfRange(lab: seq<int>, n: nat): (l: int)
    requires !AllInRange(lab, n)
    ensures exists k :: 0 <= k < |lab| && lab[k] == l && !InRange(l, n) && forall i :: 0 <= i < k ==> InRange(lab[i], n)
  {
    if !InRange(lab[0], n) then lab[0]
    else
      assert !AllInRange(lab[1..], n);
      var l := FirstOutOfRange(lab[1..], n);
      assert forall i :: 1 <= i < |lab| ==> lab[i] == lab[1..][i - 1];
      l
  }

  /** `__getitem__(idx)`: the codes are built in a zeroed buffer as the source does. */
  method GetItem(ds: Dataset, idx: int) returns (r: Result<Item>)
    requires Consistent(ds)
    ensures r == Fetch(ds, idx)
  {
    var located := Locate(ds.index.height, idx);
    if located.Err? {
      return Err(located.error);
    }
    var row := located.value;
    var files := Column(ds.index, ds.xCol);
    if files.Err? {
      return Err(files.error);
    }
    if !files.value[row].Scalar? {
      return Err(NotAString);
    }
    var id := ParseId(files.value[row].text);
    if id.Err? {
      return Err(id.error);
    }
    var cells := Column(ds.index, ds.yCol);
    if cells.Err? {
      return Err(cells.error);
    }
    if ds.oneHot {
      var ltoi := ds.labels.value;
      var lab := Lookup(ltoi, CellItems(cells.value[row]));
      if lab.Err? {
        return Err(lab.error);
      }
      var codes := Encode(Len(ltoi), lab.value);
      if codes.Err? {
        FirstOutOfRangeIsUnique(lab.value, Len(ltoi), codes.error.index);
        return Err(codes.error);
      }
      return Ok(Item(OneHotCodes(codes.value), id.value));
    }
    return Ok(Item(RawCodes(cells.value[row]), id.value));
  }

  /** Only one index can be the first out of range. */
  lemma FirstOutOfRangeIsUnique(lab: seq<int>, n: nat, l: int)
    requires exists k :: 0 <= k < |lab| && lab[k] == l && !InRange(l, n) && forall i :: 0 <= i < k ==> InRange(lab[i], n)
    ensures !AllInRange(lab, n) && FirstOutOfRange(lab, n) == l
  {
    var k :| 0 <= k < |lab| && lab[k] == l && !InRange(l, n) && forall i :: 0 <= i < k ==> InRange(lab[i], n);
    var k' :| 0 <= k' < |lab| && lab[k'] == FirstOutOfRange(lab, n) && !InRange(lab[k'], n)
              && forall i :: 0 <= i < k' ==> InRange(lab[i], n);
    assert k == k';
  }

  // ---------------------------------------------------------------------------
  // Properties of one fetched row

  /** A position past either end fails on the position itself; a negative position fetches
      the same row as its non-negative counterpart. */
  lemma FetchPosition(ds: Dataset, idx: int)
    requires Consistent(ds)
    ensures !(-(Length(ds) as int) <= idx < Length(ds)) ==> Fetch(ds, idx) == Err(IndexOutOfRange(idx))
    ensures -(Length(ds) as int) <= idx < 0 ==> Fetch(ds, idx) == Fetch(ds, idx + Length(ds))
  {
  }

  /** The id is the number written in the row's file name before its four-character extension. */
  lemma FetchId(ds: Dataset, idx: int)
    requires Consistent(ds)
    requires Fetch(ds, idx).Ok?
    ensures var row := Locate(ds.index.height, idx).value;
            && ds.xCol in ds.index.columns
            && ds.index.columns[ds.xCol][row].Scalar?
            && Some(Fetch(ds, idx).value.id) == ParseInt(Stem(ds.index.columns[ds.xCol][row].text))
  {
  }

  /** With one-hot encoding: the vector has one position per entry of the map, and position
      `j` is 1 exactly when some label of the row maps to `j`, and 0 otherwise. */
  lemma FetchOneHot(ds: Dataset, idx: int, j: nat)
    requires Consistent(ds) && ds.oneHot
    requires Fetch(ds, idx).Ok?
    ensures var ltoi := ds.labels.value;
            var row := Locate(ds.index.height, idx).value;
            var names := CellItems(ds.index.columns[ds.yCol][row]);
            var bits := Fetch(ds, idx).value.codes.bits;
            && Fetch(ds, idx).value.codes.OneHotCodes?
            && |bits| == Len(ltoi)
            && (forall k :: 0 <= k < |names| ==> names[k] in ltoi.entries && InRange(ltoi.entries[names[k]], Len(ltoi)))
            && (j < Len(ltoi) ==>
                  (bits[j] == 1 <==> exists k :: 0 <= k < |names| && Position(ltoi.entries[names[k]], Len(ltoi)) == j)
                  && (bits[j] == 0 <==> !exists k :: 0 <= k < |names| && Position(ltoi.entries[names[k]], Len(ltoi)) == j))
  {
    var ltoi := ds.labels.value;
    var row := Locate(ds.index.height, idx).value;
    var names := CellItems(ds.index.columns[ds.yCol][row]);
    var lab := Lookup(ltoi, names).value;
    if j < Len(ltoi) {
      OneHotBit(Len(ltoi), lab, j);
    }
  }

  /** With one-hot encoding, a label of the row missing from the map is reported (the first one). */
  lemma FetchMissingLabel(ds: Dataset, idx: int)
    requires Consistent(ds) && ds.oneHot
    requires -(Length(ds) as int) <= idx < Length(ds)
    requires ds.xCol in ds.index.columns && ds.yCol in ds.index.columns
    requires var row := Locate(ds.index.height, idx).value;
             ds.index.columns[ds.xCol][row].Scalar? && ParseId(ds.index.columns[ds.xCol][row].text).Ok?
    requires var names := CellItems(ds.index.columns[ds.yCol][Locate(ds.index.height, idx).value]);
             exists k :: 0 <= k < |names| && names[k] !in ds.labels.value.entries
    ensures var names := CellItems(ds.index.columns[ds.yCol][Locate(ds.index.height, idx).value]);
            exists k :: 0 <= k < |names| && names[k] !in ds.labels.value.entries
                        && Fetch(ds, idx) == Err(MissingLabel(names[k]))
  {
  }

  /** Without one-hot encoding the codes are the row's label cell, unchanged. */
  lemma FetchPassThrough(ds: Dataset, idx: int)
    requires Consistent(ds) && !ds.oneHot
    requires Fetch(ds, idx).Ok?
    ensures Fetch(ds, idx).value.codes == RawCodes(ds.index.columns[ds.yCol][Locate(ds.index.height, idx).value])
  {
  }

  /** The unit test's supplied map `{carbon: 0, hydrogen: 1, oxygen: 2, nitrogen: 3, gibrish: 4}`
      sends a row labelled carbon, hydrogen and oxygen to the indices 0, 1 and 2. */
  lemma SuppliedMapExample()
    ensures var d := Dict(["carbon", "hydrogen", "oxygen", "nitrogen", "gibrish"],
                          map["carbon" := 0, "hydrogen" := 1, "oxygen" := 2, "nitrogen" := 3, "gibrish" := 4]);
            && Valid(d) && Len(d) == 5
            && Lookup(d, ["carbon", "hydrogen", "oxygen"]) == Ok([0, 1, 2])
  {
    var d := Dict(["carbon", "hydrogen", "oxygen", "nitrogen", "gibrish"],
                  map["carbon" := 0, "hydrogen" := 1, "oxygen" := 2, "nitrogen" := 3, "gibrish" := 4]);
    var names := ["carbon", "hydrogen", "oxygen"];
    var r := Lookup(d, names);
    assert names[0] in d.entries && names[1] in d.entries && names[2] in d.entries;
    assert r.Ok?;
    assert r.value[0] == 0 && r.value[1] == 1 && r.value[2] == 2;
    assert r.value == [0, 1, 2];
  }

  /** Those indices give the vector `[1, 1, 1, 0, 0]` of the unit test; a repeated label does not
      change it. */
  lemma OneHotExample()
    ensures AllInRange([0, 1, 2], 5) && OneHot(5, [0, 1, 2]) == [1, 1, 1, 0, 0]
    ensures AllInRange([0, 1, 2, 0], 5) && OneHot(5, [0, 1, 2, 0]) == [1, 1, 1, 0, 0]
  {
    assert OneHot(5, []) == [0, 0, 0, 0, 0];
    assert OneHot(5, [0]) == [1, 0, 0, 0, 0] by {
      assert [0][..0] == [];
    }
    assert OneHot(5, [0, 1]) == [1, 1, 0, 0, 0] by {
      assert [0, 1][..1] == [0];
    }
    assert OneHot(5, [0, 1, 2]) == [1, 1, 1, 0, 0] by {
      assert [0, 1, 2][..2] == [0, 1];
    }
    assert [0, 1, 2, 0][..3] == [0, 1, 2];
  }
}
