/** `Encode_Labels` (deep_abyasa/preprocess/encode_labels.py): collects the
    distinct labels of a label column and numbers them in ascending order,
    giving `itol` (index to label) and its inverse `ltoi` (label to index).
    The static methods become free functions over already-loaded tables. */
module EncodeLabels {
  import opened Errors
  import opened PyDict
  import opened Strings
  import opened Frames
  import Utils

  /** The pair returned by `generate_itol_ltoi`. */
  datatype Encoding = Encoding(itol: Dict<int, string>, ltoi: Dict<string, int>)

  /** The label-column readers `determine_label_extract_method` chooses between. */
  datatype Extractor = SingleLabels | ArrayLike | Delimited(sep: string)

  /** The index-file readers `determine_read_file_method` knows. */
  datatype Reader = ReadJson

  // ---------------------------------------------------------------------------
  // Distinct labels

  /** The distinct elements of `s`, each at its first occurrence. */
  function Unique(s: seq<string>): (r: seq<string>)
    ensures Distinct(r)
    ensures forall x :: x in r <==> x in s
  {
    if |s| == 0 then []
    else
      var n := |s| - 1;
      var u := Unique(s[..n]);
      assert s == s[..n] + [s[n]];
      if s[n] in u then u else u + [s[n]]
  }

  /** The labels one cell contributes to `np.hstack`: a string is one label, an array its elements. */
  function CellLabels(c: Cell): seq<string> {
    match c
    case Scalar(s) => [s]
    case Many(xs) => xs
  }

  /** `np.hstack(column)` over a non-empty column. */
  function Flatten(col: seq<Cell>): (r: seq<string>)
    ensures forall x :: x in r <==> exists i :: 0 <= i < |col| && x in CellLabels(col[i])
  {
    if |col| == 0 then []
    else
      var n := |col| - 1;
      var front := Flatten(col[..n]);
      assert forall i :: 0 <= i < n ==> col[..n][i] == col[i];
      front + CellLabels(col[n])
  }

  /** `extract_single_labels`: `list(column.unique())`; list-valued cells cannot be hashed. */
  function ExtractSingleLabels(col: seq<Cell>): (r: Result<seq<string>>)
    ensures r.Ok? <==> forall i :: 0 <= i < |col| ==> col[i].Scalar?
    ensures r.Err? ==> r.error == Unhashable
    ensures r.Ok? ==> Distinct(r.value)
    ensures r.Ok? ==> forall x :: x in r.value <==> exists i :: 0 <= i < |col| && col[i] == Scalar(x)
  {
    if exists i :: 0 <= i < |col| && col[i].Many? then Err(Unhashable)
    else
      var texts := seq(|col|, i requires 0 <= i < |col| => col[i].text);
      assert forall x :: x in texts <==> exists i :: 0 <= i < |col| && col[i] == Scalar(x) by {
        forall x ensures x in texts <==> exists i :: 0 <= i < |col| && col[i] == Scalar(x) {
          if x in texts {
            var i :| 0 <= i < |col| && texts[i] == x;
            assert col[i] == Scalar(x);
          }
          if exists i :: 0 <= i < |col| && col[i] == Scalar(x) {
            var i :| 0 <= i < |col| && col[i] == Scalar(x);
            assert texts[i] == x;
          }
        }
      }
      Ok(Unique(texts))
  }

  /** `extract_multi_labels_from_arraylike_cols`: `list(set(np.hstack(column)))`.
      `np.hstack` has nothing to stack in an empty column. */
  function ExtractArrayLike(col: seq<Cell>): (r: Result<seq<string>>)
    ensures r.Ok? <==> |col| > 0
    ensures r.Err? ==> r.error == EmptyColumn
    ensures r.Ok? ==> Distinct(r.value)
    ensures r.Ok? ==> forall x :: x in r.value <==> exists i :: 0 <= i < |col| && x in CellLabels(col[i])
  {
    if |col| == 0 then Err(EmptyColumn) else Ok(Unique(Flatten(col)))
  }

  /** The pieces of one delimited cell: `[a.strip() for a in text.split(sep)]`. */
  function Pieces(text: string, sep: string): (r: seq<string>)
    requires |sep| > 0
    ensures |r| == |Split(text, sep)|
    ensures forall k :: 0 <= k < |r| ==> r[k] == Strip(Split(text, sep)[k])
  {
    var parts := Split(text, sep);
    seq(|parts|, k requires 0 <= k < |parts| => Strip(parts[k]))
  }

  /** The list comprehension of `extract_multi_labels_from_delimited_cols`, cell by cell:
      a list-valued cell has no `split`, and `split` refuses the empty separator. */
  function SplitCells(col: seq<Cell>, sep: string): (r: Result<seq<Cell>>)
    ensures r.Ok? <==> |col| == 0 || (|sep| > 0 && forall i :: 0 <= i < |col| ==> col[i].Scalar?)
    ensures r.Err? && |sep| == 0 ==> r.error == if col[0].Many? then NotAString else EmptySeparator
    ensures r.Err? && |sep| > 0 ==> r.error == NotAString
    ensures r.Ok? ==> |r.value| == |col|
    ensures r.Ok? ==> forall i :: 0 <= i < |col| ==> r.value[i] == Many(Pieces(col[i].text, sep))
  {
    if |col| == 0 then Ok([])
    else if col[0].Many? then Err(NotAString)
    else if |sep| == 0 then Err(EmptySeparator)
    else if exists i :: 0 <= i < |col| && col[i].Many? then Err(NotAString)
    else Ok(seq(|col|, i requires 0 <= i < |col| => Many(Pieces(col[i].text, sep))))
  }

  /** Every piece of a delimited cell is stripped of surrounding whitespace. */
  lemma PiecesAreStripped(text: string, sep: string, x: string)
    requires |sep| > 0
    requires x in Pieces(text, sep)
    ensures |x| == 0 || (!IsSpace(x[0]) && !IsSpace(x[|x| - 1]))
  {
    var k :| 0 <= k < |Pieces(text, sep)| && Pieces(text, sep)[k] == x;
    assert x == Strip(Split(text, sep)[k]);
  }

  /** Flattening the split cells gives the labels of the pieces, cell by cell. */
  lemma SplitCellsLabels(col: seq<Cell>, sep: string, cells: seq<Cell>, x: string)
    requires |sep| > 0 && |cells| == |col|
    requires forall i :: 0 <= i < |col| ==> col[i].Scalar? && cells[i] == Many(Pieces(col[i].text, sep))
    ensures (exists i :: 0 <= i < |cells| && x in CellLabels(cells[i])) <==>
            (exists i :: 0 <= i < |col| && x in Pieces(col[i].text, sep))
  {
    if exists i :: 0 <= i < |cells| && x in CellLabels(cells[i]) {
      var i :| 0 <= i < |cells| && x in CellLabels(cells[i]);
      assert x in Pieces(col[i].text, sep);
    }
    if exists i :: 0 <= i < |col| && x in Pieces(col[i].text, sep) {
      var i :| 0 <= i < |col| && x in Pieces(col[i].text, sep);
      assert x in CellLabels(cells[i]);
    }
  }

  /** `extract_multi_labels_from_delimited_cols`: split every cell, strip every piece, then
      collect as for array-valued cells. */
  function ExtractDelimited(col: seq<Cell>, sep: string): (r: Result<seq<string>>)
    ensures r.Ok? <==> |col| > 0 && |sep| > 0 && forall i :: 0 <= i < |col| ==> col[i].Scalar?
    ensures r.Ok? ==> Distinct(r.value)
    ensures r.Ok? ==> forall x :: x in r.value <==> exists i :: 0 <= i < |col| && x in Pieces(col[i].text, sep)
    ensures r.Ok? ==> forall x :: x in r.value ==> |x| == 0 || (!IsSpace(x[0]) && !IsSpace(x[|x| - 1]))
  {
    match SplitCells(col, sep)
    case Err(e) => Err(e)
    case Ok(cells) =>
      var labels := ExtractArrayLike(cells);
      if labels.Err? then labels
      else
        assert forall x :: x in labels.value <==> exists i :: 0 <= i < |col| && x in Pieces(col[i].text, sep) by {
          forall x ensures x in labels.value <==> exists i :: 0 <= i < |col| && x in Pieces(col[i].text, sep) {
            SplitCellsLabels(col, sep, cells, x);
          }
        }
        assert forall x :: x in labels.value ==> |x| == 0 || (!IsSpace(x[0]) && !IsSpace(x[|x| - 1])) by {
          forall x | x in labels.value ensures |x| == 0 || (!IsSpace(x[0]) && !IsSpace(x[|x| - 1])) {
            var i :| 0 <= i < |col| && x in Pieces(col[i].text, sep);
            PiecesAreStripped(col[i].text, sep, x);
          }
        }
        labels
  }

  /** `determine_label_extract_method`: single labels unless `multi_label`; then array cells
      unless a delimiter is given. */
  function DetermineLabelExtractMethod(multiLabel: bool, delimiter: Option<string>): (e: Extractor)
    ensures !multiLabel ==> e == SingleLabels
    ensures multiLabel && delimiter.None? ==> e == ArrayLike
    ensures multiLabel && delimiter.Some? ==> e == Delimited(delimiter.value)
  {
    if !multiLabel then SingleLabels
    else if delimiter.None? then ArrayLike
    else Delimited(delimiter.value)
  }

  /** Calls the chosen extractor on a label column. */
  function Extract(e: Extractor, col: seq<Cell>): Result<seq<string>> {
    match e
    case SingleLabels => ExtractSingleLabels(col)
    case ArrayLike => ExtractArrayLike(col)
    case Delimited(sep) => ExtractDelimited(col, sep)
  }

  /** Whatever the extractor, a successful extraction lists distinct labels. */
  lemma ExtractIsDistinct(e: Extractor, col: seq<Cell>)
    requires Extract(e, col).Ok?
    ensures Distinct(Extract(e, col).value)
  {
  }

  /** Label `l` is one that extractor `e` takes from cell `c`: the cell's string itself, an
      element of an array cell, or a stripped piece of a delimited string. */
  ghost predicate Yields(e: Extractor, c: Cell, l: string) {
    match e
    case SingleLabels => c == Scalar(l)
    case ArrayLike => l in CellLabels(c)
    case Delimited(sep) => c.Scalar? && |sep| > 0 && l in Pieces(c.text, sep)
  }

  /** A successful extraction lists exactly the labels its extractor takes from some cell. */
  lemma ExtractContent(e: Extractor, col: seq<Cell>)
    requires Extract(e, col).Ok?
    ensures forall l :: l in Extract(e, col).value <==> exists i :: 0 <= i < |col| && Yields(e, col[i], l)
  {
    match e
    case SingleLabels =>
    case ArrayLike =>
    case Delimited(sep) =>
      assert forall i :: 0 <= i < |col| ==> col[i].Scalar?;
  }

  /** `determine_read_file_method`: only json index files are supported. */
  function DetermineReadFileMethod(fileType: string): (r: Result<Reader>)
    ensures r.Ok? <==> fileType == "json"
    ensures r.Err? ==> r.error == UnsupportedFileType(fileType)
  {
    if fileType == "json" then Ok(ReadJson) else Err(UnsupportedFileType(fileType))
  }

  // ---------------------------------------------------------------------------
  // Numbering

  /** A string is a key of the inverted vocabulary iff it is one of the labels. */
  lemma VocabularyKey(labels: seq<string>, l: string)
    ensures l in Utils.ReserveDict(Utils.ConvertListToDict(labels)).entries <==> l in labels
  {
    var itol := Utils.ConvertListToDict(labels);
    Utils.ReserveDictKeys(itol, l);
    ValuesMembership(itol, l);
    assert l in Values(itol) <==> l in multiset(Values(itol));
    assert l in labels <==> l in multiset(labels);
  }

  /** Sorting labels without repeats gives an index dict whose values are all different. */
  lemma SortedVocabularyInjective(labels: seq<string>)
    requires Distinct(labels)
    ensures Injective(Utils.ConvertListToDict(labels))
    ensures StrictlyAscending(Values(Utils.ConvertListToDict(labels)))
  {
    var itol := Utils.ConvertListToDict(labels);
    DistinctPermutation(labels, Values(itol));
    AscendingDistinct(Values(itol));
    forall k1, k2 | k1 in itol.entries && k2 in itol.entries && k1 != k2
      ensures itol.entries[k1] != itol.entries[k2]
    {
      assert Values(itol)[k1] == itol.entries[k1] && Values(itol)[k2] == itol.entries[k2];
    }
  }

  /** `generate_itol_ltoi`: `itol` numbers the sorted labels from 0, `ltoi` inverts it. */
  function GenerateItolLtoi(labels: seq<string>): (e: Encoding)
    ensures Valid(e.itol) && Valid(e.ltoi)
    ensures e.itol.order == Utils.Range(|labels|)
    ensures Values(e.itol) == Sort(labels)
    ensures forall l :: l in e.ltoi.entries <==> l in labels
    ensures forall l :: l in e.ltoi.entries ==> e.ltoi.entries[l] in e.itol.entries && e.itol.entries[e.ltoi.entries[l]] == l
  {
    var itol := Utils.ConvertListToDict(labels);
    var ltoi := Utils.ReserveDict(itol);
    Utils.ConvertListToDictIsSorted(labels);
    assert forall l :: l in ltoi.entries <==> l in labels by {
      forall l ensures l in ltoi.entries <==> l in labels {
        VocabularyKey(labels, l);
      }
    }
    assert forall l :: l in ltoi.entries ==> ltoi.entries[l] in itol.entries && itol.entries[ltoi.entries[l]] == l by {
      forall l | l in ltoi.entries ensures ltoi.entries[l] in itol.entries && itol.entries[ltoi.entries[l]] == l {
        Utils.ReserveDictKeys(itol, l);
      }
    }
    Encoding(itol, ltoi)
  }

  /** For distinct labels the two maps are exact inverses: `itol` has the keys 0 .. n-1 with the
      labels strictly ascending, and `ltoi` holds every label once with its position. */
  lemma GenerateItolLtoiInverse(labels: seq<string>)
    requires Distinct(labels)
    ensures Len(GenerateItolLtoi(labels).ltoi) == |labels|
    ensures StrictlyAscending(Values(GenerateItolLtoi(labels).itol))
    ensures forall i :: 0 <= i < |labels| ==>
              var e := GenerateItolLtoi(labels);
              e.itol.entries[i] in e.ltoi.entries && e.ltoi.entries[e.itol.entries[i]] == i
    ensures forall l :: l in GenerateItolLtoi(labels).ltoi.entries ==>
              0 <= GenerateItolLtoi(labels).ltoi.entries[l] < |labels|
  {
    var itol := Utils.ConvertListToDict(labels);
    SortedVocabularyInjective(labels);
    Utils.ReserveDictOrder(itol);
    forall i | 0 <= i < |labels|
      ensures itol.entries[i] in Utils.ReserveDict(itol).entries && Utils.ReserveDict(itol).entries[itol.entries[i]] == i
    {
      Utils.ReserveDictInverts(itol, i);
    }
    forall l | l in Utils.ReserveDict(itol).entries ensures 0 <= Utils.ReserveDict(itol).entries[l] < |labels| {
      Utils.ReserveDictKeys(itol, l);
    }
  }


  /** The label-to-index map numbers the labels in string order. */
  lemma GenerateItolLtoiOrder(labels: seq<string>, l1: string, l2: string)
    requires Distinct(labels)
    requires l1 in GenerateItolLtoi(labels).ltoi.entries && l2 in GenerateItolLtoi(labels).ltoi.entries
    ensures Less(l1, l2) <==> GenerateItolLtoi(labels).ltoi.entries[l1] < GenerateItolLtoi(labels).ltoi.entries[l2]
  {
    var e := GenerateItolLtoi(labels);
    GenerateItolLtoiInverse(labels);
    var i, j := e.ltoi.entries[l1], e.ltoi.entries[l2];
    var vs := Values(e.itol);
    assert vs[i] == l1 && vs[j] == l2;
    StrictlyAscendingPositions(vs, i, j);
  }

  // ---------------------------------------------------------------------------
  // Entry points

  /** `pd.concat([read_json(f) for f in paths])` over the tables already loaded by path;
      a path with no loaded table is a read failure, reported for the first such path. */
  function ReadAll(paths: seq<string>, loaded: map<string, Table>): (r: Result<seq<Table>>)
    ensures r.Ok? <==> forall i :: 0 <= i < |paths| ==> paths[i] in loaded
    ensures r.Ok? ==> |r.value| == |paths| && forall i :: 0 <= i < |paths| ==> r.value[i] == loaded[paths[i]]
    ensures r.Err? ==> exists i :: 0 <= i < |paths| && paths[i] !in loaded && r.error == ReadFailed(paths[i]) &&
                                  forall j :: 0 <= j < i ==> paths[j] in loaded
  {
    if |paths| == 0 then Ok([])
    else if paths[0] !in loaded then Err(ReadFailed(paths[0]))
    else
      match ReadAll(paths[1..], loaded)
      case Err(e) =>
        var i :| 0 <= i < |paths[1..]| && paths[1..][i] !in loaded && e == ReadFailed(paths[1..][i]) &&
                 forall j :: 0 <= j < i ==> paths[1..][j] in loaded;
        assert paths[i + 1] !in loaded;
        assert forall j :: 1 <= j < i + 1 ==> paths[j] == paths[1..][j - 1];
        Err(e)
      case Ok(rest) =>
        assert forall i :: 1 <= i < |paths| ==> paths[i] == paths[1..][i - 1];
        Ok([loaded[paths[0]]] + rest)
  }

  /** The first half of `encode_from_index_files`: build the paths, check the file type, choose
      the extractor, read and concatenate the index tables, and extract the label column. */
  function CollectLabels(root: string, labelCol: string, files: seq<string>, fileType: string,
                         multiLabel: bool, delimiter: Option<string>,
                         loaded: map<string, Table>): (r: Result<seq<string>>)
    ensures fileType != "json" ==> r == Err(UnsupportedFileType(fileType))
    ensures fileType == "json" && |files| == 0 ==> r == Err(NothingToConcatenate)
    ensures r.Ok? ==> fileType == "json" && |files| > 0
    ensures r.Ok? ==> forall f :: f in files ==> Utils.JoinPath(root, f) in loaded
    ensures r.Ok? ==> forall f :: f in files ==> labelCol in loaded[Utils.JoinPath(root, f)].columns
    ensures r.Ok? ==> Distinct(r.value)
    ensures r.Ok? ==> forall l :: l in r.value <==>
              LabelOfFiles(root, labelCol, files, loaded, DetermineLabelExtractMethod(multiLabel, delimiter), l)
  {
    var paths := Utils.CreateListOfFilePaths(root, files);
    var _ :- DetermineReadFileMethod(fileType);
    var extractor := DetermineLabelExtractMethod(multiLabel, delimiter);
    var tables :- ReadAll(paths, loaded);
    var column :- ConcatColumn(tables, labelCol);
    var labels :- Extract(extractor, column);
    FilesGiveTables(root, labelCol, files, loaded, tables);
    ExtractIsDistinct(extractor, column);
    CollectedContent(root, labelCol, files, loaded, tables, column, extractor);
    Ok(labels)
  }

  /** Label `l` is one that extractor `e` takes from a cell of the label column of the table
      loaded for one of `files`. */
  ghost predicate LabelOfFiles(root: string, labelCol: string, files: seq<string>, loaded: map<string, Table>,
                               e: Extractor, l: string) {
    exists f, c :: f in files && Utils.JoinPath(root, f) in loaded &&
                   labelCol in loaded[Utils.JoinPath(root, f)].columns &&
                   c in loaded[Utils.JoinPath(root, f)].columns[labelCol] && Yields(e, c, l)
  }

  /** The tables read for the paths of `files` are the loaded tables of those files, and when
      every one of them has the label column, so does every file's table. */
  lemma FilesGiveTables(root: string, labelCol: string, files: seq<string>, loaded: map<string, Table>,
                        tables: seq<Table>)
    requires ReadAll(Utils.CreateListOfFilePaths(root, files), loaded) == Ok(tables)
    requires forall i :: 0 <= i < |tables| ==> labelCol in tables[i].columns
    ensures |tables| == |files|
    ensures forall j :: 0 <= j < |files| ==> Utils.JoinPath(root, files[j]) in loaded && tables[j] == loaded[Utils.JoinPath(root, files[j])]
    ensures forall f :: f in files ==> Utils.JoinPath(root, f) in loaded && labelCol in loaded[Utils.JoinPath(root, f)].columns
  {
    var paths := Utils.CreateListOfFilePaths(root, files);
    forall f | f in files ensures Utils.JoinPath(root, f) in loaded && labelCol in loaded[Utils.JoinPath(root, f)].columns {
      var i :| 0 <= i < |files| && files[i] == f;
      assert paths[i] == Utils.JoinPath(root, f);
    }
  }

  /** Extracting the concatenated label column of the files' tables yields exactly the labels
      of `LabelOfFiles`. */
  lemma CollectedContent(root: string, labelCol: string, files: seq<string>, loaded: map<string, Table>,
                         tables: seq<Table>, column: seq<Cell>, e: Extractor)
    requires ReadAll(Utils.CreateListOfFilePaths(root, files), loaded) == Ok(tables)
    requires ConcatColumn(tables, labelCol) == Ok(column)
    requires Extract(e, column).Ok?
    ensures forall l :: l in Extract(e, column).value <==> LabelOfFiles(root, labelCol, files, loaded, e, l)
  {
    FilesGiveTables(root, labelCol, files, loaded, tables);
    ExtractContent(e, column);
    forall l ensures l in Extract(e, column).value <==> LabelOfFiles(root, labelCol, files, loaded, e, l) {
      if l in Extract(e, column).value {
        var i :| 0 <= i < |column| && Yields(e, column[i], l);
        CellOfFiles(root, labelCol, files, loaded, tables, column, e, column[i], l);
      }
      if LabelOfFiles(root, labelCol, files, loaded, e, l) {
        FileCellInColumn(root, labelCol, files, loaded, tables, column, e, l);
      }
    }
  }

  lemma CellOfFiles(root: string, labelCol: string, files: seq<string>, loaded: map<string, Table>,
                    tables: seq<Table>, column: seq<Cell>, e: Extractor, c: Cell, l: string)
    requires |tables| == |files|
    requires forall j :: 0 <= j < |files| ==> Utils.JoinPath(root, files[j]) in loaded && tables[j] == loaded[Utils.JoinPath(root, files[j])]
    requires ConcatColumn(tables, labelCol) == Ok(column)
    requires c in column && Yields(e, c, l)
    ensures LabelOfFiles(root, labelCol, files, loaded, e, l)
  {
    var j :| 0 <= j < |tables| && c in tables[j].columns[labelCol];
    assert files[j] in files;
  }

  lemma FileCellInColumn(root: string, labelCol: string, files: seq<string>, loaded: map<string, Table>,
                         tables: seq<Table>, column: seq<Cell>, e: Extractor, l: string)
    requires |tables| == |files|
    requires forall j :: 0 <= j < |files| ==> Utils.JoinPath(root, files[j]) in loaded && tables[j] == loaded[Utils.JoinPath(root, files[j])]
    requires ConcatColumn(tables, labelCol) == Ok(column)
    requires LabelOfFiles(root, labelCol, files, loaded, e, l)
    ensures exists i :: 0 <= i < |column| && Yields(e, column[i], l)
  {
    var f, c :| f in files && Utils.JoinPath(root, f) in loaded &&
                labelCol in loaded[Utils.JoinPath(root, f)].columns &&
                c in loaded[Utils.JoinPath(root, f)].columns[labelCol] && Yields(e, c, l);
    var j :| 0 <= j < |files| && files[j] == f;
    assert 0 <= j < |tables| && c in tables[j].columns[labelCol];
    assert c in column;
    var i :| 0 <= i < |column| && column[i] == c;
  }

  /** `encode_from_index_files` with an explicit file list, over the index tables already
      loaded (keyed by path). Every failure of the collection step is passed on. */
  function EncodeFromIndexFiles(root: string, labelCol: string, files: seq<string>, fileType: string,
                                multiLabel: bool, delimiter: Option<string>,
                                loaded: map<string, Table>): (r: Result<Encoding>)
    ensures fileType != "json" ==> r == Err(UnsupportedFileType(fileType))
    ensures fileType == "json" && |files| == 0 ==> r == Err(NothingToConcatenate)
    ensures r.Ok? <==> CollectLabels(root, labelCol, files, fileType, multiLabel, delimiter, loaded).Ok?
    ensures r.Err? ==> r.error == CollectLabels(root, labelCol, files, fileType, multiLabel, delimiter, loaded).error
    ensures r.Ok? ==> forall f :: f in files ==> Utils.JoinPath(root, f) in loaded
  {
    var labels :- CollectLabels(root, labelCol, files, fileType, multiLabel, delimiter, loaded);
    Ok(GenerateItolLtoi(labels))
  }

  /** What a successful `encode_from_index_files` numbers: exactly the labels collected from the
      label column, once each, as mutually inverse maps over 0 .. n-1. */
  lemma EncodeFromIndexFilesVocabulary(root: string, labelCol: string, files: seq<string>, fileType: string,
                                       multiLabel: bool, delimiter: Option<string>, loaded: map<string, Table>)
    requires EncodeFromIndexFiles(root, labelCol, files, fileType, multiLabel, delimiter, loaded).Ok?
    ensures var e := EncodeFromIndexFiles(root, labelCol, files, fileType, multiLabel, delimiter, loaded).value;
            var found := CollectLabels(root, labelCol, files, fileType, multiLabel, delimiter, loaded).value;
            && (forall l :: l in e.ltoi.entries <==> l in found)
            && Len(e.ltoi) == |found|
            && (forall i :: 0 <= i < |found| ==> e.itol.entries[i] in e.ltoi.entries && e.ltoi.entries[e.itol.entries[i]] == i)
            && (forall l :: l in e.ltoi.entries ==> e.itol.entries[e.ltoi.entries[l]] == l)
  {
    GenerateItolLtoiInverse(CollectLabels(root, labelCol, files, fileType, multiLabel, delimiter, loaded).value);
  }

  /** A successful `encode_from_index_files` numbers the collected labels `0 .. n-1` in sorted order. */
  lemma EncodeFromIndexFilesOrder(root: string, labelCol: string, files: seq<string>, fileType: string,
                                  multiLabel: bool, delimiter: Option<string>, loaded: map<string, Table>)
    requires EncodeFromIndexFiles(root, labelCol, files, fileType, multiLabel, delimiter, loaded).Ok?
    ensures var e := EncodeFromIndexFiles(root, labelCol, files, fileType, multiLabel, delimiter, loaded).value;
            var found := CollectLabels(root, labelCol, files, fileType, multiLabel, delimiter, loaded).value;
            e.itol.order == Utils.Range(|found|) && Values(e.itol) == Sort(found)
  {
  }

  /** `encode_from_pickle` over the mapping the pickle file holds (`None` when it could not be
      loaded): numbers the mapping's keys, or its distinct values; every failure gives `None`. */
  function EncodeFromPickle(elements: Option<Dict<string, string>>, key: bool): (r: Option<Encoding>)
    requires elements.Some? ==> Valid(elements.value)
    ensures r.Some? <==> elements.Some?
    ensures r.Some? ==> Valid(r.value.itol) && Valid(r.value.ltoi)
    ensures r.Some? && key ==> Values(r.value.itol) == Sort(elements.value.order)
    ensures r.Some? && key ==> forall l :: l in r.value.ltoi.entries <==> l in elements.value.entries
    ensures r.Some? && !key ==> forall l :: l in r.value.ltoi.entries <==>
                                  exists k :: k in elements.value.entries && elements.value.entries[k] == l
    ensures r.Some? && !key ==> Values(r.value.itol) == Sort(Unique(Values(elements.value)))
  {
    match elements
    case None => None
    case Some(d) =>
      if key then Some(GenerateItolLtoi(d.order))
      else
        UniqueValues(d);
        Some(GenerateItolLtoi(Unique(Values(d))))
  }

  /** The distinct values of a mapping are the values some key maps to. */
  lemma UniqueValues(d: Dict<string, string>)
    requires Valid(d)
    ensures forall l :: l in Unique(Values(d)) <==> exists k :: k in d.entries && d.entries[k] == l
  {
    forall l ensures l in Unique(Values(d)) <==> exists k :: k in d.entries && d.entries[k] == l {
      if l in Values(d) {
        var i :| 0 <= i < |Values(d)| && Values(d)[i] == l;
        assert d.entries[d.order[i]] == l;
      }
      if exists k :: k in d.entries && d.entries[k] == l {
        var k :| k in d.entries && d.entries[k] == l;
        var i :| 0 <= i < |d.order| && d.order[i] == k;
        assert Values(d)[i] == l;
      }
    }
  }

  /** Whichever part of the mapping is numbered, the labels are distinct, so `itol` and `ltoi`
      are exact inverses over 0 .. n-1. */
  lemma EncodeFromPickleInverse(elements: Dict<string, string>, key: bool)
    requires Valid(elements)
    ensures var e := EncodeFromPickle(Some(elements), key).value;
            && (forall i :: i in e.itol.entries ==> e.itol.entries[i] in e.ltoi.entries && e.ltoi.entries[e.itol.entries[i]] == i)
            && (forall l :: l in e.ltoi.entries ==> e.itol.entries[e.ltoi.entries[l]] == l)
  {
    if key {
      GenerateItolLtoiInverse(elements.order);
    } else {
      GenerateItolLtoiInverse(Unique(Values(elements)));
    }
  }
}
