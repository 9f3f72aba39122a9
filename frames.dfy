/** The slice of a pandas DataFrame read from a JSON index file that the
    core looks at: named columns of cells, all of one height. A label cell
    holds either one string or an array of strings. */
module Frames {
  import opened Errors

  datatype Cell = Scalar(text: string) | Many(items: seq<string>)

  datatype Table = Table(height: nat, columns: map<string, seq<Cell>>)

  /** Every column has one cell per row. */
  ghost predicate WellFormed(t: Table) {
    forall c :: c in t.columns ==> |t.columns[c]| == t.height
  }

  /** `frame[name]` */
  function Column(t: Table, name: string): (r: Result<seq<Cell>>)
    requires WellFormed(t)
    ensures r.Ok? <==> name in t.columns
    ensures r.Ok? ==> |r.value| == t.height
    ensures r.Err? ==> r.error == MissingColumn(name)
  {
    if name in t.columns then Ok(t.columns[name]) else Err(MissingColumn(name))
  }

  /** `pd.concat(tables)[name]`: the column's cells of every table, in order. */
  function ConcatColumn(tables: seq<Table>, name: string): (r: Result<seq<Cell>>)
    ensures |tables| == 0 ==> r == Err(NothingToConcatenate)
    ensures r.Ok? <==> |tables| > 0 && forall i :: 0 <= i < |tables| ==> name in tables[i].columns
    ensures r.Err? && |tables| > 0 ==> r.error == MissingColumn(name)
    ensures r.Ok? ==> forall c :: c in r.value <==> exists i :: 0 <= i < |tables| && c in tables[i].columns[name]
  {
    if |tables| == 0 then Err(NothingToConcatenate)
    else Stack(tables, name)
  }

  /** The cells of column `name` of every table, one table after the other. */
  function Stack(tables: seq<Table>, name: string): (r: Result<seq<Cell>>)
    ensures r.Ok? <==> forall i :: 0 <= i < |tables| ==> name in tables[i].columns
    ensures r.Err? ==> r.error == MissingColumn(name)
    ensures r.Ok? ==> forall c :: c in r.value <==> exists i :: 0 <= i < |tables| && c in tables[i].columns[name]
  {
    if |tables| == 0 then Ok([])
    else if name !in tables[0].columns then Err(MissingColumn(name))
    else
      match Stack(tables[1..], name)
      case Err(e) => Err(e)
      case Ok(rest) =>
        assert forall i :: 1 <= i < |tables| ==> tables[i] == tables[1..][i - 1];
        Ok(tables[0].columns[name] + rest)
  }
}
