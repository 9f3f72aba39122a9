/** Success/failure wrappers and the error causes of the label-bookkeeping core.

    The Python code raises one generic `CustomException` for configuration
    errors and lets library exceptions (KeyError, ValueError, ...) propagate.
    Here every cause is a tagged variant, so a contract can say which
    failure a given input leads to. */
module Errors {

  datatype Option<+T> = None | Some(value: T)

  datatype Error =
    | UnsupportedFileType(fileType: string)   // CustomException: only json index files are read
    | MissingLabelSource                      // CustomException: one-hot requested without labels or derive flag
    | ReadFailed(path: string)                // the index file at `path` could not be read
    | NothingToConcatenate                    // pd.concat of an empty list of frames (ValueError)
    | MissingColumn(column: string)           // frame[column] on an absent column (KeyError)
    | EmptyColumn                             // np.hstack of an empty column (ValueError)
    | Unhashable                              // Series.unique() over list-valued cells (TypeError)
    | NotAString                              // str.split called on a list-valued cell (AttributeError)
    | EmptySeparator                          // str.split with the empty delimiter (ValueError)
    | MissingLabel(name: string)              // label-to-index lookup of an unknown label (KeyError)
    | MissingIndex(index: int)                // index-to-label lookup of an unknown index (KeyError)
    | IndexOutOfRange(index: int)             // list / row / vector position out of range (IndexError)
    | NotANumber(text: string)                // float() of a non-numeric file-name stem (ValueError)
    | DivisionByZero                          // the loss average over an empty training loader (ZeroDivisionError)

  datatype Result<+T> = Ok(value: T) | Err(error: Error) {
    predicate IsFailure() {
      Err?
    }

    function PropagateFailure<U>(): Result<U>
      requires Err?
    {
      Err(error)
    }

    function Extract(): T
      requires Ok?
    {
      value
    }
  }

  /** `[f(x) for x in xs]` for a call that may fail: the first failure stops the comprehension. */
  function MapAll<A, B>(xs: seq<A>, f: A -> Result<B>): Result<seq<B>>
    decreases |xs|
  {
    if |xs| == 0 then Ok([])
    else
      var n := |xs| - 1;
      match MapAll(xs[..n], f)
      case Err(e) => Err(e)
      case Ok(front) =>
        match f(xs[n])
        case Err(e) => Err(e)
        case Ok(y) => Ok(front + [y])
  }

  /** The comprehension succeeds exactly when every call does, and then holds every call's value. */
  lemma {:induction false} MapAllOk<A, B>(xs: seq<A>, f: A -> Result<B>)
    ensures MapAll(xs, f).Ok? <==> forall i :: 0 <= i < |xs| ==> f(xs[i]).Ok?
    ensures MapAll(xs, f).Ok? ==> |MapAll(xs, f).value| == |xs|
    ensures MapAll(xs, f).Ok? ==> forall i :: 0 <= i < |xs| ==> MapAll(xs, f).value[i] == f(xs[i]).value
    decreases |xs|
  {
    if |xs| > 0 {
      var n := |xs| - 1;
      MapAllOk(xs[..n], f);
      assert forall i :: 0 <= i < n ==> xs[..n][i] == xs[i];
    }
  }

  /** A failing comprehension reports the error of the first failing call. */
  lemma {:induction false} MapAllError<A, B>(xs: seq<A>, f: A -> Result<B>, i: nat)
    requires i < |xs|
    requires forall j :: 0 <= j < i ==> f(xs[j]).Ok?
    requires f(xs[i]).Err?
    ensures MapAll(xs, f) == Err(f(xs[i]).error)
    decreases |xs|
  {
    var n := |xs| - 1;
    if i < n {
      assert xs[..n][i] == xs[i];
      assert forall j :: 0 <= j < i ==> xs[..n][j] == xs[j];
      MapAllError(xs[..n], f, i);
    } else {
      assert forall j :: 0 <= j < n ==> xs[..n][j] == xs[j];
      MapAllOk(xs[..n], f);
    }
  }

  /** One more step of the comprehension: a success extends the values, a failure is the final error. */
  lemma MapAllStep<A, B>(xs: seq<A>, f: A -> Result<B>, i: nat, done: seq<B>)
    requires i < |xs|
    requires MapAll(xs[..i], f) == Ok(done)
    ensures f(xs[i]).Ok? ==> MapAll(xs[..i + 1], f) == Ok(done + [f(xs[i]).value])
    ensures f(xs[i]).Err? ==> MapAll(xs, f) == Err(f(xs[i]).error)
  {
    assert xs[..i + 1][..i] == xs[..i];
    if f(xs[i]).Err? {
      MapAllOk(xs[..i], f);
      assert forall j :: 0 <= j < i ==> xs[..i][j] == xs[j];
      MapAllError(xs, f, i);
    }
  }
}
