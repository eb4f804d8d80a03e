/** Option and Result values, and the exceptions the library lets escape to its callers. */
module Wrappers {

  datatype Option<+T> = None | Some(value: T) {
    function GetOr(default: T): T {
      match this
      case Some(v) => v
      case None => default
    }
  }

  /** The Python exceptions that the modelled code raises or lets propagate. */
  datatype Error =
    | EpubException(code: int, msg: string)   // the library's own exception, with its numeric code
    | KeyError(key: Option<string>)           // a missing archive member or dictionary key (None as a key)
    | AttributeError(what: string)            // an attribute looked up on None, or one the object lacks
    | IndexError(what: string)                // an index into an empty child list
    | TypeError(what: string)                 // iterating a value that is not a list
    | ValueError(what: string)                // os.path.relpath of an empty path
    | XmlSyntaxError(what: string)            // bytes that the XML parser cannot read

  datatype Result<+T> = Ok(value: T) | Err(error: Error) {
    predicate IsFailure() { Err? }
    function PropagateFailure<U>(): Result<U>
      requires Err?
    {
      Err(error)
    }
    function Extract(): T
      requires Ok?
    {
      value
    }
  }

  /** `f` applied to each of `xs` in order, failing with the error of the first that fails. */
  function MapResults<T, U>(f: T -> Result<U>, xs: seq<T>): (r: Result<seq<U>>)
    ensures r.Ok? <==> forall i :: 0 <= i < |xs| ==> f(xs[i]).Ok?
    ensures r.Ok? ==> |r.value| == |xs|
    ensures r.Ok? ==> forall i :: 0 <= i < |xs| ==> r.value[i] == f(xs[i]).value
    decreases |xs|
  {
    if xs == [] then Ok([])
    else
      var init := xs[..|xs| - 1];
      assert forall i :: 0 <= i < |init| ==> init[i] == xs[i];
      var before :- MapResults(f, init);
      var last :- f(xs[|xs| - 1]);
      Ok(before + [last])
  }
}
