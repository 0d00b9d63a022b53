/** Failure-carrying datatypes and the sequence combinators the adapter and
    the JSON decoder share. */
module Wrappers {

  /** Rust's `Option<T>`. */
  datatype Option<+T> = None | Some(value: T)

  /** A value or the error that stopped its construction. It stands for
      both a Rust panic inside a conversion and a serde decoding error. */
  datatype Result<+T, +E> = Ok(value: T) | Err(error: E) {

    predicate IsFailure() {
      Err?
    }

    function PropagateFailure<U>(): Result<U, E>
      requires Err?
    {
      Err(error)
    }

    function Extract(): T
      requires Ok?
    {
      value
    }
  }

  /** Applies `f` to every element, in order. */
  function Map<A, B>(f: A -> B, s: seq<A>): (r: seq<B>)
    ensures |r| == |s|
    ensures forall i :: 0 <= i < |s| ==> r[i] == f(s[i])
  {
    if s == [] then [] else [f(s[0])] + Map(f, s[1..])
  }

  /** True when `f` succeeds on every element of `s[..k]`. */
  ghost predicate AllOkBefore<A, B, E>(f: A -> Result<B, E>, s: seq<A>, k: int)
    requires 0 <= k <= |s|
  {
    forall j :: 0 <= j < k ==> f(s[j]).Ok?
  }

  /** `s.into_iter().map(f).collect()` where `f` may fail: the elements are
      converted left to right and the first failure stops the whole
      conversion. On success every element has been converted, in order; on
      failure the error is the one of the leftmost element that failed. */
  function MapResult<A, B, E>(f: A -> Result<B, E>, s: seq<A>): (r: Result<seq<B>, E>)
    ensures r.Ok? <==> forall i :: 0 <= i < |s| ==> f(s[i]).Ok?
    ensures r.Ok? ==> |r.value| == |s| && forall i :: 0 <= i < |s| ==> f(s[i]) == Ok(r.value[i])
    ensures r.Err? ==>
      exists k :: 0 <= k < |s| && f(s[k]) == Err(r.error) && AllOkBefore(f, s, k)
  {
    if s == [] then Ok([])
    else
      match f(s[0])
      case Err(e) => Err(e)
      case Ok(b) =>
        match MapResult(f, s[1..])
        case Err(e) =>
          assert forall j :: 1 <= j < |s| ==> s[j] == s[1..][j - 1];
          Err(e)
        case Ok(bs) =>
          assert forall j :: 1 <= j < |s| ==> s[j] == s[1..][j - 1];
          Ok([b] + bs)
  }

  /** Decoding every element of an encoded sequence gives the sequence back
      when each element's decoding inverts its encoding. */
  lemma MapResultInverts<A, B, E>(enc: A -> B, dec: B -> Result<A, E>, s: seq<A>)
    requires forall i :: 0 <= i < |s| ==> dec(enc(s[i])) == Ok(s[i])
    ensures MapResult(dec, Map(enc, s)) == Ok(s)
  {
    var r := MapResult(dec, Map(enc, s));
    assert r.Ok?;
    assert r.value == s;
  }
}
