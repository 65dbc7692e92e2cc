/** Optional values and results with an error, used for the source's nulls and exceptions. */
module Wrappers {

  datatype Option<+T> = None | Some(value: T)

  datatype Result<+T, +E> = Success(value: T) | Failure(error: E)

  /** Every value, when every outcome has one; a single failure fails the whole. */
  function Collect<T>(os: seq<Option<T>>): (r: Option<seq<T>>)
    ensures r.Some? <==> forall k :: 0 <= k < |os| ==> os[k].Some?
    ensures r.Some? ==> |r.value| == |os| && forall k :: 0 <= k < |os| ==> os[k] == Some(r.value[k])
  {
    if os == [] then Some([])
    else match os[0]
      case None => None
      case Some(x) =>
        var rest := Collect(os[1..]);
        assert forall k :: 1 <= k < |os| ==> os[k] == os[1..][k - 1];
        match rest
        case None => None
        case Some(xs) => Some([x] + xs)
  }

  /** Outcomes that all hold values collect to exactly those values. */
  lemma CollectAll<T>(os: seq<Option<T>>, xs: seq<T>)
    requires |xs| == |os| && forall k :: 0 <= k < |os| ==> os[k] == Some(xs[k])
    ensures Collect(os) == Some(xs)
  {
    assert forall k :: 0 <= k < |os| ==> os[k].Some?;
    var r := Collect(os).value;
    assert |r| == |xs|;
    forall k | 0 <= k < |os|
      ensures r[k] == xs[k]
    {
      assert os[k] == Some(r[k]);
    }
    assert r == xs;
  }
}
