/** Failure-carrying results: `Option` stands for a nullable Kotlin result, `Result` for a
    value-or-exception outcome. */
module Wrappers {

  datatype Option<+T> = None | Some(value: T) {
    function GetOr(default: T): T {
      match this
      case Some(v) => v
      case None => default
    }
  }

  datatype Result<+R, +E> = Success(value: R) | Failure(error: E)

  /** The list's only element, if it has exactly one. */
  function SingleOrNull<T>(s: seq<T>): (r: Option<T>)
    ensures r.Some? <==> |s| == 1
    ensures r.Some? ==> r.value == s[0]
  {
    if |s| == 1 then Some(s[0]) else None
  }

  /** Every element present, or nothing. */
  function AllPresent<T>(s: seq<Option<T>>): (r: Option<seq<T>>)
    ensures r.Some? <==> forall i :: 0 <= i < |s| ==> s[i].Some?
    ensures r.Some? ==> |r.value| == |s| && forall i :: 0 <= i < |s| ==> s[i] == Some(r.value[i])
  {
    if s == [] then Some([])
    else match (AllPresent(s[..|s| - 1]), s[|s| - 1])
      case (Some(init), Some(last)) => Some(init + [last])
      case _ => None
  }

  /** The present elements, in order (Kotlin's `mapNotNull` after the mapping). */
  function Present<T>(s: seq<Option<T>>): (r: seq<T>)
    ensures |r| <= |s|
    ensures forall i :: 0 <= i < |r| ==> Some(r[i]) in s
    ensures forall i :: 0 <= i < |s| && s[i].Some? ==> s[i].value in r
    ensures r == [] <==> forall i :: 0 <= i < |s| ==> s[i].None?
    ensures AllPresent(s).Some? ==> r == AllPresent(s).value
  {
    if s == [] then []
    else
      var init := Present(s[..|s| - 1]);
      assert forall i :: 0 <= i < |s| - 1 ==> s[..|s| - 1][i] == s[i];
      match s[|s| - 1]
      case Some(last) => init + [last]
      case None => init
  }

  /** The positions of the present elements, in increasing order. */
  function PresentIndices<T>(s: seq<Option<T>>): (idx: seq<nat>)
    ensures forall k :: 0 <= k < |idx| ==> idx[k] < |s| && s[idx[k]].Some?
    ensures forall k, l :: 0 <= k < l < |idx| ==> idx[k] < idx[l]
    ensures forall j :: 0 <= j < |s| && s[j].Some? ==> j in idx
  {
    if s == [] then []
    else
      var init := PresentIndices(s[..|s| - 1]);
      assert forall k :: 0 <= k < |init| ==> s[..|s| - 1][init[k]] == s[init[k]];
      init + (if s[|s| - 1].Some? then [|s| - 1] else [])
  }

  /** `mapNotNull` keeps order and multiplicity: the k-th kept value is the k-th present
      element of the input. */
  lemma {:induction false} PresentInOrder<T>(s: seq<Option<T>>)
    ensures |Present(s)| == |PresentIndices(s)|
    ensures forall k :: 0 <= k < |Present(s)| ==> s[PresentIndices(s)[k]] == Some(Present(s)[k])
  {
    if s != [] {
      var init := s[..|s| - 1];
      PresentInOrder(init);
      forall k | 0 <= k < |PresentIndices(init)| ensures s[PresentIndices(init)[k]] == init[PresentIndices(init)[k]] {
      }
    }
  }

  /** Keeping the present values of a concatenation keeps those of each part in turn. */
  lemma {:induction false} PresentAppend<T>(s: seq<Option<T>>, t: seq<Option<T>>)
    ensures Present(s + t) == Present(s) + Present(t)
    decreases |t|
  {
    if t == [] {
      assert s + t == s;
    } else {
      var u := t[..|t| - 1];
      assert (s + t)[..|s + t| - 1] == s + u;
      assert (s + t)[|s + t| - 1] == t[|t| - 1];
      PresentAppend(s, u);
    }
  }
}
