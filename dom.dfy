/**
 * The small part of the DOM the dropdown controller relies on: element
 * references, a possibly-null reference, and the membership test that the
 * focus-loss handler runs over the wrapper's descendants.
 */
module Dom {

  /** An element reference. Two references are the same element iff equal. */
  type ElemId = nat

  /** A reference that may be `null` (e.g. a focus event's `relatedTarget`). */
  datatype Option<T> = None | Some(value: T)

  /**
   * `Array.prototype.indexOf` with strict equality: the position of the
   * first occurrence of `x` in `s`, or -1 when there is none.
   */
  function IndexOf(s: seq<ElemId>, x: ElemId): (r: int)
    ensures -1 <= r < |s|
    ensures r == -1 <==> x !in s
    ensures 0 <= r ==> s[r] == x && forall j :: 0 <= j < r ==> s[j] != x
  {
    if |s| == 0 then -1
    else if s[0] == x then 0
    else
      var k := IndexOf(s[1..], x);
      if k == -1 then -1 else k + 1
  }

  /**
   * `hasElement(container, elem)`: whether `elem` occurs among the
   * container's descendants, given here as the list a `querySelectorAll('*')`
   * on the container yields. A `null` element never occurs in that list.
   */
  function HasElement(descendants: seq<ElemId>, elem: Option<ElemId>): (r: bool)
    ensures r <==> elem.Some? && elem.value in descendants
  {
    match elem
    case None => false
    case Some(e) => IndexOf(descendants, e) > -1
  }
}
