/**
 * The part of ECMAScript's `Array.prototype.splice(start, deleteCount)` (ECMA-262,
 * section 23.1.3, with no items to insert) that the task list relies on.
 * Array positions are integers; a negative start counts back from the end.
 */
module JsArray {

  /** What a call to `splice` leaves in the array, and the array of elements it returns. */
  datatype Spliced<T> = Spliced(rest: seq<T>, removed: seq<T>)

  /** The position a relative `start` denotes in an array of length `len`, clamped to `0..len`. */
  function ActualStart(len: nat, start: int): (k: nat)
    ensures k <= len
  {
    if start < 0 then
      if len + start < 0 then 0 else len + start
    else if start < len then start else len
  }

  /** The number of elements deleted: `deleteCount` clamped to what lies at and after the start. */
  function ActualDeleteCount(len: nat, start: int, deleteCount: int): (d: nat)
    ensures ActualStart(len, start) + d <= len
    ensures d <= deleteCount || d == 0
    ensures d < deleteCount ==> ActualStart(len, start) + d == len
  {
    var room := len - ActualStart(len, start);
    if deleteCount < 0 then 0 else if deleteCount < room then deleteCount else room
  }

  /**
   * `s.splice(start, deleteCount)`: removes a contiguous block at the actual start and
   * closes the gap. Putting the removed block back at the start rebuilds `s`.
   */
  function Splice<T>(s: seq<T>, start: int, deleteCount: int): (r: Spliced<T>)
    ensures |r.removed| == ActualDeleteCount(|s|, start, deleteCount)
    ensures |r.rest| == |s| - |r.removed|
    ensures r.rest[..ActualStart(|s|, start)] + r.removed + r.rest[ActualStart(|s|, start)..] == s
  {
    var k := ActualStart(|s|, start);
    var d := ActualDeleteCount(|s|, start, deleteCount);
    assert s[..k] + s[k..k + d] + s[k + d..] == s;
    Spliced(s[..k] + s[k + d..], s[k..k + d])
  }

  /** `splice(i, 1)` with `0 <= i < |s|` removes exactly the element at `i`; later elements move down one place. */
  lemma RemoveOneInRange<T>(s: seq<T>, i: int)
    requires 0 <= i < |s|
    ensures Splice(s, i, 1).removed == [s[i]]
    ensures Splice(s, i, 1).rest == s[..i] + s[i + 1..]
    ensures forall k :: 0 <= k < i ==> Splice(s, i, 1).rest[k] == s[k]
    ensures forall k :: i <= k < |s| - 1 ==> Splice(s, i, 1).rest[k] == s[k + 1]
  {
  }

  /** `splice(i, 1)` with `i` at or past the end removes nothing. */
  lemma RemoveOnePastEnd<T>(s: seq<T>, i: int)
    requires i >= |s|
    ensures Splice(s, i, 1) == Spliced(s, [])
  {
  }

  /** `splice(i, 1)` with `-|s| <= i < 0` removes the element `-i` places from the end. */
  lemma RemoveOneFromEnd<T>(s: seq<T>, i: int)
    requires -|s| <= i < 0
    ensures Splice(s, i, 1).removed == [s[|s| + i]]
    ensures Splice(s, i, 1).rest == s[..|s| + i] + s[|s| + i + 1..]
  {
  }

  /** `splice(i, 1)` with `i < -|s|` clamps to the front and removes the first element, if any. */
  lemma RemoveOneBeforeFront<T>(s: seq<T>, i: int)
    requires i < -|s|
    ensures Splice(s, i, 1).rest == if s == [] then [] else s[1..]
  {
  }

  /** Splicing only takes elements away: what is left, with what was removed, is the original multiset. */
  lemma SplicePermutes<T>(s: seq<T>, start: int, deleteCount: int)
    ensures multiset(Splice(s, start, deleteCount).rest) + multiset(Splice(s, start, deleteCount).removed) == multiset(s)
  {
    var r := Splice(s, start, deleteCount);
    var k := ActualStart(|s|, start);
    assert r.rest == r.rest[..k] + r.rest[k..];
  }

  /** Every element left after splicing was in the original array. */
  lemma SpliceKeepsOnlyOriginal<T>(s: seq<T>, start: int, deleteCount: int)
    ensures forall t :: t in Splice(s, start, deleteCount).rest ==> t in s
  {
    var r := Splice(s, start, deleteCount);
    SplicePermutes(s, start, deleteCount);
    forall t | t in r.rest ensures t in s {
      assert t in multiset(r.rest);
    }
  }
}
