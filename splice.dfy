/**
 * The three ways the editor rearranges a part's step list with
 * `Array.prototype.splice`: insert one element, delete one element, and the
 * delete-then-reinsert pair that exchanges a step with its successor.
 */
module Splice {

  /** steps.splice(i, 0, x) */
  function InsertAt<T>(s: seq<T>, i: int, x: T): (r: seq<T>)
    requires 0 <= i <= |s|
    ensures |r| == |s| + 1 && r[i] == x
    ensures forall j :: 0 <= j < i ==> r[j] == s[j]
    ensures forall j :: i < j < |r| ==> r[j] == s[j - 1]
  {
    assert s == s[..i] + s[i..];
    s[..i] + [x] + s[i..]
  }

  /** steps.splice(i, 1) */
  function RemoveAt<T>(s: seq<T>, i: int): (r: seq<T>)
    requires 0 <= i < |s|
    ensures |r| == |s| - 1
    ensures forall j :: 0 <= j < i ==> r[j] == s[j]
    ensures forall j :: i <= j < |r| ==> r[j] == s[j + 1]
  {
    assert s == s[..i] + [s[i]] + s[i + 1..];
    s[..i] + s[i + 1..]
  }

  /** steps.splice(i, 1) followed by steps.splice(i + 1, 0, steps[i]): s[i] and s[i + 1] change places. */
  function SwapWithNext<T>(s: seq<T>, i: int): (r: seq<T>)
    requires 0 <= i < |s| - 1
    ensures |r| == |s| && r[i] == s[i + 1] && r[i + 1] == s[i]
    ensures forall j :: 0 <= j < |s| && j != i && j != i + 1 ==> r[j] == s[j]
  {
    assert s == s[..i] + [s[i], s[i + 1]] + s[i + 2..];
    s[..i] + [s[i + 1], s[i]] + s[i + 2..]
  }

  /** Inserting adds exactly the inserted element. */
  lemma InsertAtMultiset<T>(s: seq<T>, i: int, x: T)
    requires 0 <= i <= |s|
    ensures multiset(InsertAt(s, i, x)) == multiset(s) + multiset{x}
  {
    assert s == s[..i] + s[i..];
  }

  /** Deleting removes exactly the deleted element. */
  lemma RemoveAtMultiset<T>(s: seq<T>, i: int)
    requires 0 <= i < |s|
    ensures multiset(RemoveAt(s, i)) + multiset{s[i]} == multiset(s)
  {
    assert s == s[..i] + [s[i]] + s[i + 1..];
  }

  /** Swapping neighbours neither loses nor duplicates an element. */
  lemma SwapMultiset<T>(s: seq<T>, i: int)
    requires 0 <= i < |s| - 1
    ensures multiset(SwapWithNext(s, i)) == multiset(s)
  {
    assert s == s[..i] + [s[i], s[i + 1]] + s[i + 2..];
  }

  /** Deleting what was just inserted gives the original list back. */
  lemma RemoveInsert<T>(s: seq<T>, i: int, x: T)
    requires 0 <= i <= |s|
    ensures RemoveAt(InsertAt(s, i, x), i) == s
  {
    var r := RemoveAt(InsertAt(s, i, x), i);
    assert |r| == |s|;
    forall j | 0 <= j < |s| ensures r[j] == s[j] { }
  }

  /** Swapping twice restores the list, so a move-next undoes a move-prev of the whole step. */
  lemma SwapTwice<T>(s: seq<T>, i: int)
    requires 0 <= i < |s| - 1
    ensures SwapWithNext(SwapWithNext(s, i), i) == s
  {
    var r := SwapWithNext(SwapWithNext(s, i), i);
    forall j | 0 <= j < |s| ensures r[j] == s[j] { }
  }

  /** Taking an element out and putting it back one place later swaps it with its successor. */
  lemma MoveLater<T>(s: seq<T>, i: int)
    requires 0 <= i < |s| - 1
    ensures InsertAt(RemoveAt(s, i), i + 1, s[i]) == SwapWithNext(s, i)
  {
  }

  /** Taking an element out and putting it back one place earlier swaps it with its predecessor. */
  lemma MoveEarlier<T>(s: seq<T>, i: int)
    requires 0 < i < |s|
    ensures InsertAt(RemoveAt(s, i), i - 1, s[i]) == SwapWithNext(s, i - 1)
  {
  }
}
