/** The two uses of JavaScript's `Array.prototype.splice` made by the task
    boards, on sequences: `a.splice(i, 1)` takes one element out and
    `a.splice(i, 0, x)` puts one element in. */
module Splice {

  /** The array `a` after `a.splice(i, 1)`: every element but the one at `i`, in order. */
  function RemoveAt<T>(s: seq<T>, i: nat): (r: seq<T>)
    requires i < |s|
    ensures |r| == |s| - 1
    ensures forall k :: 0 <= k < i ==> r[k] == s[k]
    ensures forall k :: i <= k < |r| ==> r[k] == s[k + 1]
  {
    s[..i] + s[i + 1..]
  }

  /** The array `a` after `a.splice(i, 0, x)`: `x` now sits at `i` and the
      elements from `i` on have moved up by one. */
  function InsertAt<T>(s: seq<T>, i: nat, x: T): (r: seq<T>)
    requires i <= |s|
    ensures |r| == |s| + 1 && r[i] == x
    ensures forall k :: 0 <= k < i ==> r[k] == s[k]
    ensures forall k :: i < k < |r| ==> r[k] == s[k - 1]
  {
    s[..i] + [x] + s[i..]
  }

  /** Taking an element out loses exactly that element. */
  lemma RemoveAtMultiset<T>(s: seq<T>, i: nat)
    requires i < |s|
    ensures multiset(RemoveAt(s, i)) + multiset{s[i]} == multiset(s)
  {
    assert s == s[..i] + [s[i]] + s[i + 1..];
  }

  /** Putting an element in adds exactly that element. */
  lemma InsertAtMultiset<T>(s: seq<T>, i: nat, x: T)
    requires i <= |s|
    ensures multiset(InsertAt(s, i, x)) == multiset(s) + multiset{x}
  {
    assert s == s[..i] + s[i..];
  }

  /** Putting the taken element back where it was restores the array. */
  lemma InsertRemoved<T>(s: seq<T>, i: nat)
    requires i < |s|
    ensures InsertAt(RemoveAt(s, i), i, s[i]) == s
  {
  }

  /** Taking out what was just put in restores the array. */
  lemma RemoveInserted<T>(s: seq<T>, i: nat, x: T)
    requires i <= |s|
    ensures RemoveAt(InsertAt(s, i, x), i) == s
  {
  }

  /** A move within one array (`splice(i, 1)` and then `splice(j, 0, moved)`
      on the shortened array) keeps the length and the multiset of elements,
      puts the moved element at `j`, keeps the others in their relative
      order, and leaves every element outside the stretch between `i` and
      `j` at its index. */
  lemma MoveWithin<T>(s: seq<T>, i: nat, j: nat)
    requires i < |s| && j < |s|
    ensures var r := InsertAt(RemoveAt(s, i), j, s[i]);
      && |r| == |s|
      && r[j] == s[i]
      && RemoveAt(r, j) == RemoveAt(s, i)
      && multiset(r) == multiset(s)
      && (forall k :: 0 <= k < |s| && ((k < i && k < j) || (k > i && k > j)) ==> r[k] == s[k])
  {
    RemoveInserted(RemoveAt(s, i), j, s[i]);
    InsertAtMultiset(RemoveAt(s, i), j, s[i]);
    RemoveAtMultiset(s, i);
  }

  /** Dragging a card back to where it came from in the same array restores
      the array. */
  lemma MoveWithinAndBack<T>(s: seq<T>, i: nat, j: nat)
    requires i < |s| && j < |s|
    ensures var r := InsertAt(RemoveAt(s, i), j, s[i]);
      InsertAt(RemoveAt(r, j), i, r[j]) == s
  {
  }

  /** A move from array `a` to array `b` and then back to index `i` of `a`
      restores both arrays. */
  lemma MoveAcrossAndBack<T>(a: seq<T>, i: nat, b: seq<T>, j: nat)
    requires i < |a| && j <= |b|
    ensures var a', b' := RemoveAt(a, i), InsertAt(b, j, a[i]);
      && RemoveAt(b', j) == b
      && InsertAt(a', i, b'[j]) == a
  {
  }
}
