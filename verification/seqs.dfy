/** Python list operations the task engine relies on, over Dafny sequences. */
module Seqs {

  /** Position of the first element equal to `x`. */
  function IndexOf<T(==)>(s: seq<T>, x: T): (i: nat)
    requires x in s
    ensures i < |s| && s[i] == x
    ensures forall k :: 0 <= k < i ==> s[k] != x
  {
    if s[0] == x then 0 else 1 + IndexOf(s[1..], x)
  }

  /** Appending an element does not move the first position of anything
      already present, and puts a new element at the end. */
  lemma IndexOfAppend<T>(s: seq<T>, x: T, y: T)
    requires y in s + [x]
    ensures y in s ==> IndexOf(s + [x], y) == IndexOf(s, y)
    ensures y !in s ==> IndexOf(s + [x], y) == |s|
  {
    var t := s + [x];
    var i := IndexOf(t, y);
    if y in s {
      var j := IndexOf(s, y);
      assert t[j] == y;
      assert s[i] == y;
    } else {
      assert t[|s|] == y;
      assert forall k :: 0 <= k < |s| ==> t[k] == s[k];
    }
  }

  /** Python's `list.remove(x)`: drops the first element equal to `x`
      (the caller guarantees that one is present, as `remove` raises otherwise). */
  function RemoveFirst<T(==)>(s: seq<T>, x: T): (r: seq<T>)
    requires x in s
    ensures |r| == |s| - 1
    ensures multiset(r) == multiset(s) - multiset{x}
  {
    if s[0] == x then
      assert s == [x] + s[1..];
      s[1..]
    else
      assert s == [s[0]] + s[1..];
      [s[0]] + RemoveFirst(s[1..], x)
  }

  /** `remove` takes the first copy: elements before it, and the order of
      everything else, are left as they were. */
  lemma {:induction false} RemoveFirstPastPrefix<T>(a: seq<T>, b: seq<T>, x: T)
    requires x !in a
    ensures RemoveFirst(a + [x] + b, x) == a + b
  {
    if |a| == 0 {
      assert a + [x] + b == [x] + b;
    } else {
      var s := a + [x] + b;
      assert s[0] == a[0] && a[0] != x;
      assert s[1..] == a[1..] + [x] + b;
      assert RemoveFirst(s, x) == [a[0]] + RemoveFirst(s[1..], x);
      RemoveFirstPastPrefix(a[1..], b, x);
      assert a + b == [a[0]] + (a[1..] + b);
    }
  }

  /** Concatenation is associative; stated once so that proofs with a large
      context can cite it instead of rediscovering it. */
  lemma ConcatAssoc<T>(a: seq<T>, b: seq<T>, c: seq<T>)
    ensures a + (b + c) == (a + b) + c
  {
  }
}
