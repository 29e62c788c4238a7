/** Sequences with the same elements. */
module Permutations {

  function Map<T, U>(f: T -> U, s: seq<T>): seq<U> {
    seq(|s|, i requires 0 <= i < |s| => f(s[i]))
  }

  /** Where the last element of one sequence stands in the other. */
  lemma LastElsewhere<T>(a: seq<T>, b: seq<T>) returns (i: nat)
    requires multiset(a) == multiset(b) && a != []
    ensures i < |b| && b[i] == a[|a| - 1]
    ensures multiset(b[..i] + b[i + 1..]) == multiset(a[..|a| - 1])
  {
    var front, last := a[..|a| - 1], a[|a| - 1];
    assert a == front + [last];
    assert last in multiset(b);
    i :| 0 <= i < |b| && b[i] == last;
    var before, after := b[..i], b[i + 1..];
    assert b == before + [last] + after;
    Cancel(multiset(before + after), multiset(front), multiset([last]));
  }

  lemma Cancel<T>(a: multiset<T>, b: multiset<T>, c: multiset<T>)
    requires a + c == b + c
    ensures a == b
  {
    assert a == (a + c) - c;
  }

  lemma {:induction false} MapPermuted<T, U>(f: T -> U, a: seq<T>, b: seq<T>)
    requires multiset(a) == multiset(b)
    ensures multiset(Map(f, a)) == multiset(Map(f, b))
    decreases |a|
  {
    if a == [] {
      assert |b| == |multiset(b)|;
    } else {
      var i := LastElsewhere(a, b);
      MapPermuted(f, a[..|a| - 1], b[..i] + b[i + 1..]);
      assert Map(f, a) == Map(f, a[..|a| - 1]) + [f(b[i])];
      assert Map(f, b) == Map(f, b[..i]) + [f(b[i])] + Map(f, b[i + 1..]);
      assert Map(f, b[..i] + b[i + 1..]) == Map(f, b[..i]) + Map(f, b[i + 1..]);
    }
  }
}
