/** The stable sorts of the standard library, by insertion. */
module Sorting {

  ghost predicate TotalPreorder<T(!new)>(leq: (T, T) -> bool) {
    && (forall x, y :: leq(x, y) || leq(y, x))
    && (forall x, y, z :: leq(x, y) && leq(y, z) ==> leq(x, z))
  }

  ghost predicate SortedBy<T>(leq: (T, T) -> bool, s: seq<T>) {
    forall i, j :: 0 <= i < j < |s| ==> leq(s[i], s[j])
  }

  /** Before the first element that is not smaller. */
  function Insert<T>(leq: (T, T) -> bool, x: T, s: seq<T>): seq<T> {
    if s == [] || leq(x, s[0]) then [x] + s else [s[0]] + Insert(leq, x, s[1..])
  }

  function Sort<T>(leq: (T, T) -> bool, s: seq<T>): seq<T> {
    if s == [] then [] else Insert(leq, s[0], Sort(leq, s[1..]))
  }

  function Filter<T>(keep: T -> bool, s: seq<T>): seq<T> {
    if s == [] then []
    else if keep(s[0]) then [s[0]] + Filter(keep, s[1..])
    else Filter(keep, s[1..])
  }

  lemma {:induction false} InsertElements<T>(leq: (T, T) -> bool, x: T, s: seq<T>)
    ensures multiset(Insert(leq, x, s)) == multiset(s) + multiset{x}
  {
    if s != [] && !leq(x, s[0]) {
      InsertElements(leq, x, s[1..]);
      assert s == [s[0]] + s[1..];
    }
  }

  lemma {:induction false} InsertSorted<T(!new)>(leq: (T, T) -> bool, x: T, s: seq<T>)
    requires TotalPreorder(leq) && SortedBy(leq, s)
    ensures SortedBy(leq, Insert(leq, x, s))
  {
    if s != [] && !leq(x, s[0]) {
      InsertSorted(leq, x, s[1..]);
      var rest := Insert(leq, x, s[1..]);
      InsertElements(leq, x, s[1..]);
      forall i | 0 <= i < |rest| ensures leq(s[0], rest[i]) {
        assert rest[i] in multiset(rest);
        if rest[i] != x {
          assert rest[i] in multiset(s[1..]);
        }
      }
    }
  }

  lemma {:induction false} SortIsCorrect<T(!new)>(leq: (T, T) -> bool, s: seq<T>)
    requires TotalPreorder(leq)
    ensures SortedBy(leq, Sort(leq, s))
    ensures multiset(Sort(leq, s)) == multiset(s)
  {
    if s != [] {
      SortIsCorrect(leq, s[1..]);
      InsertSorted(leq, s[0], Sort(leq, s[1..]));
      InsertElements(leq, s[0], Sort(leq, s[1..]));
      assert s == [s[0]] + s[1..];
    }
  }

  lemma {:induction false} FilterOfInsert<T(!new)>(leq: (T, T) -> bool, keep: T -> bool, x: T, s: seq<T>)
    requires TotalPreorder(leq) && SortedBy(leq, s)
    ensures Filter(keep, Insert(leq, x, s)) ==
            if keep(x) then Insert(leq, x, Filter(keep, s)) else Filter(keep, s)
  {
    if s == [] {
    } else if leq(x, s[0]) {
      assert ([x] + s)[1..] == s;
      FirstKept(leq, keep, x, s);
    } else {
      FilterOfInsert(leq, keep, x, s[1..]);
      assert ([s[0]] + Insert(leq, x, s[1..]))[1..] == Insert(leq, x, s[1..]);
      if keep(s[0]) {
        assert ([s[0]] + Filter(keep, s[1..]))[1..] == Filter(keep, s[1..]);
      }
    }
  }

  /** In a sorted sequence, what is below the head is below the first element kept. */
  lemma {:induction false} FirstKept<T(!new)>(leq: (T, T) -> bool, keep: T -> bool, x: T, s: seq<T>)
    requires TotalPreorder(leq) && SortedBy(leq, s)
    requires s != [] ==> leq(x, s[0])
    ensures Filter(keep, s) != [] ==> leq(x, Filter(keep, s)[0])
  {
    if s != [] && !keep(s[0]) {
      if |s| > 1 {
        assert leq(s[0], s[1]);
      }
      FirstKept(leq, keep, x, s[1..]);
    }
  }

  /** Sorting keeps the order of equal elements, whatever part of the sequence one looks at. */
  lemma {:induction false} FilterOfSort<T(!new)>(leq: (T, T) -> bool, keep: T -> bool, s: seq<T>)
    requires TotalPreorder(leq)
    ensures Filter(keep, Sort(leq, s)) == Sort(leq, Filter(keep, s))
  {
    if s != [] {
      FilterOfSort(leq, keep, s[1..]);
      SortIsCorrect(leq, s[1..]);
      FilterOfInsert(leq, keep, s[0], Sort(leq, s[1..]));
      if keep(s[0]) {
        assert ([s[0]] + Filter(keep, s[1..]))[1..] == Filter(keep, s[1..]);
      }
    }
  }

  lemma {:induction false} FilterMembers<T>(keep: T -> bool, s: seq<T>, x: T)
    ensures x in Filter(keep, s) <==> x in s && keep(x)
  {
    if s != [] {
      FilterMembers(keep, s[1..], x);
      assert s == [s[0]] + s[1..];
    }
  }

  // ---------------------------------------------------------------- where the elements come from

  predicate Precedes<T>(leq: (T, T) -> bool, s: seq<T>, i: nat, j: nat)
    requires i < |s| && j < |s|
  {
    leq(s[i], s[j]) && i != j && (leq(s[j], s[i]) ==> i < j)
  }

  /** Element `k` of `sorted` is element `at[k]` of `s`, and each element is taken once; equal ones keep their order. */
  ghost predicate StablySorted<T>(leq: (T, T) -> bool, s: seq<T>, sorted: seq<T>, at: seq<nat>) {
    && |at| == |sorted| == |s|
    && (forall k :: 0 <= k < |at| ==> at[k] < |s| && sorted[k] == s[at[k]])
    && (forall i :: 0 <= i < |s| ==> i in at)
    && (forall j, k :: 0 <= j < k < |at| ==> Precedes(leq, s, at[j], at[k]))
  }

  lemma {:induction false} InsertPosition<T>(leq: (T, T) -> bool, x: T, s: seq<T>) returns (p: nat)
    ensures p <= |s| && Insert(leq, x, s) == s[..p] + [x] + s[p..]
    ensures (forall j :: 0 <= j < p ==> !leq(x, s[j])) && (p < |s| ==> leq(x, s[p]))
  {
    p := 0;
    if s != [] && !leq(x, s[0]) {
      var rest := InsertPosition(leq, x, s[1..]);
      p := rest + 1;
      assert s[..p] == [s[0]] + s[1..][..rest] && s[p..] == s[1..][rest..];
    }
  }

  /** The positions with `0` put in at `p` and all others one further on. */
  function Shifted(at: seq<nat>, p: nat): (r: seq<nat>)
    requires p <= |at|
    ensures |r| == |at| + 1 && r[p] == 0
    ensures forall k :: 0 <= k < p ==> r[k] == at[k] + 1
    ensures forall k :: p < k < |r| ==> r[k] == at[k - 1] + 1
  {
    seq(|at| + 1, k requires 0 <= k < |at| + 1 => if k < p then at[k] + 1 else if k == p then 0 else at[k - 1] + 1)
  }

  lemma {:induction false} SortPositions<T(!new)>(leq: (T, T) -> bool, s: seq<T>) returns (at: seq<nat>)
    requires TotalPreorder(leq)
    ensures StablySorted(leq, s, Sort(leq, s), at)
  {
    if s == [] {
      at := [];
    } else {
      var x, rest, sorted := s[0], s[1..], Sort(leq, s[1..]);
      var before := SortPositions(leq, rest);
      var p := InsertPosition(leq, x, sorted);
      at := Shifted(before, p);
      InsertedStably(leq, s, sorted, before, p);
    }
  }

  lemma InsertedStably<T(!new)>(leq: (T, T) -> bool, s: seq<T>, sorted: seq<T>, before: seq<nat>, p: nat)
    requires TotalPreorder(leq) && s != [] && StablySorted(leq, s[1..], sorted, before)
    requires p <= |sorted| && forall j :: 0 <= j < p ==> !leq(s[0], sorted[j])
    requires p < |sorted| ==> leq(s[0], sorted[p])
    ensures StablySorted(leq, s, sorted[..p] + [s[0]] + sorted[p..], Shifted(before, p))
  {
    hide Precedes, TotalPreorder, Shifted;
    ShiftedCovers(before, p, |s| - 1);
    InsertedElements(s, sorted, before, p);
    forall j, k | 0 <= j < k <= |before| ensures Precedes(leq, s, Shifted(before, p)[j], Shifted(before, p)[k]) {
      InsertedInOrder(leq, s, sorted, before, p, j, k);
    }
  }

  lemma ShiftedCovers(before: seq<nat>, p: nat, n: nat)
    requires p <= |before| && forall i :: 0 <= i < n ==> i in before
    ensures forall i :: 0 <= i < n + 1 ==> i in Shifted(before, p)
  {
    var at := Shifted(before, p);
    forall i | 0 <= i < n + 1 ensures i in at {
      if i == 0 {
        assert at[p] == 0;
      } else {
        assert i - 1 in before;
        var k :| 0 <= k < |before| && before[k] == i - 1;
        assert at[if k < p then k else k + 1] == i;
      }
    }
  }

  lemma InsertedElements<T>(s: seq<T>, sorted: seq<T>, before: seq<nat>, p: nat)
    requires s != [] && p <= |sorted| == |before|
    requires forall k :: 0 <= k < |before| ==> before[k] < |s[1..]| && sorted[k] == s[1..][before[k]]
    ensures var at := Shifted(before, p);
            forall k :: 0 <= k < |at| ==> at[k] < |s| && (sorted[..p] + [s[0]] + sorted[p..])[k] == s[at[k]]
  {
    var at, inserted := Shifted(before, p), sorted[..p] + [s[0]] + sorted[p..];
    forall k | 0 <= k < |at| ensures at[k] < |s| && inserted[k] == s[at[k]] {
      if k > p {
        assert inserted[k] == sorted[k - 1];
      }
    }
  }

  lemma InsertedInOrder<T(!new)>(leq: (T, T) -> bool, s: seq<T>, sorted: seq<T>, before: seq<nat>, p: nat, j: nat,
                                 k: nat)
    requires TotalPreorder(leq) && s != [] && StablySorted(leq, s[1..], sorted, before)
    requires p <= |sorted| && forall j :: 0 <= j < p ==> !leq(s[0], sorted[j])
    requires p < |sorted| ==> leq(s[0], sorted[p])
    requires j < k <= |before|
    ensures Shifted(before, p)[j] < |s| && Shifted(before, p)[k] < |s|
    ensures Precedes(leq, s, Shifted(before, p)[j], Shifted(before, p)[k])
  {
    var rest := s[1..];
    if j == p {
      assert k == p + 1 || Precedes(leq, rest, before[p], before[k - 1]);
      assert leq(s[0], sorted[p]) && leq(sorted[p], sorted[k - 1]);
    } else if k == p {
      assert leq(sorted[j], s[0]) && !leq(s[0], sorted[j]);
    } else {
      assert Precedes(leq, rest, before[if j < p then j else j - 1], before[if k < p then k else k - 1]);
    }
  }

  /** Element `k` of what is kept is element `at[k]` of `s`, in order, and all that is kept is there. */
  lemma {:induction false} FilterPositions<T>(keep: T -> bool, s: seq<T>, n: nat) returns (at: seq<nat>)
    requires n <= |s|
    ensures |at| == |Filter(keep, s[n..])| && forall k :: 0 <= k < |at| ==> n <= at[k] < |s|
    ensures forall k :: 0 <= k < |at| ==> Filter(keep, s[n..])[k] == s[at[k]]
    ensures forall j, k :: 0 <= j < k < |at| ==> at[j] < at[k]
    ensures forall i :: n <= i < |s| ==> (keep(s[i]) <==> i in at)
    decreases |s| - n
  {
    if n == |s| {
      at := [];
    } else {
      at := FilterPositions(keep, s, n + 1);
      assert s[n..][1..] == s[n + 1..];
      if keep(s[n]) {
        at := [n] + at;
      }
    }
  }
}
