/** When the way in which neighbouring allowlists are folded first decides the result. */
module Groupings {
  import opened Types
  import opened Allowlists
  import opened Strictness

  // ---------------------------------------------------------------- three lists

  lemma MeetCommutes<T>(a: set<T>, b: set<T>)
    ensures Meet(a, b) == Meet(b, a)
  {
    assert a * b == b * a;
  }

  /** The middle list overlaps both neighbours, or neither; in that case the outer two are the same. */
  predicate Associates<T(==)>(a: set<T>, b: set<T>, c: set<T>) {
    || a == {} || b == {} || c == {}
    || (a * b != {} && b * c != {})
    || (a * b == {} && b * c == {} && a == c)
  }

  lemma MeetAssociatesIff<T>(a: set<T>, b: set<T>, c: set<T>)
    ensures Meet(Meet(a, b), c) == Meet(a, Meet(b, c)) <==> Associates(a, b, c)
  {
    assert (a * b) * c == a * (b * c);
    if b * c == {} {
      assert (a * b) * c == {};
    }
    if a * b == {} {
      assert a * (b * c) == {};
    }
  }

  /** Two neighbours may be swapped after a fold `x` under the same condition, with `x` in the middle. */
  lemma SwapIff<T>(x: set<T>, a: set<T>, b: set<T>)
    ensures Meet(Meet(x, a), b) == Meet(Meet(x, b), a) <==> Associates(a, x, b)
  {
    MeetCommutes(x, a);
    MeetCommutes(a, Meet(x, b));
    MeetAssociatesIff(a, x, b);
  }

  // ---------------------------------------------------------------- any number of lists

  /** A way of folding neighbours first. */
  datatype Nest<T> = One(item: T) | Two(left: Nest<T>, right: Nest<T>)

  function Leaves<T>(n: Nest<T>): (leaves: seq<T>)
    ensures leaves != []
  {
    match n
    case One(item) => [item]
    case Two(left, right) => Leaves(left) + Leaves(right)
  }

  function Folded<T(==)>(n: Nest<set<T>>): set<T> {
    match n
    case One(list) => list
    case Two(left, right) => Meet(Folded(left), Folded(right))
  }

  /** Whatever neighbours are folded first, the result is the same. */
  ghost predicate FoldsAlike<T(!new)>(lists: seq<set<T>>) {
    forall n, m :: Leaves(n) == lists && Leaves(m) == lists ==> Folded(n) == Folded(m)
  }

  /** And so for every run of neighbours. */
  ghost predicate PartsFoldAlike<T(!new)>(lists: seq<set<T>>) {
    forall i, j :: 0 <= i <= j <= |lists| ==> FoldsAlike(lists[i..j])
  }

  ghost predicate AllFull<T(!new)>(lists: seq<set<T>>) {
    forall l :: l in lists ==> l != {}
  }

  /** An element is in each of the lists; none of them admits everything. */
  ghost predicate Common<T(!new)>(lists: seq<set<T>>) {
    lists == [] || exists item :: InAll(lists, item)
  }

  predicate InAll<T(==)>(lists: seq<set<T>>, item: T) {
    forall l :: l in lists ==> item in l
  }

  lemma InAllParts<T>(a: seq<set<T>>, b: seq<set<T>>, item: T)
    ensures InAll(a + b, item) <==> InAll(a, item) && InAll(b, item)
  {
    assert forall l :: l in a + b <==> l in a || l in b;
  }

  lemma CommonParts<T(!new)>(a: seq<set<T>>, b: seq<set<T>>)
    requires Common(a + b)
    ensures Common(a) && Common(b)
  {
    if a + b != [] {
      var item :| InAll(a + b, item);
      InAllParts(a, b, item);
    }
  }

  lemma AllFullParts<T(!new)>(a: seq<set<T>>, b: seq<set<T>>)
    requires AllFull(a + b)
    ensures AllFull(a) && AllFull(b)
  {
    assert forall l :: l in a + b <==> l in a || l in b;
  }

  lemma CommonSlice<T(!new)>(lists: seq<set<T>>, i: nat, j: nat)
    requires i <= j <= |lists| && Common(lists)
    ensures Common(lists[i..j])
  {
    assert lists == lists[..i] + lists[i..];
    CommonParts(lists[..i], lists[i..]);
    assert lists[i..] == lists[i..j] + lists[j..];
    CommonParts(lists[i..j], lists[j..]);
  }

  /** All lists but the last, and all but the first, have an element in common. */
  ghost predicate NearlyCommon<T(!new)>(lists: seq<set<T>>) {
    lists == [] || (Common(lists[..|lists| - 1]) && Common(lists[1..]))
  }

  /** The lists are two disjoint ones by turns. */
  predicate Alternates<T(==)>(lists: seq<set<T>>) {
    && (forall i :: 0 <= i && i + 1 < |lists| ==> lists[i] * lists[i + 1] == {})
    && (forall i :: 0 <= i && i + 2 < |lists| ==> lists[i] == lists[i + 2])
  }

  /** Lists that have an element in common fold to what they have in common. */
  lemma {:induction false} FoldedCommon<T(!new)>(n: Nest<set<T>>)
    requires Common(Leaves(n))
    ensures Folded(n) != {} && forall item :: item in Folded(n) <==> InAll(Leaves(n), item)
  {
    match n {
      case One(list) =>
        var item :| InAll(Leaves(n), item);
        assert list in Leaves(n) && item in list;
      case Two(left, right) =>
        CommonParts(Leaves(left), Leaves(right));
        FoldedCommon(left);
        FoldedCommon(right);
        var item :| InAll(Leaves(n), item);
        InAllParts(Leaves(left), Leaves(right), item);
        assert item in Folded(left) * Folded(right);
        forall x ensures x in Folded(n) <==> InAll(Leaves(n), x) {
          InAllParts(Leaves(left), Leaves(right), x);
        }
    }
  }

  lemma SlicesOf<T>(s: seq<T>, k: nat)
    requires 0 < k < |s|
    ensures s[..|s| - 1][0..k] == s[..k] && s[1..][k - 1..|s| - 1] == s[k..]
  {}

  lemma EndsOfSlice<T>(s: seq<T>, i: nat, j: nat)
    requires i < j <= |s|
    ensures s[i..j][..j - i - 1] == s[..|s| - 1][i..j - 1] && s[i..j][1..] == s[1..][i..j - 1]
  {}

  /** Nearly common lists do so too, though that may be nothing. */
  lemma FoldedNearlyCommon<T(!new)>(n: Nest<set<T>>)
    requires NearlyCommon(Leaves(n)) && AllFull(Leaves(n))
    ensures forall item :: item in Folded(n) <==> InAll(Leaves(n), item)
  {
    match n {
      case One(list) =>
        assert list in Leaves(n);
      case Two(left, right) =>
        var lists, k := Leaves(n), |Leaves(left)|;
        assert lists == Leaves(left) + Leaves(right);
        SlicesOf(lists, k);
        CommonSlice(lists[..|lists| - 1], 0, k);
        CommonSlice(lists[1..], k - 1, |lists| - 1);
        FoldedCommon(left);
        FoldedCommon(right);
        forall item ensures item in Folded(n) <==> InAll(lists, item) {
          InAllParts(Leaves(left), Leaves(right), item);
        }
    }
  }

  lemma {:induction false} TurnsFrom<T>(lists: seq<set<T>>, i: nat, k: nat)
    requires Alternates(lists) && i + k < |lists|
    ensures k % 2 == 0 ==> lists[i] == lists[i + k]
    ensures k % 2 == 1 ==> lists[i] * lists[i + k] == {}
    decreases k
  {
    if k >= 2 {
      TurnsFrom(lists, i + 2, k - 2);
      assert lists[i] == lists[i + 2];
    }
  }

  lemma AlternatesSlice<T>(lists: seq<set<T>>, i: nat, j: nat)
    requires i <= j <= |lists| && Alternates(lists)
    ensures Alternates(lists[i..j])
  {
    forall k | 0 <= k && k + 1 < j - i ensures lists[i..j][k] * lists[i..j][k + 1] == {} {
      assert lists[i + k] * lists[i + k + 1] == {};
    }
    forall k | 0 <= k && k + 2 < j - i ensures lists[i..j][k] == lists[i..j][k + 2] {
      assert lists[i + k] == lists[i + k + 2];
    }
  }

  lemma Cancels<T>(first: set<T>, other: set<T>, k: nat, m: nat)
    requires first != {} && other != {}
    requires if k % 2 == 0 then first == other else first * other == {}
    ensures Meet(if k % 2 == 0 then {} else first, if m % 2 == 0 then {} else other) ==
            if (k + m) % 2 == 0 then {} else first
  {}

  /** An even number of alternating lists cancel out. */
  lemma {:induction false} FoldedAlternating<T(!new)>(n: Nest<set<T>>)
    requires Alternates(Leaves(n)) && AllFull(Leaves(n))
    ensures Folded(n) == if |Leaves(n)| % 2 == 0 then {} else Leaves(n)[0]
  {
    hide Alternates, Meet;
    if n.One? {
      assert Leaves(n) == [n.item];
    } else {
      var lists, left, right := Leaves(n), Leaves(n.left), Leaves(n.right);
      AllFullParts(left, right);
      AlternatesSlice(lists, 0, |left|);
      AlternatesSlice(lists, |left|, |lists|);
      assert lists[0..|left|] == left && lists[|left|..|lists|] == right;
      FoldedAlternating(n.left);
      FoldedAlternating(n.right);
      TurnsFrom(lists, 0, |left|);
      assert lists[0] == left[0] && lists[|left|] == right[0];
      assert left[0] in left && right[0] in right;
      Cancels(left[0], right[0], |left|, |right|);
    }
  }

  lemma NestOf<T>(items: seq<T>) returns (n: Nest<T>)
    requires items != []
    ensures Leaves(n) == items
    decreases |items|
  {
    n := One(items[0]);
    if |items| > 1 {
      var rest := NestOf(items[1..]);
      n := Two(n, rest);
      assert items == [items[0]] + items[1..];
    }
  }

  lemma SliceOfSlice<T>(s: seq<T>, i: nat, j: nat, a: nat, b: nat)
    requires i <= j <= |s| && a <= b <= j - i
    ensures s[i..j][a..b] == s[i + a..i + b]
  {
    forall k | 0 <= k < b - a ensures s[i..j][a..b][k] == s[i + a..i + b][k] {}
  }

  lemma PartsOfPart<T(!new)>(lists: seq<set<T>>, i: nat, j: nat)
    requires i <= j <= |lists| && PartsFoldAlike(lists)
    ensures PartsFoldAlike(lists[i..j])
  {
    hide FoldsAlike;
    forall a, b | 0 <= a <= b <= j - i ensures FoldsAlike(lists[i..j][a..b]) {
      SliceOfSlice(lists, i, j, a, b);
      var x, y := i + a, i + b;
      assert FoldsAlike(lists[x..y]);
    }
  }

  /** Three parts of a list that folds alike. */
  lemma PartsAssociate<T(!new)>(lists: seq<set<T>>, a: Nest<set<T>>, b: Nest<set<T>>, c: Nest<set<T>>)
    requires FoldsAlike(lists) && lists == Leaves(a) + Leaves(b) + Leaves(c)
    ensures Associates(Folded(a), Folded(b), Folded(c))
  {
    assert Leaves(a) + Leaves(b) + Leaves(c) == Leaves(a) + (Leaves(b) + Leaves(c));
    assert Folded(Two(Two(a, b), c)) == Folded(Two(a, Two(b, c)));
    MeetAssociatesIff(Folded(a), Folded(b), Folded(c));
  }

  ghost predicate Steady<T(!new)>(lists: seq<set<T>>) {
    NearlyCommon(lists) || Alternates(lists)
  }

  /** Two halves that each have an element in common, while the whole has none, cancel out. */
  lemma HalvesCancel<T(!new)>(lists: seq<set<T>>, k: nat)
    requires 0 < k < |lists| && FoldsAlike(lists) && Common(lists[..k]) && Common(lists[k..]) && !Common(lists)
    ensures forall n :: Leaves(n) == lists ==> Folded(n) == {}
  {
    var left := NestOf(lists[..k]);
    var right := NestOf(lists[k..]);
    var whole := Two(left, right);
    assert Leaves(whole) == lists[..k] + lists[k..] == lists;
    FoldedCommon(left);
    FoldedCommon(right);
    forall item ensures item !in Folded(whole) {
      InAllParts(lists[..k], lists[k..], item);
    }
    assert Folded(whole) == {};
  }

  /** If all but the last list fold to nothing, the last one remains. */
  lemma LastRemains<T(!new)>(front: seq<set<T>>, last: set<T>)
    requires front != [] && AllFull(front) && NearlyCommon(front) && !Common(front)
    ensures exists n :: Leaves(n) == front + [last] && Folded(n) == last
  {
    var p := NestOf(front);
    FoldedNearlyCommon(p);
    assert Folded(p) == {};
    assert Leaves(One(last)) == [last] && Folded(One(last)) == last;
    assert Leaves(Two(p, One(last))) == front + [last] && Folded(Two(p, One(last))) == last;
  }

  lemma FirstRemains<T(!new)>(first: set<T>, rest: seq<set<T>>)
    requires rest != [] && AllFull(rest) && NearlyCommon(rest) && !Common(rest)
    ensures exists n :: Leaves(n) == [first] + rest && Folded(n) == first
  {
    var p := NestOf(rest);
    FoldedNearlyCommon(p);
    assert Folded(p) == {};
    assert Leaves(One(first)) == [first] && Folded(One(first)) == first;
    assert Leaves(Two(One(first), p)) == [first] + rest && Folded(Two(One(first), p)) == first;
  }

  lemma FrontIsCommon<T(!new)>(lists: seq<set<T>>)
    requires |lists| >= 4 && AllFull(lists) && FoldsAlike(lists)
    requires NearlyCommon(lists[..|lists| - 1]) && NearlyCommon(lists[1..])
    ensures Common(lists[..|lists| - 1])
  {
    var k := |lists| - 1;
    var front := lists[..k];
    assert lists == front + [lists[k]] && lists[k] in lists;
    AllFullParts(front, [lists[k]]);
    if !Common(front) {
      if Common(lists) {
        CommonParts(front, [lists[k]]);
      }
      LastRemains(front, lists[k]);
      assert lists[1..][1..] == lists[2..] && front[..k - 1] == lists[..k - 1];
      CommonSlice(lists[2..], k - 3, k - 1);
      assert lists[2..][k - 3..k - 1] == lists[k - 1..];
      HalvesCancel(lists, k - 1);
    }
  }

  lemma RestIsCommon<T(!new)>(lists: seq<set<T>>)
    requires |lists| >= 4 && AllFull(lists) && FoldsAlike(lists)
    requires NearlyCommon(lists[..|lists| - 1]) && NearlyCommon(lists[1..])
    ensures Common(lists[1..])
  {
    var k := |lists| - 1;
    var rest := lists[1..];
    assert lists == [lists[0]] + rest && lists[0] in lists;
    AllFullParts([lists[0]], rest);
    if !Common(rest) {
      if Common(lists) {
        CommonParts([lists[0]], rest);
      }
      FirstRemains(lists[0], rest);
      assert rest[1..] == lists[2..] && lists[..k][..k - 1] == lists[..k - 1];
      CommonSlice(lists[..k - 1], 0, 2);
      assert lists[..k - 1][0..2] == lists[..2];
      HalvesCancel(lists, 2);
    }
  }

  lemma NotBoth<T(!new)>(lists: seq<set<T>>, i: nat)
    requires i + 1 < |lists| && lists[i] * lists[i + 1] == {}
    ensures !Common(lists)
  {
    forall item ensures !InAll(lists, item) {
      assert item !in lists[i] * lists[i + 1] && lists[i] in lists && lists[i + 1] in lists;
    }
  }

  lemma ThreeAreSteady<T(!new)>(lists: seq<set<T>>)
    requires |lists| == 3 && AllFull(lists) && FoldsAlike(lists)
    ensures Steady(lists)
  {
    var a, b, c := lists[0], lists[1], lists[2];
    assert lists == Leaves(One(a)) + Leaves(One(b)) + Leaves(One(c));
    PartsAssociate(lists, One(a), One(b), One(c));
    assert a in lists && b in lists && c in lists;
    if a * b != {} {
      var x :| x in a * b;
      var y :| y in b * c;
      assert InAll(lists[..2], x) && InAll(lists[1..], y);
    }
  }

  lemma TwoAreSteady<T(!new)>(lists: seq<set<T>>)
    requires |lists| <= 2 && AllFull(lists)
    ensures Steady(lists)
  {
    if |lists| == 2 {
      assert lists[0] in lists && lists[1] in lists;
      var x :| x in lists[0];
      var y :| y in lists[1];
      assert InAll(lists[..1], x) && InAll(lists[1..], y);
    }
  }

  lemma {:induction false} SteadyIfAlike<T(!new)>(lists: seq<set<T>>)
    requires AllFull(lists) && PartsFoldAlike(lists)
    ensures Steady(lists)
    decreases |lists|
  {
    assert lists[0..|lists|] == lists;
    if |lists| <= 2 {
      TwoAreSteady(lists);
    } else if |lists| == 3 {
      ThreeAreSteady(lists);
    } else {
      var k := |lists| - 1;
      var front, rest := lists[..k], lists[1..];
      assert lists == front + [lists[k]] && lists == [lists[0]] + rest;
      AllFullParts(front, [lists[k]]);
      AllFullParts([lists[0]], rest);
      PartsOfPart(lists, 0, k);
      PartsOfPart(lists, 1, k + 1);
      assert lists[0..k] == front && lists[1..k + 1] == rest;
      SteadyIfAlike(front);
      SteadyIfAlike(rest);
      if NearlyCommon(front) && NearlyCommon(rest) {
        FrontIsCommon(lists);
        RestIsCommon(lists);
      } else {
        BothAlternate(lists);
      }
    }
  }

  lemma BothAlternate<T(!new)>(lists: seq<set<T>>)
    requires |lists| >= 4 && Steady(lists[..|lists| - 1]) && Steady(lists[1..])
    requires !NearlyCommon(lists[..|lists| - 1]) || !NearlyCommon(lists[1..])
    ensures Alternates(lists)
  {
    var front, rest := lists[..|lists| - 1], lists[1..];
    if Alternates(front) {
      assert front[1] * front[2] == {};
      NotBoth(rest[..|rest| - 1], 0);
    } else {
      assert rest[0] * rest[1] == {};
      NotBoth(front[1..], 0);
    }
    forall i | 0 <= i && i + 1 < |lists| ensures lists[i] * lists[i + 1] == {} {
      if i == 0 { assert front[0] * front[1] == {}; } else { assert rest[i - 1] * rest[i] == {}; }
    }
    forall i | 0 <= i && i + 2 < |lists| ensures lists[i] == lists[i + 2] {
      if i == 0 { assert front[0] == front[2]; } else { assert rest[i - 1] == rest[i + 1]; }
    }
  }

  lemma NearlyCommonSlice<T(!new)>(lists: seq<set<T>>, i: nat, j: nat)
    requires i <= j <= |lists| && NearlyCommon(lists)
    ensures NearlyCommon(lists[i..j])
  {
    if i < j {
      var front, rest := lists[..|lists| - 1], lists[1..];
      CommonSlice(front, i, j - 1);
      CommonSlice(rest, i, j - 1);
      EndsOfSlice(lists, i, j);
    }
  }

  lemma AlikeIfSteady<T(!new)>(lists: seq<set<T>>)
    requires AllFull(lists) && Steady(lists)
    ensures FoldsAlike(lists)
  {
    forall n: Nest<set<T>>, m: Nest<set<T>> | Leaves(n) == lists && Leaves(m) == lists
      ensures Folded(n) == Folded(m)
    {
      if NearlyCommon(lists) {
        FoldedNearlyCommon(n);
        FoldedNearlyCommon(m);
        assert forall item :: item in Folded(n) <==> item in Folded(m);
      } else {
        FoldedAlternating(n);
        FoldedAlternating(m);
      }
    }
  }

  /** Of non-empty allowlists it never matters which neighbours are folded first, neither of all nor of a run of them,
      iff all but the last and all but the first have an element in common, or they are two disjoint lists by turns. */
  lemma PartsFoldAlikeIff<T(!new)>(lists: seq<set<T>>)
    requires AllFull(lists)
    ensures PartsFoldAlike(lists) <==> Steady(lists)
  {
    if PartsFoldAlike(lists) {
      SteadyIfAlike(lists);
    }
    if Steady(lists) {
      forall i, j | 0 <= i <= j <= |lists| ensures FoldsAlike(lists[i..j]) {
        assert lists == lists[..i] + lists[i..] && lists[i..] == lists[i..j] + lists[j..];
        AllFullParts(lists[..i], lists[i..]);
        AllFullParts(lists[i..j], lists[j..]);
        if NearlyCommon(lists) {
          NearlyCommonSlice(lists, i, j);
        } else {
          AlternatesSlice(lists, i, j);
        }
        AlikeIfSteady(lists[i..j]);
      }
    }
  }

  // ---------------------------------------------------------------- lists that admit everything

  /** The lists that restrict anything. */
  function Full<T(==)>(lists: seq<set<T>>): seq<set<T>> {
    if lists == [] then [] else (if lists[0] == {} then [] else [lists[0]]) + Full(lists[1..])
  }

  lemma {:induction false} FullIsFull<T(!new)>(lists: seq<set<T>>)
    ensures AllFull(Full(lists))
  {
    if lists != [] {
      FullIsFull(lists[1..]);
    }
  }

  lemma {:induction false} FullParts<T>(a: seq<set<T>>, b: seq<set<T>>)
    ensures Full(a + b) == Full(a) + Full(b)
  {
    if a == [] {
      assert a + b == b;
    } else {
      assert (a + b)[1..] == a[1..] + b;
      FullParts(a[1..], b);
    }
  }

  function Pruned<T(==)>(n: Nest<set<T>>): Option<Nest<set<T>>> {
    match n
    case One(list) => if list == {} then None else Some(n)
    case Two(left, right) =>
      match (Pruned(left), Pruned(right))
      case (None, r) => r
      case (l, None) => l
      case (Some(l), Some(r)) => Some(Two(l, r))
  }

  lemma {:induction false} PruningKeeps<T(!new)>(n: Nest<set<T>>)
    ensures match Pruned(n)
            case None => Full(Leaves(n)) == [] && Folded(n) == {}
            case Some(m) => Full(Leaves(n)) == Leaves(m) && Folded(n) == Folded(m)
  {
    match n {
      case One(list) =>
        assert Leaves(n) == [list] && [list][1..] == [];
        assert Full(Leaves(n)) == if list == {} then [] else [list];
      case Two(left, right) =>
        FullParts(Leaves(left), Leaves(right));
        PruningKeeps(left);
        PruningKeeps(right);
    }
  }

  lemma {:induction false} SplitFull<T>(lists: seq<set<T>>, x: seq<set<T>>, y: seq<set<T>>) returns (k: nat)
    requires Full(lists) == x + y
    ensures k <= |lists| && Full(lists[..k]) == x && Full(lists[k..]) == y
    decreases |lists|
  {
    if x == [] {
      k := 0;
      assert lists[..0] == [] && lists[0..] == lists && x + y == y;
    } else {
      var x' := if lists[0] == {} then x else x[1..];
      var rest := Full(lists[1..]);
      if lists[0] == {} {
        assert [] + rest == rest;
      } else {
        assert ([lists[0]] + rest)[1..] == rest && (x + y)[1..] == x[1..] + y && (x + y)[0] == x[0];
      }
      var j := SplitFull(lists[1..], x', y);
      k := j + 1;
      assert lists[..k] == [lists[0]] + lists[1..][..j] && lists[k..] == lists[1..][j..];
      assert Full(lists[..k]) == (if lists[0] == {} then [] else [lists[0]]) + Full(lists[1..][..j]);
    }
  }

  lemma OneLeaf<T>(n: Nest<T>)
    requires |Leaves(n)| == 1
    ensures n == One(Leaves(n)[0])
  {}

  lemma {:induction false} Regrown<T(!new)>(lists: seq<set<T>>, m: Nest<set<T>>) returns (n: Nest<set<T>>)
    requires Full(lists) == Leaves(m)
    ensures Leaves(n) == lists && Folded(n) == Folded(m)
    decreases m
  {
    match m {
      case One(list) =>
        n := NestOf(lists);
        PruningKeeps(n);
        OneLeaf(Pruned(n).value);
      case Two(left, right) =>
        var k := SplitFull(lists, Leaves(left), Leaves(right));
        var l := Regrown(lists[..k], left);
        var r := Regrown(lists[k..], right);
        n := Two(l, r);
        assert lists == lists[..k] + lists[k..];
    }
  }

  lemma AlikeIffFullAlike<T(!new)>(lists: seq<set<T>>)
    ensures FoldsAlike(lists) <==> FoldsAlike(Full(lists))
  {
    if FoldsAlike(Full(lists)) {
      forall n: Nest<set<T>>, m: Nest<set<T>> | Leaves(n) == lists && Leaves(m) == lists
        ensures Folded(n) == Folded(m)
      {
        PruningKeeps(n);
        PruningKeeps(m);
      }
    }
    if FoldsAlike(lists) {
      forall n: Nest<set<T>>, m: Nest<set<T>> | Leaves(n) == Full(lists) && Leaves(m) == Full(lists)
        ensures Folded(n) == Folded(m)
      {
        var n' := Regrown(lists, n);
        var m' := Regrown(lists, m);
      }
    }
  }

  lemma InThree<T>(s: seq<T>, i: nat, j: nat)
    requires i <= j <= |s|
    ensures s == s[..i] + (s[i..j] + s[j..])
  {}

  lemma MiddleOfThree<T>(a: seq<T>, b: seq<T>, c: seq<T>)
    ensures (a + (b + c))[|a|..|a| + |b|] == b
  {}

  /** It never matters which neighbours are folded first iff the lists that restrict anything are steady. */
  lemma SteadyIff<T(!new)>(lists: seq<set<T>>)
    ensures PartsFoldAlike(lists) <==> Steady(Full(lists))
  {
    hide FoldsAlike, Full, Steady;
    var full := Full(lists);
    FullIsFull(lists);
    PartsFoldAlikeIff(full);
    if PartsFoldAlike(full) {
      forall i, j | 0 <= i <= j <= |lists| ensures FoldsAlike(lists[i..j]) {
        InThree(lists, i, j);
        FullParts(lists[..i], lists[i..j] + lists[j..]);
        FullParts(lists[i..j], lists[j..]);
        MiddleOfThree(Full(lists[..i]), Full(lists[i..j]), Full(lists[j..]));
        AlikeIffFullAlike(lists[i..j]);
        var x, y := |Full(lists[..i])|, |Full(lists[..i])| + |Full(lists[i..j])|;
        assert FoldsAlike(full[x..y]);
      }
    }
    if PartsFoldAlike(lists) {
      forall i, j | 0 <= i <= j <= |full| ensures FoldsAlike(full[i..j]) {
        InThree(full, i, j);
        var x := SplitFull(lists, full[..i], full[i..j] + full[j..]);
        var y := SplitFull(lists[x..], full[i..j], full[j..]);
        assert lists[x..][..y] == lists[x..x + y];
        AlikeIffFullAlike(lists[x..x + y]);
        var z := x + y;
        assert FoldsAlike(lists[x..z]);
      }
    }
  }

  // ---------------------------------------------------------------- chains

  function MapNest<P, T>(n: Nest<P>, pick: P -> T): Nest<T> {
    match n
    case One(p) => One(pick(p))
    case Two(left, right) => Two(MapNest(left, pick), MapNest(right, pick))
  }

  lemma {:induction false} LeavesOfMap<P, T>(n: Nest<P>, pick: P -> set<T>)
    ensures Leaves(MapNest(n, pick)) == ListsOf(Leaves(n), pick)
  {
    if n.Two? {
      LeavesOfMap(n.left, pick);
      LeavesOfMap(n.right, pick);
      ListsOfParts(Leaves(n.left), Leaves(n.right), pick);
    }
  }

  /** Every way of folding the lists of a chain is one of resolving the chain. */
  lemma {:induction false} NestOverChain<P, T>(m: Nest<set<T>>, chain: seq<P>, pick: P -> set<T>)
    returns (n: Nest<P>)
    requires Leaves(m) == ListsOf(chain, pick)
    ensures Leaves(n) == chain && MapNest(n, pick) == m
    decreases m
  {
    match m {
      case One(list) =>
        n := One(chain[0]);
        assert chain == [chain[0]];
      case Two(left, right) =>
        var k := |Leaves(left)|;
        var a, b := chain[..k], chain[k..];
        assert chain == a + b;
        ListsOfParts(a, b, pick);
        assert ListsOf(a, pick) == Leaves(left) && ListsOf(b, pick) == Leaves(right);
        var l := NestOverChain(left, a, pick);
        var r := NestOverChain(right, b, pick);
        n := Two(l, r);
    }
  }

  /** Resolve neighbours first, two at a time. */
  function Resolved<P>(n: Nest<P>, resolve: seq<P> -> P): P {
    match n
    case One(p) => p
    case Two(left, right) => resolve([Resolved(left, resolve), Resolved(right, resolve)])
  }

  /** Resolving a chain folds its allowlists. */
  ghost predicate FoldsLists<P(!new), T>(resolve: seq<P> -> P, pick: P -> set<T>) {
    forall chain :: pick(resolve(chain)) == MeetAll(ListsOf(chain, pick))
  }

  lemma ResolvedTwo<P(!new), T>(p: P, q: P, resolve: seq<P> -> P, pick: P -> set<T>)
    requires FoldsLists(resolve, pick)
    ensures pick(resolve([p, q])) == Meet(pick(p), pick(q))
  {
    assert ListsOf([p, q], pick) == [pick(p), pick(q)];
    MeetPair(pick(p), pick(q));
  }

  lemma {:induction false} ResolvedFolds<P(!new), T>(n: Nest<P>, resolve: seq<P> -> P, pick: P -> set<T>)
    requires FoldsLists(resolve, pick)
    ensures pick(Resolved(n, resolve)) == Folded(MapNest(n, pick))
  {
    if n.Two? {
      ResolvedFolds(n.left, resolve, pick);
      ResolvedFolds(n.right, resolve, pick);
      ResolvedTwo(Resolved(n.left, resolve), Resolved(n.right, resolve), resolve, pick);
    }
  }

  /** Each setting that a chain resolves to the strictest one is so resolved by any nest. */
  ghost predicate TakesStrictest<P(!new), V>(resolve: seq<P> -> P, pick: P -> Option<V>, weight: V -> int) {
    forall chain :: IsStrictest(pick(resolve(chain)), chain, pick, weight)
  }

  lemma {:induction false} NestedStrictest<P(!new), V>(n: Nest<P>, resolve: seq<P> -> P, pick: P -> Option<V>,
                                                       weight: V -> int)
    requires TakesStrictest(resolve, pick, weight)
    ensures IsStrictest(pick(Resolved(n, resolve)), Leaves(n), pick, weight)
  {
    if n.Two? {
      var left, right := Resolved(n.left, resolve), Resolved(n.right, resolve);
      NestedStrictest(n.left, resolve, pick, weight);
      NestedStrictest(n.right, resolve, pick, weight);
      assert IsStrictest(pick(resolve([left, right])), [left, right], pick, weight);
      StrictestOfParts(left, right, pick(Resolved(n, resolve)), Leaves(n.left), Leaves(n.right), pick, weight);
    }
  }

  /** So it is the one that the whole chain has. */
  lemma NestedSetting<P(!new), V(!new)>(n: Nest<P>, resolve: seq<P> -> P, pick: P -> Option<V>, weight: V -> int)
    requires TakesStrictest(resolve, pick, weight) && Injective(weight)
    ensures pick(Resolved(n, resolve)) == pick(resolve(Leaves(n)))
  {
    NestedStrictest(n, resolve, pick, weight);
    StrictestIsUnique(pick(Resolved(n, resolve)), pick(resolve(Leaves(n))), Leaves(n), Leaves(n), pick, weight);
  }

  /** And it is the same if a chain is resolved in two parts of any length. */
  lemma SettingOfParts<P(!new), V(!new)>(a: seq<P>, b: seq<P>, resolve: seq<P> -> P, pick: P -> Option<V>,
                                         weight: V -> int)
    requires TakesStrictest(resolve, pick, weight) && Injective(weight)
    ensures pick(resolve([resolve(a), resolve(b)])) == pick(resolve(a + b))
  {
    var left, right := resolve(a), resolve(b);
    assert IsStrictest(pick(left), a, pick, weight) && IsStrictest(pick(right), b, pick, weight);
    assert IsStrictest(pick(resolve([left, right])), [left, right], pick, weight);
    StrictestOfParts(left, right, pick(resolve([left, right])), a, b, pick, weight);
    StrictestIsUnique(pick(resolve([left, right])), pick(resolve(a + b)), a + b, a + b, pick, weight);
  }

  /** Whatever neighbours of a run of the chain are resolved first, the allowlist is the same. */
  ghost predicate ResolvesAlike<P(!new), T>(chain: seq<P>, resolve: seq<P> -> P, pick: P -> set<T>) {
    forall i, j, n, m :: 0 <= i <= j <= |chain| && Leaves(n) == chain[i..j] && Leaves(m) == chain[i..j] ==>
      pick(Resolved(n, resolve)) == pick(Resolved(m, resolve))
  }

  /** For a chain of any length, exactly if its non-empty allowlists are steady. */
  lemma ResolvesAlikeIff<P(!new), T(!new)>(chain: seq<P>, resolve: seq<P> -> P, pick: P -> set<T>)
    requires FoldsLists(resolve, pick)
    ensures ResolvesAlike(chain, resolve, pick) <==> Steady(Full(ListsOf(chain, pick)))
  {
    hide Steady, Full, Folded, FoldsLists;
    var lists := ListsOf(chain, pick);
    SteadyIff(lists);
    if PartsFoldAlike(lists) {
      forall i, j, n, m | 0 <= i <= j <= |chain| && Leaves(n) == chain[i..j] && Leaves(m) == chain[i..j]
        ensures pick(Resolved(n, resolve)) == pick(Resolved(m, resolve))
      {
        LeavesOfMap(n, pick);
        LeavesOfMap(m, pick);
        assert ListsOf(chain[i..j], pick) == lists[i..j];
        assert FoldsAlike(lists[i..j]);
        ResolvedFolds(n, resolve, pick);
        ResolvedFolds(m, resolve, pick);
      }
    }
    if ResolvesAlike(chain, resolve, pick) {
      forall i, j | 0 <= i <= j <= |lists| ensures FoldsAlike(lists[i..j]) {
        assert ListsOf(chain[i..j], pick) == lists[i..j];
        forall n: Nest<set<T>>, m: Nest<set<T>> | Leaves(n) == lists[i..j] && Leaves(m) == lists[i..j]
          ensures Folded(n) == Folded(m)
        {
          var n' := NestOverChain(n, chain[i..j], pick);
          var m' := NestOverChain(m, chain[i..j], pick);
          ResolvedFolds(n', resolve, pick);
          ResolvedFolds(m', resolve, pick);
        }
      }
    }
  }
}
