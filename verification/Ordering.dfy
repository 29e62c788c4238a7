/** When the order of a chain of allowlists decides what is left of them. */
module Orderings {
  import opened Allowlists
  import opened Permutations
  import G = Groupings

  /** An element is in each of the lists. */
  ghost predicate Common<T(!new)>(lists: multiset<set<T>>) {
    lists == multiset{} || exists item :: InAll(lists, item)
  }

  ghost predicate InAll<T(!new)>(lists: multiset<set<T>>, item: T) {
    forall l :: l in lists ==> item in l
  }

  /** A part of the lists has an element in common exactly if it is smaller than `k`. */
  ghost predicate Regular<T(!new)>(lists: seq<set<T>>, k: nat) {
    forall part :: part <= multiset(lists) ==> (Common(part) <==> |part| < k)
  }

  /** `n` is a multiple of `k`. */
  predicate InGroups(n: nat, k: nat)
    requires k > 0
  {
    n == 0 || (n >= k && InGroups(n - k, k))
  }

  /** All lists have an element in common, or they are regular and cancel out in groups of `k`. */
  ghost predicate Balances<T(!new)>(lists: seq<set<T>>, k: nat) {
    k > 0 && Regular(lists, k) && (k > |lists| || InGroups(|lists|, k))
  }

  ghost predicate OrderFree<T(!new)>(lists: seq<set<T>>) {
    forall other :: multiset(other) == multiset(lists) ==> MeetAll(other) == MeetAll(lists)
  }

  lemma CommonPart<T(!new)>(part: multiset<set<T>>, whole: multiset<set<T>>)
    requires part <= whole && Common(whole)
    ensures Common(part)
  {
    if part != multiset{} {
      var item :| InAll(whole, item);
      assert InAll(part, item);
    }
  }

  lemma PartSize<X>(part: multiset<X>, whole: multiset<X>)
    requires part <= whole
    ensures |part| <= |whole| && |whole - part| == |whole| - |part|
  {
    assert whole == part + (whole - part);
  }

  lemma SequenceOf<X>(m: multiset<X>) returns (s: seq<X>)
    ensures multiset(s) == m
    decreases |m|
  {
    if m == multiset{} {
      s := [];
    } else {
      var x :| x in m;
      var rest := SequenceOf(m - multiset{x});
      s := rest + [x];
      assert m == (m - multiset{x}) + multiset{x};
    }
  }

  lemma MeetLast<T>(lists: seq<set<T>>, last: set<T>)
    ensures MeetAll(lists + [last]) == Meet(MeetAll(lists), last)
  {
    assert (lists + [last])[..|lists|] == lists;
  }

  lemma LastOf<X>(s: seq<X>)
    requires s != []
    ensures s == s[..|s| - 1] + [s[|s| - 1]]
    ensures multiset(s) == multiset(s[..|s| - 1]) + multiset{s[|s| - 1]}
  {
    assert s == s[..|s| - 1] + [s[|s| - 1]];
  }

  /** Lists that have an element in common fold to what they have in common. */
  lemma {:induction false} FoldOfCommon<T(!new)>(lists: seq<set<T>>)
    requires lists != [] && Common(multiset(lists))
    ensures MeetAll(lists) != {}
    ensures forall item :: item in MeetAll(lists) <==> InAll(multiset(lists), item)
  {
    var front, last := lists[..|lists| - 1], lists[|lists| - 1];
    LastOf(lists);
    MeetLast(front, last);
    var common :| InAll(multiset(lists), common);
    assert common in last;
    if front == [] {
      assert MeetAll(front) == {};
    } else {
      CommonPart(multiset(front), multiset(lists));
      FoldOfCommon(front);
      assert InAll(multiset(front), common);
      assert common in MeetAll(front) * last;
    }
  }

  /** Where a fold has come to nothing it starts anew. */
  lemma {:induction false} FoldAnew<T>(a: seq<set<T>>, b: seq<set<T>>)
    requires MeetAll(a) == {}
    ensures MeetAll(a + b) == MeetAll(b)
  {
    if b == [] {
      assert a + b == a;
    } else {
      var front, last := b[..|b| - 1], b[|b| - 1];
      LastOf(b);
      assert a + b == (a + front) + [last];
      FoldAnew(a, front);
      MeetLast(a + front, last);
      MeetLast(front, last);
    }
  }

  /** The list with which they stop having an element in common cancels the others. */
  lemma LastCancels<T(!new)>(front: seq<set<T>>, last: set<T>)
    requires front != [] && last != {} && Common(multiset(front)) && !Common(multiset(front + [last]))
    ensures MeetAll(front + [last]) == {}
  {
    FoldOfCommon(front);
    MeetLast(front, last);
    forall item ensures item !in MeetAll(front) * last {
      if item in MeetAll(front) * last {
        assert InAll(multiset(front + [last]), item);
      }
    }
  }

  lemma OneIsCommon<T(!new)>(l: set<T>)
    requires l != {}
    ensures Common(multiset{l})
  {
    var item :| item in l;
    assert InAll(multiset{l}, item);
  }

  /** Of regular lists the first `k` cancel out. */
  lemma FirstGroup<T(!new)>(lists: seq<set<T>>, k: nat)
    requires 0 < k <= |lists| && G.AllFull(lists) && Regular(lists, k)
    ensures MeetAll(lists[..k]) == {}
  {
    var a := lists[..k];
    assert lists == a + lists[k..] && a[k - 1] in lists;
    LastOf(a);
    assert multiset(a) <= multiset(lists) && multiset(a[..k - 1]) <= multiset(lists);
    if k == 1 {
      assert multiset(a) == multiset{a[0]};
      OneIsCommon(a[0]);
    } else {
      LastCancels(a[..k - 1], a[k - 1]);
    }
  }

  /** Regular lists cancel out in groups of `k`, in any order. */
  lemma {:induction false} RegularFold<T(!new)>(lists: seq<set<T>>, k: nat)
    requires k > 0 && G.AllFull(lists) && Regular(lists, k)
    ensures MeetAll(lists) == {} <==> InGroups(|lists|, k)
    decreases |lists|
  {
    hide Regular, Common;
    if lists == [] {
    } else if |lists| < k {
      SmallIsCommon(lists, k);
      FoldOfCommon(lists);
    } else {
      var a, b := lists[..k], lists[k..];
      assert lists == a + b;
      FirstGroup(lists, k);
      FoldAnew(a, b);
      G.AllFullParts(a, b);
      RegularPart(lists, b, k);
      RegularFold(b, k);
    }
  }

  lemma SmallIsCommon<T(!new)>(lists: seq<set<T>>, k: nat)
    requires Regular(lists, k) && |lists| < k
    ensures Common(multiset(lists))
  {
    assert |multiset(lists)| == |lists|;
  }

  lemma RegularPart<T(!new)>(lists: seq<set<T>>, b: seq<set<T>>, k: nat)
    requires Regular(lists, k) && multiset(b) <= multiset(lists)
    ensures Regular(b, k)
  {}

  lemma BalancedIsOrderFree<T(!new)>(lists: seq<set<T>>, k: nat)
    requires G.AllFull(lists) && Balances(lists, k)
    ensures OrderFree(lists)
  {
    forall other | multiset(other) == multiset(lists) ensures MeetAll(other) == MeetAll(lists) {
      assert |other| == |multiset(other)| == |lists|;
      assert forall l :: l in other <==> l in multiset(other);
      assert forall l :: l in lists <==> l in multiset(lists);
      if k > |lists| {
        if lists != [] {
          FoldOfCommon(lists);
          FoldOfCommon(other);
          assert forall item :: item in MeetAll(other) <==> item in MeetAll(lists);
        }
      } else {
        RegularPart(lists, other, k);
        RegularFold(lists, k);
        RegularFold(other, k);
      }
    }
  }

  // ---------------------------------------------------------------- order-free lists are balanced

  /** In every order something would be left only if it were common to all. */
  lemma NothingIsLeft<T(!new)>(lists: seq<set<T>>)
    requires G.AllFull(lists) && OrderFree(lists) && !Common(multiset(lists))
    ensures MeetAll(lists) == {}
  {
    if MeetAll(lists) != {} {
      var item :| item in MeetAll(lists);
      forall l | l in multiset(lists) ensures item in l {
        var others := SequenceOf(multiset(lists) - multiset{l});
        assert multiset(others + [l]) == multiset(lists);
        MeetLast(others, l);
        assert l in lists && l != {};
      }
      assert InAll(multiset(lists), item);
    }
  }

  lemma Differ<X>(a: multiset<X>, b: multiset<X>)
    requires |a| == |b| && a != b
    ensures a - b != multiset{} && b - a != multiset{}
  {
    var c, d := a - b, b - a;
    assert a + d == b + c;
    assert |a + d| == |a| + |d| && |b + c| == |b| + |c|;
    assert c == multiset{} && d == multiset{} ==> a == b;
  }

  /** An exchange of a surplus list for a missing one. */
  lemma OneCloser<X>(all: multiset<X>, a: multiset<X>, b: multiset<X>, t: X, u: X)
    requires a <= all && b <= all && t in a - b && u in b - a
    ensures var rest := a - multiset{t};
            && a == rest + multiset{t} && rest + multiset{t} + multiset{u} <= all
            && rest + multiset{u} <= all && |rest| + 1 == |a| == |rest + multiset{u}|
            && |(rest + multiset{u}) - b| < |a - b|
  {
    var rest := a - multiset{t};
    assert a == rest + multiset{t};
    assert a - b == ((rest + multiset{u}) - b) + multiset{t};
  }

  /** Between two parts of one size, of which one has an element in common and the other has none, there are two such
      parts that differ in one list only. */
  lemma {:induction false} Exchange<T(!new)>(all: multiset<set<T>>, bad: multiset<set<T>>, good: multiset<set<T>>)
    returns (rest: multiset<set<T>>, t: set<T>, u: set<T>)
    requires bad <= all && good <= all && |bad| == |good| && !Common(bad) && Common(good)
    ensures rest + multiset{t} + multiset{u} <= all && |rest| + 1 == |bad|
    ensures !Common(rest + multiset{t}) && Common(rest + multiset{u})
    decreases |bad - good|
  {
    hide Common;
    Differ(bad, good);
    t :| t in bad - good;
    u :| u in good - bad;
    OneCloser(all, bad, good, t, u);
    rest := bad - multiset{t};
    if !Common(rest + multiset{u}) {
      rest, t, u := Exchange(all, rest + multiset{u}, good);
    }
  }

  lemma TakenApart<X>(all: multiset<X>, part: multiset<X>)
    requires part <= all
    ensures all == part + (all - part)
  {}

  lemma OneAppended<X>(s: seq<X>, x: X)
    ensures multiset(s + [x]) == multiset(s) + multiset{x}
  {}

  lemma Regrouped<X>(a: multiset<X>, b: multiset<X>, c: multiset<X>, d: multiset<X>)
    ensures a + b + c + d == a + c + b + d
    ensures a + b + c + d == a + b + (d + c)
  {}

  lemma Rejoined<X>(all: multiset<X>, a: seq<X>, t: X, u: X, others: seq<X>)
    requires all == multiset(a) + multiset{t} + multiset{u} + multiset(others)
    ensures multiset(a + [t] + (others + [u])) == all && multiset(a + [u] + [t] + others) == all
  {
    OneAppended(a, t);
    OneAppended(a, u);
    OneAppended(a + [u], t);
    OneAppended(others, u);
    Regrouped(multiset(a), multiset{t}, multiset{u}, multiset(others));
  }

  /** Two orders of lists that differ in such an exchange cannot both come to nothing. */
  lemma ExchangeMatters<T(!new)>(lists: seq<set<T>>, rest: multiset<set<T>>, t: set<T>, u: set<T>)
    returns (order: seq<set<T>>)
    requires G.AllFull(lists)
    requires rest + multiset{t} + multiset{u} <= multiset(lists) && rest != multiset{}
    requires Common(rest) && !Common(rest + multiset{t}) && Common(rest + multiset{u})
    ensures multiset(order) == multiset(lists) && MeetAll(order) != {}
  {
    hide Common, MeetAll, G.AllFull;
    var part := rest + multiset{t} + multiset{u};
    var others := SequenceOf(multiset(lists) - part);
    var a := SequenceOf(rest);
    TakenApart(multiset(lists), part);
    OneAppended(a, t);
    OneAppended(a, u);
    Rejoined(multiset(lists), a, t, u, others);
    NeitherEmpty(lists, part, t, u);
    BothOrders(a, t, u, others);
    order := if MeetAll(a + [t] + (others + [u])) != {} then a + [t] + (others + [u]) else a + [u] + [t] + others;
  }

  lemma NeitherEmpty<T(!new)>(lists: seq<set<T>>, part: multiset<set<T>>, t: set<T>, u: set<T>)
    requires G.AllFull(lists) && part <= multiset(lists) && t in part && u in part
    ensures t != {} && u != {}
  {
    assert t in lists && u in lists;
  }

  lemma BothOrders<T(!new)>(a: seq<set<T>>, t: set<T>, u: set<T>, others: seq<set<T>>)
    requires a != [] && t != {} && u != {}
    requires Common(multiset(a)) && !Common(multiset(a + [t])) && Common(multiset(a + [u]))
    ensures MeetAll(a + [t] + (others + [u])) != {} || MeetAll(a + [u] + [t] + others) != {}
  {
    hide Common, MeetAll;
    LastCancels(a, t);
    FoldAnew(a + [t], others + [u]);
    Cancelled(a, t, u);
    FoldAnew(a + [u] + [t], others);
    MeetLast(others, u);
  }

  lemma Cancelled<T(!new)>(a: seq<set<T>>, t: set<T>, u: set<T>)
    requires t != {} && !Common(multiset(a + [t])) && Common(multiset(a + [u]))
    ensures MeetAll(a + [u] + [t]) == {}
  {
    if Common(multiset(a + [u] + [t])) {
      CommonPart(multiset(a + [t]), multiset(a + [u] + [t]));
    }
    LastCancels(a + [u], t);
  }

  ghost predicate BadOfSize<T(!new)>(lists: seq<set<T>>, k: nat) {
    exists part :: part <= multiset(lists) && |part| == k && !Common(part)
  }

  lemma LeastBad<T(!new)>(lists: seq<set<T>>) returns (k: nat)
    requires !Common(multiset(lists))
    ensures k <= |lists| && BadOfSize(lists, k) && forall j :: 0 <= j < k ==> !BadOfSize(lists, j)
  {
    k := 0;
    assert BadOfSize(lists, |lists|) by {
      assert |multiset(lists)| == |lists|;
    }
    while !BadOfSize(lists, k)
      invariant k <= |lists| && forall j :: 0 <= j < k ==> !BadOfSize(lists, j)
      decreases |lists| - k
    {
      k := k + 1;
    }
  }

  lemma PartOfSize<X>(whole: multiset<X>, k: nat) returns (part: multiset<X>)
    requires k <= |whole|
    ensures part <= whole && |part| == k
    decreases |whole|
  {
    if |whole| == k {
      part := whole;
    } else {
      var x :| x in whole;
      assert whole == (whole - multiset{x}) + multiset{x};
      part := PartOfSize(whole - multiset{x}, k);
    }
  }

  /** If a part of the least size without a common element exists, all parts of that size are without one. */
  lemma NoGoodOfSize<T(!new)>(lists: seq<set<T>>, k: nat, good: multiset<set<T>>)
    requires G.AllFull(lists) && OrderFree(lists) && BadOfSize(lists, k)
    requires forall j :: 0 <= j < k ==> !BadOfSize(lists, j)
    requires good <= multiset(lists) && |good| == k
    ensures !Common(good)
  {
    var bad :| bad <= multiset(lists) && |bad| == k && !Common(bad);
    if Common(multiset(lists)) {
      CommonPart(bad, multiset(lists));
    }
    if Common(good) {
      NothingIsLeft(lists);
      var rest, t, u := Exchange(multiset(lists), bad, good);
      assert rest <= multiset(lists) && !BadOfSize(lists, |rest|);
      if rest == multiset{} {
        assert rest + multiset{t} == multiset{t} && t in multiset(lists) && t in lists;
        OneIsCommon(t);
      }
      var order := ExchangeMatters(lists, rest, t, u);
    }
  }

  lemma OrderFreeIsBalanced<T(!new)>(lists: seq<set<T>>) returns (k: nat)
    requires G.AllFull(lists) && OrderFree(lists)
    ensures Balances(lists, k)
  {
    if Common(multiset(lists)) {
      k := |lists| + 1;
      forall part | part <= multiset(lists) ensures Common(part) && |part| < k {
        CommonPart(part, multiset(lists));
        PartSize(part, multiset(lists));
      }
    } else {
      k := LeastBad(lists);
      assert Common<T>(multiset{});
      forall part | part <= multiset(lists) ensures Common(part) <==> |part| < k {
        if |part| < k {
          assert !BadOfSize(lists, |part|);
        } else {
          var less := PartOfSize(part, k);
          NoGoodOfSize(lists, k, less);
          if Common(part) {
            CommonPart(less, part);
          }
        }
      }
      NothingIsLeft(lists);
      RegularFold(lists, k);
    }
  }

  /** The order of non-empty allowlists never matters iff all have an element in common, or their number is a multiple
      of some `k` such that fewer than `k` of them always have one in common and `k` of them never do. */
  lemma OrderFreeIff<T(!new)>(lists: seq<set<T>>)
    requires G.AllFull(lists)
    ensures OrderFree(lists) <==> exists k :: Balances(lists, k)
  {
    if OrderFree(lists) {
      var k := OrderFreeIsBalanced(lists);
    }
    if k :| Balances(lists, k) {
      BalancedIsOrderFree(lists, k);
    }
  }

  // ---------------------------------------------------------------- chains

  lemma {:induction false} FoldOfFull<T(!new)>(lists: seq<set<T>>)
    ensures MeetAll(G.Full(lists)) == MeetAll(lists)
  {
    if lists != [] {
      var front, last := lists[..|lists| - 1], lists[|lists| - 1];
      LastOf(lists);
      FoldOfFull(front);
      G.FullParts(front, [last]);
      assert [last][1..] == [];
      assert G.Full([last]) == if last == {} then [] else [last];
      if last == {} {
        assert G.Full(front) + [] == G.Full(front);
      } else {
        MeetLast(G.Full(front), last);
      }
    }
  }

  lemma {:induction false} FullOf<T(!new)>(lists: seq<set<T>>)
    ensures multiset(G.Full(lists)) == multiset(lists)[{} := 0]
  {
    if lists != [] {
      assert lists == [lists[0]] + lists[1..];
      FullOf(lists[1..]);
    }
  }

  lemma {:induction false} FullAlready<T(!new)>(lists: seq<set<T>>)
    requires G.AllFull(lists)
    ensures G.Full(lists) == lists
  {
    if lists != [] {
      assert lists == [lists[0]] + lists[1..] && lists[0] in lists;
      G.AllFullParts([lists[0]], lists[1..]);
      FullAlready(lists[1..]);
    }
  }

  lemma {:induction false} NoneFull<T(!new)>(lists: seq<set<T>>)
    requires forall l :: l in lists ==> l == {}
    ensures G.Full(lists) == []
  {
    if lists != [] {
      assert lists[0] in lists && forall l :: l in lists[1..] ==> l in lists;
      NoneFull(lists[1..]);
    }
  }

  /** An order of the lists that restrict anything is part of one of all lists. */
  lemma Widened<T(!new)>(lists: seq<set<T>>, full: seq<set<T>>) returns (other: seq<set<T>>)
    requires multiset(full) == multiset(G.Full(lists))
    ensures multiset(other) == multiset(lists) && G.Full(other) == full
  {
    FullOf(lists);
    var open := SequenceOf(multiset(lists) - multiset(full));
    other := full + open;
    TakenApart(multiset(lists), multiset(full));
    forall l | l in open ensures l == {} {
      assert l in multiset(open);
    }
    NoneFull(open);
    forall l | l in full ensures l != {} {
      assert l in multiset(full);
    }
    FullAlready(full);
    G.FullParts(full, open);
    assert full + [] == full;
  }

  lemma OrderFreeIfFull<T(!new)>(lists: seq<set<T>>)
    ensures OrderFree(lists) <==> OrderFree(G.Full(lists))
  {
    FoldOfFull(lists);
    FullOf(lists);
    if OrderFree(lists) {
      forall full | multiset(full) == multiset(G.Full(lists)) ensures MeetAll(full) == MeetAll(G.Full(lists)) {
        var other := Widened(lists, full);
        FoldOfFull(other);
      }
    }
    if OrderFree(G.Full(lists)) {
      forall other | multiset(other) == multiset(lists) ensures MeetAll(other) == MeetAll(lists) {
        FullOf(other);
        FoldOfFull(other);
      }
    }
  }

  lemma ListsInOrder<P, T>(a: seq<P>, b: seq<P>, pick: P -> set<T>)
    requires multiset(a) == multiset(b)
    ensures multiset(ListsOf(a, pick)) == multiset(ListsOf(b, pick))
  {
    MapPermuted(pick, a, b);
    assert ListsOf(a, pick) == Map(pick, a) && ListsOf(b, pick) == Map(pick, b);
  }

  lemma {:induction false} ChainInOrder<P, T>(lists: seq<set<T>>, chain: seq<P>, pick: P -> set<T>)
    returns (other: seq<P>)
    requires multiset(lists) == multiset(ListsOf(chain, pick))
    ensures multiset(other) == multiset(chain) && ListsOf(other, pick) == lists
    decreases |lists|
  {
    if lists == [] {
      assert |multiset(ListsOf(chain, pick))| == |chain|;
      other := [];
    } else {
      var front := lists[..|lists| - 1];
      var i := LastElsewhere(lists, ListsOf(chain, pick));
      var rest := chain[..i] + chain[i + 1..];
      assert ListsOf(rest, pick) == ListsOf(chain, pick)[..i] + ListsOf(chain, pick)[i + 1..];
      var before := ChainInOrder(front, rest, pick);
      other := before + [chain[i]];
      assert chain == chain[..i] + [chain[i]] + chain[i + 1..];
    }
  }

  /** In whatever order the chain is resolved, the allowlist is the same. */
  ghost predicate ResolvesInAnyOrder<P(!new), T>(chain: seq<P>, resolve: seq<P> -> P, pick: P -> set<T>) {
    forall other :: multiset(other) == multiset(chain) ==> pick(resolve(other)) == pick(resolve(chain))
  }

  /** The lists that restrict anything have an element in common, or they cancel out in groups. */
  ghost predicate Balanced<T(!new)>(lists: seq<set<T>>) {
    exists k :: Balances(G.Full(lists), k)
  }

  /** For a chain of any length, exactly if its allowlists balance. */
  lemma ResolvesInAnyOrderIff<P(!new), T(!new)>(chain: seq<P>, resolve: seq<P> -> P, pick: P -> set<T>)
    requires G.FoldsLists(resolve, pick)
    ensures ResolvesInAnyOrder(chain, resolve, pick) <==> Balanced(ListsOf(chain, pick))
  {
    hide Balances;
    var lists := ListsOf(chain, pick);
    OrderFreeIfFull(lists);
    G.FullIsFull(lists);
    OrderFreeIff(G.Full(lists));
    if ResolvesInAnyOrder(chain, resolve, pick) {
      forall l | multiset(l) == multiset(lists) ensures MeetAll(l) == MeetAll(lists) {
        var other := ChainInOrder(l, chain, pick);
      }
    }
    if OrderFree(lists) {
      forall other | multiset(other) == multiset(chain) ensures pick(resolve(other)) == pick(resolve(chain)) {
        ListsInOrder(other, chain, pick);
      }
    }
  }
}
