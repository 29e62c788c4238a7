/** Allowlists, where an empty one admits everything, and their intersection along a chain. */
module Allowlists {

  predicate Admits<T(==)>(allowed: set<T>, item: T) {
    allowed == {} || item in allowed
  }

  function Meet<T(==)>(left: set<T>, right: set<T>): set<T> {
    if left == {} then right else if right == {} then left else left * right
  }

  /** The left fold of a chain of allowlists, starting from none. */
  function MeetAll<T(==)>(lists: seq<set<T>>): set<T> {
    if lists == [] then {} else Meet(MeetAll(lists[..|lists| - 1]), lists[|lists| - 1])
  }

  lemma MeetPair<T>(left: set<T>, right: set<T>)
    ensures MeetAll([left, right]) == Meet(left, right)
  {
    var pair := [left, right];
    assert pair[..1] == [left] && [left][..0] == [];
    assert MeetAll([left]) == left;
    assert MeetAll(pair) == Meet(MeetAll(pair[..1]), right);
  }

  predicate AllAdmit<T(==)>(lists: seq<set<T>>, item: T) {
    forall l :: l in lists ==> Admits(l, item)
  }

  /** The non-empty lists have an element in common. */
  ghost predicate ShareElement<T(!new)>(lists: seq<set<T>>) {
    exists item :: AllAdmit(lists, item)
  }

  lemma AllAdmitFront<T>(lists: seq<set<T>>, item: T)
    requires lists != []
    ensures AllAdmit(lists, item) <==> AllAdmit(lists[..|lists| - 1], item) && Admits(lists[|lists| - 1], item)
  {
    assert lists == lists[..|lists| - 1] + [lists[|lists| - 1]];
  }

  /** Nothing that every list admits is ever lost. */
  lemma {:induction false} FoldLosesNothing<T>(lists: seq<set<T>>, item: T)
    requires AllAdmit(lists, item)
    ensures Admits(MeetAll(lists), item)
  {
    if lists != [] {
      AllAdmitFront(lists, item);
      FoldLosesNothing(lists[..|lists| - 1], item);
    }
  }

  lemma CommonSurvives<T>(left: set<T>, right: set<T>, common: T, item: T)
    requires Admits(left, common) && Admits(right, common) && Admits(Meet(left, right), item)
    ensures Admits(left, item) && Admits(right, item)
  {
    if left != {} && right != {} {
      assert common in left * right;
    }
  }

  /** While some element survives in every non-empty list, the fold admits only what every list admits. */
  lemma {:induction false} FoldAdmitsNothingElse<T>(lists: seq<set<T>>, common: T, item: T)
    requires AllAdmit(lists, common) && Admits(MeetAll(lists), item)
    ensures AllAdmit(lists, item)
  {
    if lists != [] {
      AllAdmitFront(lists, common);
      AllAdmitFront(lists, item);
      FoldLosesNothing(lists[..|lists| - 1], common);
      CommonSurvives(MeetAll(lists[..|lists| - 1]), lists[|lists| - 1], common, item);
      FoldAdmitsNothingElse(lists[..|lists| - 1], common, item);
    }
  }

  ghost predicate FoldIsExact<T(!new)>(lists: seq<set<T>>) {
    forall item :: Admits(MeetAll(lists), item) <==> AllAdmit(lists, item)
  }

  /** The fold of a chain admits exactly what all its lists admit iff the non-empty ones share an element. */
  lemma FoldIsExactIff<T(!new,00)>(lists: seq<set<T>>)
    ensures FoldIsExact(lists) <==> ShareElement(lists)
  {
    if common :| AllAdmit(lists, common) {
      forall item ensures Admits(MeetAll(lists), item) <==> AllAdmit(lists, item) {
        if AllAdmit(lists, item) {
          FoldLosesNothing(lists, item);
        }
        if Admits(MeetAll(lists), item) {
          FoldAdmitsNothingElse(lists, common, item);
        }
      }
    } else {
      var result := MeetAll(lists);
      var item: T :| result != {} ==> item in result;
      assert Admits(result, item) && !AllAdmit(lists, item);
    }
  }

  /** The allowlists of a chain, one a member. */
  function ListsOf<P, T(==)>(chain: seq<P>, pick: P -> set<T>): (r: seq<set<T>>)
    ensures |r| == |chain| && forall i :: 0 <= i < |chain| ==> r[i] == pick(chain[i])
  {
    seq(|chain|, i requires 0 <= i < |chain| => pick(chain[i]))
  }

  lemma ListsOfFront<P, T>(chain: seq<P>, pick: P -> set<T>)
    requires chain != []
    ensures ListsOf(chain, pick)[..|chain| - 1] == ListsOf(chain[..|chain| - 1], pick)
  {}

  lemma ListsOfParts<P, T>(a: seq<P>, b: seq<P>, pick: P -> set<T>)
    ensures ListsOf(a + b, pick) == ListsOf(a, pick) + ListsOf(b, pick)
  {}

  lemma AdmittedByMembers<P, T>(chain: seq<P>, pick: P -> set<T>, item: T)
    ensures AllAdmit(ListsOf(chain, pick), item) <==> forall p :: p in chain ==> Admits(pick(p), item)
  {
    var lists := ListsOf(chain, pick);
    assert forall i :: 0 <= i < |chain| ==> lists[i] in lists && chain[i] in chain;
  }

  /** What a whole chain shares, its parts share, and so do the results of folding them apart. */
  lemma SharedByParts<T(!new)>(a: seq<set<T>>, b: seq<set<T>>)
    requires ShareElement(a + b)
    ensures ShareElement(a) && ShareElement(b) && ShareElement([MeetAll(a), MeetAll(b)])
  {
    var common :| AllAdmit(a + b, common);
    assert forall l :: l in a + b <==> l in a || l in b;
    assert AllAdmit(a, common) && AllAdmit(b, common);
    FoldLosesNothing(a, common);
    FoldLosesNothing(b, common);
    assert AllAdmit([MeetAll(a), MeetAll(b)], common);
  }
}

/** The strictest of the entries that are set along a chain. */
module Strictness {
  import opened Types

  /** Of two entries the one that weighs more, the left one on a tie. */
  function Stricter<V>(left: Option<V>, right: Option<V>, weight: V -> int): Option<V> {
    match (left, right)
    case (None, _) => right
    case (_, None) => left
    case (Some(a), Some(b)) => if weight(b) > weight(a) then right else left
  }

  /** Unset iff nobody sets it; otherwise set by somebody, and by nobody to anything that weighs more. */
  ghost predicate IsStrictest<P, V>(m: Option<V>, chain: seq<P>, pick: P -> Option<V>, weight: V -> int) {
    && (m.None? <==> forall p :: p in chain ==> pick(p).None?)
    && (m.Some? ==> exists p :: p in chain && pick(p) == m)
    && (m.Some? ==> forall p :: p in chain && pick(p).Some? ==> weight(pick(p).value) <= weight(m.value))
  }

  /** The step of a fold. */
  lemma StrictestOfMore<P, V>(m: Option<V>, chain: seq<P>, p: P, pick: P -> Option<V>, weight: V -> int)
    requires IsStrictest(m, chain, pick, weight)
    ensures IsStrictest(Stricter(m, pick(p), weight), chain + [p], pick, weight)
  {
    assert forall x :: x in chain + [p] <==> x in chain || x == p;
    if m.Some? {
      var x :| x in chain && pick(x) == m;
      assert x in chain + [p];
    }
    assert p in chain + [p];
  }

  /** The strictest entries of two parts, taken together. */
  lemma StrictestOfParts<P, V>(left: P, right: P, m: Option<V>, a: seq<P>, b: seq<P>, pick: P -> Option<V>,
                               weight: V -> int)
    requires IsStrictest(pick(left), a, pick, weight) && IsStrictest(pick(right), b, pick, weight)
    requires IsStrictest(m, [left, right], pick, weight)
    ensures IsStrictest(m, a + b, pick, weight)
  {
    assert forall p :: p in a + b <==> p in a || p in b;
    assert left in [left, right] && right in [left, right];
    if m.Some? {
      var p :| p in [left, right] && pick(p) == m;
      var q :| q in (if p == left then a else b) && pick(q) == m;
      assert q in a + b;
    }
  }

  ghost predicate SameMembers<P(!new)>(a: seq<P>, b: seq<P>) {
    forall p :: p in a <==> p in b
  }

  ghost predicate Injective<V(!new)>(weight: V -> int) {
    forall x, y :: weight(x) == weight(y) ==> x == y
  }

  /** Chains of the same members, in any order and with any repetition, have the same strictest entry. */
  lemma StrictestIsUnique<P(!new), V(!new)>(a: Option<V>, b: Option<V>, chain: seq<P>, other: seq<P>,
                                            pick: P -> Option<V>, weight: V -> int)
    requires IsStrictest(a, chain, pick, weight) && IsStrictest(b, other, pick, weight)
    requires SameMembers(chain, other) && Injective(weight)
    ensures a == b
  {
    assert a.Some? <==> b.Some?;
    if a.Some? {
      assert weight(a.value) == weight(b.value);
    }
  }

  function Smaller(): nat -> int {
    (n: nat) => var i: int := n; -i
  }

  function MinOpt(left: Option<nat>, right: Option<nat>): Option<nat> {
    Stricter(left, right, Smaller())
  }

  function ActionWeight(): SecurityAction -> int {
    (action: SecurityAction) => action.Priority()
  }

  lemma WeightsAreInjective()
    ensures Injective(Smaller()) && Injective(ActionWeight())
  {}

  /** From `Block` down to `Allow`. */
  predicate AsStrict(a: SecurityAction, b: SecurityAction) {
    match a
    case Block => true
    case RequireApproval => b != Block
    case Redact => b == Redact || b == Warn || b == Allow
    case Warn => b == Warn || b == Allow
    case Allow => b == Allow
  }

  lemma AsStrictIff(a: SecurityAction, b: SecurityAction)
    ensures AsStrict(a, b) <==> ActionWeight()(b) <= ActionWeight()(a)
  {}

  /** Somebody sets this action, and nobody a stricter one. */
  ghost predicate IsStrictestAction<P>(action: SecurityAction, chain: seq<P>, pick: P -> Option<SecurityAction>) {
    && (exists p :: p in chain && pick(p) == Some(action))
    && (forall p :: p in chain && pick(p).Some? ==> AsStrict(action, pick(p).value))
  }

  lemma StrictestActionIs<P>(m: Option<SecurityAction>, chain: seq<P>, pick: P -> Option<SecurityAction>)
    requires IsStrictest(m, chain, pick, ActionWeight())
    ensures if exists p :: p in chain && pick(p).Some? then m.Some? && IsStrictestAction(m.value, chain, pick)
            else m.None?
  {
    if m.Some? {
      forall p | p in chain && pick(p).Some? ensures AsStrict(m.value, pick(p).value) {
        AsStrictIff(m.value, pick(p).value);
      }
    }
  }

  function Entry<K, V>(m: map<K, V>, k: K): Option<V> {
    if k in m then Some(m[k]) else None
  }

  /** Two maps merged key by key. */
  function Merged<K, V>(parent: map<K, V>, child: map<K, V>, combine: (V, V) -> V): map<K, V> {
    map k | k in parent.Keys + child.Keys :: MergedValue(Entry(parent, k), Entry(child, k), combine)
  }

  function MergedValue<V>(left: Option<V>, right: Option<V>, combine: (V, V) -> V): V
    requires left.Some? || right.Some?
  {
    if right.None? then left.value else if left.None? then right.value else combine(left.value, right.value)
  }

  /** The stricter of two entries, as a way of combining them. */
  function TakeStricter<V>(weight: V -> int): (V, V) -> V {
    (a: V, b: V) => if weight(b) > weight(a) then b else a
  }

  lemma StricterEntry<K, V>(parent: map<K, V>, child: map<K, V>, weight: V -> int, k: K)
    ensures Entry(Merged(parent, child, TakeStricter(weight)), k) == Stricter(Entry(parent, k), Entry(child, k), weight)
  {}

  /** The entries of the child that are not in `rest` have been merged in. */
  ghost predicate MergedBut<K(!new), V>(merged: map<K, V>, parent: map<K, V>, child: map<K, V>, rest: set<K>,
                                        combine: (V, V) -> V)
  {
    && merged.Keys == parent.Keys + (child.Keys - rest)
    && forall k :: k in merged ==>
         merged[k] == if k in child && k !in rest then MergedValue(Entry(parent, k), Entry(child, k), combine)
                      else parent[k]
  }

  lemma MergeOneMore<K(!new), V>(merged: map<K, V>, parent: map<K, V>, child: map<K, V>, rest: set<K>,
                                 combine: (V, V) -> V, k: K)
    requires MergedBut(merged, parent, child, rest, combine) && k in rest && rest <= child.Keys
    ensures k in merged <==> k in parent
    ensures k in merged ==> merged[k] == parent[k]
    ensures MergedBut(merged[k := MergedValue(Entry(parent, k), Entry(child, k), combine)], parent, child,
                      rest - {k}, combine)
  {}

  lemma MergeDone<K(!new), V>(merged: map<K, V>, parent: map<K, V>, child: map<K, V>, combine: (V, V) -> V)
    requires MergedBut(merged, parent, child, {}, combine)
    ensures merged == Merged(parent, child, combine)
  {
    assert merged.Keys == Merged(parent, child, combine).Keys;
  }

  /** The loop over a child's entries: an entry the parent lacks starts at `initial`, and every entry is combined
      with the child's. */
  method Merge<K(!new), V(!new)>(parent: map<K, V>, child: map<K, V>, combine: (V, V) -> V, initial: V)
    returns (merged: map<K, V>)
    requires forall v :: combine(initial, v) == v
    ensures merged == Merged(parent, child, combine)
  {
    merged := parent;
    var rest := child.Keys;
    while rest != {}
      invariant rest <= child.Keys && MergedBut(merged, parent, child, rest, combine)
      decreases |rest|
    {
      var k :| k in rest;
      MergeOneMore(merged, parent, child, rest, combine, k);
      var current := if k in merged then merged[k] else initial;
      merged := merged[k := combine(current, child[k])];
      rest := rest - {k};
    }
    MergeDone(merged, parent, child, combine);
  }

  function MergeInner<S, V>(combine: (V, V) -> V): (map<S, V>, map<S, V>) -> map<S, V> {
    (parent: map<S, V>, child: map<S, V>) => Merged(parent, child, combine)
  }

  function WithoutEmpty<C, S, V>(table: map<C, map<S, V>>): map<C, map<S, V>> {
    map c | c in table && table[c].Keys != {} :: table[c]
  }

  /** Tables of tables; a row for which the child sets nothing is left alone. */
  function NestedMerged<C, S, V>(parent: map<C, map<S, V>>, child: map<C, map<S, V>>, combine: (V, V) -> V)
    : map<C, map<S, V>>
  {
    Merged(parent, WithoutEmpty(child), MergeInner(combine))
  }

  lemma MergedWithNothing<S, V>(child: map<S, V>, combine: (V, V) -> V)
    ensures Merged(map[], child, combine) == child
  {}

  /** What the outer loop has made of the table when the rows of `rest` are still to come. */
  ghost predicate Raised<C(!new), S, V>(merged: map<C, map<S, V>>, parent: map<C, map<S, V>>, filled: map<C, map<S, V>>,
                                        rest: set<C>, combine: (V, V) -> V)
  {
    && (forall c :: c in merged <==> c in parent || (c in filled && c !in rest))
    && (forall c :: c in merged && (c in rest || c !in filled) ==> merged[c] == parent[c])
    && (forall c :: c in merged && c !in rest && c in filled ==>
          merged[c] == MergedValue(Entry(parent, c), Entry(filled, c), MergeInner(combine)))
  }

  lemma RaisedRow<C(!new), S, V>(merged: map<C, map<S, V>>, parent: map<C, map<S, V>>, filled: map<C, map<S, V>>,
                                 rest: set<C>, combine: (V, V) -> V, c: C)
    requires Raised(merged, parent, filled, rest, combine) && c in rest
    ensures c !in filled ==> Raised(merged, parent, filled, rest - {c}, combine)
    ensures c in filled ==>
              var row := Merged(if c in merged then merged[c] else map[], filled[c], combine);
              Raised(merged[c := row], parent, filled, rest - {c}, combine)
  {
    if c in filled {
      MergedWithNothing(filled[c], combine);
    }
  }

  lemma RaisedAll<C(!new), S, V>(merged: map<C, map<S, V>>, parent: map<C, map<S, V>>, child: map<C, map<S, V>>,
                                 combine: (V, V) -> V)
    requires Raised(merged, parent, WithoutEmpty(child), {}, combine)
    ensures merged == NestedMerged(parent, child, combine)
  {}

  /** The nested loops over a child's table; only an entry creates its row. */
  method MergeNested<C(!new), S(!new), V(!new)>(parent: map<C, map<S, V>>, child: map<C, map<S, V>>,
                                                combine: (V, V) -> V, initial: V)
    returns (merged: map<C, map<S, V>>)
    requires forall v :: combine(initial, v) == v
    ensures merged == NestedMerged(parent, child, combine)
  {
    merged := parent;
    var rest := child.Keys;
    while rest != {}
      invariant rest <= child.Keys && Raised(merged, parent, WithoutEmpty(child), rest, combine)
      decreases rest
    {
      var c :| c in rest;
      RaisedRow(merged, parent, WithoutEmpty(child), rest, combine, c);
      if child[c].Keys != {} {
        var row := Merge(if c in merged then merged[c] else map[], child[c], combine, initial);
        merged := merged[c := row];
      }
      rest := rest - {c};
    }
    RaisedAll(merged, parent, child, combine);
  }
}

/** When the order of a chain decides what its allowlists and denials let through. */
module Arrangements {
  import opened Allowlists
  import opened Strictness

  /** Nobody in the chain denies the item, and the folded allowlist admits it. */
  ghost predicate Passes<P(!new)>(chain: seq<P>, allow: P -> set<string>, deny: P -> set<string>, item: string) {
    (forall p :: p in chain ==> item !in deny(p)) && Admits(MeetAll(ListsOf(chain, allow)), item)
  }

  lemma SharedBySameMembers<P(!new)>(a: seq<P>, b: seq<P>, allow: P -> set<string>)
    requires SameMembers(a, b) && ShareElement(ListsOf(a, allow))
    ensures ShareElement(ListsOf(b, allow))
  {
    var common :| AllAdmit(ListsOf(a, allow), common);
    AdmittedByMembers(a, allow, common);
    AdmittedByMembers(b, allow, common);
  }

  /** A chain that shares an element lets an item through exactly when each member does. */
  lemma PassesIffAllDo<P(!new)>(chain: seq<P>, allow: P -> set<string>, deny: P -> set<string>, item: string)
    requires ShareElement(ListsOf(chain, allow))
    ensures Passes(chain, allow, deny, item) <==>
            forall p :: p in chain ==> item !in deny(p) && Admits(allow(p), item)
  {
    FoldIsExactIff(ListsOf(chain, allow));
    AdmittedByMembers(chain, allow, item);
  }

  lemma MeetOneMore<P>(chain: seq<P>, p: P, allow: P -> set<string>)
    ensures MeetAll(ListsOf(chain + [p], allow)) == Meet(MeetAll(ListsOf(chain, allow)), allow(p))
  {
    ListsOfParts(chain, [p], allow);
    var lists := ListsOf(chain, allow);
    assert ListsOf(chain + [p], allow) == lists + [allow(p)];
    assert (lists + [allow(p)])[..|lists|] == lists;
  }

  /** Members that share nothing can be arranged, with repetitions, so that their fold admits everything. */
  lemma WideArrangement<P(!new)>(chain: seq<P>, allow: P -> set<string>) returns (wide: seq<P>)
    requires !ShareElement(ListsOf(chain, allow))
    ensures SameMembers(chain, wide) && MeetAll(ListsOf(wide, allow)) == {}
  {
    wide := chain;
    var k := 0;
    while k < |chain| && MeetAll(ListsOf(wide, allow)) != {}
      invariant k <= |chain| && SameMembers(chain, wide)
      invariant MeetAll(ListsOf(wide, allow)) != {} ==>
                  forall i, item :: 0 <= i < k && item in MeetAll(ListsOf(wide, allow)) ==>
                    Admits(allow(chain[i]), item)
    {
      MeetOneMore(wide, chain[k], allow);
      wide := wide + [chain[k]];
      k := k + 1;
    }
    if MeetAll(ListsOf(wide, allow)) != {} {
      var item :| item in MeetAll(ListsOf(wide, allow));
      AdmittedByMembers(chain, allow, item);
    }
  }

  ghost function LongestIn(s: set<string>): (longest: nat)
    ensures forall x :: x in s ==> |x| <= longest
  {
    if s == {} then 0
    else
      var x :| x in s;
      var rest := LongestIn(s - {x});
      assert s == s - {x} + {x};
      if |x| > rest then |x| else rest
  }

  lemma OutsideOf(s: set<string>) returns (x: string)
    ensures x !in s
  {
    x := seq(LongestIn(s) + 1, i => 'a');
  }

  function AllDenied<P>(chain: seq<P>, deny: P -> set<string>): (denied: set<string>)
    ensures forall item :: item in denied <==> exists p :: p in chain && item in deny(p)
  {
    if chain == [] then {}
    else
      assert chain == chain[..|chain| - 1] + [chain[|chain| - 1]];
      AllDenied(chain[..|chain| - 1], deny) + deny(chain[|chain| - 1])
  }

  /** Two arrangements of members that share nothing, and an item that only the first one lets through. */
  lemma Disagreement<P(!new)>(chain: seq<P>, allow: P -> set<string>, deny: P -> set<string>)
    returns (wide: seq<P>, narrow: seq<P>, item: string)
    requires !ShareElement(ListsOf(chain, allow))
    ensures SameMembers(chain, wide) && SameMembers(chain, narrow)
    ensures Passes(wide, allow, deny, item) && !Passes(narrow, allow, deny, item)
  {
    wide := WideArrangement(chain, allow);
    var p := SomeList(chain, allow);
    MeetOneMore(wide, p, allow);
    narrow := wide + [p];
    item := OutsideOf(allow(p) + AllDenied(wide, deny));
  }

  lemma SomeList<P(!new)>(chain: seq<P>, allow: P -> set<string>) returns (p: P)
    requires !ShareElement(ListsOf(chain, allow))
    ensures p in chain && allow(p) != {}
  {
    if forall q :: q in chain ==> allow(q) == {} {
      AdmittedByMembers(chain, allow, "");
    }
    p :| p in chain && allow(p) != {};
  }

  /** The allowlist admits nothing that is not denied. */
  lemma NothingAdmittedIff(allowed: set<string>, denied: set<string>)
    ensures allowed != {} && allowed <= denied <==> forall item :: item in denied || !Admits(allowed, item)
  {
    var outside := OutsideOf(denied);
    if allowed == {} {
      assert Admits(allowed, outside);
    } else if item :| item in allowed && item !in denied {
      assert Admits(allowed, item);
    }
  }

  /** The two allowlists admit the same of what is not denied. */
  ghost predicate SameBut(left: set<string>, right: set<string>, denied: set<string>) {
    forall item :: item !in denied ==> (Admits(left, item) <==> Admits(right, item))
  }

  /** The middle list overlaps both neighbours, or neither; then the outer two differ in denied items only. */
  predicate AssociatesBut(a: set<string>, b: set<string>, c: set<string>, denied: set<string>) {
    || a == {} || b == {} || c == {}
    || (a * b != {} && b * c != {})
    || (a * b == {} && b * c == {} && a - denied == c - denied)
  }

  lemma SameButIff(left: set<string>, right: set<string>, denied: set<string>)
    ensures SameBut(left, right, denied) <==>
            if left == {} || right == {} then left == right else left - denied == right - denied
  {
    var item := OutsideOf(left + right + denied);
    if SameBut(left, right, denied) && left != {} && right != {} {
      assert forall x :: x in left - denied <==> x in right - denied;
    }
    if left != {} && right != {} && left - denied == right - denied {
      forall x | x !in denied ensures x in left <==> x in right {
        assert x in left - denied <==> x in right - denied;
      }
    }
  }

  /** Of three allowlists it makes a difference which neighbours are folded first, except under this condition. */
  lemma AssociatesButIff(a: set<string>, b: set<string>, c: set<string>, denied: set<string>)
    ensures SameBut(Meet(Meet(a, b), c), Meet(a, Meet(b, c)), denied) <==> AssociatesBut(a, b, c, denied)
  {
    SameButIff(Meet(Meet(a, b), c), Meet(a, Meet(b, c)), denied);
    assert (a * b) * c == a * (b * c);
    if a * b == {} {
      assert a * (b * c) == {};
    }
    if b * c == {} {
      assert (a * b) * c == {};
    }
  }

  /** And of two neighbours after a fold `x`, which of them comes first, except under the same condition. */
  lemma NeighboursButIff(x: set<string>, a: set<string>, b: set<string>, denied: set<string>)
    ensures SameBut(Meet(Meet(x, a), b), Meet(Meet(x, b), a), denied) <==> AssociatesBut(a, x, b, denied)
  {
    assert x * a == a * x && Meet(x, a) == Meet(a, x);
    assert Meet(x, b) * a == a * Meet(x, b) && Meet(Meet(x, b), a) == Meet(a, Meet(x, b));
    AssociatesButIff(a, x, b, denied);
  }

  ghost predicate ArrangementFree<P(!new)>(chain: seq<P>, allow: P -> set<string>, deny: P -> set<string>) {
    forall other, item :: SameMembers(chain, other) ==>
      (Passes(chain, allow, deny, item) <==> Passes(other, allow, deny, item))
  }

  /** Neither order nor repetition decides what a chain lets through iff its non-empty allowlists share an element. */
  lemma ArrangementFreeIff<P(!new)>(chain: seq<P>, allow: P -> set<string>, deny: P -> set<string>)
    ensures ArrangementFree(chain, allow, deny) <==> ShareElement(ListsOf(chain, allow))
  {
    if ShareElement(ListsOf(chain, allow)) {
      forall other, item | SameMembers(chain, other)
        ensures Passes(chain, allow, deny, item) <==> Passes(other, allow, deny, item)
      {
        SharedBySameMembers(chain, other, allow);
        PassesIffAllDo(chain, allow, deny, item);
        PassesIffAllDo(other, allow, deny, item);
      }
    } else {
      var wide, narrow, item := Disagreement(chain, allow, deny);
    }
  }

  /** A way of resolving chains that folds the allowlists and unites the denials. */
  ghost predicate Folds<P(!new)>(resolve: seq<P> -> P, allow: P -> set<string>, deny: P -> set<string>) {
    && (forall chain :: allow(resolve(chain)) == MeetAll(ListsOf(chain, allow)))
    && (forall chain, item :: item in deny(resolve(chain)) <==> exists p :: p in chain && item in deny(p))
  }

  /** In whatever two parts the members are resolved first, the same is let through. */
  ghost predicate PartsFree<P(!new)>(chain: seq<P>, resolve: seq<P> -> P, allow: P -> set<string>,
                                        deny: P -> set<string>) {
    forall a, b, item :: SameMembers(chain, a + b) ==>
      (Passes([resolve(a), resolve(b)], allow, deny, item) <==> Passes(chain, allow, deny, item))
  }

  lemma PassesPair<P(!new)>(a: seq<P>, b: seq<P>, resolve: seq<P> -> P, allow: P -> set<string>,
                            deny: P -> set<string>, item: string)
    requires Folds(resolve, allow, deny)
    ensures Passes([resolve(a), resolve(b)], allow, deny, item) <==>
            && (forall p :: p in a + b ==> item !in deny(p))
            && Admits(Meet(MeetAll(ListsOf(a, allow)), MeetAll(ListsOf(b, allow))), item)
  {
    var pair := [resolve(a), resolve(b)];
    assert ListsOf(pair, allow) == [MeetAll(ListsOf(a, allow)), MeetAll(ListsOf(b, allow))];
    MeetPair(MeetAll(ListsOf(a, allow)), MeetAll(ListsOf(b, allow)));
    assert (forall p :: p in pair ==> item !in deny(p)) <==> item !in deny(resolve(a)) && item !in deny(resolve(b)) by {
      assert resolve(a) in pair && resolve(b) in pair;
    }
    assert (forall p :: p in a + b ==> item !in deny(p)) <==>
           (forall p :: p in a ==> item !in deny(p)) && (forall p :: p in b ==> item !in deny(p)) by {
      assert forall p :: p in a + b <==> p in a || p in b;
    }
  }

  lemma PairedShared<P(!new)>(a: seq<P>, b: seq<P>, allow: P -> set<string>, item: string)
    requires ShareElement(ListsOf(a + b, allow))
    ensures Admits(Meet(MeetAll(ListsOf(a, allow)), MeetAll(ListsOf(b, allow))), item) <==>
            Admits(MeetAll(ListsOf(a + b, allow)), item)
  {
    var left, right := ListsOf(a, allow), ListsOf(b, allow);
    ListsOfParts(a, b, allow);
    SharedByParts(left, right);
    FoldIsExactIff(left);
    FoldIsExactIff(right);
    FoldIsExactIff(left + right);
    FoldIsExactIff([MeetAll(left), MeetAll(right)]);
    MeetPair(MeetAll(left), MeetAll(right));
    assert AllAdmit([MeetAll(left), MeetAll(right)], item) <==>
           Admits(MeetAll(left), item) && Admits(MeetAll(right), item);
    assert forall l :: l in left + right <==> l in left || l in right;
  }

  /** Grouping decides nothing iff the non-empty allowlists share an element, exactly as for order. */
  lemma PartsFreeIff<P(!new)>(chain: seq<P>, resolve: seq<P> -> P, allow: P -> set<string>, deny: P -> set<string>)
    requires Folds(resolve, allow, deny)
    ensures PartsFree(chain, resolve, allow, deny) <==> ShareElement(ListsOf(chain, allow))
  {
    if ShareElement(ListsOf(chain, allow)) {
      forall a, b, item | SameMembers(chain, a + b)
        ensures Passes([resolve(a), resolve(b)], allow, deny, item) <==> Passes(chain, allow, deny, item)
      {
        SharedBySameMembers(chain, a + b, allow);
        PassesPair(a, b, resolve, allow, deny, item);
        PairedShared(a, b, allow, item);
        ArrangementFreeIff(chain, allow, deny);
      }
    } else if PartsFree(chain, resolve, allow, deny) {
      forall other, item | SameMembers(chain, other)
        ensures Passes(chain, allow, deny, item) <==> Passes(other, allow, deny, item)
      {
        assert other + [] == other;
        PassesPair(other, [], resolve, allow, deny, item);
        assert ListsOf<P, string>([], allow) == [];
      }
      ArrangementFreeIff(chain, allow, deny);
    }
  }
}
