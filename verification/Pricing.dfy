/** Price windows of models. */
module Pricing {
  import opened Types

  /** A price holds from `effectiveFrom` up to, and not including, `effectiveUntil`. */
  datatype ModelPrice = ModelPrice(
    providerId: string,
    upstreamModel: string,
    effectiveFrom: int,
    effectiveUntil: Option<int>)
  {
    predicate ActiveAt(at: int) {
      effectiveFrom <= at && (effectiveUntil.None? || at < effectiveUntil.value)
    }

    /** Some instant lies within the window. */
    predicate IsEverActive() {
      effectiveUntil.None? || effectiveFrom < effectiveUntil.value
    }
  }

  predicate SameModel(a: ModelPrice, b: ModelPrice) {
    a.providerId == b.providerId && a.upstreamModel == b.upstreamModel
  }

  predicate BeginsBeforeEnd(a: ModelPrice, b: ModelPrice) {
    b.effectiveUntil.None? || a.effectiveFrom < b.effectiveUntil.value
  }

  /** The pairs that validation turns down. */
  predicate Clashes(a: ModelPrice, b: ModelPrice) {
    SameModel(a, b) && BeginsBeforeEnd(a, b) && BeginsBeforeEnd(b, a)
  }

  ghost predicate NoClash(prices: seq<ModelPrice>) {
    forall i, j :: 0 <= i < j < |prices| ==> !Clashes(prices[i], prices[j])
  }

  ghost predicate BothActive(prices: seq<ModelPrice>, i: nat, j: nat, at: int) {
    i < |prices| && j < |prices| && SameModel(prices[i], prices[j]) && prices[i].ActiveAt(at) && prices[j].ActiveAt(at)
  }

  /** At every instant a provider's model has at most one price. */
  ghost predicate OnePriceAtATime(prices: seq<ModelPrice>) {
    forall i, j, at :: BothActive(prices, i, j, at) ==> i == j
  }

  /** Two windows of one model, both of which are ever active, clash exactly when they share an instant. */
  lemma ClashIffShared(prices: seq<ModelPrice>, i: nat, j: nat)
    requires i < |prices| && j < |prices|
    ensures (exists at :: BothActive(prices, i, j, at)) ==> Clashes(prices[i], prices[j])
    ensures prices[i].IsEverActive() && prices[j].IsEverActive() ==>
              (Clashes(prices[i], prices[j]) <==> exists at :: BothActive(prices, i, j, at))
  {
    var a, b := prices[i], prices[j];
    if Clashes(a, b) && a.IsEverActive() && b.IsEverActive() {
      var later := if a.effectiveFrom < b.effectiveFrom then b.effectiveFrom else a.effectiveFrom;
      assert BothActive(prices, i, j, later);
    }
  }

  /** Without empty windows, a list has one price at a time exactly when no two of its windows clash. */
  lemma NoClashMeansOnePrice(prices: seq<ModelPrice>)
    ensures NoClash(prices) ==> OnePriceAtATime(prices)
    ensures (forall p :: p in prices ==> p.IsEverActive()) ==> (NoClash(prices) <==> OnePriceAtATime(prices))
  {
    forall i, j | 0 <= i < |prices| && 0 <= j < |prices|
      ensures (exists at :: BothActive(prices, i, j, at)) ==> Clashes(prices[i], prices[j])
      ensures prices[i].IsEverActive() && prices[j].IsEverActive() ==>
                (Clashes(prices[i], prices[j]) <==> exists at :: BothActive(prices, i, j, at))
    {
      ClashIffShared(prices, i, j);
    }
    assert forall i, j, at :: BothActive(prices, i, j, at) ==> BothActive(prices, j, i, at);
  }

  /** Whatever is accepted has one price at a time; and if no window is empty, whatever has is accepted. */
  method ValidateNoOverlap(prices: seq<ModelPrice>) returns (accepted: bool)
    ensures accepted <==> NoClash(prices)
    ensures accepted ==> OnePriceAtATime(prices)
    ensures accepted <==>
            forall i, j :: 0 <= i < j < |prices| ==>
              || prices[i].providerId != prices[j].providerId || prices[i].upstreamModel != prices[j].upstreamModel
              || (prices[i].effectiveUntil.Some? && prices[i].effectiveUntil.value <= prices[j].effectiveFrom)
              || (prices[j].effectiveUntil.Some? && prices[j].effectiveUntil.value <= prices[i].effectiveFrom)
    ensures (forall p :: p in prices ==> p.IsEverActive()) ==> (accepted <==> OnePriceAtATime(prices))
  {
    NoClashMeansOnePrice(prices);
    for i := 0 to |prices|
      invariant forall a, b :: 0 <= a < b < |prices| && a < i ==> !Clashes(prices[a], prices[b])
    {
      for j := i + 1 to |prices|
        invariant forall b :: i < b < j ==> !Clashes(prices[i], prices[b])
      {
        if prices[i].providerId == prices[j].providerId && prices[i].upstreamModel == prices[j].upstreamModel
           && (prices[i].effectiveUntil.None? || prices[j].effectiveFrom < prices[i].effectiveUntil.value)
           && (prices[j].effectiveUntil.None? || prices[i].effectiveFrom < prices[j].effectiveUntil.value) {
          assert Clashes(prices[i], prices[j]);
          return false;
        }
      }
    }
    accepted := true;
  }

  /** Without that, a list may be turned down needlessly, and exactly so: a clash that no instant shows always has a
      window that is never active. */
  lemma NeedlessRejectionIff(prices: seq<ModelPrice>, i: nat, j: nat)
    requires i < |prices| && j < |prices| && Clashes(prices[i], prices[j])
    ensures (forall at :: !BothActive(prices, i, j, at)) <==> !prices[i].IsEverActive() || !prices[j].IsEverActive()
  {
    ClashIffShared(prices, i, j);
    if !prices[i].IsEverActive() || !prices[j].IsEverActive() {
      forall at ensures !BothActive(prices, i, j, at) {}
    }
  }

  ghost predicate ClashingPair(prices: seq<ModelPrice>, i: int, j: int) {
    0 <= i < j < |prices| && Clashes(prices[i], prices[j])
  }

  ghost predicate NeedlessPair(prices: seq<ModelPrice>, i: int, j: int) {
    ClashingPair(prices, i, j) ==> !prices[i].IsEverActive() || !prices[j].IsEverActive()
  }

  lemma OnePriceIff(prices: seq<ModelPrice>)
    ensures OnePriceAtATime(prices) <==> forall i, j :: NeedlessPair(prices, i, j)
  {
    if OnePriceAtATime(prices) {
      forall i, j ensures NeedlessPair(prices, i, j) {
        if ClashingPair(prices, i, j) {
          assert forall at :: !BothActive(prices, i, j, at);
          NeedlessRejectionIff(prices, i, j);
        }
      }
    }
    if forall i, j :: NeedlessPair(prices, i, j) {
      forall i: nat, j: nat, at | BothActive(prices, i, j, at) ensures i == j {
        assert BothActive(prices, j, i, at);
        ClashIffShared(prices, i, j);
        ClashIffShared(prices, j, i);
        assert NeedlessPair(prices, i, j) && NeedlessPair(prices, j, i);
      }
    }
  }

  /** A list with one price at a time is turned down iff some pair clashes, and each that does has a window that is
      never active. */
  lemma NeedlesslyRejectedIff(prices: seq<ModelPrice>)
    ensures !NoClash(prices) && OnePriceAtATime(prices) <==>
            (exists i, j :: ClashingPair(prices, i, j)) && forall i, j :: NeedlessPair(prices, i, j)
  {
    OnePriceIff(prices);
    assert forall i, j :: 0 <= i < j < |prices| && Clashes(prices[i], prices[j]) ==> ClashingPair(prices, i, j);
    if i, j :| ClashingPair(prices, i, j) {
      assert Clashes(prices[i], prices[j]);
    }
  }

  /** For example, an empty window within another one is turned down although only one price is ever active. */
  lemma EmptyWindowIsRejected(providerId: string, model: string, from: int, at: int)
    requires from < at
    ensures var prices := [ModelPrice(providerId, model, from, None), ModelPrice(providerId, model, at, Some(at))];
            OnePriceAtATime(prices) && !NoClash(prices)
  {
    var prices := [ModelPrice(providerId, model, from, None), ModelPrice(providerId, model, at, Some(at))];
    assert Clashes(prices[0], prices[1]);
  }
}
