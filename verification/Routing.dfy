/** Model aliases, route plans and the choice of the most specific scope. */
module Routing {
  import opened Types
  import opened Permutations
  import opened Sorting
  import Gateways
  import Ledgers

  datatype RouteTarget = RouteTarget(
    tenantId: Option<string>,
    projectId: Option<string>,
    provider: string,
    requestedModel: string,
    upstreamModel: string,
    priority: nat,
    enabled: bool)

  datatype RoutingError = UnknownModel | NoTargets

  datatype RoutePlan = RoutePlan(ordered: seq<RouteTarget>)

  function ByPriority(): (RouteTarget, RouteTarget) -> bool {
    (a: RouteTarget, b: RouteTarget) => a.priority <= b.priority
  }

  function NewPlan(targets: seq<RouteTarget>): Result<RoutePlan, RoutingError> {
    if targets == [] then Err(NoTargets) else Ok(RoutePlan(Sort(ByPriority(), targets)))
  }

  function IsEnabled(): RouteTarget -> bool {
    (t: RouteTarget) => t.enabled
  }

  function Targets(plan: RoutePlan): seq<RouteTarget> {
    Filter(IsEnabled(), plan.ordered)
  }

  /** How well a target fits the caller; negative when it is not for the caller at all. */
  function Rank(t: RouteTarget, tenant: Option<string>, project: Option<string>): int {
    if t.tenantId == tenant && t.projectId == project && project.Some? then 2
    else if t.tenantId == tenant && t.projectId.None? && tenant.Some? then 1
    else if t.tenantId.None? && t.projectId.None? then 0
    else -1
  }

  function Serves(model: string): RouteTarget -> bool {
    (t: RouteTarget) => t.requestedModel == model
  }

  function ServesAt(model: string, tenant: Option<string>, project: Option<string>, rank: int): RouteTarget -> bool {
    (t: RouteTarget) => t.requestedModel == model && Rank(t, tenant, project) == rank
  }

  function MaxRank(ts: seq<RouteTarget>, tenant: Option<string>, project: Option<string>): int {
    if ts == [] then -1
    else
      var best, rank := MaxRank(ts[1..], tenant, project), Rank(ts[0], tenant, project);
      if rank > best then rank else best
  }

  function RouteOf(t: RouteTarget): ModelRoute {
    ModelRoute(t.provider, t.requestedModel, t.upstreamModel)
  }

  function RoutesOf(ts: seq<RouteTarget>): seq<ModelRoute> {
    seq(|ts|, i requires 0 <= i < |ts| => RouteOf(ts[i]))
  }

  function RouteFor(plan: RoutePlan, tenant: Option<string>, project: Option<string>, model: string)
    : Result<seq<ModelRoute>, RoutingError>
  {
    var selected := MaxRank(Filter(Serves(model), Targets(plan)), tenant, project);
    if selected < 0 then Err(UnknownModel)
    else
      var routes := RoutesOf(Filter(ServesAt(model, tenant, project, selected), Targets(plan)));
      if routes != [] then Ok(routes) else Err(UnknownModel)
  }

  // ---------------------------------------------------------------- the most specific scope

  /** For whom a target is set up. */
  datatype Scope = OfProject(tenantId: Option<string>, projectId: string) | OfTenant(tenant: string) | Everybody

  predicate InScope(t: RouteTarget, scope: Scope) {
    match scope
    case OfProject(tenantId, projectId) => t.tenantId == tenantId && t.projectId == Some(projectId)
    case OfTenant(tenant) => t.tenantId == Some(tenant) && t.projectId.None?
    case Everybody => t.tenantId.None? && t.projectId.None?
  }

  /** The scopes a caller belongs to, the most specific first. */
  function ScopesOf(tenant: Option<string>, project: Option<string>): seq<Scope> {
    (if project.Some? then [OfProject(tenant, project.value)] else []) +
    (if tenant.Some? then [OfTenant(tenant.value)] else []) +
    [Everybody]
  }

  function OfferedIn(scope: Scope, model: string): RouteTarget -> bool {
    (t: RouteTarget) => t.enabled && t.requestedModel == model && InScope(t, scope)
  }

  /** What the first scope that offers the model at all offers, in the order it was configured. */
  function MostSpecific(targets: seq<RouteTarget>, scopes: seq<Scope>, model: string): seq<RouteTarget> {
    if scopes == [] then []
    else
      var offered := Filter(OfferedIn(scopes[0], model), targets);
      if offered != [] then offered else MostSpecific(targets, scopes[1..], model)
  }

  lemma {:induction false} FilterTwice<T(!new)>(outer: T -> bool, inner: T -> bool, both: T -> bool, s: seq<T>)
    requires forall x :: both(x) <==> inner(x) && outer(x)
    ensures Filter(outer, Filter(inner, s)) == Filter(both, s)
  {
    if s != [] {
      FilterTwice(outer, inner, both, s[1..]);
      if inner(s[0]) {
        assert ([s[0]] + Filter(inner, s[1..]))[1..] == Filter(inner, s[1..]);
      }
    }
  }

  lemma PriorityIsTotal()
    ensures TotalPreorder(ByPriority())
  {}

  function ServedAt(model: string, tenant: Option<string>, project: Option<string>, rank: int): RouteTarget -> bool {
    (t: RouteTarget) => t.enabled && t.requestedModel == model && Rank(t, tenant, project) == rank
  }

  /** The plan's targets of one rank are the configured ones of that rank, sorted. */
  lemma PlanOfRank(targets: seq<RouteTarget>, tenant: Option<string>, project: Option<string>, model: string, rank: int)
    ensures Filter(ServesAt(model, tenant, project, rank), Filter(IsEnabled(), Sort(ByPriority(), targets))) ==
            Sort(ByPriority(), Filter(ServedAt(model, tenant, project, rank), targets))
  {
    var sorted := Sort(ByPriority(), targets);
    PriorityIsTotal();
    FilterTwice(ServesAt(model, tenant, project, rank), IsEnabled(), ServedAt(model, tenant, project, rank), sorted);
    FilterOfSort(ByPriority(), ServedAt(model, tenant, project, rank), targets);
  }

  ghost predicate HasRank(ts: seq<RouteTarget>, tenant: Option<string>, project: Option<string>, rank: int) {
    exists t :: t in ts && Rank(t, tenant, project) == rank
  }

  lemma {:induction false} MaxRankIsGreatest(ts: seq<RouteTarget>, tenant: Option<string>, project: Option<string>)
    ensures forall t :: t in ts ==> Rank(t, tenant, project) <= MaxRank(ts, tenant, project)
    ensures MaxRank(ts, tenant, project) == -1 || HasRank(ts, tenant, project, MaxRank(ts, tenant, project))
  {
    if ts != [] {
      MaxRankIsGreatest(ts[1..], tenant, project);
      assert ts == [ts[0]] + ts[1..];
    }
  }

  lemma RankIsPresentIff(targets: seq<RouteTarget>, tenant: Option<string>, project: Option<string>, model: string,
                         rank: int)
    ensures Filter(ServedAt(model, tenant, project, rank), targets) != [] <==>
            HasRank(Filter(Serves(model), Targets(RoutePlan(Sort(ByPriority(), targets)))), tenant, project, rank)
  {
    var served := ServedAt(model, tenant, project, rank);
    var ts := Filter(Serves(model), Targets(RoutePlan(Sort(ByPriority(), targets))));
    forall t: RouteTarget
      ensures t in Filter(served, targets) <==> t in ts && Rank(t, tenant, project) == rank
    {
      ServedMembers(targets, model, t);
      FilterMembers(served, targets, t);
    }
    if Filter(served, targets) != [] {
      assert Filter(served, targets)[0] in ts;
    }
  }

  /** The greatest rank is the first of 2, 1 and 0 that has targets. */
  lemma GreatestRank(targets: seq<RouteTarget>, tenant: Option<string>, project: Option<string>, model: string)
    ensures MaxRank(Filter(Serves(model), Targets(RoutePlan(Sort(ByPriority(), targets)))), tenant, project) ==
            if Filter(ServedAt(model, tenant, project, 2), targets) != [] then 2
            else if Filter(ServedAt(model, tenant, project, 1), targets) != [] then 1
            else if Filter(ServedAt(model, tenant, project, 0), targets) != [] then 0
            else -1
  {
    MaxRankIsGreatest(Filter(Serves(model), Targets(RoutePlan(Sort(ByPriority(), targets)))), tenant, project);
    RankIsPresentIff(targets, tenant, project, model, 2);
    RankIsPresentIff(targets, tenant, project, model, 1);
    RankIsPresentIff(targets, tenant, project, model, 0);
  }

  lemma ServedMembers(targets: seq<RouteTarget>, model: string, t: RouteTarget)
    ensures t in Filter(Serves(model), Targets(RoutePlan(Sort(ByPriority(), targets)))) <==>
            t in targets && t.enabled && t.requestedModel == model
  {
    var sorted := Sort(ByPriority(), targets);
    PriorityIsTotal();
    SortIsCorrect(ByPriority(), targets);
    FilterMembers(Serves(model), Filter(IsEnabled(), sorted), t);
    FilterMembers(IsEnabled(), sorted, t);
    assert t in sorted <==> t in multiset(sorted);
    assert t in targets <==> t in multiset(targets);
  }

  lemma {:induction false} FilterAgrees<T(!new)>(f: T -> bool, g: T -> bool, s: seq<T>)
    requires forall x :: f(x) <==> g(x)
    ensures Filter(f, s) == Filter(g, s)
  {
    if s != [] {
      FilterAgrees(f, g, s[1..]);
    }
  }

  lemma {:induction false} FilterNone<T(!new)>(f: T -> bool, s: seq<T>)
    requires forall x :: !f(x)
    ensures Filter(f, s) == []
  {
    if s != [] {
      FilterNone(f, s[1..]);
    }
  }

  /** A rank stands for a scope of the caller, or for none. */
  lemma RankIsScope(targets: seq<RouteTarget>, tenant: Option<string>, project: Option<string>, model: string)
    ensures Filter(ServedAt(model, tenant, project, 2), targets) ==
            if project.Some? then Filter(OfferedIn(OfProject(tenant, project.value), model), targets) else []
    ensures Filter(ServedAt(model, tenant, project, 1), targets) ==
            if tenant.Some? then Filter(OfferedIn(OfTenant(tenant.value), model), targets) else []
    ensures Filter(ServedAt(model, tenant, project, 0), targets) == Filter(OfferedIn(Everybody, model), targets)
  {
    if project.Some? {
      FilterAgrees(ServedAt(model, tenant, project, 2), OfferedIn(OfProject(tenant, project.value), model), targets);
    } else {
      FilterNone(ServedAt(model, tenant, project, 2), targets);
    }
    if tenant.Some? {
      FilterAgrees(ServedAt(model, tenant, project, 1), OfferedIn(OfTenant(tenant.value), model), targets);
    } else {
      FilterNone(ServedAt(model, tenant, project, 1), targets);
    }
    FilterAgrees(ServedAt(model, tenant, project, 0), OfferedIn(Everybody, model), targets);
  }

  lemma MostSpecificIs(targets: seq<RouteTarget>, tenant: Option<string>, project: Option<string>, model: string)
    ensures MostSpecific(targets, ScopesOf(tenant, project), model) ==
            var two, one := Filter(ServedAt(model, tenant, project, 2), targets),
                            Filter(ServedAt(model, tenant, project, 1), targets);
            if two != [] then two
            else if one != [] then one
            else Filter(ServedAt(model, tenant, project, 0), targets)
  {
    RankIsScope(targets, tenant, project, model);
    var ofTenant := (if tenant.Some? then [OfTenant(tenant.value)] else []) + [Everybody];
    FirstOffer(targets, Everybody, [], model);
    if tenant.Some? {
      FirstOffer(targets, OfTenant(tenant.value), [Everybody], model);
    } else {
      assert ofTenant == [Everybody] + [];
    }
    if project.Some? {
      FirstOffer(targets, OfProject(tenant, project.value), ofTenant, model);
      assert ScopesOf(tenant, project) == [OfProject(tenant, project.value)] + ofTenant;
    } else {
      assert ScopesOf(tenant, project) == ofTenant;
    }
  }

  lemma FirstOffer(targets: seq<RouteTarget>, scope: Scope, scopes: seq<Scope>, model: string)
    ensures MostSpecific(targets, [scope] + scopes, model) ==
            var offered := Filter(OfferedIn(scope, model), targets);
            if offered != [] then offered else MostSpecific(targets, scopes, model)
  {
    assert ([scope] + scopes)[1..] == scopes;
  }

  /** A model is routed to the enabled targets of the most specific scope that offers it, by ascending priority,
      with ties in the order of the configuration. */
  lemma RoutesAreMostSpecific(targets: seq<RouteTarget>, tenant: Option<string>, project: Option<string>, model: string)
    requires targets != []
    ensures var offered := MostSpecific(targets, ScopesOf(tenant, project), model);
            RouteFor(NewPlan(targets).value, tenant, project, model) ==
            if offered == [] then Err(UnknownModel) else Ok(RoutesOf(Sort(ByPriority(), offered)))
  {
    GreatestRank(targets, tenant, project, model);
    MostSpecificIs(targets, tenant, project, model);
    var selected := MaxRank(Filter(Serves(model), Targets(NewPlan(targets).value)), tenant, project);
    PlanOfRank(targets, tenant, project, model, selected);
    SortKeepsLength(MostSpecific(targets, ScopesOf(tenant, project), model));
  }

  // ---------------------------------------------------------------- routes, target by target

  predicate IsFor(t: RouteTarget, tenant: Option<string>, project: Option<string>, level: nat) {
    if level == 2 then project.Some? && t.projectId == project && t.tenantId == tenant
    else if level == 1 then tenant.Some? && t.projectId.None? && t.tenantId == tenant
    else t.projectId.None? && t.tenantId.None?
  }

  predicate Offers(t: RouteTarget, model: string, tenant: Option<string>, project: Option<string>, level: nat) {
    t.enabled && t.requestedModel == model && IsFor(t, tenant, project, level)
  }

  /** The caller's project offers the model, or else its tenant does, or else everybody may have it. */
  ghost predicate IsLevel(targets: seq<RouteTarget>, model: string, tenant: Option<string>, project: Option<string>,
                          level: nat)
  {
    && level <= 2 && (exists t :: t in targets && Offers(t, model, tenant, project, level))
    && (forall t, above :: t in targets && level < above <= 2 ==> !Offers(t, model, tenant, project, above))
  }

  /** The routes are those of the level's targets, each once, by ascending priority and then in configured order. */
  ghost predicate ListsRoutes(targets: seq<RouteTarget>, model: string, tenant: Option<string>,
                              project: Option<string>, level: nat, routes: seq<ModelRoute>, at: seq<nat>)
  {
    && |at| == |routes|
    && (forall k :: 0 <= k < |at| ==>
          && at[k] < |targets|
          && routes[k] == ModelRoute(targets[at[k]].provider, model, targets[at[k]].upstreamModel))
    && (forall i :: 0 <= i < |targets| ==> (i in at <==> Offers(targets[i], model, tenant, project, level)))
    && (forall j, k :: 0 <= j < k < |at| ==>
          || targets[at[j]].priority < targets[at[k]].priority
          || (targets[at[j]].priority == targets[at[k]].priority && at[j] < at[k]))
  }

  ghost predicate RoutedInFull(targets: seq<RouteTarget>, tenant: Option<string>, project: Option<string>,
                               model: string, result: Result<seq<ModelRoute>, RoutingError>)
  {
    if exists level :: IsLevel(targets, model, tenant, project, level) then
      exists level, at ::
        && IsLevel(targets, model, tenant, project, level)
        && result.Ok? && ListsRoutes(targets, model, tenant, project, level, result.value, at)
    else result == Err(UnknownModel)
  }

  lemma LevelIsRank(targets: seq<RouteTarget>, tenant: Option<string>, project: Option<string>, model: string,
                    level: nat)
    requires level <= 2
    ensures forall t :: ServedAt(model, tenant, project, level)(t) <==> Offers(t, model, tenant, project, level)
    ensures Filter(ServedAt(model, tenant, project, level), targets) != [] <==>
            exists t :: t in targets && Offers(t, model, tenant, project, level)
  {
    var served := ServedAt(model, tenant, project, level);
    forall t ensures t in Filter(served, targets) <==> t in targets && Offers(t, model, tenant, project, level) {
      FilterMembers(served, targets, t);
    }
    if Filter(served, targets) != [] {
      assert Filter(served, targets)[0] in targets;
    }
  }

  /** The level's targets are what the most specific scope offers. */
  lemma LevelIsMostSpecific(targets: seq<RouteTarget>, tenant: Option<string>, project: Option<string>, model: string)
    returns (level: nat)
    ensures level <= 2
    ensures MostSpecific(targets, ScopesOf(tenant, project), model) ==
            Filter(ServedAt(model, tenant, project, level), targets)
    ensures if MostSpecific(targets, ScopesOf(tenant, project), model) == []
            then forall l :: !IsLevel(targets, model, tenant, project, l)
            else IsLevel(targets, model, tenant, project, level)
  {
    hide MostSpecific, Filter, Offers;
    MostSpecificIs(targets, tenant, project, model);
    LevelIsRank(targets, tenant, project, model, 2);
    LevelIsRank(targets, tenant, project, model, 1);
    LevelIsRank(targets, tenant, project, model, 0);
    level := if Filter(ServedAt(model, tenant, project, 2), targets) != [] then 2
             else if Filter(ServedAt(model, tenant, project, 1), targets) != [] then 1 else 0;
  }

  lemma LevelPositions(targets: seq<RouteTarget>, tenant: Option<string>, project: Option<string>, model: string,
                       level: nat)
    returns (kept: seq<nat>)
    requires level <= 2
    ensures var offered := Filter(ServedAt(model, tenant, project, level), targets);
            |kept| == |offered| && forall m :: 0 <= m < |kept| ==> kept[m] < |targets| && offered[m] == targets[kept[m]]
    ensures forall j, k :: 0 <= j < k < |kept| ==> kept[j] < kept[k]
    ensures forall i :: 0 <= i < |targets| ==> (i in kept <==> Offers(targets[i], model, tenant, project, level))
    ensures forall m :: 0 <= m < |kept| ==> targets[kept[m]].requestedModel == model
  {
    hide Filter;
    var served := ServedAt(model, tenant, project, level);
    kept := FilterPositions(served, targets, 0);
    assert targets[0..] == targets;
    forall i | 0 <= i < |targets| ensures i in kept <==> Offers(targets[i], model, tenant, project, level) {
      assert served(targets[i]) <==> i in kept;
      assert served(targets[i]) <==> Offers(targets[i], model, tenant, project, level);
    }
    forall m | 0 <= m < |kept| ensures targets[kept[m]].requestedModel == model {
      assert kept[m] in kept;
    }
  }

  lemma LevelIsListed(targets: seq<RouteTarget>, tenant: Option<string>, project: Option<string>, model: string,
                      level: nat)
    returns (at: seq<nat>)
    requires level <= 2
    ensures ListsRoutes(targets, model, tenant, project, level,
                        RoutesOf(Sort(ByPriority(), Filter(ServedAt(model, tenant, project, level), targets))), at)
  {
    hide Offers, Filter, Sort, ByPriority, ServedAt, TotalPreorder, StablySorted, IsFor;
    var offered := Filter(ServedAt(model, tenant, project, level), targets);
    PriorityIsTotal();
    var kept := LevelPositions(targets, tenant, project, model, level);
    var sorted := SortPositions(ByPriority(), offered);
    at := SortedAndKept(targets, offered, Sort(ByPriority(), offered), kept, sorted);
    ModelsAlong(targets, kept, at, model);
  }

  lemma ModelsAlong(targets: seq<RouteTarget>, kept: seq<nat>, at: seq<nat>, model: string)
    requires forall m :: 0 <= m < |kept| ==> kept[m] < |targets| && targets[kept[m]].requestedModel == model
    requires forall i :: i in at ==> i in kept
    ensures forall k :: 0 <= k < |at| ==> at[k] < |targets| && targets[at[k]].requestedModel == model
  {
    forall k | 0 <= k < |at| ensures at[k] < |targets| && targets[at[k]].requestedModel == model {
      assert at[k] in at;
    }
  }

  lemma SortedAndKept(targets: seq<RouteTarget>, offered: seq<RouteTarget>, ordered: seq<RouteTarget>, kept: seq<nat>,
                      sorted: seq<nat>)
    returns (at: seq<nat>)
    requires |kept| == |offered|
    requires forall m :: 0 <= m < |kept| ==> kept[m] < |targets| && offered[m] == targets[kept[m]]
    requires forall j, k :: 0 <= j < k < |kept| ==> kept[j] < kept[k]
    requires StablySorted(ByPriority(), offered, ordered, sorted)
    ensures |at| == |ordered| && forall i :: i in at <==> i in kept
    ensures forall k :: 0 <= k < |at| ==> at[k] < |targets| && ordered[k] == targets[at[k]]
    ensures forall j, k :: 0 <= j < k < |at| ==>
              || targets[at[j]].priority < targets[at[k]].priority
              || (targets[at[j]].priority == targets[at[k]].priority && at[j] < at[k])
  {
    hide Precedes;
    at := Along(kept, sorted);
    AlongCovers(kept, sorted);
    forall j, k | 0 <= j < k < |at|
      ensures targets[at[j]].priority < targets[at[k]].priority ||
              (targets[at[j]].priority == targets[at[k]].priority && at[j] < at[k])
    {
      PrioritiesInOrder(offered, sorted[j], sorted[k]);
    }
    forall i | i in at ensures i in kept {}
  }

  lemma PrioritiesInOrder(ts: seq<RouteTarget>, i: nat, j: nat)
    requires i < |ts| && j < |ts| && Precedes(ByPriority(), ts, i, j)
    ensures ts[i].priority < ts[j].priority || (ts[i].priority == ts[j].priority && i < j)
  {}

  /** Positions of positions. */
  function Along(kept: seq<nat>, sorted: seq<nat>): (at: seq<nat>)
    requires forall k :: 0 <= k < |sorted| ==> sorted[k] < |kept|
    ensures |at| == |sorted| && forall k :: 0 <= k < |at| ==> at[k] == kept[sorted[k]]
  {
    seq(|sorted|, k requires 0 <= k < |sorted| => kept[sorted[k]])
  }

  lemma AlongCovers(kept: seq<nat>, sorted: seq<nat>)
    requires forall k :: 0 <= k < |sorted| ==> sorted[k] < |kept|
    requires forall m :: 0 <= m < |kept| ==> m in sorted
    ensures forall i :: i in Along(kept, sorted) <==> i in kept
  {
    var at := Along(kept, sorted);
    forall i | i in kept ensures i in at {
      var m :| 0 <= m < |kept| && kept[m] == i;
      assert m in sorted;
      var k :| 0 <= k < |sorted| && sorted[k] == m;
      assert at[k] == i;
    }
  }

  /** What a model is routed to, in full. */
  lemma RoutesInFull(targets: seq<RouteTarget>, tenant: Option<string>, project: Option<string>, model: string)
    requires targets != []
    ensures RoutedInFull(targets, tenant, project, model, RouteFor(NewPlan(targets).value, tenant, project, model))
  {
    hide IsLevel, ListsRoutes, RouteFor, MostSpecific;
    RoutesAreMostSpecific(targets, tenant, project, model);
    var level := LevelIsMostSpecific(targets, tenant, project, model);
    if MostSpecific(targets, ScopesOf(tenant, project), model) != [] {
      var at := LevelIsListed(targets, tenant, project, model, level);
    }
  }

  lemma SortKeepsLength(targets: seq<RouteTarget>)
    ensures |Sort(ByPriority(), targets)| == |targets|
  {
    PriorityIsTotal();
    SortIsCorrect(ByPriority(), targets);
    assert |Sort(ByPriority(), targets)| == |multiset(Sort(ByPriority(), targets))| == |multiset(targets)|;
  }

  function OfPriority(priority: nat): RouteTarget -> bool {
    (t: RouteTarget) => t.priority == priority
  }

  lemma {:induction false} AllEqualStay(s: seq<RouteTarget>, priority: nat)
    requires forall t :: t in s ==> t.priority == priority
    ensures Sort(ByPriority(), s) == s
  {
    if s != [] {
      AllEqualStay(s[1..], priority);
    }
  }

  /** Sorting a plan puts priorities in ascending order and leaves targets of equal priority in input order. */
  lemma TiesKeepInputOrder(targets: seq<RouteTarget>, priority: nat)
    ensures SortedBy(ByPriority(), Sort(ByPriority(), targets))
    ensures multiset(Sort(ByPriority(), targets)) == multiset(targets)
    ensures Filter(OfPriority(priority), Sort(ByPriority(), targets)) == Filter(OfPriority(priority), targets)
  {
    PriorityIsTotal();
    SortIsCorrect(ByPriority(), targets);
    FilterOfSort(ByPriority(), OfPriority(priority), targets);
    var ties := Filter(OfPriority(priority), targets);
    forall t | t in ties ensures t.priority == priority {
      FilterMembers(OfPriority(priority), targets, t);
    }
    AllEqualStay(ties, priority);
  }

  // ---------------------------------------------------------------- which models a principal is shown

  const MODEL_SCOPE: string := "model:"

  predicate IsModelScope(scope: string) {
    MODEL_SCOPE <= scope
  }

  /** No model scope at all admits every model. */
  ghost predicate ScopesAdmit(scopes: seq<string>, model: string) {
    (forall scope :: scope in scopes ==> !IsModelScope(scope)) || MODEL_SCOPE + model in scopes
  }

  function ModelScopes(scopes: seq<string>): seq<string> {
    if scopes == [] then []
    else
      (if IsModelScope(scopes[0]) then [scopes[0][|MODEL_SCOPE|..]] else []) + ModelScopes(scopes[1..])
  }

  datatype Router = Planned(plan: RoutePlan) | Static(route: ModelRoute)

  function Routes(router: Router, principal: Principal, model: string): Result<seq<ModelRoute>, RoutingError> {
    match router
    case Planned(plan) => RouteFor(plan, Some(principal.tenantId), principal.projectId, model)
    case Static(route) => if model == route.requestedModel then Ok([route]) else Err(UnknownModel)
  }

  /** The order of `str`, by code points. */
  predicate StringLeq(a: string, b: string) {
    a == "" || (b != "" && (a[0] < b[0] || (a[0] == b[0] && StringLeq(a[1..], b[1..]))))
  }

  /** `Vec::dedup`: of neighbours that are equal one is kept. */
  function Dedup(s: seq<string>): seq<string> {
    if |s| < 2 then s else if s[0] == s[1] then Dedup(s[1..]) else [s[0]] + Dedup(s[1..])
  }

  function IsRouted(plan: RoutePlan, principal: Principal): RouteTarget -> bool {
    (t: RouteTarget) =>
      t.enabled && RouteFor(plan, Some(principal.tenantId), principal.projectId, t.requestedModel).Ok?
  }

  function ModelOf(): RouteTarget -> string {
    (t: RouteTarget) => t.requestedModel
  }

  function AllAliases(router: Router, principal: Principal): seq<string> {
    match router
    case Planned(plan) => Map(ModelOf(), Filter(IsRouted(plan, principal), Targets(plan)))
    case Static(route) => [route.requestedModel]
  }

  function IsAmong(scopes: seq<string>): string -> bool {
    (alias: string) => alias in scopes
  }

  function ModelAliases(router: Router, principal: Principal): seq<string> {
    var aliases := Dedup(Sort(StringLeq, AllAliases(router, principal)));
    var scopes := ModelScopes(principal.scopes);
    if scopes == [] then aliases else Filter(IsAmong(scopes), aliases)
  }

  ghost predicate StrictlyAscending(s: seq<string>) {
    SortedBy(StringLeq, s) && forall i, j :: 0 <= i < j < |s| ==> s[i] != s[j]
  }

  lemma {:induction false} StringLeqIsTotal(a: string, b: string)
    ensures StringLeq(a, b) || StringLeq(b, a)
    ensures StringLeq(a, b) && StringLeq(b, a) ==> a == b
  {
    if a != "" && b != "" {
      StringLeqIsTotal(a[1..], b[1..]);
      assert a == [a[0]] + a[1..] && b == [b[0]] + b[1..];
    }
  }

  lemma {:induction false} StringLeqIsTransitive(a: string, b: string, c: string)
    requires StringLeq(a, b) && StringLeq(b, c)
    ensures StringLeq(a, c)
  {
    if a != "" && a[0] == b[0] == c[0] {
      StringLeqIsTransitive(a[1..], b[1..], c[1..]);
    }
  }

  lemma StringLeqIsOrder()
    ensures TotalPreorder(StringLeq)
  {
    forall x, y ensures StringLeq(x, y) || StringLeq(y, x) {
      StringLeqIsTotal(x, y);
    }
    forall x, y, z | StringLeq(x, y) && StringLeq(y, z) ensures StringLeq(x, z) {
      StringLeqIsTransitive(x, y, z);
    }
  }

  /** Of a sorted list, removing equal neighbours removes every repetition and nothing else. */
  lemma {:induction false} DedupIsStrict(s: seq<string>)
    requires SortedBy(StringLeq, s)
    ensures StrictlyAscending(Dedup(s))
    ensures forall x :: x in Dedup(s) <==> x in s
    ensures s != [] ==> Dedup(s) != [] && Dedup(s)[0] == s[0]
  {
    if |s| >= 2 {
      var rest := Dedup(s[1..]);
      DedupIsStrict(s[1..]);
      assert s == [s[0]] + s[1..];
      if s[0] != s[1] {
        forall j | 0 <= j < |rest| ensures StringLeq(s[0], rest[j]) && s[0] != rest[j] {
          HeadIsBelow(s, rest[j]);
        }
      }
    }
  }

  lemma HeadIsBelow(s: seq<string>, x: string)
    requires SortedBy(StringLeq, s) && |s| >= 2 && s[0] != s[1] && x in s[1..]
    ensures StringLeq(s[0], x) && s[0] != x
  {
    var k :| 1 <= k < |s| && s[k] == x;
    StringLeqIsTotal(s[0], s[1]);
    assert k == 1 || StringLeq(s[1], s[k]);
  }

  lemma {:induction false} FilterAscending(keep: string -> bool, s: seq<string>)
    requires StrictlyAscending(s)
    ensures StrictlyAscending(Filter(keep, s))
  {
    if s != [] {
      FilterAscending(keep, s[1..]);
      var rest := Filter(keep, s[1..]);
      forall j | 0 <= j < |rest| ensures StringLeq(s[0], rest[j]) && s[0] != rest[j] {
        FilterMembers(keep, s[1..], rest[j]);
        var k :| 1 <= k < |s| && s[k] == rest[j];
      }
    }
  }

  /** The aliases are listed in order, each once. */
  lemma AliasesAscend(router: Router, principal: Principal)
    ensures StrictlyAscending(ModelAliases(router, principal))
  {
    var all := AllAliases(router, principal);
    StringLeqIsOrder();
    SortIsCorrect(StringLeq, all);
    DedupIsStrict(Sort(StringLeq, all));
    FilterAscending(IsAmong(ModelScopes(principal.scopes)), Dedup(Sort(StringLeq, all)));
  }

  lemma ListedMembers(router: Router, principal: Principal, alias: string)
    ensures alias in ModelAliases(router, principal) <==>
            alias in AllAliases(router, principal) && MayAskFor(principal, alias)
  {
    var all := AllAliases(router, principal);
    StringLeqIsOrder();
    SortIsCorrect(StringLeq, all);
    assert alias in all <==> alias in multiset(all);
    assert alias in Sort(StringLeq, all) <==> alias in multiset(Sort(StringLeq, all));
    DedupIsStrict(Sort(StringLeq, all));
    FilterMembers(IsAmong(ModelScopes(principal.scopes)), Dedup(Sort(StringLeq, all)), alias);
  }

  /** The check on model scopes with which every request starts. */
  predicate MayAskFor(principal: Principal, model: string) {
    var scopes := ModelScopes(principal.scopes);
    scopes == [] || model in scopes
  }

  lemma {:induction false} ModelScopesAre(scopes: seq<string>, model: string)
    ensures model in ModelScopes(scopes) <==> MODEL_SCOPE + model in scopes
    ensures ModelScopes(scopes) == [] <==> forall scope :: scope in scopes ==> !IsModelScope(scope)
  {
    if scopes != [] {
      ModelScopesAre(scopes[1..], model);
      assert scopes == [scopes[0]] + scopes[1..];
      assert IsModelScope(scopes[0]) ==> scopes[0] == MODEL_SCOPE + scopes[0][|MODEL_SCOPE|..];
      assert (MODEL_SCOPE + model)[|MODEL_SCOPE|..] == model;
    }
  }

  lemma RoutedModelHasTarget(plan: RoutePlan, tenant: Option<string>, project: Option<string>, model: string)
    requires RouteFor(plan, tenant, project, model).Ok?
    ensures exists t :: t in Targets(plan) && t.enabled && t.requestedModel == model
  {
    var selected := MaxRank(Filter(Serves(model), Targets(plan)), tenant, project);
    var chosen := Filter(ServesAt(model, tenant, project, selected), Targets(plan));
    FilterMembers(ServesAt(model, tenant, project, selected), Targets(plan), chosen[0]);
    FilterMembers(IsEnabled(), plan.ordered, chosen[0]);
  }

  lemma PlannedAliases(plan: RoutePlan, principal: Principal, alias: string)
    ensures alias in AllAliases(Planned(plan), principal) <==>
            RouteFor(plan, Some(principal.tenantId), principal.projectId, alias).Ok?
  {
    var routed := Filter(IsRouted(plan, principal), Targets(plan));
    if alias in AllAliases(Planned(plan), principal) {
      var i :| 0 <= i < |routed| && routed[i].requestedModel == alias;
      FilterMembers(IsRouted(plan, principal), Targets(plan), routed[i]);
    }
    if RouteFor(plan, Some(principal.tenantId), principal.projectId, alias).Ok? {
      RoutedModelHasTarget(plan, Some(principal.tenantId), principal.projectId, alias);
      var t :| t in Targets(plan) && t.enabled && t.requestedModel == alias;
      FilterMembers(IsRouted(plan, principal), Targets(plan), t);
      var i :| 0 <= i < |routed| && routed[i] == t;
      assert Map(ModelOf(), routed)[i] == alias;
    }
  }

  /** Aliases are listed in order, each once; one is listed exactly when it is routed for the principal and the model
      scopes admit it, which is when the check with which a request starts lets it be asked for. */
  lemma ListedIffRoutedAndAdmitted(router: Router, principal: Principal, alias: string)
    ensures StrictlyAscending(ModelAliases(router, principal))
    ensures alias in ModelAliases(router, principal) <==>
            Routes(router, principal, alias).Ok? && ScopesAdmit(principal.scopes, alias)
    ensures ScopesAdmit(principal.scopes, alias) <==> MayAskFor(principal, alias)
  {
    AliasesAscend(router, principal);
    ListedMembers(router, principal, alias);
    ModelScopesAre(principal.scopes, alias);
    if router.Planned? {
      PlannedAliases(router.plan, principal, alias);
    }
  }

  /** The order of the list is the lexicographic one. */
  lemma {:induction false} LexicographicIff(a: string, b: string)
    ensures StringLeq(a, b) <==>
            a <= b || exists k :: 0 <= k < |a| && k < |b| && a[..k] == b[..k] && a[k] < b[k]
  {
    if a != "" && b != "" {
      assert a == [a[0]] + a[1..] && b == [b[0]] + b[1..];
      LexicographicIff(a[1..], b[1..]);
      if a[0] == b[0] {
        assert a <= b <==> a[1..] <= b[1..];
        forall k | 0 <= k < |a[1..]| && k < |b[1..]|
          ensures a[1..][..k] == b[1..][..k] <==> a[..k + 1] == b[..k + 1]
        {
          assert a[..k + 1] == [a[0]] + a[1..][..k] && b[..k + 1] == [b[0]] + b[1..][..k];
        }
        forall k | 0 <= k < |a| && k < |b| && a[..k] == b[..k] && a[k] < b[k]
          ensures a[1..][..k - 1] == b[1..][..k - 1] && a[1..][k - 1] < b[1..][k - 1]
        {
          assert k > 0;
        }
        if k :| 0 <= k < |a[1..]| && k < |b[1..]| && a[1..][..k] == b[1..][..k] && a[1..][k] < b[1..][k] {
          assert a[..k + 1] == b[..k + 1] && a[k + 1] < b[k + 1];
        }
      } else {
        assert a[..0] == b[..0];
        forall k | 0 < k < |a| && k < |b| ensures a[..k] != b[..k] {
          assert a[..k][0] != b[..k][0];
        }
      }
    } else if b == "" {
      assert a <= b <==> a == "";
    }
  }

  /** A configured model is listed iff some enabled target serves it for the principal, and the principal has either no
      model scope or this model's. */
  lemma ListedInFull(targets: seq<RouteTarget>, principal: Principal, alias: string)
    requires targets != []
    ensures alias in ModelAliases(Planned(NewPlan(targets).value), principal) <==>
            && (exists t, level ::
                  && t in targets && 0 <= level <= 2
                  && Offers(t, alias, Some(principal.tenantId), principal.projectId, level))
            && ((forall scope :: scope in principal.scopes ==> !("model:" <= scope)) ||
                "model:" + alias in principal.scopes)
  {
    hide RouteFor, IsLevel, ListsRoutes, Offers, ModelAliases;
    var tenant, project := Some(principal.tenantId), principal.projectId;
    ListedIffRoutedAndAdmitted(Planned(NewPlan(targets).value), principal, alias);
    RoutesInFull(targets, tenant, project, alias);
    SomeLevelIff(targets, tenant, project, alias);
  }

  lemma SomeLevelIff(targets: seq<RouteTarget>, tenant: Option<string>, project: Option<string>, model: string)
    ensures (exists level :: IsLevel(targets, model, tenant, project, level)) <==>
            exists t, level :: t in targets && 0 <= level <= 2 && Offers(t, model, tenant, project, level)
  {
    hide Offers;
    if t, level :| t in targets && 0 <= level <= 2 && Offers(t, model, tenant, project, level) {
      var best :=
        if exists u :: u in targets && Offers(u, model, tenant, project, 2) then 2
        else if exists u :: u in targets && Offers(u, model, tenant, project, 1) then 1 else 0;
      assert IsLevel(targets, model, tenant, project, best);
    }
  }

  // ---------------------------------------------------------------- every routed provider is registered

  datatype StartupError = NoEnabledRoute | UnavailableProvider | BadPlan

  /** The checks made before a gateway with these targets is started. */
  function Configure(targets: seq<RouteTarget>, registered: set<string>): Result<RoutePlan, StartupError> {
    var enabled := Filter(IsEnabled(), targets);
    if enabled == [] then Err(NoEnabledRoute)
    else if exists t :: t in enabled && t.provider !in registered then Err(UnavailableProvider)
    else
      match NewPlan(targets)
      case Ok(plan) => Ok(plan)
      case Err(_) => Err(BadPlan)
  }

  /** A gateway does not start without an enabled target, nor with one whose provider is not registered. */
  lemma ConfiguredIff(targets: seq<RouteTarget>, registered: set<string>)
    ensures match Configure(targets, registered)
            case Ok(plan) =>
              && (exists t :: t in targets && t.enabled)
              && (forall t :: t in targets && t.enabled ==> t.provider in registered)
            case Err(error) =>
              if exists t :: t in targets && t.enabled then
                error == UnavailableProvider && exists t :: t in targets && t.enabled && t.provider !in registered
              else error == NoEnabledRoute
  {
    var enabled := Filter(IsEnabled(), targets);
    forall t ensures t in enabled <==> t in targets && t.enabled {
      FilterMembers(IsEnabled(), targets, t);
    }
    if enabled != [] {
      assert enabled[0] in enabled;
    }
  }

  /** A gateway that started routes only to registered providers, and to at least one. */
  lemma RoutedProvidersAreRegistered(targets: seq<RouteTarget>, registered: set<string>, tenant: Option<string>,
                                     project: Option<string>, model: string)
    requires Configure(targets, registered).Ok?
    requires RouteFor(Configure(targets, registered).value, tenant, project, model).Ok?
    ensures var routes := RouteFor(Configure(targets, registered).value, tenant, project, model).value;
            routes != [] && forall route :: route in routes ==> route.provider in registered
  {
    var plan := Configure(targets, registered).value;
    var selected := MaxRank(Filter(Serves(model), Targets(plan)), tenant, project);
    var chosen := Filter(ServesAt(model, tenant, project, selected), Targets(plan));
    forall t | t in chosen ensures t.provider in registered {
      FilterMembers(ServesAt(model, tenant, project, selected), Targets(plan), t);
      FilterMembers(IsEnabled(), plan.ordered, t);
      PriorityIsTotal();
      SortIsCorrect(ByPriority(), targets);
      assert t in multiset(plan.ordered);
      FilterMembers(IsEnabled(), targets, t);
    }
  }

  /** Hence a call of a started gateway leaves no reservation of its request behind, whatever its last attempt met. */
  lemma StartedGatewayNeverLeaks(targets: seq<RouteTarget>, service: Gateways.GatewayService, principal: Principal,
                                 model: string, l: Ledgers.Ledger, held: map<Uuid, string>,
                                 request: Gateways.Request, route: ModelRoute, attempt: Gateways.Attempt)
    requires Configure(targets, service.providers).Ok?
    requires Routes(Planned(Configure(targets, service.providers).value), principal, model).Ok?
    requires route in Routes(Planned(Configure(targets, service.providers).value), principal, model).value
    requires attempt.reservationId !in l.reservations
    ensures service.LedgerAfter(l, request, route, attempt).reservations == l.reservations
    ensures service.HeldAfter(held, l, request, route, attempt) == held
  {
    RoutedProvidersAreRegistered(targets, service.providers, Some(principal.tenantId), principal.projectId, model);
    Gateways.NothingLeaksIff(service, l, held, request, route, attempt);
  }
}
