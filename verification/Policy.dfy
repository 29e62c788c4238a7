/** Hierarchical inference policies: a chain of policies folded into one. */
module Policies {
  import opened Types
  import opened Allowlists
  import opened Strictness
  import opened Arrangements
  import opened Groupings
  import Orderings

  datatype Policy = Policy(
    allowedModels: seq<string>,
    deniedModels: seq<string>,
    allowedOperations: seq<string>,
    maxOutputTokens: Option<nat>,
    concurrentRequests: Option<nat>,
    dailyTokenLimit: Option<nat>,
    monthlyTokenLimit: Option<nat>)
  {
    predicate AllowsModel(model: string) {
      model !in deniedModels && Lists(allowedModels, model)
    }

    predicate AllowsOperation(operation: string) {
      Lists(allowedOperations, operation)
    }

    predicate Authorizes(model: string, operation: string, outputTokens: nat) {
      && AllowsModel(model)
      && AllowsOperation(operation)
      && (maxOutputTokens.Some? ==> outputTokens <= maxOutputTokens.value)
    }

    function RestrictWith(child: Policy): Policy {
      Policy(
        Intersect(allowedModels, child.allowedModels),
        deniedModels + child.deniedModels,
        Intersect(allowedOperations, child.allowedOperations),
        MinOpt(maxOutputTokens, child.maxOutputTokens),
        MinOpt(concurrentRequests, child.concurrentRequests),
        MinOpt(dailyTokenLimit, child.dailyTokenLimit),
        MinOpt(monthlyTokenLimit, child.monthlyTokenLimit))
    }
  }

  const UNRESTRICTED: Policy := Policy([], [], [], None, None, None, None)

  /** An allowlist admits what it names; an empty one admits everything. */
  predicate Lists(allowed: seq<string>, item: string) {
    allowed == [] || item in allowed
  }

  function Keep(left: seq<string>, right: seq<string>): (r: seq<string>)
    ensures forall x :: x in r <==> x in left && x in right
  {
    if left == [] then []
    else if left[0] in right then [left[0]] + Keep(left[1..], right)
    else Keep(left[1..], right)
  }

  function Intersect(left: seq<string>, right: seq<string>): seq<string> {
    if left == [] then right else if right == [] then left else Keep(left, right)
  }

  /** The left fold of a chain, starting from no restriction. */
  function Resolve(chain: seq<Policy>): Policy {
    if chain == [] then UNRESTRICTED
    else Resolve(chain[..|chain| - 1]).RestrictWith(chain[|chain| - 1])
  }

  function Present(p: Option<Policy>): seq<Policy> {
    match p case Some(policy) => [policy] case None => []
  }

  function ResolveHierarchy(global: Policy, tenant: Policy, project: Option<Policy>, principal: Option<Policy>,
                            key: Option<Policy>): Policy {
    Resolve([global, tenant] + Present(project) + Present(principal) + Present(key))
  }

  // ---------------------------------------------------------------- allowlists

  function SetOf(list: seq<string>): set<string> {
    set x | x in list
  }

  lemma IntersectIsMeet(left: seq<string>, right: seq<string>)
    ensures SetOf(Intersect(left, right)) == Meet(SetOf(left), SetOf(right))
    ensures SetOf(left) == {} <==> left == []
  {
    assert left != [] ==> left[0] in SetOf(left);
    assert right != [] ==> right[0] in SetOf(right);
  }

  function Models(): Policy -> set<string> {
    (p: Policy) => SetOf(p.allowedModels)
  }

  function Operations(): Policy -> set<string> {
    (p: Policy) => SetOf(p.allowedOperations)
  }

  function DeniedModels(): Policy -> set<string> {
    (p: Policy) => SetOf(p.deniedModels)
  }

  /** The result's allowlists are the folds of the chain's. */
  lemma {:induction false} ResolvedLists(chain: seq<Policy>)
    ensures SetOf(Resolve(chain).allowedModels) == MeetAll(ListsOf(chain, Models()))
    ensures SetOf(Resolve(chain).allowedOperations) == MeetAll(ListsOf(chain, Operations()))
  {
    if chain != [] {
      var front, last := chain[..|chain| - 1], chain[|chain| - 1];
      ResolvedLists(front);
      IntersectIsMeet(Resolve(front).allowedModels, last.allowedModels);
      IntersectIsMeet(Resolve(front).allowedOperations, last.allowedOperations);
      ListsOfFront(chain, Models());
      ListsOfFront(chain, Operations());
    }
  }

  /** Its denials are everybody's. */
  lemma {:induction false} ResolvedDenials(chain: seq<Policy>, model: string)
    ensures model in Resolve(chain).deniedModels <==> exists p :: p in chain && model in p.deniedModels
  {
    if chain != [] {
      ResolvedDenials(chain[..|chain| - 1], model);
      assert chain == chain[..|chain| - 1] + [chain[|chain| - 1]];
    }
  }

  lemma ListsAsSet(list: seq<string>, item: string)
    ensures Lists(list, item) <==> Admits(SetOf(list), item)
  {
    IntersectIsMeet(list, []);
  }

  lemma AdmittedModel(chain: seq<Policy>, model: string)
    ensures AllAdmit(ListsOf(chain, Models()), model) <==> forall p :: p in chain ==> Lists(p.allowedModels, model)
  {
    AdmittedByMembers(chain, Models(), model);
    forall p: Policy ensures Lists(p.allowedModels, model) <==> Admits(Models()(p), model) {
      ListsAsSet(p.allowedModels, model);
    }
  }

  lemma AdmittedOperation(chain: seq<Policy>, operation: string)
    ensures AllAdmit(ListsOf(chain, Operations()), operation) <==>
            forall p :: p in chain ==> Lists(p.allowedOperations, operation)
  {
    AdmittedByMembers(chain, Operations(), operation);
    forall p: Policy ensures Lists(p.allowedOperations, operation) <==> Admits(Operations()(p), operation) {
      ListsAsSet(p.allowedOperations, operation);
    }
  }

  // ---------------------------------------------------------------- limits

  datatype LimitKind = OutputTokens | Concurrency | DailyTokens | MonthlyTokens

  function LimitOf(kind: LimitKind): Policy -> Option<nat> {
    match kind
    case OutputTokens => (p: Policy) => p.maxOutputTokens
    case Concurrency => (p: Policy) => p.concurrentRequests
    case DailyTokens => (p: Policy) => p.dailyTokenLimit
    case MonthlyTokens => (p: Policy) => p.monthlyTokenLimit
  }

  /** Every numeric limit of the result is the minimum of those set in the chain. */
  lemma {:induction false} ResolvedLimitIsMinimum(chain: seq<Policy>, kind: LimitKind)
    ensures IsStrictest(LimitOf(kind)(Resolve(chain)), chain, LimitOf(kind), Smaller())
  {
    if chain != [] {
      var front, last := chain[..|chain| - 1], chain[|chain| - 1];
      ResolvedLimitIsMinimum(front, kind);
      StrictestOfMore(LimitOf(kind)(Resolve(front)), front, last, LimitOf(kind), Smaller());
      assert chain == front + [last];
    }
  }

  // ---------------------------------------------------------------- authorization

  /** The non-empty allowlists of models share a model, and those of operations share an operation. */
  ghost predicate Consistent(chain: seq<Policy>) {
    ShareElement(ListsOf(chain, Models())) && ShareElement(ListsOf(chain, Operations()))
  }

  lemma TokensAdmitted(chain: seq<Policy>, tokens: nat)
    ensures var limit := Resolve(chain).maxOutputTokens;
            (limit.Some? ==> tokens <= limit.value) <==>
            forall p :: p in chain && p.maxOutputTokens.Some? ==> tokens <= p.maxOutputTokens.value
  {
    ResolvedLimitIsMinimum(chain, OutputTokens);
    assert forall p: Policy :: LimitOf(OutputTokens)(p) == p.maxOutputTokens;
  }

  /** Whatever every policy of a chain permits, the resolved policy permits; and it permits nothing else when the
      allowlists of the chain are consistent. */
  lemma AuthorizesIffAllDo(chain: seq<Policy>, model: string, operation: string, tokens: nat)
    ensures (forall p :: p in chain ==> p.Authorizes(model, operation, tokens)) ==>
            Resolve(chain).Authorizes(model, operation, tokens)
    ensures Consistent(chain) ==>
            (Resolve(chain).Authorizes(model, operation, tokens) <==>
             forall p :: p in chain ==> p.Authorizes(model, operation, tokens))
  {
    var models, operations := ListsOf(chain, Models()), ListsOf(chain, Operations());
    ResolvedLists(chain);
    ResolvedDenials(chain, model);
    ListsAsSet(Resolve(chain).allowedModels, model);
    ListsAsSet(Resolve(chain).allowedOperations, operation);
    AdmittedModel(chain, model);
    AdmittedOperation(chain, operation);
    TokensAdmitted(chain, tokens);
    if AllAdmit(models, model) { FoldLosesNothing(models, model); }
    if AllAdmit(operations, operation) { FoldLosesNothing(operations, operation); }
    FoldIsExactIff(models);
    FoldIsExactIff(operations);
  }

  ghost predicate AllAuthorize(chain: seq<Policy>, model: string, operation: string, tokens: nat) {
    forall p :: p in chain ==> p.Authorizes(model, operation, tokens)
  }

  /** The resolved policy authorizes exactly what all policies of the chain do. */
  ghost predicate IsExact(chain: seq<Policy>) {
    forall model, operation, tokens ::
      Resolve(chain).Authorizes(model, operation, tokens) <==> AllAuthorize(chain, model, operation, tokens)
  }

  /** The fold of the allowlists of models is non-empty, and somebody denies each model in it. */
  ghost predicate IsShut(chain: seq<Policy>) {
    var models := MeetAll(ListsOf(chain, Models()));
    models != {} && models <= AllDenied(chain, DeniedModels())
  }

  lemma AllowedByFold(chain: seq<Policy>, model: string)
    ensures Resolve(chain).AllowsModel(model) <==>
            model !in AllDenied(chain, DeniedModels()) && Admits(MeetAll(ListsOf(chain, Models())), model)
  {
    ResolvedLists(chain);
    ResolvedDenials(chain, model);
    ListsAsSet(Resolve(chain).allowedModels, model);
    assert forall p :: p in chain ==> (model in DeniedModels()(p) <==> model in p.deniedModels);
  }

  lemma ShutIff(chain: seq<Policy>)
    ensures IsShut(chain) <==> forall model :: !Resolve(chain).AllowsModel(model)
  {
    hide AllDenied, MeetAll, Resolve, Admits;
    var models, denied := MeetAll(ListsOf(chain, Models())), AllDenied(chain, DeniedModels());
    NothingAdmittedIff(models, denied);
    if model :| Resolve(chain).AllowsModel(model) {
      AllowedByFold(chain, model);
    } else {
      forall item ensures item in denied || !Admits(models, item) {
        AllowedByFold(chain, item);
      }
    }
  }

  lemma SomeOperation(p: Policy) returns (operation: string)
    ensures p.AllowsOperation(operation)
  {
    operation := if p.allowedOperations == [] then "" else p.allowedOperations[0];
  }

  /** Resolving a chain is exact iff its allowlists are consistent or it is shut. */
  lemma ExactIff(chain: seq<Policy>)
    ensures IsExact(chain) <==> Consistent(chain) || IsShut(chain)
  {
    ShutIff(chain);
    forall model, operation, tokens
      ensures AllAuthorize(chain, model, operation, tokens) ==> Resolve(chain).Authorizes(model, operation, tokens)
      ensures Consistent(chain) ==> (Resolve(chain).Authorizes(model, operation, tokens) <==>
                                     AllAuthorize(chain, model, operation, tokens))
    {
      AuthorizesIffAllDo(chain, model, operation, tokens);
    }
    if IsShut(chain) {
      forall model, operation, tokens ensures !Resolve(chain).Authorizes(model, operation, tokens) {}
    }
    if IsExact(chain) && !IsShut(chain) {
      var model :| Resolve(chain).AllowsModel(model);
      var operation := SomeOperation(Resolve(chain));
      assert Resolve(chain).Authorizes(model, operation, 0);
      AgreedMeansConsistent(chain, model, operation, 0);
    }
  }

  lemma AgreedMeansConsistent(chain: seq<Policy>, model: string, operation: string, tokens: nat)
    requires AllAuthorize(chain, model, operation, tokens)
    ensures Consistent(chain)
  {
    AdmittedModel(chain, model);
    AdmittedOperation(chain, operation);
  }

  /** The policy in effect for a request is exact in the same sense: it authorizes just what every level that is
      configured does, iff the levels' allowlists are consistent or they are shut. */
  lemma HierarchyAuthorizesIff(global: Policy, tenant: Policy, project: Option<Policy>, principal: Option<Policy>,
                               key: Option<Policy>)
    ensures var effective := ResolveHierarchy(global, tenant, project, principal, key);
            (forall model, operation, tokens ::
               effective.Authorizes(model, operation, tokens) <==>
               && global.Authorizes(model, operation, tokens) && tenant.Authorizes(model, operation, tokens)
               && (project.Some? ==> project.value.Authorizes(model, operation, tokens))
               && (principal.Some? ==> principal.value.Authorizes(model, operation, tokens))
               && (key.Some? ==> key.value.Authorizes(model, operation, tokens))) <==>
            || Consistent([global, tenant] + Present(project) + Present(principal) + Present(key))
            || IsShut([global, tenant] + Present(project) + Present(principal) + Present(key))
  {
    hide Resolve, Consistent, IsShut, Policy.Authorizes;
    var chain := [global, tenant] + Present(project) + Present(principal) + Present(key);
    ExactIff(chain);
    forall model, operation, tokens
      ensures AllAuthorize(chain, model, operation, tokens) <==>
              && global.Authorizes(model, operation, tokens) && tenant.Authorizes(model, operation, tokens)
              && (project.Some? ==> project.value.Authorizes(model, operation, tokens))
              && (principal.Some? ==> principal.value.Authorizes(model, operation, tokens))
              && (key.Some? ==> key.value.Authorizes(model, operation, tokens))
    {
      AllLevels(global, tenant, project, principal, key, (p: Policy) => p.Authorizes(model, operation, tokens));
    }
  }

  // ---------------------------------------------------------------- authorization, field by field

  /** The policy denies the model or sets a lower limit on the tokens. */
  predicate Forbids(p: Policy, model: string, tokens: nat) {
    model in p.deniedModels || (p.maxOutputTokens.Some? && p.maxOutputTokens.value < tokens)
  }

  /** The model and the operation are on its allowlists, as far as these are not empty. */
  predicate ListsBoth(p: Policy, model: string, operation: string) {
    && (p.allowedModels != [] ==> model in p.allowedModels)
    && (p.allowedOperations != [] ==> operation in p.allowedOperations)
  }

  ghost predicate NobodyForbids(chain: seq<Policy>, model: string, tokens: nat) {
    forall p :: p in chain ==> !Forbids(p, model, tokens)
  }

  ghost predicate EverybodyLists(chain: seq<Policy>, model: string, operation: string) {
    forall p :: p in chain ==> ListsBoth(p, model, operation)
  }

  lemma ConsistentIff(chain: seq<Policy>)
    ensures Consistent(chain) <==> exists model, operation :: EverybodyLists(chain, model, operation)
  {
    var models, operations := ListsOf(chain, Models()), ListsOf(chain, Operations());
    forall model, operation
      ensures EverybodyLists(chain, model, operation) <==> AllAdmit(models, model) && AllAdmit(operations, operation)
    {
      AdmittedModel(chain, model);
      AdmittedOperation(chain, operation);
    }
    hide AllAdmit, EverybodyLists;
    if Consistent(chain) {
      var model :| AllAdmit(models, model);
      var operation :| AllAdmit(operations, operation);
      assert EverybodyLists(chain, model, operation);
    }
  }

  /** What the resolved policy authorizes nobody in the chain forbids; what everybody lists and nobody forbids it
      authorizes; and if something is on every list that is not empty, that is all it authorizes. */
  lemma AuthorizedInFull(chain: seq<Policy>, model: string, operation: string, tokens: nat)
    ensures Resolve(chain).Authorizes(model, operation, tokens) ==> NobodyForbids(chain, model, tokens)
    ensures NobodyForbids(chain, model, tokens) && EverybodyLists(chain, model, operation) ==>
            Resolve(chain).Authorizes(model, operation, tokens)
    ensures (exists m, o :: EverybodyLists(chain, m, o)) ==>
            (Resolve(chain).Authorizes(model, operation, tokens) <==>
             NobodyForbids(chain, model, tokens) && EverybodyLists(chain, model, operation))
  {
    AuthorizesIffAllDo(chain, model, operation, tokens);
    forall p: Policy
      ensures p.Authorizes(model, operation, tokens) <==>
              !Forbids(p, model, tokens) && ListsBoth(p, model, operation)
    {}
    ConsistentIff(chain);
    ResolvedDenials(chain, model);
    TokensAdmitted(chain, tokens);
  }

  ghost predicate AllLevelsList(global: Policy, tenant: Policy, project: Option<Policy>, principal: Option<Policy>,
                                key: Option<Policy>, model: string, operation: string) {
    && ListsBoth(global, model, operation) && ListsBoth(tenant, model, operation)
    && (project.Some? ==> ListsBoth(project.value, model, operation))
    && (principal.Some? ==> ListsBoth(principal.value, model, operation))
    && (key.Some? ==> ListsBoth(key.value, model, operation))
  }

  /** The same of the policy in effect for a request, level by level. */
  lemma HierarchyInFull(global: Policy, tenant: Policy, project: Option<Policy>, principal: Option<Policy>,
                        key: Option<Policy>, model: string, operation: string, tokens: nat)
    ensures var effective := ResolveHierarchy(global, tenant, project, principal, key);
            var allowed := effective.Authorizes(model, operation, tokens);
            var forbidden := || Forbids(global, model, tokens) || Forbids(tenant, model, tokens)
                             || (project.Some? && Forbids(project.value, model, tokens))
                             || (principal.Some? && Forbids(principal.value, model, tokens))
                             || (key.Some? && Forbids(key.value, model, tokens));
            var listed := AllLevelsList(global, tenant, project, principal, key, model, operation);
            && (allowed ==> !forbidden)
            && (!forbidden && listed ==> allowed)
            && ((exists m, o :: AllLevelsList(global, tenant, project, principal, key, m, o)) ==>
                (allowed <==> !forbidden && listed))
  {
    var chain := [global, tenant] + Present(project) + Present(principal) + Present(key);
    hide Resolve, Policy.Authorizes;
    AuthorizedInFull(chain, model, operation, tokens);
    AllLevels(global, tenant, project, principal, key, (p: Policy) => !Forbids(p, model, tokens));
    forall m, o
      ensures EverybodyLists(chain, m, o) <==> AllLevelsList(global, tenant, project, principal, key, m, o)
    {
      AllLevels(global, tenant, project, principal, key, (p: Policy) => ListsBoth(p, m, o));
    }
  }

  lemma AllLevels(global: Policy, tenant: Policy, project: Option<Policy>, principal: Option<Policy>,
                  key: Option<Policy>, good: Policy -> bool)
    ensures (forall p :: p in [global, tenant] + Present(project) + Present(principal) + Present(key) ==> good(p)) <==>
            && good(global) && good(tenant)
            && (project.Some? ==> good(project.value))
            && (principal.Some? ==> good(principal.value))
            && (key.Some? ==> good(key.value))
  {
    forall p
      ensures p in [global, tenant] + Present(project) + Present(principal) + Present(key) <==>
              p == global || p == tenant || project == Some(p) || principal == Some(p) || key == Some(p)
    {}
  }

  lemma SameLimits(a: seq<Policy>, b: seq<Policy>, kind: LimitKind)
    requires SameMembers(a, b)
    ensures LimitOf(kind)(Resolve(a)) == LimitOf(kind)(Resolve(b))
  {
    ResolvedLimitIsMinimum(a, kind);
    ResolvedLimitIsMinimum(b, kind);
    WeightsAreInjective();
    StrictestIsUnique(LimitOf(kind)(Resolve(a)), LimitOf(kind)(Resolve(b)), a, b, LimitOf(kind), Smaller());
  }

  // ---------------------------------------------------------------- rearranged and repeated policies

  function DeniedNothing(): Policy -> set<string> {
    (p: Policy) => {}
  }

  lemma PassesModel(chain: seq<Policy>, model: string)
    ensures Passes(chain, Models(), DeniedModels(), model) <==> Resolve(chain).AllowsModel(model)
  {
    ResolvedLists(chain);
    ResolvedDenials(chain, model);
    ListsAsSet(Resolve(chain).allowedModels, model);
  }

  lemma PassesOperation(chain: seq<Policy>, operation: string)
    ensures Passes(chain, Operations(), DeniedNothing(), operation) <==> Resolve(chain).AllowsOperation(operation)
  {
    ResolvedLists(chain);
    ListsAsSet(Resolve(chain).allowedOperations, operation);
  }

  ghost predicate Agree(p: Policy, q: Policy) {
    forall model, operation, tokens ::
      p.Authorizes(model, operation, tokens) <==> q.Authorizes(model, operation, tokens)
  }

  /** However the chain's policies are rearranged and repeated, the same is authorized. */
  ghost predicate IsArrangementFree(chain: seq<Policy>) {
    forall other :: SameMembers(chain, other) ==> Agree(Resolve(chain), Resolve(other))
  }

  /** The policies do not share a model, or the models they share are not all denied. */
  ghost predicate AllowsSomeModel(chain: seq<Policy>) {
    !ShareElement(ListsOf(chain, Models())) || !IsShut(chain)
  }

  lemma ModelOrderMatters(chain: seq<Policy>)
    requires !ShareElement(ListsOf(chain, Models()))
    ensures !IsArrangementFree(chain)
  {
    var wide, narrow, model := Disagreement(chain, Models(), DeniedModels());
    PassesModel(wide, model);
    PassesModel(narrow, model);
    var operation := SomeOperation(Resolve(wide));
    assert Resolve(wide).Authorizes(model, operation, 0) && !Resolve(narrow).Authorizes(model, operation, 0);
    assert !(Agree(Resolve(chain), Resolve(wide)) && Agree(Resolve(chain), Resolve(narrow)));
  }

  lemma OperationOrderMatters(chain: seq<Policy>, model: string)
    requires ShareElement(ListsOf(chain, Models())) && Resolve(chain).AllowsModel(model)
    requires !ShareElement(ListsOf(chain, Operations()))
    ensures !IsArrangementFree(chain)
  {
    var wide, narrow, operation := Disagreement(chain, Operations(), DeniedNothing());
    PassesOperation(wide, operation);
    PassesOperation(narrow, operation);
    ArrangementFreeIff(chain, Models(), DeniedModels());
    PassesModel(chain, model);
    PassesModel(wide, model);
    assert Resolve(wide).Authorizes(model, operation, 0) && !Resolve(narrow).Authorizes(model, operation, 0);
    assert !(Agree(Resolve(chain), Resolve(wide)) && Agree(Resolve(chain), Resolve(narrow)));
  }

  lemma SameConsistency(a: seq<Policy>, b: seq<Policy>)
    requires SameMembers(a, b)
    ensures Consistent(a) <==> Consistent(b)
    ensures ShareElement(ListsOf(a, Models())) <==> ShareElement(ListsOf(b, Models()))
  {
    if ShareElement(ListsOf(a, Models())) { SharedBySameMembers(a, b, Models()); }
    if ShareElement(ListsOf(b, Models())) { SharedBySameMembers(b, a, Models()); }
    if ShareElement(ListsOf(a, Operations())) { SharedBySameMembers(a, b, Operations()); }
    if ShareElement(ListsOf(b, Operations())) { SharedBySameMembers(b, a, Operations()); }
  }

  lemma ModelsOrderFree(a: seq<Policy>, b: seq<Policy>, model: string)
    requires SameMembers(a, b) && ShareElement(ListsOf(a, Models()))
    ensures Resolve(a).AllowsModel(model) <==> Resolve(b).AllowsModel(model)
  {
    ArrangementFreeIff(a, Models(), DeniedModels());
    PassesModel(a, model);
    PassesModel(b, model);
  }

  /** However the policies of a chain are rearranged and repeated, the same is authorized iff the allowlists are
      consistent, or they share models but all of those are denied. */
  lemma ArrangementDoesNotMatterIff(chain: seq<Policy>)
    ensures IsArrangementFree(chain) <==> Consistent(chain) || !AllowsSomeModel(chain)
  {
    ShutIff(chain);
    if !ShareElement(ListsOf(chain, Models())) {
      ModelOrderMatters(chain);
    } else if !IsShut(chain) {
      var model :| Resolve(chain).AllowsModel(model);
      if Consistent(chain) {
        forall other | SameMembers(chain, other) ensures Agree(Resolve(chain), Resolve(other)) {
          ConsistentAgree(chain, other);
        }
      } else {
        OperationOrderMatters(chain, model);
      }
    } else {
      forall other | SameMembers(chain, other) ensures Agree(Resolve(chain), Resolve(other)) {
        forall model ensures !Resolve(other).AllowsModel(model) {
          ModelsOrderFree(chain, other, model);
        }
      }
    }
  }

  lemma ConsistentAgree(a: seq<Policy>, b: seq<Policy>)
    requires SameMembers(a, b) && Consistent(a)
    ensures Agree(Resolve(a), Resolve(b))
  {
    SameConsistency(a, b);
    forall model, operation, tokens
      ensures Resolve(a).Authorizes(model, operation, tokens) <==> Resolve(b).Authorizes(model, operation, tokens)
    {
      AuthorizesIffAllDo(a, model, operation, tokens);
      AuthorizesIffAllDo(b, model, operation, tokens);
    }
  }

  /** The limits of the result never depend on order or repetition. */
  lemma OrderDoesNotMatter(a: seq<Policy>, b: seq<Policy>, kind: LimitKind)
    requires SameMembers(a, b)
    ensures LimitOf(kind)(Resolve(a)) == LimitOf(kind)(Resolve(b))
  {
    SameLimits(a, b, kind);
  }

  function Allowing(models: seq<string>): Policy {
    UNRESTRICTED.(allowedModels := models)
  }

  /** For example, the same three allowlists admit a model in one order and not in another. */
  lemma OrderMayMatter(a: string, b: string, c: string)
    requires a != b && b != c && a != c
    ensures Resolve([Allowing([a]), Allowing([b]), Allowing([c])]).AllowsModel(c)
    ensures !Resolve([Allowing([a]), Allowing([c]), Allowing([b])]).AllowsModel(c)
  {
    ThirdRemains(a, b, c);
    ThirdRemains(a, c, b);
  }

  lemma ThirdRemains(a: string, b: string, c: string)
    requires a != b
    ensures Resolve([Allowing([a]), Allowing([b]), Allowing([c])]).allowedModels == [c]
    ensures Resolve([Allowing([a]), Allowing([b]), Allowing([c])]).deniedModels == []
  {
    var three := [Allowing([a]), Allowing([b]), Allowing([c])];
    assert three[..2] == [Allowing([a]), Allowing([b])];
    assert three[..2][..1] == [Allowing([a])];
    assert three[..2][..1][..0] == [];
    assert Resolve(three[..2][..1]).allowedModels == [a];
    assert [a][1..] == [] && Keep([a], [b]) == [];
    assert Resolve(three[..2]).allowedModels == [];
  }

  lemma ConsistentParts(a: seq<Policy>, b: seq<Policy>)
    requires Consistent(a + b)
    ensures Consistent(a) && Consistent(b) && Consistent([Resolve(a), Resolve(b)])
  {
    ListsOfParts(a, b, Models());
    ListsOfParts(a, b, Operations());
    ResolvedLists(a);
    ResolvedLists(b);
    SharedByParts(ListsOf(a, Models()), ListsOf(b, Models()));
    SharedByParts(ListsOf(a, Operations()), ListsOf(b, Operations()));
    var pair := [Resolve(a), Resolve(b)];
    assert ListsOf(pair, Models()) == [MeetAll(ListsOf(a, Models())), MeetAll(ListsOf(b, Models()))];
    assert ListsOf(pair, Operations()) == [MeetAll(ListsOf(a, Operations())), MeetAll(ListsOf(b, Operations()))];
  }

  /** Resolving the parts of a chain first makes no difference to a consistent chain. */
  lemma GroupingDoesNotMatter(a: seq<Policy>, b: seq<Policy>)
    requires Consistent(a + b)
    ensures Agree(Resolve([Resolve(a), Resolve(b)]), Resolve(a + b))
  {
    ConsistentParts(a, b);
    assert forall p :: p in a + b <==> p in a || p in b;
    assert forall p :: p in [Resolve(a), Resolve(b)] <==> p == Resolve(a) || p == Resolve(b);
    forall model, operation, tokens
      ensures Resolve([Resolve(a), Resolve(b)]).Authorizes(model, operation, tokens) <==>
              Resolve(a + b).Authorizes(model, operation, tokens)
    {
      AuthorizesIffAllDo(a, model, operation, tokens);
      AuthorizesIffAllDo(b, model, operation, tokens);
      AuthorizesIffAllDo(a + b, model, operation, tokens);
      AuthorizesIffAllDo([Resolve(a), Resolve(b)], model, operation, tokens);
    }
  }

  /** However the chain's policies are rearranged, repeated and resolved in two parts, the same is authorized. */
  ghost predicate IsFreeInParts(chain: seq<Policy>) {
    forall a, b :: SameMembers(chain, a + b) ==> Agree(Resolve([Resolve(a), Resolve(b)]), Resolve(chain))
  }

  lemma OnePart(a: seq<Policy>)
    ensures Agree(Resolve([Resolve(a), Resolve([])]), Resolve(a))
  {
    var pair := [Resolve(a), Resolve([])];
    assert pair[..1] == [Resolve(a)] && pair[..1][..0] == [];
    assert Resolve(pair[..1]) == UNRESTRICTED.RestrictWith(Resolve(a));
    assert [] + Resolve(a).deniedModels == Resolve(a).deniedModels;
    assert Resolve(pair) == Resolve(pair[..1]).RestrictWith(UNRESTRICTED);
    assert Resolve(a).deniedModels + [] == Resolve(a).deniedModels;
  }

  lemma GroupedModels(a: seq<Policy>, b: seq<Policy>, model: string)
    requires ShareElement(ListsOf(a + b, Models()))
    ensures Resolve([Resolve(a), Resolve(b)]).AllowsModel(model) <==> Resolve(a + b).AllowsModel(model)
  {
    hide Resolve, ShareElement, ListsOf;
    var pair := [Resolve(a), Resolve(b)];
    SharedModels(a, b);
    PassesModel(a, model);
    PassesModel(b, model);
    PassesModel(a + b, model);
    PassesModel(pair, model);
    PassesIffAllDo(a, Models(), DeniedModels(), model);
    PassesIffAllDo(b, Models(), DeniedModels(), model);
    PassesIffAllDo(a + b, Models(), DeniedModels(), model);
    PassesIffAllDo(pair, Models(), DeniedModels(), model);
    forall p: Policy
      ensures model !in DeniedModels()(p) && Admits(Models()(p), model) <==> p.AllowsModel(model)
    {
      ListsAsSet(p.allowedModels, model);
    }
    assert forall p :: p in a + b <==> p in a || p in b;
    assert forall p :: p in pair <==> p == Resolve(a) || p == Resolve(b);
  }

  lemma SharedModels(a: seq<Policy>, b: seq<Policy>)
    requires ShareElement(ListsOf(a + b, Models()))
    ensures ShareElement(ListsOf(a, Models())) && ShareElement(ListsOf(b, Models()))
    ensures ShareElement(ListsOf([Resolve(a), Resolve(b)], Models()))
  {
    ListsOfParts(a, b, Models());
    ResolvedLists(a);
    ResolvedLists(b);
    SharedByParts(ListsOf(a, Models()), ListsOf(b, Models()));
    assert ListsOf([Resolve(a), Resolve(b)], Models()) ==
           [MeetAll(ListsOf(a, Models())), MeetAll(ListsOf(b, Models()))];
  }

  lemma FreeInPartsMeansArrangementFree(chain: seq<Policy>)
    requires IsFreeInParts(chain)
    ensures IsArrangementFree(chain)
  {
    hide Resolve;
    forall other | SameMembers(chain, other) ensures Agree(Resolve(chain), Resolve(other)) {
      assert other + [] == other;
      OnePart(other);
      assert Agree(Resolve([Resolve(other), Resolve([])]), Resolve(chain));
    }
  }

  lemma GroupedAgree(chain: seq<Policy>, a: seq<Policy>, b: seq<Policy>)
    requires SameMembers(chain, a + b) && (Consistent(chain) || !AllowsSomeModel(chain))
    ensures Agree(Resolve([Resolve(a), Resolve(b)]), Resolve(chain))
  {
    SameConsistency(chain, a + b);
    if Consistent(chain) {
      GroupingDoesNotMatter(a, b);
      ConsistentAgree(chain, a + b);
    } else {
      ShutIff(chain);
      forall model
        ensures !Resolve(chain).AllowsModel(model) && !Resolve([Resolve(a), Resolve(b)]).AllowsModel(model)
      {
        ModelsOrderFree(chain, a + b, model);
        GroupedModels(a, b, model);
      }
    }
  }

  /** That they are resolved in two parts adds nothing. */
  lemma PartsDoNotMatterIff(chain: seq<Policy>)
    ensures IsFreeInParts(chain) <==> Consistent(chain) || !AllowsSomeModel(chain)
  {
    if IsFreeInParts(chain) {
      FreeInPartsMeansArrangementFree(chain);
      ArrangementDoesNotMatterIff(chain);
    }
    if Consistent(chain) || !AllowsSomeModel(chain) {
      forall a, b | SameMembers(chain, a + b)
        ensures Agree(Resolve([Resolve(a), Resolve(b)]), Resolve(chain))
      {
        GroupedAgree(chain, a, b);
      }
    }
  }

  // ---------------------------------------------------------------- order and grouping alone

  function Resolver(): seq<Policy> -> Policy {
    (chain: seq<Policy>) => Resolve(chain)
  }

  lemma ResolvingFolds()
    ensures FoldsLists(Resolver(), Models()) && FoldsLists(Resolver(), Operations())
  {
    forall chain: seq<Policy>
      ensures Models()(Resolver()(chain)) == MeetAll(ListsOf(chain, Models()))
      ensures Operations()(Resolver()(chain)) == MeetAll(ListsOf(chain, Operations()))
    {
      ResolvedLists(chain);
    }
  }

  /** In whatever order the chain is resolved, the allowlists are the same. */
  ghost predicate AnyOrder(chain: seq<Policy>) {
    && Orderings.ResolvesInAnyOrder(chain, Resolver(), Models())
    && Orderings.ResolvesInAnyOrder(chain, Resolver(), Operations())
  }

  lemma OrderDoesNotMatterIff(chain: seq<Policy>)
    ensures AnyOrder(chain) <==>
            Orderings.Balanced(ListsOf(chain, Models())) && Orderings.Balanced(ListsOf(chain, Operations()))
  {
    hide Orderings.Balanced, Resolve;
    ResolvingFolds();
    Orderings.ResolvesInAnyOrderIff(chain, Resolver(), Models());
    Orderings.ResolvesInAnyOrderIff(chain, Resolver(), Operations());
  }

  /** Whatever neighbours are resolved first, of the chain or of a run of it, the allowlists are the same. */
  ghost predicate AnyGrouping(chain: seq<Policy>) {
    ResolvesAlike(chain, Resolver(), Models()) && ResolvesAlike(chain, Resolver(), Operations())
  }

  lemma GroupingDoesNotMatterIff(chain: seq<Policy>)
    ensures AnyGrouping(chain) <==>
            Steady(Full(ListsOf(chain, Models()))) && Steady(Full(ListsOf(chain, Operations())))
  {
    hide Steady, Full, Resolve;
    ResolvingFolds();
    ResolvesAlikeIff(chain, Resolver(), Models());
    ResolvesAlikeIff(chain, Resolver(), Operations());
  }

  lemma LimitsAreStrictest(kind: LimitKind)
    ensures TakesStrictest(Resolver(), LimitOf(kind), Smaller())
  {
    forall chain ensures IsStrictest(LimitOf(kind)(Resolver()(chain)), chain, LimitOf(kind), Smaller()) {
      ResolvedLimitIsMinimum(chain, kind);
    }
  }

  /** The limits never depend on grouping. */
  lemma GroupedLimits(n: Nest<Policy>, kind: LimitKind)
    ensures LimitOf(kind)(Resolved(n, Resolver())) == LimitOf(kind)(Resolve(Leaves(n)))
  {
    LimitsAreStrictest(kind);
    WeightsAreInjective();
    NestedSetting(n, Resolver(), LimitOf(kind), Smaller());
  }

  lemma LimitsOfParts(a: seq<Policy>, b: seq<Policy>, kind: LimitKind)
    ensures LimitOf(kind)(Resolve([Resolve(a), Resolve(b)])) == LimitOf(kind)(Resolve(a + b))
  {
    LimitsAreStrictest(kind);
    WeightsAreInjective();
    SettingOfParts(a, b, Resolver(), LimitOf(kind), Smaller());
  }

  /** Nor do the denials. */
  lemma {:induction false} GroupedDenials(n: Nest<Policy>, model: string)
    ensures model in Resolved(n, Resolver()).deniedModels <==> exists p :: p in Leaves(n) && model in p.deniedModels
  {
    if n.Two? {
      GroupedDenials(n.left, model);
      GroupedDenials(n.right, model);
      var pair := [Resolved(n.left, Resolver()), Resolved(n.right, Resolver())];
      ResolvedDenials(pair, model);
      assert pair[0] in pair && pair[1] in pair;
    }
  }

  /** Two ways of resolving a run of policies authorize the same if it never matters which neighbours come first. */
  lemma GroupedDecisions(chain: seq<Policy>, n: Nest<Policy>, m: Nest<Policy>)
    requires Leaves(n) == chain && Leaves(m) == chain && AnyGrouping(chain)
    ensures Agree(Resolved(n, Resolver()), Resolved(m, Resolver()))
  {
    var p, q := Resolved(n, Resolver()), Resolved(m, Resolver());
    assert chain[0..|chain|] == chain;
    assert Models()(p) == Models()(q) && Operations()(p) == Operations()(q);
    GroupedLimits(n, OutputTokens);
    GroupedLimits(m, OutputTokens);
    forall model, operation, tokens
      ensures p.Authorizes(model, operation, tokens) <==> q.Authorizes(model, operation, tokens)
    {
      GroupedDenials(n, model);
      GroupedDenials(m, model);
      ListsAsSet(p.allowedModels, model);
      ListsAsSet(q.allowedModels, model);
      ListsAsSet(p.allowedOperations, operation);
      ListsAsSet(q.allowedOperations, operation);
    }
  }

  // ---------------------------------------------------------------- three policies

  lemma ResolvedPair(p: Policy, q: Policy)
    ensures Resolve([p, q]) == p.RestrictWith(q)
  {
    var pair := [p, q];
    assert pair[..1] == [p] && [p][..0] == [];
    assert [] + p.deniedModels == p.deniedModels;
    assert Resolve([p]) == UNRESTRICTED.RestrictWith(p) == p;
    assert Resolve(pair) == Resolve(pair[..1]).RestrictWith(q);
  }

  lemma OneMore(chain: seq<Policy>, p: Policy)
    ensures Resolve(chain + [p]) == Resolve(chain).RestrictWith(p)
  {
    assert (chain + [p])[..|chain|] == chain;
  }

  /** Policies with the same denials and token limit agree iff they allow the same models and the same operations, or
      no model at all. */
  lemma AgreeIff(p: Policy, q: Policy, denied: set<string>)
    requires SetOf(p.deniedModels) == denied == SetOf(q.deniedModels) && p.maxOutputTokens == q.maxOutputTokens
    ensures Agree(p, q) <==>
            && SameBut(SetOf(p.allowedModels), SetOf(q.allowedModels), denied)
            && (SameBut(SetOf(p.allowedOperations), SetOf(q.allowedOperations), {}) ||
                forall model :: !p.AllowsModel(model))
  {
    forall model
      ensures p.AllowsModel(model) <==> model !in denied && Admits(SetOf(p.allowedModels), model)
      ensures q.AllowsModel(model) <==> model !in denied && Admits(SetOf(q.allowedModels), model)
    {
      ListsAsSet(p.allowedModels, model);
      ListsAsSet(q.allowedModels, model);
    }
    forall operation
      ensures p.AllowsOperation(operation) <==> Admits(SetOf(p.allowedOperations), operation)
      ensures q.AllowsOperation(operation) <==> Admits(SetOf(q.allowedOperations), operation)
    {
      ListsAsSet(p.allowedOperations, operation);
      ListsAsSet(q.allowedOperations, operation);
    }
    if Agree(p, q) {
      AgreedModels(p, q);
      if model :| p.AllowsModel(model) {
        forall operation ensures p.AllowsOperation(operation) <==> q.AllowsOperation(operation) {
          assert p.Authorizes(model, operation, 0) <==> q.Authorizes(model, operation, 0);
        }
      }
    }
  }

  lemma AgreedModels(p: Policy, q: Policy)
    requires Agree(p, q)
    ensures forall model :: p.AllowsModel(model) <==> q.AllowsModel(model)
  {
    var o := SomeOperation(p);
    var o' := SomeOperation(q);
    forall model ensures p.AllowsModel(model) <==> q.AllowsModel(model) {
      assert p.Authorizes(model, o, 0) <==> q.Authorizes(model, o, 0);
      assert p.Authorizes(model, o', 0) <==> q.Authorizes(model, o', 0);
    }
  }

  /** How three policies associate: by their models, and by their operations, which nobody denies. */
  predicate ModelsAssociate(p: Policy, q: Policy, r: Policy) {
    AssociatesBut(SetOf(p.allowedModels), SetOf(q.allowedModels), SetOf(r.allowedModels),
                  SetOf(p.deniedModels) + SetOf(q.deniedModels) + SetOf(r.deniedModels))
  }

  predicate OperationsAssociate(p: Policy, q: Policy, r: Policy) {
    AssociatesBut(SetOf(p.allowedOperations), SetOf(q.allowedOperations), SetOf(r.allowedOperations), {})
  }

  lemma RestrictedSets(p: Policy, q: Policy)
    ensures var r := p.RestrictWith(q);
            && SetOf(r.allowedModels) == Meet(SetOf(p.allowedModels), SetOf(q.allowedModels))
            && SetOf(r.allowedOperations) == Meet(SetOf(p.allowedOperations), SetOf(q.allowedOperations))
            && SetOf(r.deniedModels) == SetOf(p.deniedModels) + SetOf(q.deniedModels)
  {
    IntersectIsMeet(p.allowedModels, q.allowedModels);
    IntersectIsMeet(p.allowedOperations, q.allowedOperations);
  }

  /** Of three policies it makes no difference which two are resolved first iff their models associate, and so do their
      operations unless they are shut. */
  lemma ThreePoliciesIff(p: Policy, q: Policy, r: Policy)
    ensures Agree(Resolve([Resolve([p, q]), r]), Resolve([p, Resolve([q, r])])) <==>
            ModelsAssociate(p, q, r) && (OperationsAssociate(p, q, r) || IsShut([p, q, r]))
  {
    hide Resolve, Policy.RestrictWith, Agree, SetOf, IsShut, AssociatesBut;
    var left, right := p.RestrictWith(q).RestrictWith(r), p.RestrictWith(q.RestrictWith(r));
    var denied := SetOf(p.deniedModels) + SetOf(q.deniedModels) + SetOf(r.deniedModels);
    ResolvedPair(p, q);
    ResolvedPair(q, r);
    ResolvedPair(p.RestrictWith(q), r);
    ResolvedPair(p, q.RestrictWith(r));
    RestrictedSets(p, q);
    RestrictedSets(q, r);
    RestrictedSets(p.RestrictWith(q), r);
    RestrictedSets(p, q.RestrictWith(r));
    assert SetOf(left.deniedModels) == denied == SetOf(right.deniedModels);
    SameTokens(p, q, r);
    AgreeIff(left, right, denied);
    AssociatesButIff(SetOf(p.allowedModels), SetOf(q.allowedModels), SetOf(r.allowedModels), denied);
    AssociatesButIff(SetOf(p.allowedOperations), SetOf(q.allowedOperations), SetOf(r.allowedOperations), {});
    ResolvedThree(p, q, r);
    ShutIff([p, q, r]);
  }

  lemma SameTokens(p: Policy, q: Policy, r: Policy)
    ensures p.RestrictWith(q).RestrictWith(r).maxOutputTokens == p.RestrictWith(q.RestrictWith(r)).maxOutputTokens
    ensures p.RestrictWith(q).RestrictWith(r).maxOutputTokens == p.RestrictWith(r).RestrictWith(q).maxOutputTokens
  {}

  lemma ResolvedThree(p: Policy, q: Policy, r: Policy)
    ensures Resolve([p, q, r]) == p.RestrictWith(q).RestrictWith(r)
  {
    assert [p, q, r] == [p, q] + [r];
    OneMore([p, q], r);
    ResolvedPair(p, q);
  }

  /** At the end of a chain it makes no difference which of two neighbours comes first iff their models associate around
      those of the policies before them, and so do their operations unless the chain is shut. */
  lemma NeighboursIff(front: seq<Policy>, p: Policy, q: Policy)
    ensures Agree(Resolve(front + [p, q]), Resolve(front + [q, p])) <==>
            && ModelsAssociate(p, Resolve(front), q)
            && (OperationsAssociate(p, Resolve(front), q) || IsShut(front + [p, q]))
  {
    hide Resolve, Policy.RestrictWith, Agree, SetOf, IsShut, AssociatesBut;
    var x := Resolve(front);
    var left, right := x.RestrictWith(p).RestrictWith(q), x.RestrictWith(q).RestrictWith(p);
    var denied := SetOf(p.deniedModels) + SetOf(x.deniedModels) + SetOf(q.deniedModels);
    assert front + [p, q] == front + [p] + [q] && front + [q, p] == front + [q] + [p];
    OneMore(front, p);
    OneMore(front, q);
    OneMore(front + [p], q);
    OneMore(front + [q], p);
    RestrictedSets(x, p);
    RestrictedSets(x, q);
    RestrictedSets(x.RestrictWith(p), q);
    RestrictedSets(x.RestrictWith(q), p);
    assert SetOf(left.deniedModels) == denied == SetOf(right.deniedModels);
    SameTokens(x, p, q);
    AgreeIff(left, right, denied);
    NeighboursButIff(SetOf(x.allowedModels), SetOf(p.allowedModels), SetOf(q.allowedModels), denied);
    NeighboursButIff(SetOf(x.allowedOperations), SetOf(p.allowedOperations), SetOf(q.allowedOperations), {});
    ShutIff(front + [p, q]);
  }

  /** For example, the same three allowlists in the same order admit one model or another, as the last two are resolved
      after the first or before it. */
  lemma GroupingMayMatter(a: string, b: string, c: string)
    requires a != b && b != c && a != c
    ensures var p, q, r := Allowing([a]), Allowing([b]), Allowing([c]);
            && Resolve([p, q, r]).AllowsModel(c) && !Resolve([p, q, r]).AllowsModel(a)
            && Resolve([Resolve([p]), Resolve([q, r])]).AllowsModel(a)
            && !Resolve([Resolve([p]), Resolve([q, r])]).AllowsModel(c)
  {
    var p, q, r := Allowing([a]), Allowing([b]), Allowing([c]);
    ThirdRemains(a, b, c);
    ResolvedPair(q, r);
    assert [b][1..] == [] && Keep([b], [c]) == [];
    assert [p][..0] == [] && Resolve([p]) == UNRESTRICTED.RestrictWith(p);
    assert Resolve([p]).allowedModels == [a] && Resolve([p]).deniedModels == [];
    ResolvedPair(Resolve([p]), Resolve([q, r]));
  }
}
