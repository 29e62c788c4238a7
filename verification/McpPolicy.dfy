/** Tool policies of the MCP gateway and their resolution along a chain. */
module McpPolicies {
  import opened Types
  import opened Allowlists
  import opened Strictness
  import opened Arrangements
  import opened Groupings
  import opened JsonPointers
  import Orderings

  datatype ToolRiskLevel = ReadOnly | Mutating | Destructive | Privileged | Unknown

  function RiskWeight(): ToolRiskLevel -> int {
    (risk: ToolRiskLevel) =>
      match risk
      case ReadOnly => 0
      case Mutating => 1
      case Unknown => 2
      case Destructive => 3
      case Privileged => 4
  }

  datatype Limits = Limits(
    callsPerMinute: Option<nat>,
    callsPerDay: Option<nat>,
    serverConcurrentCalls: Option<nat>,
    toolConcurrentCalls: Option<nat>,
    requestBytes: Option<nat>,
    responseBytes: Option<nat>,
    executionMs: Option<nat>)

  /** `Panicked` stands for an invocation that panics and is answered by nobody. */
  datatype McpError =
    | ServerNotFound
    | ServerNotAllowed
    | ToolNotAllowed
    | ToolUnavailable
    | QuotaExceeded
    | ApprovalRequired(approvalId: Uuid)
    | ApprovalRejected
    | ApprovalExpired
    | Transport
    | Timeout
    | Invalid
    | TooLarge
    | Unavailable
    | Panicked

  datatype McpPolicy = McpPolicy(
    allowedServers: set<Uuid>,
    deniedServers: set<Uuid>,
    allowedTools: set<string>,
    deniedTools: set<string>,
    toolActions: map<string, SecurityAction>,
    riskOverrides: map<string, ToolRiskLevel>,
    argumentRestrictions: map<string, Restrictions>,
    maximum: Limits,
    defaultMutatingAction: Option<SecurityAction>)
  {
    predicate AdmitsServer(server: Uuid) {
      server !in deniedServers && Admits(allowedServers, server)
    }

    predicate AdmitsTool(tool: string) {
      tool !in deniedTools && Admits(allowedTools, tool)
    }

    function RestrictionsOn(tool: string): Restrictions {
      if tool in argumentRestrictions then argumentRestrictions[tool] else map[]
    }

    /** Each restricted pointer that leads somewhere in the arguments leads to a listed value. */
    predicate AdmitsArguments(tool: string, arguments: Json) {
      Fits(RestrictionsOn(tool), arguments)
    }

    function Authorize(server: Uuid, tool: string, arguments: Json): Result<(), McpError> {
      if !AdmitsServer(server) then Err(ServerNotAllowed)
      else if !AdmitsTool(tool) || !AdmitsArguments(tool, arguments) then Err(ToolNotAllowed)
      else Ok(())
    }

    function Action(tool: string, risk: ToolRiskLevel): SecurityAction {
      match Entry(toolActions, tool)
      case Some(action) => action
      case None =>
        match risk
        case ReadOnly => Allow
        case Mutating => (match defaultMutatingAction case Some(action) => action case None => RequireApproval)
        case _ => RequireApproval
    }
  }

  const NO_LIMITS: Limits := Limits(None, None, None, None, None, None, None)
  const OPEN: McpPolicy := McpPolicy({}, {}, {}, {}, map[], map[], map[], NO_LIMITS, None)

  function MinLimits(a: Limits, b: Limits): Limits {
    Limits(
      MinOpt(a.callsPerMinute, b.callsPerMinute),
      MinOpt(a.callsPerDay, b.callsPerDay),
      MinOpt(a.serverConcurrentCalls, b.serverConcurrentCalls),
      MinOpt(a.toolConcurrentCalls, b.toolConcurrentCalls),
      MinOpt(a.requestBytes, b.requestBytes),
      MinOpt(a.responseBytes, b.responseBytes),
      MinOpt(a.executionMs, b.executionMs))
  }

  /** A tool's restrictions, pointer by pointer; the child's list for a pointer replaces the parent's. */
  function Extend(): (Restrictions, Restrictions) -> Restrictions {
    (parent: Restrictions, child: Restrictions) => parent + child
  }

  function Restricted(parent: McpPolicy, child: McpPolicy): McpPolicy {
    McpPolicy(
      Meet(parent.allowedServers, child.allowedServers),
      parent.deniedServers + child.deniedServers,
      Meet(parent.allowedTools, child.allowedTools),
      parent.deniedTools + child.deniedTools,
      Merged(parent.toolActions, child.toolActions, TakeStricter(ActionWeight())),
      Merged(parent.riskOverrides, child.riskOverrides, TakeStricter(RiskWeight())),
      Merged(parent.argumentRestrictions, child.argumentRestrictions, Extend()),
      MinLimits(parent.maximum, child.maximum),
      Stricter(parent.defaultMutatingAction, child.defaultMutatingAction, ActionWeight()))
  }

  lemma ExtendNothing()
    ensures forall v :: Extend()(map[], v) == v
  {
    forall v ensures Extend()(map[], v) == v {
      assert map[] + v == v;
    }
  }

  method RestrictWith(parent: McpPolicy, child: McpPolicy) returns (r: McpPolicy)
    ensures r == Restricted(parent, child)
  {
    var actions := Merge(parent.toolActions, child.toolActions, TakeStricter(ActionWeight()), Allow);
    ExtendNothing();
    var restrictions := Merge(parent.argumentRestrictions, child.argumentRestrictions, Extend(), map[]);
    var risks := Merge(parent.riskOverrides, child.riskOverrides, TakeStricter(RiskWeight()), ReadOnly);
    r := McpPolicy(
      Meet(parent.allowedServers, child.allowedServers),
      parent.deniedServers + child.deniedServers,
      Meet(parent.allowedTools, child.allowedTools),
      parent.deniedTools + child.deniedTools,
      actions, risks, restrictions,
      MinLimits(parent.maximum, child.maximum),
      Stricter(parent.defaultMutatingAction, child.defaultMutatingAction, ActionWeight()));
  }

  function Resolve(chain: seq<McpPolicy>): McpPolicy {
    if chain == [] then OPEN else Restricted(Resolve(chain[..|chain| - 1]), chain[|chain| - 1])
  }

  // ---------------------------------------------------------------- entries

  function ActionOn(tool: string): McpPolicy -> Option<SecurityAction> {
    (p: McpPolicy) => Entry(p.toolActions, tool)
  }

  function RiskOf(tool: string): McpPolicy -> Option<ToolRiskLevel> {
    (p: McpPolicy) => Entry(p.riskOverrides, tool)
  }

  function DefaultMutating(): McpPolicy -> Option<SecurityAction> {
    (p: McpPolicy) => p.defaultMutatingAction
  }

  datatype LimitKind = CallsPerMinute | CallsPerDay | ServerConcurrency | ToolConcurrency | RequestBytes
                     | ResponseBytes | ExecutionMs

  function LimitOf(kind: LimitKind): McpPolicy -> Option<nat> {
    match kind
    case CallsPerMinute => (p: McpPolicy) => p.maximum.callsPerMinute
    case CallsPerDay => (p: McpPolicy) => p.maximum.callsPerDay
    case ServerConcurrency => (p: McpPolicy) => p.maximum.serverConcurrentCalls
    case ToolConcurrency => (p: McpPolicy) => p.maximum.toolConcurrentCalls
    case RequestBytes => (p: McpPolicy) => p.maximum.requestBytes
    case ResponseBytes => (p: McpPolicy) => p.maximum.responseBytes
    case ExecutionMs => (p: McpPolicy) => p.maximum.executionMs
  }

  /** The action a chain sets for a tool is the strictest one anybody sets for it. */
  lemma {:induction false} ResolvedAction(chain: seq<McpPolicy>, tool: string)
    ensures IsStrictest(ActionOn(tool)(Resolve(chain)), chain, ActionOn(tool), ActionWeight())
  {
    if chain != [] {
      var front, last := chain[..|chain| - 1], chain[|chain| - 1];
      assert chain == front + [last];
      ResolvedAction(front, tool);
      StricterEntry(Resolve(front).toolActions, last.toolActions, ActionWeight(), tool);
      StrictestOfMore(ActionOn(tool)(Resolve(front)), front, last, ActionOn(tool), ActionWeight());
    }
  }

  /** The risk a chain overrides a tool with is the highest one anybody sets. */
  lemma {:induction false} ResolvedRisk(chain: seq<McpPolicy>, tool: string)
    ensures IsStrictest(RiskOf(tool)(Resolve(chain)), chain, RiskOf(tool), RiskWeight())
  {
    if chain != [] {
      var front, last := chain[..|chain| - 1], chain[|chain| - 1];
      assert chain == front + [last];
      ResolvedRisk(front, tool);
      StricterEntry(Resolve(front).riskOverrides, last.riskOverrides, RiskWeight(), tool);
      StrictestOfMore(RiskOf(tool)(Resolve(front)), front, last, RiskOf(tool), RiskWeight());
    }
  }

  /** Every numeric limit of a chain is the minimum of those set. */
  lemma {:induction false} ResolvedLimit(chain: seq<McpPolicy>, kind: LimitKind)
    ensures IsStrictest(LimitOf(kind)(Resolve(chain)), chain, LimitOf(kind), Smaller())
  {
    if chain != [] {
      var front, last := chain[..|chain| - 1], chain[|chain| - 1];
      assert chain == front + [last];
      ResolvedLimit(front, kind);
      StrictestOfMore(LimitOf(kind)(Resolve(front)), front, last, LimitOf(kind), Smaller());
    }
  }

  /** The default for mutating tools is the strictest one set. */
  lemma {:induction false} ResolvedDefault(chain: seq<McpPolicy>)
    ensures IsStrictest(DefaultMutating()(Resolve(chain)), chain, DefaultMutating(), ActionWeight())
  {
    if chain != [] {
      var front, last := chain[..|chain| - 1], chain[|chain| - 1];
      assert chain == front + [last];
      ResolvedDefault(front);
      StrictestOfMore(DefaultMutating()(Resolve(front)), front, last, DefaultMutating(), ActionWeight());
    }
  }

  /** The action taken on a tool that somebody names is at least as strict as anybody's entry for it. */
  lemma ActionIsStrictest(chain: seq<McpPolicy>, p: McpPolicy, tool: string, risk: ToolRiskLevel)
    requires p in chain && tool in p.toolActions
    ensures p.toolActions[tool].Priority() <= Resolve(chain).Action(tool, risk).Priority()
    ensures exists q :: q in chain && Entry(q.toolActions, tool) == Some(Resolve(chain).Action(tool, risk))
  {
    ResolvedAction(chain, tool);
    assert ActionOn(tool)(p) == Some(p.toolActions[tool]);
    assert IsStrictest(ActionOn(tool)(Resolve(chain)), chain, ActionOn(tool), ActionWeight());
    var q :| q in chain && ActionOn(tool)(q) == ActionOn(tool)(Resolve(chain));
    assert Entry(q.toolActions, tool) == Some(Resolve(chain).Action(tool, risk));
  }

  /** The action taken on a tool under a chain, in full: the strictest one anybody sets for it; without any, a tool that
      only reads is allowed, one that changes things gets the strictest default, and others need an approval. */
  lemma ActionInFull(chain: seq<McpPolicy>, tool: string, risk: ToolRiskLevel)
    ensures var action := Resolve(chain).Action(tool, risk);
            if exists p :: p in chain && tool in p.toolActions then
              && (exists p :: p in chain && tool in p.toolActions && p.toolActions[tool] == action)
              && (forall p :: p in chain && tool in p.toolActions ==> AsStrict(action, p.toolActions[tool]))
            else if risk == ReadOnly then action == Allow
            else if risk == Mutating && exists p :: p in chain && p.defaultMutatingAction.Some? then
              && (exists p :: p in chain && p.defaultMutatingAction == Some(action))
              && (forall p :: p in chain && p.defaultMutatingAction.Some? ==>
                    AsStrict(action, p.defaultMutatingAction.value))
            else action == RequireApproval
  {
    ResolvedAction(chain, tool);
    StrictestActionIs(ActionOn(tool)(Resolve(chain)), chain, ActionOn(tool));
    ResolvedDefault(chain);
    StrictestActionIs(DefaultMutating()(Resolve(chain)), chain, DefaultMutating());
    hide Resolve, IsStrictest, AsStrict;
    forall p: McpPolicy
      ensures ActionOn(tool)(p) == if tool in p.toolActions then Some(p.toolActions[tool]) else None
      ensures DefaultMutating()(p) == p.defaultMutatingAction
    {}
  }

  /** From `Privileged` down to `ReadOnly`; a tool of unknown risk ranks between the mutating and destructive ones. */
  predicate AsRisky(a: ToolRiskLevel, b: ToolRiskLevel) {
    match a
    case Privileged => true
    case Destructive => b != Privileged
    case Unknown => b == Unknown || b == Mutating || b == ReadOnly
    case Mutating => b == Mutating || b == ReadOnly
    case ReadOnly => b == ReadOnly
  }

  lemma AsRiskyIff(a: ToolRiskLevel, b: ToolRiskLevel)
    ensures AsRisky(a, b) <==> RiskWeight()(b) <= RiskWeight()(a)
  {}

  /** A chain overrides a tool's risk iff somebody does, and with the highest one anybody sets. */
  lemma RiskInFull(chain: seq<McpPolicy>, tool: string)
    ensures var overrides := Resolve(chain).riskOverrides;
            && (tool in overrides <==> exists p :: p in chain && tool in p.riskOverrides)
            && (tool in overrides ==>
                  && (exists p :: p in chain && tool in p.riskOverrides && p.riskOverrides[tool] == overrides[tool])
                  && (forall p :: p in chain && tool in p.riskOverrides ==>
                        AsRisky(overrides[tool], p.riskOverrides[tool])))
  {
    ResolvedRisk(chain, tool);
    hide Resolve, AsRisky;
    forall p: McpPolicy
      ensures RiskOf(tool)(p) == if tool in p.riskOverrides then Some(p.riskOverrides[tool]) else None
    {}
    forall a, b ensures AsRisky(a, b) <==> RiskWeight()(b) <= RiskWeight()(a) {
      AsRiskyIff(a, b);
    }
    hide RiskWeight;
  }

  /** Order and repetition of the chain do not matter to what it says explicitly. */
  lemma OrderDoesNotMatter(a: seq<McpPolicy>, b: seq<McpPolicy>, tool: string, kind: LimitKind)
    requires SameMembers(a, b)
    ensures ActionOn(tool)(Resolve(a)) == ActionOn(tool)(Resolve(b))
    ensures RiskOf(tool)(Resolve(a)) == RiskOf(tool)(Resolve(b))
    ensures LimitOf(kind)(Resolve(a)) == LimitOf(kind)(Resolve(b))
  {
    SameActions(a, b, tool);
    SameRisks(a, b, tool);
    SameLimits(a, b, kind);
  }

  lemma SameActions(a: seq<McpPolicy>, b: seq<McpPolicy>, tool: string)
    requires SameMembers(a, b)
    ensures ActionOn(tool)(Resolve(a)) == ActionOn(tool)(Resolve(b))
  {
    ResolvedAction(a, tool);
    ResolvedAction(b, tool);
    WeightsAreInjective();
    StrictestIsUnique(ActionOn(tool)(Resolve(a)), ActionOn(tool)(Resolve(b)), a, b, ActionOn(tool), ActionWeight());
  }

  lemma RiskWeightIsInjective()
    ensures Injective(RiskWeight())
  {}

  lemma SameRisks(a: seq<McpPolicy>, b: seq<McpPolicy>, tool: string)
    requires SameMembers(a, b)
    ensures RiskOf(tool)(Resolve(a)) == RiskOf(tool)(Resolve(b))
  {
    ResolvedRisk(a, tool);
    ResolvedRisk(b, tool);
    RiskWeightIsInjective();
    StrictestIsUnique(RiskOf(tool)(Resolve(a)), RiskOf(tool)(Resolve(b)), a, b, RiskOf(tool), RiskWeight());
  }

  lemma SameLimits(a: seq<McpPolicy>, b: seq<McpPolicy>, kind: LimitKind)
    requires SameMembers(a, b)
    ensures LimitOf(kind)(Resolve(a)) == LimitOf(kind)(Resolve(b))
  {
    ResolvedLimit(a, kind);
    ResolvedLimit(b, kind);
    WeightsAreInjective();
    StrictestIsUnique(LimitOf(kind)(Resolve(a)), LimitOf(kind)(Resolve(b)), a, b, LimitOf(kind), Smaller());
  }

  // ---------------------------------------------------------------- access

  function Servers(): McpPolicy -> set<Uuid> {
    (p: McpPolicy) => p.allowedServers
  }

  function Tools(): McpPolicy -> set<string> {
    (p: McpPolicy) => p.allowedTools
  }

  lemma {:induction false} ResolvedLists(chain: seq<McpPolicy>)
    ensures Resolve(chain).allowedServers == MeetAll(ListsOf(chain, Servers()))
    ensures Resolve(chain).allowedTools == MeetAll(ListsOf(chain, Tools()))
  {
    if chain != [] {
      ResolvedLists(chain[..|chain| - 1]);
      ListsOfFront(chain, Servers());
      ListsOfFront(chain, Tools());
    }
  }

  lemma {:induction false} DeniedServers(chain: seq<McpPolicy>, server: Uuid)
    ensures server in Resolve(chain).deniedServers <==> exists p :: p in chain && server in p.deniedServers
  {
    if chain != [] {
      DeniedServers(chain[..|chain| - 1], server);
      assert chain == chain[..|chain| - 1] + [chain[|chain| - 1]];
    }
  }

  lemma {:induction false} DeniedTools(chain: seq<McpPolicy>, tool: string)
    ensures tool in Resolve(chain).deniedTools <==> exists p :: p in chain && tool in p.deniedTools
  {
    if chain != [] {
      DeniedTools(chain[..|chain| - 1], tool);
      assert chain == chain[..|chain| - 1] + [chain[|chain| - 1]];
    }
  }

  /** A server that every policy admits is admitted, and no other is when the non-empty allowlists share one. */
  lemma ServerIffAllAdmit(chain: seq<McpPolicy>, server: Uuid)
    ensures (forall p :: p in chain ==> p.AdmitsServer(server)) ==> Resolve(chain).AdmitsServer(server)
    ensures ShareElement(ListsOf(chain, Servers())) ==>
              (Resolve(chain).AdmitsServer(server) <==> forall p :: p in chain ==> p.AdmitsServer(server))
  {
    var lists := ListsOf(chain, Servers());
    ResolvedLists(chain);
    DeniedServers(chain, server);
    AdmittedByMembers(chain, Servers(), server);
    assert forall p: McpPolicy :: Servers()(p) == p.allowedServers;
    if AllAdmit(lists, server) { FoldLosesNothing(lists, server); }
    FoldIsExactIff(lists);
  }

  /** The same for tools. */
  lemma ToolIffAllAdmit(chain: seq<McpPolicy>, tool: string)
    ensures (forall p :: p in chain ==> p.AdmitsTool(tool)) ==> Resolve(chain).AdmitsTool(tool)
    ensures ShareElement(ListsOf(chain, Tools())) ==>
              (Resolve(chain).AdmitsTool(tool) <==> forall p :: p in chain ==> p.AdmitsTool(tool))
  {
    var lists := ListsOf(chain, Tools());
    ResolvedLists(chain);
    DeniedTools(chain, tool);
    AdmittedByMembers(chain, Tools(), tool);
    assert forall p: McpPolicy :: Tools()(p) == p.allowedTools;
    if AllAdmit(lists, tool) { FoldLosesNothing(lists, tool); }
    FoldIsExactIff(lists);
  }

  // ---------------------------------------------------------------- order and grouping of access

  /** What a policy gives access to. */
  datatype Access = Server | Tool

  function Allowed(access: Access): McpPolicy -> set<string> {
    match access
    case Server => Servers()
    case Tool => Tools()
  }

  function Denied(access: Access): McpPolicy -> set<string> {
    match access
    case Server => ((p: McpPolicy) => p.deniedServers)
    case Tool => ((p: McpPolicy) => p.deniedTools)
  }

  predicate Admitted(p: McpPolicy, access: Access, item: string) {
    match access
    case Server => p.AdmitsServer(item)
    case Tool => p.AdmitsTool(item)
  }

  lemma AdmittedIff(p: McpPolicy, access: Access, item: string)
    ensures Admitted(p, access, item) <==> item !in Denied(access)(p) && Admits(Allowed(access)(p), item)
  {}

  lemma ResolvedAccess(chain: seq<McpPolicy>, access: Access)
    ensures Allowed(access)(Resolve(chain)) == MeetAll(ListsOf(chain, Allowed(access)))
    ensures forall item ::
              item in Denied(access)(Resolve(chain)) <==> exists p :: p in chain && item in Denied(access)(p)
  {
    ResolvedLists(chain);
    forall item
      ensures item in Denied(access)(Resolve(chain)) <==> exists p :: p in chain && item in Denied(access)(p)
    {
      DeniedServers(chain, item);
      DeniedTools(chain, item);
    }
  }

  lemma PassesAccess(chain: seq<McpPolicy>, access: Access, item: string)
    ensures Passes(chain, Allowed(access), Denied(access), item) <==> Admitted(Resolve(chain), access, item)
  {
    hide Resolve, MeetAll;
    ResolvedAccess(chain, access);
    AdmittedIff(Resolve(chain), access, item);
  }

  function Resolver(): seq<McpPolicy> -> McpPolicy {
    (chain: seq<McpPolicy>) => Resolve(chain)
  }

  lemma ResolvingFolds(access: Access)
    ensures Folds(Resolver(), Allowed(access), Denied(access)) && FoldsLists(Resolver(), Allowed(access))
  {
    forall chain: seq<McpPolicy>
      ensures Allowed(access)(Resolver()(chain)) == MeetAll(ListsOf(chain, Allowed(access)))
      ensures forall item ::
                item in Denied(access)(Resolver()(chain)) <==> exists p :: p in chain && item in Denied(access)(p)
    {
      ResolvedAccess(chain, access);
    }
  }

  ghost predicate AccessIsArrangementFree(chain: seq<McpPolicy>, access: Access) {
    forall other, item :: SameMembers(chain, other) ==>
      (Admitted(Resolve(chain), access, item) <==> Admitted(Resolve(other), access, item))
  }

  ghost predicate AccessIsFreeInParts(chain: seq<McpPolicy>, access: Access) {
    forall a, b, item :: SameMembers(chain, a + b) ==>
      (Admitted(Resolve([Resolve(a), Resolve(b)]), access, item) <==> Admitted(Resolve(chain), access, item))
  }

  lemma AnyAccess(access: Access)
    ensures forall chain, item ::
              Passes(chain, Allowed(access), Denied(access), item) <==> Admitted(Resolve(chain), access, item)
  {
    forall chain, item
      ensures Passes(chain, Allowed(access), Denied(access), item) <==> Admitted(Resolve(chain), access, item)
    {
      PassesAccess(chain, access, item);
    }
  }

  /** However the policies of a chain are rearranged and repeated, the same is admitted iff the non-empty allowlists
      share an element. */
  lemma ArrangementDoesNotMatterIff(chain: seq<McpPolicy>, access: Access)
    ensures AccessIsArrangementFree(chain, access) <==> ShareElement(ListsOf(chain, Allowed(access)))
  {
    hide Resolve, Passes, Admitted, ShareElement, Allowed, Denied;
    AnyAccess(access);
    ArrangementFreeIff(chain, Allowed(access), Denied(access));
    assert AccessIsArrangementFree(chain, access) <==> ArrangementFree(chain, Allowed(access), Denied(access));
  }

  /** That they are resolved in two parts adds nothing. */
  lemma PartsDoNotMatterIff(chain: seq<McpPolicy>, access: Access)
    ensures AccessIsFreeInParts(chain, access) <==> ShareElement(ListsOf(chain, Allowed(access)))
  {
    hide Resolve, Passes, Admitted, ShareElement, Allowed, Denied, Folds;
    AnyAccess(access);
    ResolvingFolds(access);
    PartsFreeIff(chain, Resolver(), Allowed(access), Denied(access));
    assert AccessIsFreeInParts(chain, access) <==> PartsFree(chain, Resolver(), Allowed(access), Denied(access));
  }

  /** In whatever order a chain is resolved, its allowlist is the same iff its non-empty allowlists balance. */
  lemma OrderDoesNotMatterIff(chain: seq<McpPolicy>, access: Access)
    ensures Orderings.ResolvesInAnyOrder(chain, Resolver(), Allowed(access)) <==>
            Orderings.Balanced(ListsOf(chain, Allowed(access)))
  {
    ResolvingFolds(access);
    Orderings.ResolvesInAnyOrderIff(chain, Resolver(), Allowed(access));
  }

  /** Whatever neighbours are resolved first, of a chain or of a run of it, its allowlist is the same iff its non-empty
      allowlists are steady. */
  lemma GroupingDoesNotMatterIff(chain: seq<McpPolicy>, access: Access)
    ensures ResolvesAlike(chain, Resolver(), Allowed(access)) <==> Steady(Full(ListsOf(chain, Allowed(access))))
  {
    ResolvingFolds(access);
    ResolvesAlikeIff(chain, Resolver(), Allowed(access));
  }

  predicate AccessAssociates(p: McpPolicy, q: McpPolicy, r: McpPolicy, access: Access) {
    AssociatesBut(Allowed(access)(p), Allowed(access)(q), Allowed(access)(r),
                  Denied(access)(p) + Denied(access)(q) + Denied(access)(r))
  }

  lemma ResolvedPair(p: McpPolicy, q: McpPolicy, access: Access)
    ensures Allowed(access)(Resolve([p, q])) == Meet(Allowed(access)(p), Allowed(access)(q))
    ensures Denied(access)(Resolve([p, q])) == Denied(access)(p) + Denied(access)(q)
  {
    hide Resolve, MeetAll, Meet;
    var pair := [p, q];
    ResolvedAccess(pair, access);
    assert ListsOf(pair, Allowed(access)) == [Allowed(access)(p), Allowed(access)(q)];
    MeetPair(Allowed(access)(p), Allowed(access)(q));
    assert p in pair && q in pair;
  }

  lemma OneMore(chain: seq<McpPolicy>, p: McpPolicy, access: Access)
    ensures Allowed(access)(Resolve(chain + [p])) == Meet(Allowed(access)(Resolve(chain)), Allowed(access)(p))
    ensures Denied(access)(Resolve(chain + [p])) == Denied(access)(Resolve(chain)) + Denied(access)(p)
  {
    assert (chain + [p])[..|chain|] == chain;
  }

  /** Policies with the same denials give access to the same iff their allowlists differ in denied items only. */
  lemma SameAccessIff(p: McpPolicy, q: McpPolicy, access: Access, denied: set<string>)
    requires Denied(access)(p) == denied == Denied(access)(q)
    ensures (forall item :: Admitted(p, access, item) <==> Admitted(q, access, item)) <==>
            SameBut(Allowed(access)(p), Allowed(access)(q), denied)
  {
    hide Admitted;
    forall item
      ensures Admitted(p, access, item) <==> item !in denied && Admits(Allowed(access)(p), item)
      ensures Admitted(q, access, item) <==> item !in denied && Admits(Allowed(access)(q), item)
    {
      AdmittedIff(p, access, item);
      AdmittedIff(q, access, item);
    }
    if forall item :: Admitted(p, access, item) <==> Admitted(q, access, item) {
      forall item | item !in denied
        ensures Admits(Allowed(access)(p), item) <==> Admits(Allowed(access)(q), item)
      {
        assert Admitted(p, access, item) <==> Admitted(q, access, item);
      }
    }
  }

  /** Of three policies it makes no difference which two are resolved first iff they associate. */
  lemma ThreePoliciesIff(p: McpPolicy, q: McpPolicy, r: McpPolicy, access: Access)
    ensures (forall item :: Admitted(Resolve([Resolve([p, q]), r]), access, item) <==>
                            Admitted(Resolve([p, Resolve([q, r])]), access, item)) <==>
            AccessAssociates(p, q, r, access)
  {
    hide Resolve, Admitted, Meet, AssociatesBut, SameBut, Allowed, Denied;
    var left, right := Resolve([Resolve([p, q]), r]), Resolve([p, Resolve([q, r])]);
    var denied := Denied(access)(p) + Denied(access)(q) + Denied(access)(r);
    ResolvedPair(p, q, access);
    ResolvedPair(q, r, access);
    ResolvedPair(Resolve([p, q]), r, access);
    ResolvedPair(p, Resolve([q, r]), access);
    assert Denied(access)(left) == denied == Denied(access)(right);
    SameAccessIff(left, right, access, denied);
    AssociatesButIff(Allowed(access)(p), Allowed(access)(q), Allowed(access)(r), denied);
  }

  /** At the end of a chain it makes no difference which of two neighbours comes first iff they associate around the
      policies before them. */
  lemma NeighboursIff(front: seq<McpPolicy>, p: McpPolicy, q: McpPolicy, access: Access)
    ensures (forall item :: Admitted(Resolve(front + [p, q]), access, item) <==>
                            Admitted(Resolve(front + [q, p]), access, item)) <==>
            AccessAssociates(p, Resolve(front), q, access)
  {
    hide Resolve, Admitted, Meet, AssociatesBut, SameBut, Allowed, Denied;
    var x := Resolve(front);
    var left, right := Resolve(front + [p, q]), Resolve(front + [q, p]);
    var denied := Denied(access)(p) + Denied(access)(x) + Denied(access)(q);
    assert front + [p, q] == front + [p] + [q] && front + [q, p] == front + [q] + [p];
    OneMore(front, p, access);
    OneMore(front, q, access);
    OneMore(front + [p], q, access);
    OneMore(front + [q], p, access);
    assert Denied(access)(left) == denied == Denied(access)(right);
    SameAccessIff(left, right, access, denied);
    NeighboursButIff(Allowed(access)(x), Allowed(access)(p), Allowed(access)(q), denied);
  }

  lemma EntriesAreStrictest(tool: string, kind: LimitKind)
    ensures TakesStrictest(Resolver(), ActionOn(tool), ActionWeight())
    ensures TakesStrictest(Resolver(), RiskOf(tool), RiskWeight())
    ensures TakesStrictest(Resolver(), LimitOf(kind), Smaller())
  {
    forall chain
      ensures IsStrictest(ActionOn(tool)(Resolver()(chain)), chain, ActionOn(tool), ActionWeight())
      ensures IsStrictest(RiskOf(tool)(Resolver()(chain)), chain, RiskOf(tool), RiskWeight())
      ensures IsStrictest(LimitOf(kind)(Resolver()(chain)), chain, LimitOf(kind), Smaller())
    {
      ResolvedAction(chain, tool);
      ResolvedRisk(chain, tool);
      ResolvedLimit(chain, kind);
    }
  }

  /** Explicit actions, risks and limits never depend on grouping. */
  lemma GroupedEntries(n: Nest<McpPolicy>, tool: string, kind: LimitKind)
    ensures ActionOn(tool)(Resolved(n, Resolver())) == ActionOn(tool)(Resolve(Leaves(n)))
    ensures RiskOf(tool)(Resolved(n, Resolver())) == RiskOf(tool)(Resolve(Leaves(n)))
    ensures LimitOf(kind)(Resolved(n, Resolver())) == LimitOf(kind)(Resolve(Leaves(n)))
  {
    hide Resolve, TakesStrictest;
    EntriesAreStrictest(tool, kind);
    WeightsAreInjective();
    RiskWeightIsInjective();
    NestedSetting(n, Resolver(), ActionOn(tool), ActionWeight());
    NestedSetting(n, Resolver(), RiskOf(tool), RiskWeight());
    NestedSetting(n, Resolver(), LimitOf(kind), Smaller());
  }

  lemma EntriesOfParts(a: seq<McpPolicy>, b: seq<McpPolicy>, tool: string, kind: LimitKind)
    ensures var p, q := Resolve([Resolve(a), Resolve(b)]), Resolve(a + b);
            && ActionOn(tool)(p) == ActionOn(tool)(q) && RiskOf(tool)(p) == RiskOf(tool)(q)
            && LimitOf(kind)(p) == LimitOf(kind)(q)
  {
    hide Resolve, TakesStrictest;
    EntriesAreStrictest(tool, kind);
    WeightsAreInjective();
    RiskWeightIsInjective();
    SettingOfParts(a, b, Resolver(), ActionOn(tool), ActionWeight());
    SettingOfParts(a, b, Resolver(), RiskOf(tool), RiskWeight());
    SettingOfParts(a, b, Resolver(), LimitOf(kind), Smaller());
  }

  // ---------------------------------------------------------------- argument restrictions need not narrow

  ghost predicate KeepsParentsRestrictions(parent: McpPolicy, child: McpPolicy, tool: string) {
    forall arguments :: Restricted(parent, child).AdmitsArguments(tool, arguments) ==>
      parent.AdmitsArguments(tool, arguments)
  }

  lemma RestrictionsOnBoth(parent: McpPolicy, child: McpPolicy, tool: string)
    ensures Restricted(parent, child).RestrictionsOn(tool) == parent.RestrictionsOn(tool) + child.RestrictionsOn(tool)
  {}

  /** A child's list for a pointer replaces the parent's. Whether the parent's restrictions survive is decided by the
      documents that hold one listed value and nothing else. */
  lemma ArgumentsNarrowIff(parent: McpPolicy, child: McpPolicy, tool: string)
    ensures var both := Restricted(parent, child);
            KeepsParentsRestrictions(parent, child, tool) <==>
            forall pointer, value ::
              IsListed(both.RestrictionsOn(tool), pointer, value) &&
              both.AdmitsArguments(tool, Alone(pointer, value)) ==>
                parent.AdmitsArguments(tool, Alone(pointer, value))
  {
    hide IsListed, Fits, Alone;
    RestrictionsOnBoth(parent, child, tool);
    var strict, wide := Restricted(parent, child).RestrictionsOn(tool), parent.RestrictionsOn(tool);
    NarrowsIff(strict, wide);
    if Narrows(strict, wide) {
      assert forall document :: Restricted(parent, child).AdmitsArguments(tool, document) ==> Fits(strict, document);
    }
    if KeepsParentsRestrictions(parent, child, tool) {
      forall document | Fits(strict, document) ensures Fits(wide, document) {
        assert Restricted(parent, child).AdmitsArguments(tool, document);
      }
    }
  }

  /** The list set for a pointer by the last policy that sets one. */
  function LastListed(chain: seq<McpPolicy>, tool: string, pointer: string): Option<seq<Json>> {
    if chain == [] then None
    else
      var last := chain[|chain| - 1];
      if pointer in last.RestrictionsOn(tool) then Some(last.RestrictionsOn(tool)[pointer])
      else LastListed(chain[..|chain| - 1], tool, pointer)
  }

  lemma {:induction false} ResolvedRestrictions(chain: seq<McpPolicy>, tool: string, pointer: string)
    ensures Entry(Resolve(chain).RestrictionsOn(tool), pointer) == LastListed(chain, tool, pointer)
  {
    if chain != [] {
      var front, last := chain[..|chain| - 1], chain[|chain| - 1];
      ResolvedRestrictions(front, tool, pointer);
      RestrictionsOnBoth(Resolve(front), last, tool);
    }
  }

  lemma {:induction false} LastIsListed(chain: seq<McpPolicy>, tool: string, pointer: string)
    ensures LastListed(chain, tool, pointer).Some? <==>
            exists p :: p in chain && pointer in p.RestrictionsOn(tool)
    ensures LastListed(chain, tool, pointer).Some? ==>
              exists p :: p in chain && Entry(p.RestrictionsOn(tool), pointer) == LastListed(chain, tool, pointer)
  {
    if chain != [] {
      LastIsListed(chain[..|chain| - 1], tool, pointer);
      assert chain == chain[..|chain| - 1] + [chain[|chain| - 1]];
    }
  }

  ghost predicate AllAdmitArguments(chain: seq<McpPolicy>, tool: string, arguments: Json) {
    forall p :: p in chain ==> p.AdmitsArguments(tool, arguments)
  }

  /** Arguments that every policy of the chain admits are admitted. */
  lemma NoArgumentsAreLost(chain: seq<McpPolicy>, tool: string, arguments: Json)
    requires AllAdmitArguments(chain, tool, arguments)
    ensures Resolve(chain).AdmitsArguments(tool, arguments)
  {
    hide Resolve, LastListed, Lookup;
    var restrictions := Resolve(chain).RestrictionsOn(tool);
    forall pointer | pointer in restrictions ensures FitsAt(restrictions, pointer, arguments) {
      ResolvedRestrictions(chain, tool, pointer);
      LastIsListed(chain, tool, pointer);
      var p :| p in chain && Entry(p.RestrictionsOn(tool), pointer) == LastListed(chain, tool, pointer);
      assert FitsAt(p.RestrictionsOn(tool), pointer, arguments);
    }
  }

  // ---------------------------------------------------------------- authorization, field by field

  predicate ListsServer(p: McpPolicy, server: Uuid) {
    p.allowedServers != {} ==> server in p.allowedServers
  }

  predicate ListsTool(p: McpPolicy, tool: string) {
    p.allowedTools != {} ==> tool in p.allowedTools
  }

  /** Each pointer that is restricted for the tool leads nowhere in the arguments or to a listed value. */
  ghost predicate ListsArguments(p: McpPolicy, tool: string, arguments: Json) {
    tool in p.argumentRestrictions ==>
      forall pointer :: pointer in p.argumentRestrictions[tool] && Lookup(arguments, pointer).Some? ==>
        Lookup(arguments, pointer).value in p.argumentRestrictions[tool][pointer]
  }

  lemma ListedByOne(p: McpPolicy, server: Uuid, tool: string, arguments: Json)
    ensures p.AdmitsServer(server) <==> server !in p.deniedServers && ListsServer(p, server)
    ensures p.AdmitsTool(tool) <==> tool !in p.deniedTools && ListsTool(p, tool)
    ensures p.AdmitsArguments(tool, arguments) <==> ListsArguments(p, tool, arguments)
  {
    hide Lookup;
    if p.AdmitsArguments(tool, arguments) && tool in p.argumentRestrictions {
      forall pointer | pointer in p.argumentRestrictions[tool]
        ensures FitsAt(p.argumentRestrictions[tool], pointer, arguments)
      {}
    }
  }

  ghost predicate AllListServer(chain: seq<McpPolicy>, server: Uuid) {
    forall p :: p in chain ==> ListsServer(p, server)
  }

  ghost predicate AllListTool(chain: seq<McpPolicy>, tool: string) {
    forall p :: p in chain ==> ListsTool(p, tool)
  }

  lemma SharedServersIff(chain: seq<McpPolicy>)
    ensures ShareElement(ListsOf(chain, Servers())) <==> exists server :: AllListServer(chain, server)
    ensures ShareElement(ListsOf(chain, Tools())) <==> exists tool :: AllListTool(chain, tool)
  {
    forall server
      ensures AllAdmit(ListsOf(chain, Servers()), server) <==> AllListServer(chain, server)
    {
      AdmittedByMembers(chain, Servers(), server);
      assert forall p: McpPolicy :: Admits(Servers()(p), server) <==> ListsServer(p, server);
    }
    forall tool ensures AllAdmit(ListsOf(chain, Tools()), tool) <==> AllListTool(chain, tool) {
      AdmittedByMembers(chain, Tools(), tool);
      assert forall p: McpPolicy :: Admits(Tools()(p), tool) <==> ListsTool(p, tool);
    }
    hide AllAdmit, AllListServer, AllListTool;
  }

  /** A call is authorized under a chain only if nobody denies its server or its tool. It is if, besides, everybody
      lists both and the arguments. An error tells whether the server or something else was turned down, and if one
      server, or one tool, is on all lists that are not empty, then no other is let through than those on all. */
  lemma AuthorizedInFull(chain: seq<McpPolicy>, server: Uuid, tool: string, arguments: Json)
    ensures var reply := Resolve(chain).Authorize(server, tool, arguments);
            var serverDenied := exists p :: p in chain && server in p.deniedServers;
            var toolDenied := exists p :: p in chain && tool in p.deniedTools;
            var serverListed, toolListed := AllListServer(chain, server), AllListTool(chain, tool);
            var argumentsListed := forall p :: p in chain ==> ListsArguments(p, tool, arguments);
            && reply in [Ok(()), Err(ServerNotAllowed), Err(ToolNotAllowed)]
            && (serverDenied ==> reply == Err(ServerNotAllowed))
            && (!serverDenied && serverListed ==> reply != Err(ServerNotAllowed))
            && (toolDenied ==> reply.Err?)
            && (!serverDenied && serverListed && !toolDenied && toolListed && argumentsListed ==> reply.Ok?)
            && ((exists s :: AllListServer(chain, s)) && !serverListed ==> reply == Err(ServerNotAllowed))
            && ((exists t :: AllListTool(chain, t)) && !toolListed ==> reply.Err?)
  {
    hide Resolve, ListsServer, ListsTool, ListsArguments, McpPolicy.AdmitsServer, McpPolicy.AdmitsTool;
    hide McpPolicy.AdmitsArguments, ShareElement;
    forall p: McpPolicy
      ensures p.AdmitsServer(server) <==> server !in p.deniedServers && ListsServer(p, server)
      ensures p.AdmitsTool(tool) <==> tool !in p.deniedTools && ListsTool(p, tool)
      ensures p.AdmitsArguments(tool, arguments) <==> ListsArguments(p, tool, arguments)
    {
      ListedByOne(p, server, tool, arguments);
    }
    DeniedServers(chain, server);
    DeniedTools(chain, tool);
    ServerIffAllAdmit(chain, server);
    ToolIffAllAdmit(chain, tool);
    SharedServersIff(chain);
    if AllAdmitArguments(chain, tool, arguments) {
      NoArgumentsAreLost(chain, tool, arguments);
    }
  }

  lemma MembersRestrictLess(chain: seq<McpPolicy>, p: McpPolicy, tool: string)
    requires p in chain
    ensures p.RestrictionsOn(tool).Keys <= Resolve(chain).RestrictionsOn(tool).Keys
  {
    hide Resolve, LastListed;
    forall pointer | pointer in p.RestrictionsOn(tool) ensures pointer in Resolve(chain).RestrictionsOn(tool) {
      ResolvedRestrictions(chain, tool, pointer);
      LastIsListed(chain, tool, pointer);
    }
  }

  /** A document that holds one value of the last list set for a pointer, and nothing else, is admitted by the chain but
      not by all its policies. */
  ghost predicate SlipsThrough(chain: seq<McpPolicy>, tool: string, pointer: string, value: Json) {
    && LastListed(chain, tool, pointer).Some? && value in LastListed(chain, tool, pointer).value
    && Tokens(pointer).Some?
    && Resolve(chain).AdmitsArguments(tool, Alone(pointer, value))
    && !AllAdmitArguments(chain, tool, Alone(pointer, value))
  }

  /** A resolved chain of any length admits exactly the arguments that all its policies admit iff none of the finitely
      many documents that hold one listed value slips through. */
  lemma ChainNarrowsIff(chain: seq<McpPolicy>, tool: string)
    ensures (forall arguments ::
               Resolve(chain).AdmitsArguments(tool, arguments) <==> AllAdmitArguments(chain, tool, arguments)) <==>
            forall pointer, value :: !SlipsThrough(chain, tool, pointer, value)
  {
    hide Resolve, LastListed, Fits, Alone, Tokens;
    if forall pointer, value :: !SlipsThrough(chain, tool, pointer, value) {
      forall arguments
        ensures Resolve(chain).AdmitsArguments(tool, arguments) <==> AllAdmitArguments(chain, tool, arguments)
      {
        if Resolve(chain).AdmitsArguments(tool, arguments) {
          TightChainKeeps(chain, tool, arguments);
        }
        if AllAdmitArguments(chain, tool, arguments) {
          NoArgumentsAreLost(chain, tool, arguments);
        }
      }
    }
  }

  lemma TightChainKeeps(chain: seq<McpPolicy>, tool: string, arguments: Json)
    requires forall pointer, value :: !SlipsThrough(chain, tool, pointer, value)
    requires Resolve(chain).AdmitsArguments(tool, arguments)
    ensures AllAdmitArguments(chain, tool, arguments)
  {
    hide Resolve, LastListed, Fits, Alone, Tokens;
    var strict := Resolve(chain).RestrictionsOn(tool);
    forall p | p in chain ensures p.AdmitsArguments(tool, arguments) {
      MembersRestrictLess(chain, p, tool);
      forall pointer, value | IsListed(strict, pointer, value) && Fits(strict, Alone(pointer, value))
        ensures Fits(p.RestrictionsOn(tool), Alone(pointer, value))
      {
        ResolvedRestrictions(chain, tool, pointer);
        assert !SlipsThrough(chain, tool, pointer, value);
        assert p.AdmitsArguments(tool, Alone(pointer, value));
      }
      NarrowsIff(strict, p.RestrictionsOn(tool));
    }
  }

  // ---------------------------------------------------------------- the same, list by list

  /** The last list set for the pointer has a value that some list set for it has not. */
  ghost predicate Loosens(chain: seq<McpPolicy>, tool: string, pointer: string, value: Json) {
    && LastListed(chain, tool, pointer).Some? && value in LastListed(chain, tool, pointer).value
    && exists p :: p in chain && Forbids(p, tool, pointer, value)
  }

  predicate Forbids(p: McpPolicy, tool: string, pointer: string, value: Json) {
    pointer in p.RestrictionsOn(tool) && value !in p.RestrictionsOn(tool)[pointer]
  }

  /** The pointer is valid, and no other restricted one leads to, through, or on from where it leads. */
  ghost predicate IsSeparate(chain: seq<McpPolicy>, tool: string, pointer: string) {
    && Tokens(pointer).Some?
    && forall other :: other != pointer && LastListed(chain, tool, other).Some? && Tokens(other).Some? ==>
         !(Tokens(pointer).value <= Tokens(other).value) && !(Tokens(other).value <= Tokens(pointer).value)
  }

  lemma AloneLeads(pointer: string, value: Json)
    requires Tokens(pointer).Some?
    ensures Lookup(Alone(pointer, value), pointer) == Some(value)
  {
    hide Tokens;
    var tokens := Tokens(pointer).value;
    FollowPlaced(tokens, value, tokens);
  }

  lemma OthersDoNotLead(pointer: string, value: Json, other: string)
    requires Tokens(pointer).Some?
    requires Tokens(other).Some? ==>
               !(Tokens(pointer).value <= Tokens(other).value) && !(Tokens(other).value <= Tokens(pointer).value)
    ensures Lookup(Alone(pointer, value), other) == None
  {
    hide Tokens;
    if Tokens(other).Some? {
      FollowPlaced(Tokens(pointer).value, value, Tokens(other).value);
    }
  }

  /** At a separate pointer, a value that is listed last but not by all slips through. */
  lemma LooseningBreaks(chain: seq<McpPolicy>, tool: string, pointer: string, value: Json)
    requires Loosens(chain, tool, pointer, value) && IsSeparate(chain, tool, pointer)
    ensures SlipsThrough(chain, tool, pointer, value)
  {
    hide Resolve, LastListed, Alone, Tokens, Lookup;
    var strict, document := Resolve(chain).RestrictionsOn(tool), Alone(pointer, value);
    AloneLeads(pointer, value);
    forall other | other in strict ensures FitsAt(strict, other, document) {
      ResolvedRestrictions(chain, tool, other);
      if other != pointer {
        OthersDoNotLead(pointer, value, other);
      }
    }
    var p :| p in chain && Forbids(p, tool, pointer, value);
    assert !FitsAt(p.RestrictionsOn(tool), pointer, document);
  }

  /** At whatever pointers, if every value that is listed last is in all lists, all policies are kept. */
  lemma TightListsKeep(chain: seq<McpPolicy>, tool: string, arguments: Json)
    requires forall pointer, value :: Tokens(pointer).Some? ==> !Loosens(chain, tool, pointer, value)
    requires Resolve(chain).AdmitsArguments(tool, arguments)
    ensures AllAdmitArguments(chain, tool, arguments)
  {
    hide Resolve, LastListed, Tokens, Follow;
    var strict := Resolve(chain).RestrictionsOn(tool);
    forall p, pointer | p in chain && pointer in p.RestrictionsOn(tool)
      ensures FitsAt(p.RestrictionsOn(tool), pointer, arguments)
    {
      ResolvedRestrictions(chain, tool, pointer);
      LastIsListed(chain, tool, pointer);
      assert FitsAt(strict, pointer, arguments);
      if Lookup(arguments, pointer).Some? {
        assert !Loosens(chain, tool, pointer, Lookup(arguments, pointer).value);
        assert !Forbids(p, tool, pointer, Lookup(arguments, pointer).value);
      }
    }
  }

  /** A chain whose valid pointers are separate admits exactly what all its policies admit iff, for each of them, every
      value of the last list set for it is in every list set for it. */
  lemma SeparateChainNarrowsIff(chain: seq<McpPolicy>, tool: string)
    requires forall pointer :: LastListed(chain, tool, pointer).Some? && Tokens(pointer).Some? ==>
               IsSeparate(chain, tool, pointer)
    ensures (forall arguments ::
               Resolve(chain).AdmitsArguments(tool, arguments) <==> AllAdmitArguments(chain, tool, arguments)) <==>
            forall pointer, value :: Tokens(pointer).Some? ==> !Loosens(chain, tool, pointer, value)
  {
    hide Resolve, LastListed, Fits, Alone, Tokens, IsSeparate;
    ChainNarrowsIff(chain, tool);
    forall pointer, value | Tokens(pointer).Some? && Loosens(chain, tool, pointer, value)
      ensures SlipsThrough(chain, tool, pointer, value)
    {
      LooseningBreaks(chain, tool, pointer, value);
    }
    if forall pointer, value :: Tokens(pointer).Some? ==> !Loosens(chain, tool, pointer, value) {
      forall pointer, value ensures !SlipsThrough(chain, tool, pointer, value) {
        if SlipsThrough(chain, tool, pointer, value) {
          TightListsKeep(chain, tool, Alone(pointer, value));
        }
      }
    }
  }

  function Restricting(tool: string, restrictions: Restrictions): McpPolicy {
    OPEN.(argumentRestrictions := map[tool := restrictions])
  }

  lemma ResolvedRestricting(tool: string, first: Restrictions, second: Restrictions)
    ensures var chain := [Restricting(tool, first), Restricting(tool, second)];
            && Resolve(chain).RestrictionsOn(tool) == first + second
            && forall pointer :: LastListed(chain, tool, pointer) == Entry(first + second, pointer)
  {
    hide Restricted, LastListed;
    var p, q := Restricting(tool, first), Restricting(tool, second);
    var chain := [p, q];
    assert chain[..1] == [p] && [p][..0] == [];
    assert Resolve([p]) == Restricted(OPEN, p) && Resolve(chain) == Restricted(Resolve([p]), q);
    RestrictionsOnBoth(OPEN, p, tool);
    RestrictionsOnBoth(Restricted(OPEN, p), q, tool);
    assert map[] + first == first;
    forall pointer ensures LastListed(chain, tool, pointer) == Entry(first + second, pointer) {
      ResolvedRestrictions(chain, tool, pointer);
    }
  }

  ghost predicate IsExactOn(chain: seq<McpPolicy>, tool: string) {
    forall arguments :: Resolve(chain).AdmitsArguments(tool, arguments) <==> AllAdmitArguments(chain, tool, arguments)
  }

  lemma ExactPair(tool: string, first: Restrictions, second: Restrictions)
    requires forall document :: Fits(first + second, document) <==> Fits(first, document) && Fits(second, document)
    ensures IsExactOn([Restricting(tool, first), Restricting(tool, second)], tool)
  {
    hide Resolve, Fits;
    ResolvedRestricting(tool, first, second);
    var chain := [Restricting(tool, first), Restricting(tool, second)];
    assert chain[0] in chain && chain[1] in chain;
    forall arguments
      ensures Resolve(chain).AdmitsArguments(tool, arguments) <==> AllAdmitArguments(chain, tool, arguments)
    {
      assert chain[0].RestrictionsOn(tool) == first && chain[1].RestrictionsOn(tool) == second;
    }
  }

  /** A text that is no pointer restricts nothing, whatever is listed for it. */
  lemma InvalidPointersDoNotMatter(tool: string, pointer: string, mine: Json, theirs: Json)
    requires Tokens(pointer).None? && mine != theirs
    ensures var chain := [Restricting(tool, map[pointer := [mine]]), Restricting(tool, map[pointer := [theirs]])];
            Loosens(chain, tool, pointer, theirs) && IsExactOn(chain, tool)
  {
    var first: Restrictions, second: Restrictions := map[pointer := [mine]], map[pointer := [theirs]];
    ResolvedRestricting(tool, first, second);
    ExactPair(tool, first, second);
    var chain := [Restricting(tool, first), Restricting(tool, second)];
    assert chain[0] in chain && Forbids(chain[0], tool, pointer, theirs);
  }

  /** And one pointer may be decided by another: if `/a` must be `{"b": 1}`, then `/a/b` is 1 or nothing, so that to
      list 2 for it later admits nothing new. */
  lemma DependentPointersMayKeep(tool: string)
    ensures var a, b := Obj([Member("b", Number("1"))]), Number("2");
            var chain := [Restricting(tool, map["/a" := [a], "/a/b" := [Number("1")]]),
                          Restricting(tool, map["/a/b" := [b]])];
            Loosens(chain, tool, "/a/b", b) && IsExactOn(chain, tool)
  {
    hide Lookup, Resolve, LastListed;
    var a, b := Obj([Member("b", Number("1"))]), Number("2");
    var first: Restrictions, second: Restrictions := map["/a" := [a], "/a/b" := [Number("1")]], map["/a/b" := [b]];
    forall document ensures Fits(first + second, document) <==> Fits(first, document) && Fits(second, document) {
      WhatIsUnder(document, a, Number("1"));
      assert (first + second)["/a"] == [a] && (first + second)["/a/b"] == [b];
      if Fits(first + second, document) {
        assert FitsAt(first + second, "/a", document) && FitsAt(first + second, "/a/b", document);
      }
      if Fits(first, document) && Fits(second, document) {
        assert FitsAt(first, "/a", document) && FitsAt(second, "/a/b", document);
      }
    }
    ResolvedRestricting(tool, first, second);
    ExactPair(tool, first, second);
    var chain := [Restricting(tool, first), Restricting(tool, second)];
    assert chain[0] in chain && Forbids(chain[0], tool, "/a/b", b);
  }

  lemma TokensOfPath()
    ensures Tokens("/a") == Some(["a"]) && Tokens("/a/b") == Some(["a", "b"])
  {
    OneToken("a");
    TwoTokens("a", "b");
    assert "/a" == "/" + "a" && "/a/b" == "/" + "a" + "/" + "b";
  }

  lemma WhatIsUnder(document: Json, a: Json, b: Json)
    requires a == Obj([Member("b", b)])
    ensures Lookup(document, "/a") == Some(a) ==> Lookup(document, "/a/b") == Some(b)
    ensures Lookup(document, "/a") == None ==> Lookup(document, "/a/b") == None
  {
    TokensOfPath();
    FollowOn(document, ["a"], ["b"]);
    assert ["a"] + ["b"] == ["a", "b"];
    assert ["b"][1..] == [];
    assert Follow(a, ["b"]) == Some(b);
  }
}
