/** Security policies: flags, a size cap and a table of actions, tightened along a chain. */
module SecurityPolicies {
  import opened Types
  import opened Strictness

  datatype SecurityCategory =
    | PromptInjection | JailbreakAttempt | SecretExposure | CredentialExposure | SensitivePersonalData
    | FinancialData | SourceCodeSecret | DataExfiltrationAttempt | PolicyViolation | SuspiciousToolArgument
    | SuspiciousToolResult

  datatype SecuritySeverity = Low | Medium | High | Critical

  type Actions = map<SecurityCategory, map<SecuritySeverity, SecurityAction>>

  datatype SecurityPolicy = SecurityPolicy(
    enabled: bool,
    failOpen: bool,
    inspectLlmInput: bool,
    inspectLlmOutput: bool,
    inspectMcpArguments: bool,
    inspectMcpResults: bool,
    createIncidents: bool,
    maximumContentBytes: nat,
    actions: Actions)
  {
    function Action(category: SecurityCategory, severity: SecuritySeverity, recommended: SecurityAction)
      : SecurityAction
    {
      match ActionAt(category, severity)(this)
      case Some(action) => action
      case None => recommended
    }
  }

  const DEFAULT_POLICY: SecurityPolicy := SecurityPolicy(true, false, true, false, true, true, true, 1_048_576, map[])

  function ActionAt(category: SecurityCategory, severity: SecuritySeverity): SecurityPolicy -> Option<SecurityAction> {
    (p: SecurityPolicy) =>
      match Entry(p.actions, category)
      case Some(items) => Entry(items, severity)
      case None => None
  }

  function RestrictedTable(parent: Actions, child: Actions): Actions {
    NestedMerged(parent, child, TakeStricter(ActionWeight()))
  }

  function Restricted(parent: SecurityPolicy, child: SecurityPolicy): SecurityPolicy {
    SecurityPolicy(
      parent.enabled || child.enabled,
      parent.failOpen && child.failOpen,
      parent.inspectLlmInput || child.inspectLlmInput,
      parent.inspectLlmOutput || child.inspectLlmOutput,
      parent.inspectMcpArguments || child.inspectMcpArguments,
      parent.inspectMcpResults || child.inspectMcpResults,
      parent.createIncidents || child.createIncidents,
      if child.maximumContentBytes < parent.maximumContentBytes then child.maximumContentBytes
      else parent.maximumContentBytes,
      RestrictedTable(parent.actions, child.actions))
  }

  lemma AllowIsLeast()
    ensures forall action :: TakeStricter(ActionWeight())(Allow, action) == action
  {}

  /** The loops over the child's table; an entry starts at `Allow` and is raised if the child's action is stricter. */
  method RestrictTable(parent: Actions, child: Actions) returns (table: Actions)
    ensures table == RestrictedTable(parent, child)
  {
    AllowIsLeast();
    table := MergeNested(parent, child, TakeStricter(ActionWeight()), Allow);
  }

  method RestrictWith(parent: SecurityPolicy, child: SecurityPolicy) returns (r: SecurityPolicy)
    ensures r == Restricted(parent, child)
  {
    var table := RestrictTable(parent.actions, child.actions);
    var cap := if child.maximumContentBytes < parent.maximumContentBytes then child.maximumContentBytes
               else parent.maximumContentBytes;
    r := SecurityPolicy(
      parent.enabled || child.enabled,
      parent.failOpen && child.failOpen,
      parent.inspectLlmInput || child.inspectLlmInput,
      parent.inspectLlmOutput || child.inspectLlmOutput,
      parent.inspectMcpArguments || child.inspectMcpArguments,
      parent.inspectMcpResults || child.inspectMcpResults,
      parent.createIncidents || child.createIncidents,
      cap,
      table);
  }

  /** The fold starts from the first policy; without any, the default applies. */
  function Resolve(chain: seq<SecurityPolicy>): SecurityPolicy {
    if chain == [] then DEFAULT_POLICY
    else if |chain| == 1 then chain[0]
    else Restricted(Resolve(chain[..|chain| - 1]), chain[|chain| - 1])
  }

  // ---------------------------------------------------------------- chains only tighten

  lemma RestrictedEntry(parent: SecurityPolicy, child: SecurityPolicy, category: SecurityCategory,
                        severity: SecuritySeverity)
    ensures var at := ActionAt(category, severity);
            at(Restricted(parent, child)) == Stricter(at(parent), at(child), ActionWeight())
  {
    if category in parent.actions && category in child.actions {
      StricterEntry(parent.actions[category], child.actions[category], ActionWeight(), severity);
    }
  }

  /** What a chain says about a category and severity is the strictest action anybody sets for it. */
  lemma {:induction false} ResolvedAction(chain: seq<SecurityPolicy>, category: SecurityCategory,
                                          severity: SecuritySeverity)
    requires chain != []
    ensures IsStrictest(ActionAt(category, severity)(Resolve(chain)), chain, ActionAt(category, severity),
                        ActionWeight())
  {
    var at := ActionAt(category, severity);
    if |chain| > 1 {
      var front, last := chain[..|chain| - 1], chain[|chain| - 1];
      assert chain == front + [last];
      ResolvedAction(front, category, severity);
      RestrictedEntry(Resolve(front), last, category, severity);
      StrictestOfMore(at(Resolve(front)), front, last, at, ActionWeight());
    }
  }

  datatype Flag = Enabled | FailClosed | LlmInput | LlmOutput | McpArguments | McpResults | Incidents

  /** Whether a policy takes the strict side of a flag. */
  function Strict(flag: Flag): SecurityPolicy -> Option<bool> {
    match flag
    case Enabled => (p: SecurityPolicy) => Some(p.enabled)
    case FailClosed => (p: SecurityPolicy) => Some(!p.failOpen)
    case LlmInput => (p: SecurityPolicy) => Some(p.inspectLlmInput)
    case LlmOutput => (p: SecurityPolicy) => Some(p.inspectLlmOutput)
    case McpArguments => (p: SecurityPolicy) => Some(p.inspectMcpArguments)
    case McpResults => (p: SecurityPolicy) => Some(p.inspectMcpResults)
    case Incidents => (p: SecurityPolicy) => Some(p.createIncidents)
  }

  function TrueWeighs(): bool -> int {
    (b: bool) => if b then 1 else 0
  }

  function Cap(): SecurityPolicy -> Option<nat> {
    (p: SecurityPolicy) => Some(p.maximumContentBytes)
  }

  /** A flag of the result is strict iff some policy of the chain takes the strict side. */
  lemma {:induction false} ResolvedFlag(chain: seq<SecurityPolicy>, flag: Flag)
    requires chain != []
    ensures IsStrictest(Strict(flag)(Resolve(chain)), chain, Strict(flag), TrueWeighs())
  {
    if |chain| > 1 {
      var front, last := chain[..|chain| - 1], chain[|chain| - 1];
      assert chain == front + [last];
      ResolvedFlag(front, flag);
      StrictestOfMore(Strict(flag)(Resolve(front)), front, last, Strict(flag), TrueWeighs());
    }
  }

  /** The size cap of the result is the smallest one. */
  lemma {:induction false} ResolvedCap(chain: seq<SecurityPolicy>)
    requires chain != []
    ensures IsStrictest(Cap()(Resolve(chain)), chain, Cap(), Smaller())
  {
    if |chain| > 1 {
      var front, last := chain[..|chain| - 1], chain[|chain| - 1];
      assert chain == front + [last];
      ResolvedCap(front);
      StrictestOfMore(Cap()(Resolve(front)), front, last, Cap(), Smaller());
    }
  }

  /** Adding policies to a chain never weakens what it says explicitly, a flag or the cap. */
  lemma ChainsOnlyTighten(chain: seq<SecurityPolicy>, p: SecurityPolicy, category: SecurityCategory,
                          severity: SecuritySeverity, recommended: SecurityAction, flag: Flag)
    requires p in chain
    ensures Resolve(chain).maximumContentBytes <= p.maximumContentBytes
    ensures Strict(flag)(p) == Some(true) ==> Strict(flag)(Resolve(chain)) == Some(true)
    ensures ActionAt(category, severity)(p).Some? ==>
              p.Action(category, severity, recommended).Priority()
                <= Resolve(chain).Action(category, severity, recommended).Priority()
  {
    ResolvedCap(chain);
    ResolvedFlag(chain, flag);
    ResolvedAction(chain, category, severity);
    assert Cap()(p).Some? && Strict(flag)(p).Some?;
  }

  predicate Sets(p: SecurityPolicy, category: SecurityCategory, severity: SecuritySeverity, action: SecurityAction) {
    category in p.actions && severity in p.actions[category] && p.actions[category][severity] == action
  }

  /** The action under a chain: the strictest one anybody sets for the category and severity, or the recommended one. */
  lemma ActionInFull(chain: seq<SecurityPolicy>, category: SecurityCategory, severity: SecuritySeverity,
                     recommended: SecurityAction)
    requires chain != []
    ensures var action := Resolve(chain).Action(category, severity, recommended);
            if exists p, a :: p in chain && Sets(p, category, severity, a) then
              && (exists p :: p in chain && Sets(p, category, severity, action))
              && (forall p, a :: p in chain && Sets(p, category, severity, a) ==> AsStrict(action, a))
            else action == recommended
  {
    var at := ActionAt(category, severity);
    forall p, a ensures at(p) == Some(a) <==> Sets(p, category, severity, a) {}
    ResolvedAction(chain, category, severity);
    StrictestActionIs(at(Resolve(chain)), chain, at);
    hide Resolve, IsStrictest, AsStrict, Sets, ActionAt;
    if p :| p in chain && at(p).Some? {
      assert Sets(p, category, severity, at(p).value);
    }
    assert forall p, a :: p in chain && Sets(p, category, severity, a) ==> at(p) == Some(a);
  }

  /** Under a chain everything is inspected that anybody wants inspected, up to the smallest size; failing open takes
      everybody. */
  lemma FlagsInFull(chain: seq<SecurityPolicy>)
    requires chain != []
    ensures var r := Resolve(chain);
            && (r.enabled <==> exists p :: p in chain && p.enabled)
            && (r.failOpen <==> forall p :: p in chain ==> p.failOpen)
            && (r.inspectLlmInput <==> exists p :: p in chain && p.inspectLlmInput)
            && (r.inspectLlmOutput <==> exists p :: p in chain && p.inspectLlmOutput)
            && (r.inspectMcpArguments <==> exists p :: p in chain && p.inspectMcpArguments)
            && (r.inspectMcpResults <==> exists p :: p in chain && p.inspectMcpResults)
            && (r.createIncidents <==> exists p :: p in chain && p.createIncidents)
            && (exists p :: p in chain && p.maximumContentBytes == r.maximumContentBytes)
            && (forall p :: p in chain ==> r.maximumContentBytes <= p.maximumContentBytes)
  {
    FlagIff(chain, Enabled);
    FlagIff(chain, FailClosed);
    FlagIff(chain, LlmInput);
    FlagIff(chain, LlmOutput);
    FlagIff(chain, McpArguments);
    FlagIff(chain, McpResults);
    FlagIff(chain, Incidents);
    ResolvedCap(chain);
    hide Resolve;
    forall p: SecurityPolicy ensures Cap()(p) == Some(p.maximumContentBytes) {}
    assert exists p :: p in chain && Cap()(p) == Cap()(Resolve(chain));
  }

  lemma FlagIff(chain: seq<SecurityPolicy>, flag: Flag)
    requires chain != []
    ensures Strict(flag)(Resolve(chain)) == Some(exists p :: p in chain && Strict(flag)(p) == Some(true))
  {
    ResolvedFlag(chain, flag);
    hide Resolve;
    forall p: SecurityPolicy ensures Strict(flag)(p).Some? {}
  }

  lemma OrderDoesNotMatter(a: seq<SecurityPolicy>, b: seq<SecurityPolicy>, category: SecurityCategory,
                           severity: SecuritySeverity, flag: Flag)
    requires a != [] && b != [] && SameMembers(a, b)
    ensures ActionAt(category, severity)(Resolve(a)) == ActionAt(category, severity)(Resolve(b))
    ensures Strict(flag)(Resolve(a)) == Strict(flag)(Resolve(b))
    ensures Resolve(a).maximumContentBytes == Resolve(b).maximumContentBytes
  {
    WeightsAreInjective();
    ResolvedAction(a, category, severity);
    ResolvedAction(b, category, severity);
    var at := ActionAt(category, severity);
    StrictestIsUnique(at(Resolve(a)), at(Resolve(b)), a, b, at, ActionWeight());
    ResolvedFlag(a, flag);
    ResolvedFlag(b, flag);
    StrictestIsUnique(Strict(flag)(Resolve(a)), Strict(flag)(Resolve(b)), a, b, Strict(flag), TrueWeighs());
    ResolvedCap(a);
    ResolvedCap(b);
    StrictestIsUnique(Cap()(Resolve(a)), Cap()(Resolve(b)), a, b, Cap(), Smaller());
  }
}
