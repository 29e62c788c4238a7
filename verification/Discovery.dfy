/** The limits that a discovered tool's input schema must keep. */
module Discovery {
  import opened Types
  import opened Permutations

  datatype SchemaError = TooLarge | Invalid

  datatype SchemaLimits = SchemaLimits(
    maximumBytes: U64,
    maximumDepth: U64,
    maximumProperties: U64,
    maximumStringBytes: U64)

  /** A tool as a server describes it; `encodedBytes` is the size of its schema when written out. */
  datatype Tool = Tool(name: string, description: Option<string>, inputSchema: Json, encodedBytes: nat)

  function Children(v: Json): (children: seq<Json>)
    ensures forall i :: 0 <= i < |children| ==> children[i] < v
  {
    match v
    case Arr(items) => items
    case Obj(members) => seq(|members|, i requires 0 <= i < |members| => members[i].value)
    case _ => []
  }

  function OwnMembers(v: Json): nat {
    if v.Obj? then |v.members| else 0
  }

  function SumOf(numbers: seq<nat>): nat {
    if numbers == [] then 0 else SumOf(numbers[..|numbers| - 1]) + numbers[|numbers| - 1]
  }

  function MaxOf(numbers: seq<nat>): nat {
    if numbers == [] then 0
    else
      var rest, last := MaxOf(numbers[..|numbers| - 1]), numbers[|numbers| - 1];
      if last > rest then last else rest
  }

  /** The number of members of all objects within a value. */
  function Members(v: Json): nat {
    var children := Children(v);
    OwnMembers(v) + SumOf(seq(|children|, i requires 0 <= i < |children| => Members(children[i])))
  }

  /** How deep values nest within a value. */
  function Height(v: Json): nat {
    var children := Children(v);
    MaxOf(seq(|children|, i requires 0 <= i < |children| => Height(children[i]) + 1))
  }

  predicate StringsFit(v: Json, limit: nat) {
    && (v.Str? ==> Utf8Length(v.s) <= limit)
    && forall i :: 0 <= i < |Children(v)| ==> StringsFit(Children(v)[i], limit)
  }

  predicate WellFormed(v: Json) {
    OwnWellFormed(v) && forall i :: 0 <= i < |Children(v)| ==> WellFormed(Children(v)[i])
  }

  predicate ValidType(kind: string) {
    kind == "null" || kind == "boolean" || kind == "object" || kind == "array" || kind == "number" ||
    kind == "integer" || kind == "string"
  }

  predicate NamesType(v: Json) {
    v.Str? && ValidType(v.s)
  }

  const REF_PREFIX: string := "#/"

  predicate TypeIsGood(kind: Option<Json>) {
    kind.None? || NamesType(kind.value) ||
    (kind.value.Arr? && kind.value.items != [] &&
     forall i :: 0 <= i < |kind.value.items| ==> NamesType(kind.value.items[i]))
  }

  predicate PropertiesAreGood(properties: Option<Json>) {
    properties.None? || properties.value.Obj?
  }

  predicate RequiredIsGood(required: Option<Json>) {
    required.None? ||
    (required.value.Arr? && forall i :: 0 <= i < |required.value.items| ==> required.value.items[i].Str?)
  }

  predicate RefIsGood(target: Option<Json>) {
    target.None? || !target.value.Str? || REF_PREFIX <= target.value.s
  }

  /** What a schema object must look like where it has these members. */
  predicate OwnWellFormed(v: Json) {
    v.Obj? ==>
      TypeIsGood(GetMember(v.members, "type")) && PropertiesAreGood(GetMember(v.members, "properties")) &&
      RequiredIsGood(GetMember(v.members, "required")) && RefIsGood(GetMember(v.members, "$ref"))
  }

  // ---------------------------------------------------------------- all measures of a value at once

  datatype Measured = Measured(height: nat, members: nat, stringsFit: bool, wellFormed: bool)

  ghost function Measure(v: Json, stringLimit: nat): Measured {
    Measured(Height(v), Members(v), StringsFit(v, stringLimit), WellFormed(v))
  }

  ghost function MeasureAll(children: seq<Json>, stringLimit: nat): seq<Measured> {
    seq(|children|, i requires 0 <= i < |children| => Measure(children[i], stringLimit))
  }

  ghost function Beside(all: Measured, child: Measured): Measured {
    Measured(if child.height + 1 > all.height then child.height + 1 else all.height, all.members + child.members,
             all.stringsFit && child.stringsFit, all.wellFormed && child.wellFormed)
  }

  ghost function Join(children: seq<Measured>): Measured {
    if children == [] then Measured(0, 0, true, true)
    else Beside(Join(children[..|children| - 1]), children[|children| - 1])
  }

  /** The limits for a value at `depth`, when `properties` members were counted before it. */
  ghost predicate Fits(m: Measured, depth: nat, properties: nat, limits: SchemaLimits) {
    depth + m.height <= limits.maximumDepth && m.stringsFit &&
    SaturatingAdd(properties, m.members) <= limits.maximumProperties
  }

  ghost function HeightsOf(all: seq<Measured>): seq<nat> {
    seq(|all|, i requires 0 <= i < |all| => all[i].height + 1)
  }

  ghost function CountsOf(all: seq<Measured>): seq<nat> {
    seq(|all|, i requires 0 <= i < |all| => all[i].members)
  }

  lemma {:induction false} JoinedNumbers(all: seq<Measured>)
    ensures Join(all).height == MaxOf(HeightsOf(all)) && Join(all).members == SumOf(CountsOf(all))
  {
    if all != [] {
      var front := all[..|all| - 1];
      JoinedNumbers(front);
      assert HeightsOf(all)[..|all| - 1] == HeightsOf(front);
      assert CountsOf(all)[..|all| - 1] == CountsOf(front);
    }
  }

  lemma {:induction false} JoinedFlags(all: seq<Measured>)
    ensures Join(all).stringsFit <==> forall i :: 0 <= i < |all| ==> all[i].stringsFit
    ensures Join(all).wellFormed <==> forall i :: 0 <= i < |all| ==> all[i].wellFormed
  {
    if all != [] {
      var front, last := all[..|all| - 1], all[|all| - 1];
      JoinedFlags(front);
      assert forall i :: 0 <= i < |front| ==> all[i] == front[i];
      assert forall i :: 0 <= i < |all| ==> i < |front| || all[i] == last;
    }
  }

  lemma HeightFromChildren(v: Json, stringLimit: nat)
    ensures Height(v) == Join(MeasureAll(Children(v), stringLimit)).height
  {
    var children := Children(v);
    var all := MeasureAll(children, stringLimit);
    var heights := seq(|children|, i requires 0 <= i < |children| => Height(children[i]) + 1);
    assert HeightsOf(all) == heights by {
      assert forall i :: 0 <= i < |children| ==> HeightsOf(all)[i] == heights[i];
    }
    assert Height(v) == MaxOf(heights);
    JoinedNumbers(all);
  }

  lemma MembersFromChildren(v: Json, stringLimit: nat)
    ensures Members(v) == OwnMembers(v) + Join(MeasureAll(Children(v), stringLimit)).members
  {
    var children := Children(v);
    var all := MeasureAll(children, stringLimit);
    var counts := seq(|children|, i requires 0 <= i < |children| => Members(children[i]));
    assert CountsOf(all) == counts by {
      assert forall i :: 0 <= i < |children| ==> CountsOf(all)[i] == counts[i];
    }
    assert Members(v) == OwnMembers(v) + SumOf(counts);
    JoinedNumbers(all);
  }

  lemma FlagsFromChildren(v: Json, stringLimit: nat)
    ensures var joined := Join(MeasureAll(Children(v), stringLimit));
            && (StringsFit(v, stringLimit) <==> (v.Str? ==> Utf8Length(v.s) <= stringLimit) && joined.stringsFit)
            && (WellFormed(v) <==> OwnWellFormed(v) && joined.wellFormed)
  {
    hide Join, Height, Members, Utf8Length;
    var children := Children(v);
    var all := MeasureAll(children, stringLimit);
    JoinedFlags(all);
    assert forall i :: 0 <= i < |children| ==> all[i] == Measure(children[i], stringLimit);
  }

  /** A value's measures are its own and those of its children joined. */
  lemma MeasureFromChildren(v: Json, stringLimit: nat)
    ensures var m, joined := Measure(v, stringLimit), Join(MeasureAll(Children(v), stringLimit));
            && m.height == joined.height && m.members == OwnMembers(v) + joined.members
            && (m.stringsFit <==> (v.Str? ==> Utf8Length(v.s) <= stringLimit) && joined.stringsFit)
            && (m.wellFormed <==> OwnWellFormed(v) && joined.wellFormed)
  {
    HeightFromChildren(v, stringLimit);
    MembersFromChildren(v, stringLimit);
    FlagsFromChildren(v, stringLimit);
  }

  lemma OneMore(all: seq<Measured>, n: nat)
    requires n < |all|
    ensures Join(all[..n + 1]) == Beside(Join(all[..n]), all[n])
  {
    assert all[..n + 1][..n] == all[..n];
  }

  /** What does not fit, or is not well formed, stays so with more children. */
  lemma {:induction false} FirstToFail(all: seq<Measured>, n: nat, depth: nat, properties: nat, limits: SchemaLimits)
    requires n <= |all|
    ensures !Fits(Join(all[..n]), depth, properties, limits) ==> !Fits(Join(all), depth, properties, limits)
    ensures !Join(all[..n]).wellFormed ==> !Join(all).wellFormed
    decreases |all| - n
  {
    if n == |all| {
      assert all[..n] == all;
    } else {
      OneMore(all, n);
      FirstToFail(all, n + 1, depth, properties, limits);
    }
  }

  // ---------------------------------------------------------------- the rules, value by value

  /** `w` is what one gets to from `v` by going to the item or member with each of these numbers in turn. */
  predicate IsAt(v: Json, path: seq<nat>, w: Json)
    decreases |path|
  {
    if path == [] then v == w
    else
      match v
      case Arr(items) => path[0] < |items| && IsAt(items[path[0]], path[1..], w)
      case Obj(members) => path[0] < |members| && IsAt(members[path[0]].value, path[1..], w)
      case _ => false
  }

  predicate IsTypeName(v: Json) {
    v.Str? && v.s in ["null", "boolean", "object", "array", "number", "integer", "string"]
  }

  /** The four rules for the members of a schema object. */
  predicate FollowsRules(members: seq<Member>) {
    && (match GetMember(members, "type")
        case None => true
        case Some(Arr(items)) => items != [] && forall i :: 0 <= i < |items| ==> IsTypeName(items[i])
        case Some(kind) => IsTypeName(kind))
    && (match GetMember(members, "properties") case Some(value) => value.Obj? case None => true)
    && (match GetMember(members, "required")
        case None => true
        case Some(Arr(items)) => forall i :: 0 <= i < |items| ==> items[i].Str?
        case Some(_) => false)
    && (match GetMember(members, "$ref")
        case Some(Str(target)) => |target| >= 2 && target[0] == '#' && target[1] == '/'
        case _ => true)
  }

  lemma RulesAre(members: seq<Member>)
    ensures OwnWellFormed(Obj(members)) <==> FollowsRules(members)
  {
    hide GetMember;
    var kind := GetMember(members, "type");
    if kind.Some? && kind.value.Arr? {
      forall i | 0 <= i < |kind.value.items| ensures NamesType(kind.value.items[i]) <==> IsTypeName(kind.value.items[i])
      {}
    }
    var target := GetMember(members, "$ref");
    if target.Some? && target.value.Str? {
      var text := target.value.s;
      assert REF_PREFIX == ['#', '/'];
      assert |text| >= 2 ==> text[..2] == [text[0], text[1]];
    }
  }

  /** No more than this many steps lead to anything within the value. */
  ghost predicate NestsWithin(v: Json, depth: int) {
    forall path, w :: IsAt(v, path, w) ==> |path| <= depth
  }

  ghost predicate AllStringsFit(v: Json, limit: nat) {
    forall path, w :: IsAt(v, path, w) && w.Str? ==> Utf8Length(w.s) <= limit
  }

  ghost predicate AllFollowRules(v: Json) {
    forall path, w :: IsAt(v, path, w) && w.Obj? ==> FollowsRules(w.members)
  }

  lemma StepIsChild(v: Json, path: seq<nat>, w: Json)
    requires path != []
    ensures IsAt(v, path, w) <==> path[0] < |Children(v)| && IsAt(Children(v)[path[0]], path[1..], w)
  {}

  lemma {:induction false} HighestFirst(numbers: seq<nat>)
    ensures forall i :: 0 <= i < |numbers| ==> numbers[i] <= MaxOf(numbers)
    ensures MaxOf(numbers) == 0 || MaxOf(numbers) in numbers
  {
    if numbers != [] {
      HighestFirst(numbers[..|numbers| - 1]);
      assert numbers == numbers[..|numbers| - 1] + [numbers[|numbers| - 1]];
    }
  }

  lemma HeightOfChildren(v: Json)
    ensures forall i :: 0 <= i < |Children(v)| ==> Height(Children(v)[i]) < Height(v)
    ensures Height(v) == 0 || exists i :: 0 <= i < |Children(v)| && Height(v) == Height(Children(v)[i]) + 1
  {
    var children := Children(v);
    var heights := seq(|children|, i requires 0 <= i < |children| => Height(children[i]) + 1);
    assert Height(v) == MaxOf(heights);
    HighestFirst(heights);
    forall i | 0 <= i < |children| ensures Height(children[i]) < Height(v) {
      assert heights[i] == Height(children[i]) + 1;
    }
    if Height(v) > 0 {
      var i :| 0 <= i < |heights| && heights[i] == MaxOf(heights);
      assert Height(v) == Height(children[i]) + 1;
    }
  }

  /** The height is the greatest number of steps that lead to something. */
  lemma {:induction false} NoneIsDeeper(v: Json, path: seq<nat>, w: Json)
    requires IsAt(v, path, w)
    ensures |path| <= Height(v)
    decreases |path|
  {
    if path != [] {
      StepIsChild(v, path, w);
      HeightOfChildren(v);
      NoneIsDeeper(Children(v)[path[0]], path[1..], w);
    }
  }

  lemma {:induction false} SomethingIsAsDeep(v: Json) returns (path: seq<nat>, w: Json)
    ensures IsAt(v, path, w) && |path| == Height(v)
    decreases v
  {
    HeightOfChildren(v);
    if Height(v) == 0 {
      path, w := [], v;
    } else {
      var i :| 0 <= i < |Children(v)| && Height(v) == Height(Children(v)[i]) + 1;
      var rest;
      rest, w := SomethingIsAsDeep(Children(v)[i]);
      path := [i] + rest;
      assert path[1..] == rest;
      StepIsChild(v, path, w);
    }
  }

  lemma {:induction false} FitIff(v: Json, limit: nat)
    ensures StringsFit(v, limit) <==> AllStringsFit(v, limit)
    ensures WellFormed(v) <==> AllFollowRules(v)
    decreases v
  {
    hide StringsFit, WellFormed, Utf8Length, OwnWellFormed, FollowsRules, IsAt;
    var children := Children(v);
    FitChildren(v, limit);
    forall i | 0 <= i < |children|
      ensures StringsFit(children[i], limit) <==> AllStringsFit(children[i], limit)
      ensures WellFormed(children[i]) <==> AllFollowRules(children[i])
    {
      FitIff(children[i], limit);
    }
    AtOrBelow(v, limit);
    if v.Obj? {
      RulesAre(v.members);
    }
  }

  lemma FitChildren(v: Json, limit: nat)
    ensures StringsFit(v, limit) <==>
            (v.Str? ==> Utf8Length(v.s) <= limit) &&
            forall i :: 0 <= i < |Children(v)| ==> StringsFit(Children(v)[i], limit)
    ensures WellFormed(v) <==> OwnWellFormed(v) && forall i :: 0 <= i < |Children(v)| ==> WellFormed(Children(v)[i])
    ensures !v.Obj? ==> OwnWellFormed(v)
  {}

  lemma AtOrBelow(v: Json, limit: nat)
    ensures AllStringsFit(v, limit) <==>
            (v.Str? ==> Utf8Length(v.s) <= limit) &&
            forall i :: 0 <= i < |Children(v)| ==> AllStringsFit(Children(v)[i], limit)
    ensures AllFollowRules(v) <==>
            (v.Obj? ==> FollowsRules(v.members)) &&
            forall i :: 0 <= i < |Children(v)| ==> AllFollowRules(Children(v)[i])
  {
    hide Utf8Length, FollowsRules, Children;
    assert IsAt(v, [], v);
    forall i: nat, path, w | i < |Children(v)| && IsAt(Children(v)[i], path, w) ensures IsAt(v, [i] + path, w) {
      assert ([i] + path)[1..] == path;
      StepIsChild(v, [i] + path, w);
    }
    forall path, w | IsAt(v, path, w) && path != []
      ensures path[0] < |Children(v)| && IsAt(Children(v)[path[0]], path[1..], w)
    {
      StepIsChild(v, path, w);
    }
  }

  function MemberCounts(children: seq<Json>): seq<nat> {
    seq(|children|, i requires 0 <= i < |children| => Members(children[i]))
  }

  /** How the members are counted. */
  lemma MembersAreCounted(v: Json)
    ensures match v
            case Arr(items) => Members(v) == SumOf(MemberCounts(items))
            case Obj(members) =>
              Members(v) == |members| + SumOf(MemberCounts(seq(|members|, i requires 0 <= i < |members| =>
                                                               members[i].value)))
            case _ => Members(v) == 0
  {
    var children := Children(v);
    assert seq(|children|, i requires 0 <= i < |children| => Members(children[i])) == MemberCounts(children);
  }

  /** What a value at this depth, with so many members counted before it, is accepted for. */
  ghost predicate KeepsLimits(v: Json, depth: nat, properties: nat, limits: SchemaLimits) {
    && NestsWithin(v, limits.maximumDepth - depth)
    && AllStringsFit(v, limits.maximumStringBytes)
    && (properties + Members(v) <= limits.maximumProperties || limits.maximumProperties == 0xFFFF_FFFF_FFFF_FFFF)
  }

  ghost predicate ValidatedInFull(v: Json, depth: nat, properties: nat, limits: SchemaLimits,
                                  result: Result<(), SchemaError>)
  {
    && (result.Ok? <==> KeepsLimits(v, depth, properties, limits) && AllFollowRules(v))
    && (result == Err(TooLarge) ==> !KeepsLimits(v, depth, properties, limits))
    && (result == Err(Invalid) ==> !AllFollowRules(v))
  }

  lemma ExplainedInFull(v: Json, depth: nat, properties: U64, limits: SchemaLimits, result: Result<(), SchemaError>)
    requires Explains(result, Measure(v, limits.maximumStringBytes), depth, properties, limits)
    ensures ValidatedInFull(v, depth, properties, limits, result)
  {
    hide Height, Members, StringsFit, WellFormed, IsAt, AllStringsFit, AllFollowRules;
    FitIff(v, limits.maximumStringBytes);
    forall path, w | IsAt(v, path, w) ensures |path| <= Height(v) {
      NoneIsDeeper(v, path, w);
    }
    var deepest, w := SomethingIsAsDeep(v);
    assert NestsWithin(v, limits.maximumDepth - depth) <==> depth + Height(v) <= limits.maximumDepth;
  }

  // ---------------------------------------------------------------- validation

  ghost predicate Accepts(m: Measured, depth: nat, properties: nat, limits: SchemaLimits) {
    Fits(m, depth, properties, limits) && m.wellFormed
  }

  /** Success counts the members; an error names a rule that is broken. */
  ghost predicate Explains(result: Result<(), SchemaError>, m: Measured, depth: nat, properties: nat,
                           limits: SchemaLimits)
  {
    match result
    case Ok(_) => Accepts(m, depth, properties, limits)
    case Err(TooLarge) => !Fits(m, depth, properties, limits)
    case Err(Invalid) => !m.wellFormed
  }

  /** Validation succeeds exactly on values within the limits and well formed throughout. */
  method ValidateValue(value: Json, depth: nat, properties: U64, limits: SchemaLimits)
    returns (result: Result<(), SchemaError>, counter: U64)
    requires properties <= limits.maximumProperties
    ensures Explains(result, Measure(value, limits.maximumStringBytes), depth, properties, limits)
    ensures result.Ok? <==>
              && depth + Height(value) <= limits.maximumDepth
              && StringsFit(value, limits.maximumStringBytes)
              && WellFormed(value)
              && SaturatingAdd(properties, Members(value)) <= limits.maximumProperties
    ensures result.Ok? ==> counter == SaturatingAdd(properties, Members(value))
    ensures ValidatedInFull(value, depth, properties, limits, result)
    decreases value, 1
  {
    hide ValidatedInFull;
    forall r | Explains(r, Measure(value, limits.maximumStringBytes), depth, properties, limits)
      ensures ValidatedInFull(value, depth, properties, limits, r)
    {
      ExplainedInFull(value, depth, properties, limits, r);
    }
    counter := properties;
    MeasureFromChildren(value, limits.maximumStringBytes);
    if depth > limits.maximumDepth {
      return Err(TooLarge), counter;
    }
    match value {
      case Str(s) =>
        result := if Utf8Length(s) > limits.maximumStringBytes then Err(TooLarge) else Ok(());
      case Arr(items) =>
        result, counter := ValidateChildren(items, value, depth, counter, limits);
      case Obj(members) =>
        counter := SaturatingAdd(counter, |members|);
        if counter > limits.maximumProperties {
          return Err(TooLarge), counter;
        }
        var wellFormed := CheckMembers(value);
        if !wellFormed {
          return Err(Invalid), counter;
        }
        result, counter := ValidateChildren(Children(value), value, depth, counter, limits);
      case _ =>
        result := Ok(());
    }
  }

  method CheckMembers(value: Json) returns (wellFormed: bool)
    requires value.Obj?
    ensures wellFormed <==> OwnWellFormed(value)
    ensures wellFormed <==> FollowsRules(value.members)
  {
    RulesAre(value.members);
    var kind := GetMember(value.members, "type");
    if kind.Some? {
      var valid := NamesType(kind.value);
      if !valid && kind.value.Arr? && kind.value.items != [] {
        valid := forall i :: 0 <= i < |kind.value.items| ==> NamesType(kind.value.items[i]);
      }
      if !valid {
        return false;
      }
    }
    var properties := GetMember(value.members, "properties");
    if properties.Some? && !properties.value.Obj? {
      return false;
    }
    var required := GetMember(value.members, "required");
    if required.Some? {
      if !required.value.Arr? {
        return false;
      }
      if exists i :: 0 <= i < |required.value.items| && !required.value.items[i].Str? {
        return false;
      }
    }
    var target := GetMember(value.members, "$ref");
    wellFormed := !(target.Some? && target.value.Str? && !(REF_PREFIX <= target.value.s));
  }

  method ValidateChildren(children: seq<Json>, ghost parent: Json, depth: nat, properties: U64, limits: SchemaLimits)
    returns (result: Result<(), SchemaError>, counter: U64)
    requires children == Children(parent) && depth <= limits.maximumDepth && properties <= limits.maximumProperties
    ensures var joined := Join(MeasureAll(children, limits.maximumStringBytes));
            && Explains(result, joined, depth, properties, limits)
            && (result.Ok? ==> counter == SaturatingAdd(properties, joined.members))
    decreases parent, 0
  {
    ghost var all := MeasureAll(children, limits.maximumStringBytes);
    result, counter := Ok(()), properties;
    for n := 0 to |children|
      invariant result.Ok?
      invariant Accepts(Join(all[..n]), depth, properties, limits)
      invariant counter == SaturatingAdd(properties, Join(all[..n]).members)
    {
      OneMore(all, n);
      assert all[n] == Measure(children[n], limits.maximumStringBytes);
      result, counter := ValidateValue(children[n], depth + 1, counter, limits);
      if result.Err? {
        FirstToFail(all, n + 1, depth, properties, limits);
        return;
      }
    }
    assert all[..|children|] == all;
  }

  // ---------------------------------------------------------------- a whole list of tools

  const MAXIMUM_TOOLS: nat := 10_000

  ghost predicate Acceptable(tool: Tool, limits: SchemaLimits) {
    && 1 <= Utf8Length(tool.name) <= 255
    && (tool.description.Some? ==> Utf8Length(tool.description.value) <= limits.maximumStringBytes)
    && tool.encodedBytes <= limits.maximumBytes
    && Accepts(Measure(tool.inputSchema, limits.maximumStringBytes), 0, 0, limits)
    && tool.inputSchema.Obj? && DescribesObject(tool.inputSchema.members)
  }

  predicate DescribesObject(members: seq<Member>) {
    match GetMember(members, "type")
    case Some(Str(kind)) => kind == "object"
    case _ => true
  }

  predicate IsObjectSchema(schema: Json) {
    schema.Obj? && match GetMember(schema.members, "type") case Some(Str(kind)) => kind == "object" case _ => true
  }

  /** The rules for a tool, all of which it must keep. */
  ghost predicate Passes(tool: Tool, limits: SchemaLimits) {
    && tool.name != "" && Utf8Length(tool.name) < 256
    && (tool.description.Some? ==> Utf8Length(tool.description.value) <= limits.maximumStringBytes)
    && tool.encodedBytes <= limits.maximumBytes
    && KeepsLimits(tool.inputSchema, 0, 0, limits) && AllFollowRules(tool.inputSchema)
    && IsObjectSchema(tool.inputSchema)
  }

  /** The first rule that is broken names the error. */
  ghost predicate FailsWith(tool: Tool, limits: SchemaLimits, error: SchemaError) {
    if tool.name == "" || Utf8Length(tool.name) >= 256 then error == Invalid
    else if tool.description.Some? && Utf8Length(tool.description.value) > limits.maximumStringBytes then
      error == TooLarge
    else if tool.encodedBytes > limits.maximumBytes then error == TooLarge
    else if KeepsLimits(tool.inputSchema, 0, 0, limits) && AllFollowRules(tool.inputSchema) then
      error == Invalid && !IsObjectSchema(tool.inputSchema)
    else if error == TooLarge then !KeepsLimits(tool.inputSchema, 0, 0, limits)
    else !AllFollowRules(tool.inputSchema)
  }

  method ValidateTool(tool: Tool, limits: SchemaLimits) returns (result: Result<(), SchemaError>)
    ensures result.Ok? <==> Acceptable(tool, limits)
    ensures match result case Ok(_) => Passes(tool, limits) case Err(error) => FailsWith(tool, limits, error)
  {
    hide KeepsLimits, AllFollowRules, Measure, GetMember;
    if tool.name == "" || Utf8Length(tool.name) > 255 {
      return Err(Invalid);
    }
    if tool.description.Some? && Utf8Length(tool.description.value) > limits.maximumStringBytes {
      return Err(TooLarge);
    }
    if tool.encodedBytes > limits.maximumBytes {
      return Err(TooLarge);
    }
    var counter;
    result, counter := ValidateValue(tool.inputSchema, 0, 0, limits);
    if result.Err? {
      return;
    }
    if !tool.inputSchema.Obj? || !DescribesObject(tool.inputSchema.members) {
      return Err(Invalid);
    }
  }

  /** The first tool that is rejected decides. */
  ghost predicate ListedInFull(tools: seq<Tool>, limits: SchemaLimits, result: Result<seq<Tool>, SchemaError>) {
    match result
    case Ok(_) => forall i :: 0 <= i < |tools| ==> Passes(tools[i], limits)
    case Err(error) => exists n :: 0 <= n < |tools| && FailsWith(tools[n], limits, error) &&
                                   forall i :: 0 <= i < n ==> Passes(tools[i], limits)
  }

  /** A list is accepted exactly when it is short enough and every tool is acceptable; it is handed on unchanged. */
  method ValidateTools(tools: seq<Tool>, limits: SchemaLimits) returns (result: Result<seq<Tool>, SchemaError>)
    ensures result.Ok? <==>
              |tools| <= MAXIMUM_TOOLS && forall i :: 0 <= i < |tools| ==> Acceptable(tools[i], limits)
    ensures result.Ok? ==> result.value == tools
    ensures |tools| > 10_000 ==> result == Err(TooLarge)
    ensures |tools| <= 10_000 ==> ListedInFull(tools, limits, result)
  {
    hide Acceptable, Passes, FailsWith;
    if |tools| > MAXIMUM_TOOLS {
      return Err(TooLarge);
    }
    var valid: seq<Tool> := [];
    for n := 0 to |tools|
      invariant valid == tools[..n]
      invariant forall i :: 0 <= i < n ==> Acceptable(tools[i], limits) && Passes(tools[i], limits)
    {
      var checked := ValidateTool(tools[n], limits);
      if checked.Err? {
        return Err(checked.error);
      }
      valid := valid + [tools[n]];
    }
    result := Ok(valid);
  }

  // ---------------------------------------------------------------- the order of members does not matter

  ghost predicate DistinctNames(members: seq<Member>) {
    forall i, j :: 0 <= i < j < |members| ==> members[i].name != members[j].name
  }

  /** No object within a value has two members of one name. */
  ghost predicate Proper(v: Json) {
    (v.Obj? ==> DistinctNames(v.members)) && forall i :: 0 <= i < |Children(v)| ==> Proper(Children(v)[i])
  }

  /** The same value, but for the order of members, at any depth. */
  ghost predicate Reordered(v: Json, w: Json) {
    match v
    case Arr(items) =>
      w.Arr? && |items| == |w.items| && forall i :: 0 <= i < |items| ==> Reordered(items[i], w.items[i])
    case Obj(members) => w.Obj? && exists p: seq<Member> :: multiset(p) == multiset(w.members) && Matches(members, p)
    case _ => v == w
  }

  /** The same members in the same order, with reordered values. */
  ghost predicate Matches(a: seq<Member>, b: seq<Member>) {
    |a| == |b| && forall i :: 0 <= i < |a| ==> a[i].name == b[i].name && Reordered(a[i].value, b[i].value)
  }

  lemma {:induction false} JoinWithout(all: seq<Measured>, i: nat)
    requires i < |all|
    ensures Join(all) == Beside(Join(all[..i] + all[i + 1..]), all[i])
  {
    var n := |all| - 1;
    var rest := all[..i] + all[i + 1..];
    if i == n {
      assert rest == all[..n];
    } else {
      JoinWithout(all[..n], i);
      assert all[..n][..i] + all[..n][i + 1..] == rest[..|rest| - 1];
    }
  }

  lemma {:induction false} JoinPermuted(a: seq<Measured>, b: seq<Measured>)
    requires multiset(a) == multiset(b)
    ensures Join(a) == Join(b)
    decreases |a|
  {
    if a == [] {
      assert |b| == |multiset(b)|;
    } else {
      var i := LastElsewhere(a, b);
      JoinWithout(b, i);
      JoinPermuted(a[..|a| - 1], b[..i] + b[i + 1..]);
    }
  }

  ghost function MemberMeasure(stringLimit: nat): Member -> Measured {
    (m: Member) => Measure(m.value, stringLimit)
  }

  lemma {:induction false} GetIff(members: seq<Member>, name: string, value: Json)
    requires forall a, b :: a in members && b in members && a.name == b.name ==> a == b
    ensures GetMember(members, name) == Some(value) <==> Member(name, value) in members
  {
    if members != [] {
      GetIff(members[1..], name, value);
      assert members == [members[0]] + members[1..];
    }
  }

  lemma GetPermuted(a: seq<Member>, b: seq<Member>, name: string)
    requires multiset(a) == multiset(b) && DistinctNames(a)
    ensures GetMember(a, name) == GetMember(b, name)
  {
    forall m ensures m in a <==> m in b {
      assert m in a <==> m in multiset(a);
      assert m in b <==> m in multiset(b);
    }
    if GetMember(a, name).Some? {
      GetIff(a, name, GetMember(a, name).value);
      GetIff(b, name, GetMember(a, name).value);
    }
    if GetMember(b, name).Some? {
      GetIff(a, name, GetMember(b, name).value);
      GetIff(b, name, GetMember(b, name).value);
    }
  }

  ghost predicate ReorderedOption(v: Option<Json>, w: Option<Json>) {
    if v.Some? && w.Some? then Reordered(v.value, w.value) else v == w
  }

  lemma {:induction false} GetReordered(a: seq<Member>, b: seq<Member>, name: string)
    requires Matches(a, b)
    ensures ReorderedOption(GetMember(a, name), GetMember(b, name))
  {
    if a != [] && a[0].name != name {
      GetReordered(a[1..], b[1..], name);
    }
  }

  lemma FormReordered(v: Option<Json>, w: Option<Json>)
    requires ReorderedOption(v, w)
    ensures TypeIsGood(v) == TypeIsGood(w)
    ensures PropertiesAreGood(v) == PropertiesAreGood(w)
    ensures RequiredIsGood(v) == RequiredIsGood(w)
    ensures RefIsGood(v) == RefIsGood(w)
  {
    if v.Some? && v.value.Arr? {
      forall i | 0 <= i < |v.value.items|
        ensures v.value.items[i].Str? || w.value.items[i].Str? ==> v.value.items[i] == w.value.items[i]
      {
        assert Reordered(v.value.items[i], w.value.items[i]);
      }
    }
  }

  /** Of each member only what a reordering keeps is looked at. */
  lemma OwnFormReordered(a: seq<Member>, p: seq<Member>, b: seq<Member>)
    requires DistinctNames(a) && Matches(a, p) && multiset(p) == multiset(b)
    ensures OwnWellFormed(Obj(a)) == OwnWellFormed(Obj(b))
  {
    forall name ensures ReorderedOption(GetMember(a, name), GetMember(b, name)) {
      GetReordered(a, p, name);
      GetPermuted(p, b, name);
    }
    FormReordered(GetMember(a, "type"), GetMember(b, "type"));
    FormReordered(GetMember(a, "properties"), GetMember(b, "properties"));
    FormReordered(GetMember(a, "required"), GetMember(b, "required"));
    FormReordered(GetMember(a, "$ref"), GetMember(b, "$ref"));
  }

  /** Whatever validation looks at does not depend on the order of members. */
  lemma {:induction false} MemberOrderDoesNotMatter(v: Json, w: Json, stringLimit: nat)
    requires Proper(v) && Reordered(v, w)
    ensures Measure(v, stringLimit) == Measure(w, stringLimit)
    decreases v
  {
    match v {
      case Arr(items) =>
        forall i | 0 <= i < |items| ensures Measure(items[i], stringLimit) == Measure(w.items[i], stringLimit) {
          assert Proper(Children(v)[i]);
          MemberOrderDoesNotMatter(items[i], w.items[i], stringLimit);
        }
        ArrayReordered(items, w.items, stringLimit);
      case Obj(members) =>
        var p: seq<Member> :| multiset(p) == multiset(w.members) && Matches(members, p);
        forall i | 0 <= i < |members|
          ensures Measure(members[i].value, stringLimit) == Measure(p[i].value, stringLimit)
        {
          assert Proper(Children(v)[i]);
          MemberOrderDoesNotMatter(members[i].value, p[i].value, stringLimit);
        }
        ObjectReordered(members, p, w.members, stringLimit);
      case _ =>
    }
  }

  lemma ArrayReordered(a: seq<Json>, b: seq<Json>, stringLimit: nat)
    requires |a| == |b| && forall i :: 0 <= i < |a| ==> Measure(a[i], stringLimit) == Measure(b[i], stringLimit)
    ensures Measure(Arr(a), stringLimit) == Measure(Arr(b), stringLimit)
  {
    assert MeasureAll(a, stringLimit) == MeasureAll(b, stringLimit) by {
      assert forall i :: 0 <= i < |a| ==> MeasureAll(a, stringLimit)[i] == MeasureAll(b, stringLimit)[i];
    }
    MeasureFromChildren(Arr(a), stringLimit);
    MeasureFromChildren(Arr(b), stringLimit);
  }

  lemma JoinReordered(members: seq<Member>, p: seq<Member>, reordered: seq<Member>, stringLimit: nat)
    requires multiset(p) == multiset(reordered) && |p| == |members|
    requires forall i :: 0 <= i < |members| ==>
               Measure(members[i].value, stringLimit) == Measure(p[i].value, stringLimit)
    ensures |members| == |reordered|
    ensures Join(MeasureAll(Children(Obj(members)), stringLimit)) ==
            Join(MeasureAll(Children(Obj(reordered)), stringLimit))
  {
    assert |p| == |multiset(p)| && |reordered| == |multiset(reordered)|;
    var measure := MemberMeasure(stringLimit);
    assert MeasureAll(Children(Obj(members)), stringLimit) == Map(measure, p);
    assert MeasureAll(Children(Obj(reordered)), stringLimit) == Map(measure, reordered);
    MapPermuted(measure, p, reordered);
    JoinPermuted(Map(measure, p), Map(measure, reordered));
  }

  lemma ObjectReordered(members: seq<Member>, p: seq<Member>, reordered: seq<Member>, stringLimit: nat)
    requires DistinctNames(members) && multiset(p) == multiset(reordered) && Matches(members, p)
    requires forall i :: 0 <= i < |members| ==>
               Measure(members[i].value, stringLimit) == Measure(p[i].value, stringLimit)
    ensures Measure(Obj(members), stringLimit) == Measure(Obj(reordered), stringLimit)
  {
    JoinReordered(members, p, reordered, stringLimit);
    OwnFormReordered(members, p, reordered);
    MeasureFromChildren(Obj(members), stringLimit);
    MeasureFromChildren(Obj(reordered), stringLimit);
  }
}
