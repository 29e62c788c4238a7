/** The two consumers of a provider stream: one passes events on as they come, the other holds the text back until
    it has been inspected as a whole. */
module Streams {
  import opened Types
  import opened Gateways

  datatype Event =
    | Started(id: string)
    | Delta(content: string)
    | Finished(reason: Option<string>)
    | Usage(usage: TokenUsage)

  datatype Item = Event(event: Event) | ProviderFailure(error: ProviderError) | SecurityFailure

  /** The sending half of the channel to the client, which takes `accepts` items before it goes away. */
  class Sender {
    var sent: seq<Item>
    const accepts: nat

    constructor (accepts: nat)
      ensures sent == [] && this.accepts == accepts
    {
      this.accepts := accepts;
      sent := [];
    }

    method Send(item: Item) returns (ok: bool)
      modifies this
      ensures ok <==> old(|sent|) < accepts
      ensures sent == if ok then old(sent) + [item] else old(sent)
    {
      ok := |sent| < accepts;
      if ok {
        sent := sent + [item];
      }
    }
  }

  /** The events before the first error. */
  function Good(upstream: seq<Result<Event, ProviderError>>): seq<Event> {
    if upstream == [] || upstream[0].Err? then [] else [upstream[0].value] + Good(upstream[1..])
  }

  function FailureOf(upstream: seq<Result<Event, ProviderError>>): Option<ProviderError> {
    if upstream == [] then None
    else if upstream[0].Err? then Some(upstream[0].error)
    else FailureOf(upstream[1..])
  }

  function Text(events: seq<Event>): string {
    if events == [] then ""
    else (if events[0].Delta? then events[0].content else "") + Text(events[1..])
  }

  function LastUsage(events: seq<Event>): Option<TokenUsage> {
    if events == [] then None
    else
      var later := LastUsage(events[1..]);
      if later.None? && events[0].Usage? then Some(events[0].usage) else later
  }

  /** What the client is to see: everything, but usage only on request. */
  function Kept(events: seq<Event>, includeUsage: bool): seq<Event> {
    if events == [] then []
    else if events[0].Usage? && !includeUsage then Kept(events[1..], includeUsage)
    else [events[0]] + Kept(events[1..], includeUsage)
  }

  function NonDelta(events: seq<Event>): seq<Event> {
    if events == [] then []
    else if events[0].Delta? then NonDelta(events[1..])
    else [events[0]] + NonDelta(events[1..])
  }

  function Items(events: seq<Event>): (items: seq<Item>)
    ensures |items| == |events| && forall i :: 0 <= i < |events| ==> items[i] == Item.Event(events[i])
  {
    seq(|events|, i requires 0 <= i < |events| => Item.Event(events[i]))
  }

  /** A length as a saturating `u64` counter keeps it. */
  function Clamp(n: nat): U64 {
    if n < U64_MODULUS then n else U64_MAX
  }

  /** What the request is metered with: the provider's last report, or the text's length. */
  function Metered(events: seq<Event>, promptTokens: U64): TokenUsage {
    match LastUsage(events)
    case Some(usage) => usage
    case None => TokenUsage(promptTokens, Clamp(|Text(events)|), true)
  }

  lemma {:induction false} AppendText(a: seq<Event>, b: seq<Event>)
    ensures Text(a + b) == Text(a) + Text(b)
  {
    if a == [] {
      assert a + b == b;
    } else {
      assert (a + b)[1..] == a[1..] + b;
      AppendText(a[1..], b);
    }
  }

  lemma {:induction false} AppendKept(a: seq<Event>, b: seq<Event>, includeUsage: bool)
    ensures Kept(a + b, includeUsage) == Kept(a, includeUsage) + Kept(b, includeUsage)
  {
    if a == [] {
      assert a + b == b;
    } else {
      assert (a + b)[1..] == a[1..] + b;
      AppendKept(a[1..], b, includeUsage);
    }
  }

  lemma {:induction false} AppendNonDelta(a: seq<Event>, b: seq<Event>)
    ensures NonDelta(a + b) == NonDelta(a) + NonDelta(b)
  {
    if a == [] {
      assert a + b == b;
    } else {
      assert (a + b)[1..] == a[1..] + b;
      AppendNonDelta(a[1..], b);
    }
  }

  lemma {:induction false} AppendUsage(a: seq<Event>, b: seq<Event>)
    ensures LastUsage(a + b) == if LastUsage(b).Some? then LastUsage(b) else LastUsage(a)
  {
    if a == [] {
      assert a + b == b;
    } else {
      assert (a + b)[1..] == a[1..] + b;
      AppendUsage(a[1..], b);
    }
  }

  /** One event more. */
  lemma AppendOne(events: seq<Event>, event: Event, includeUsage: bool)
    ensures Text(events + [event]) == Text(events) + (if event.Delta? then event.content else "")
    ensures Kept(events + [event], includeUsage) ==
            Kept(events, includeUsage) + (if event.Usage? && !includeUsage then [] else [event])
    ensures NonDelta(events + [event]) == NonDelta(events) + (if event.Delta? then [] else [event])
    ensures LastUsage(events + [event]) == if event.Usage? then Some(event.usage) else LastUsage(events)
  {
    AppendText(events, [event]);
    AppendKept(events, [event], includeUsage);
    AppendNonDelta(events, [event]);
    AppendUsage(events, [event]);
    One(event, includeUsage);
  }

  lemma One(event: Event, includeUsage: bool)
    ensures Text([event]) == if event.Delta? then event.content else ""
    ensures Kept([event], includeUsage) == if event.Usage? && !includeUsage then [] else [event]
    ensures NonDelta([event]) == if event.Delta? then [] else [event]
    ensures LastUsage([event]) == if event.Usage? then Some(event.usage) else None
  {
    assert [event][1..] == [];
    assert Text([event][1..]) == "" && Kept([event][1..], includeUsage) == [] && NonDelta([event][1..]) == [];
  }

  lemma {:induction false} GoodUpTo(upstream: seq<Result<Event, ProviderError>>, k: nat)
    requires k <= |upstream| && forall i :: 0 <= i < k ==> upstream[i].Ok?
    ensures |Good(upstream[..k])| == k && FailureOf(upstream[..k]) == None
    ensures k < |upstream| && upstream[k].Ok? ==> Good(upstream[..k + 1]) == Good(upstream[..k]) + [upstream[k].value]
    ensures k < |upstream| && upstream[k].Err? ==>
              Good(upstream) == Good(upstream[..k]) && FailureOf(upstream) == Some(upstream[k].error)
    ensures Good(upstream[..k]) <= Good(upstream)
    decreases k
  {
    if k > 0 {
      GoodUpTo(upstream[1..], k - 1);
      assert upstream[..k][1..] == upstream[1..][..k - 1];
      if k < |upstream| {
        assert upstream[..k + 1][1..] == upstream[1..][..k];
      }
    } else if |upstream| > 0 && upstream[0].Ok? {
      assert upstream[..1][1..] == [];
    }
  }

  lemma WholeStream(upstream: seq<Result<Event, ProviderError>>)
    requires forall i :: 0 <= i < |upstream| ==> upstream[i].Ok?
    ensures FailureOf(upstream) == None
  {
    GoodUpTo(upstream, |upstream|);
    assert upstream[..|upstream|] == upstream;
  }

  /** The events read are what the stream begins with, and what comes after all that can be read is an error or the
      end. */
  lemma {:induction false} GoodAt(upstream: seq<Result<Event, ProviderError>>)
    ensures |Good(upstream)| <= |upstream|
    ensures forall i :: 0 <= i < |Good(upstream)| ==> upstream[i] == Ok(Good(upstream)[i])
    ensures if |Good(upstream)| == |upstream| then FailureOf(upstream).None?
            else upstream[|Good(upstream)|].Err? && FailureOf(upstream) == Some(upstream[|Good(upstream)|].error)
  {
    if upstream != [] {
      GoodAt(upstream[1..]);
    }
  }

  ghost predicate BeginsWith(upstream: seq<Result<Event, ProviderError>>, consumed: seq<Event>) {
    |consumed| <= |upstream| && forall i :: 0 <= i < |consumed| ==> upstream[i] == Ok(consumed[i])
  }

  predicate IsLastReport(events: seq<Event>, i: int) {
    0 <= i < |events| && events[i].Usage? && forall j :: i < j < |events| ==> !events[j].Usage?
  }

  /** The last usage that was reported; if none was, the prompt's bound and the bytes of the text, as an estimate. */
  ghost predicate IsMeteredBy(consumed: seq<Event>, promptTokens: U64, usage: TokenUsage) {
    && (forall i :: IsLastReport(consumed, i) ==> usage == consumed[i].usage)
    && ((forall i :: 0 <= i < |consumed| ==> !consumed[i].Usage?) ==>
          && usage.promptTokens == promptTokens && usage.estimated
          && usage.completionTokens == if |Text(consumed)| < 0x1_0000_0000_0000_0000 then |Text(consumed)|
                                       else 0xFFFF_FFFF_FFFF_FFFF)
  }

  lemma {:induction false} LastUsageIs(events: seq<Event>)
    ensures LastUsage(events).None? <==> forall i :: 0 <= i < |events| ==> !events[i].Usage?
    ensures forall i :: IsLastReport(events, i) ==> LastUsage(events) == Some(events[i].usage)
  {
    if events != [] {
      var rest := events[1..];
      LastUsageIs(rest);
      assert forall i :: 0 < i < |events| ==> events[i] == rest[i - 1];
      forall i | IsLastReport(events, i) ensures LastUsage(events) == Some(events[i].usage) {
        assert forall j :: 0 <= j < |rest| ==> rest[j] == events[j + 1];
        assert i > 0 ==> IsLastReport(rest, i - 1);
      }
    }
  }

  lemma MeteredInFull(consumed: seq<Event>, promptTokens: U64)
    ensures IsMeteredBy(consumed, promptTokens, Metered(consumed, promptTokens))
  {
    hide LastUsage, Text;
    LastUsageIs(consumed);
  }

  // ---------------------------------------------------------------- the pass-through consumer

  /** Pass one event on if the client is to see it. */
  method Forward(event: Event, includeUsage: bool, sender: Sender, ghost consumed: seq<Event>, ghost before: seq<Item>)
    returns (ok: bool)
    requires |sender.sent| <= sender.accepts && sender.sent == before + Items(Kept(consumed, includeUsage))
    modifies sender
    ensures |sender.sent| <= sender.accepts
    ensures var kept := Kept(consumed + [event], includeUsage);
            && (ok <==> |before| + |kept| <= sender.accepts)
            && (ok ==> sender.sent == before + Items(kept))
            && (!ok ==> |before| + |kept| == sender.accepts + 1 &&
                        sender.sent == before + Items(kept[..sender.accepts - |before|]))
  {
    AppendOne(consumed, event, includeUsage);
    ok := true;
    if !event.Usage? || includeUsage {
      ok := sender.Send(Item.Event(event));
    }
  }

  /** `consumed` is what was read of the stream. Everything to be seen is sent, in order, until the stream ends or
      fails or the client goes away, and the status says which. */
  ghost predicate PassedThrough(upstream: seq<Result<Event, ProviderError>>, before: seq<Item>, accepts: nat,
                                promptTokens: U64, includeUsage: bool, sent: seq<Item>, usage: TokenUsage,
                                status: UsageStatus, consumed: seq<Event>)
  {
    var room := accepts - |before|;
    && consumed <= Good(upstream) && usage == Metered(consumed, promptTokens)
    && (status.Interrupted? <==> |Kept(Good(upstream), includeUsage)| > room)
    && (status.Interrupted? ==>
          && room >= 0 && |Kept(consumed, includeUsage)| == room + 1
          && sent == before + Items(Kept(consumed, includeUsage)[..room]))
    && (!status.Interrupted? ==> consumed == Good(upstream))
    && (status.Succeeded? ==>
          FailureOf(upstream).None? && sent == before + Items(Kept(consumed, includeUsage)))
    && (status.ProviderFailed? ==>
          && FailureOf(upstream).Some?
          && sent == before + Items(Kept(consumed, includeUsage)) +
                     if |before| + |Kept(consumed, includeUsage)| < accepts
                     then [ProviderFailure(FailureOf(upstream).value)] else [])
  }

  /** What the client gets and how the stream ends, status by status. */
  ghost predicate StreamedInFull(upstream: seq<Result<Event, ProviderError>>, before: seq<Item>, accepts: nat,
                                 promptTokens: U64, includeUsage: bool, sent: seq<Item>, usage: TokenUsage,
                                 status: UsageStatus, consumed: seq<Event>)
  {
    var read, shown := |consumed|, Kept(consumed, includeUsage);
    && BeginsWith(upstream, consumed) && IsMeteredBy(consumed, promptTokens, usage)
    && match status
       case Succeeded =>
         read == |upstream| && |before| + |shown| <= accepts && sent == before + Items(shown)
       case ProviderFailed =>
         && read < |upstream| && upstream[read].Err? && |before| + |shown| <= accepts
         && sent == before + Items(shown) +
                    if |before| + |shown| < accepts then [ProviderFailure(upstream[read].error)] else []
       case Interrupted =>
         && |before| + |shown| == accepts + 1 == |sent| + 1
         && shown != [] && sent == before + Items(shown[..|shown| - 1])
  }

  lemma PassedInFull(upstream: seq<Result<Event, ProviderError>>, before: seq<Item>, accepts: nat, promptTokens: U64,
                     includeUsage: bool, sent: seq<Item>, usage: TokenUsage, status: UsageStatus, consumed: seq<Event>)
    requires |before| <= accepts
    requires PassedThrough(upstream, before, accepts, promptTokens, includeUsage, sent, usage, status, consumed)
    ensures StreamedInFull(upstream, before, accepts, promptTokens, includeUsage, sent, usage, status, consumed)
  {
    hide Good, Kept, FailureOf, Metered, IsMeteredBy;
    GoodAt(upstream);
    MeteredInFull(consumed, promptTokens);
  }

  lemma KeptGrows(a: seq<Event>, event: Event, all: seq<Event>, includeUsage: bool)
    requires a + [event] <= all
    ensures |Kept(a + [event], includeUsage)| <= |Kept(all, includeUsage)|
  {
    assert all == a + [event] + all[|a| + 1..];
    AppendKept(a + [event], all[|a| + 1..], includeUsage);
  }

  lemma NothingRead(upstream: seq<Result<Event, ProviderError>>, includeUsage: bool)
    ensures Good(upstream[..0]) == [] && Kept([], includeUsage) == [] && LastUsage([]) == None
    ensures NonDelta([]) == [] && Text([]) == "" && Clamp(|Text([])|) == 0 && FitsButForLast([])
  {}

  /** What reading event `k` adds to what was read before it. */
  lemma ReadOne(upstream: seq<Result<Event, ProviderError>>, k: nat, event: Event, includeUsage: bool)
    requires k < |upstream| && upstream[k] == Ok(event) && forall i :: 0 <= i < k ==> upstream[i].Ok?
    ensures var consumed, more := Good(upstream[..k]), Good(upstream[..k + 1]);
            && more == consumed + [event] && more <= Good(upstream)
            && |Kept(more, includeUsage)| <= |Kept(Good(upstream), includeUsage)|
            && Clamp(|Text(more)|) == (if event.Delta? then SaturatingAdd(Clamp(|Text(consumed)|), |event.content|)
                                       else Clamp(|Text(consumed)|))
            && LastUsage(more) == if event.Usage? then Some(event.usage) else LastUsage(consumed)
  {
    GoodUpTo(upstream, k);
    GoodUpTo(upstream, k + 1);
    AppendOne(Good(upstream[..k]), event, includeUsage);
    KeptGrows(Good(upstream[..k]), event, Good(upstream), includeUsage);
  }

  method ConsumeStream(upstream: seq<Result<Event, ProviderError>>, sender: Sender, promptTokens: U64,
                       includeUsage: bool)
    returns (usage: TokenUsage, status: UsageStatus, ghost consumed: seq<Event>)
    requires |sender.sent| <= sender.accepts
    modifies sender
    ensures |sender.sent| <= sender.accepts
    ensures PassedThrough(upstream, old(sender.sent), sender.accepts, promptTokens, includeUsage, sender.sent, usage,
                          status, consumed)
    ensures StreamedInFull(upstream, old(sender.sent), sender.accepts, promptTokens, includeUsage, sender.sent, usage,
                           status, consumed)
  {
    hide Good, Kept, Text, LastUsage, FailureOf, Clamp, StreamedInFull;
    NothingRead(upstream, includeUsage);
    var outputBytes: U64 := 0;
    var last: Option<TokenUsage> := None;
    status, consumed := Succeeded, [];
    ghost var before, room := sender.sent, sender.accepts - |sender.sent|;
    for k := 0 to |upstream|
      invariant forall i :: 0 <= i < k ==> upstream[i].Ok?
      invariant status.Succeeded? && consumed == Good(upstream[..k])
      invariant |Kept(consumed, includeUsage)| <= room && |sender.sent| <= sender.accepts
      invariant sender.sent == before + Items(Kept(consumed, includeUsage))
      invariant last == LastUsage(consumed) && outputBytes == Clamp(|Text(consumed)|)
    {
      match upstream[k] {
        case Ok(event) =>
          ReadOne(upstream, k, event, includeUsage);
          if event.Delta? {
            outputBytes := SaturatingAdd(outputBytes, |event.content|);
          }
          if event.Usage? {
            last := Some(event.usage);
          }
          var ok := Forward(event, includeUsage, sender, consumed, before);
          consumed := consumed + [event];
          if !ok {
            status := Interrupted;
            break;
          }
        case Err(error) =>
          GoodUpTo(upstream, k);
          status := ProviderFailed;
          var _ := sender.Send(ProviderFailure(error));
          break;
      }
    }
    if status.Succeeded? {
      WholeStream(upstream);
      assert upstream[..|upstream|] == upstream;
    }
    usage := if last.Some? then last.value else TokenUsage(promptTokens, outputBytes, true);
    PassedInFull(upstream, before, sender.accepts, promptTokens, includeUsage, sender.sent, usage, status, consumed);
  }

  // ---------------------------------------------------------------- the inspecting consumer

  const MAX_OUTPUT: nat := 16 * 1024 * 1024

  /** What inspection makes of the whole text: text to release, content of another kind, or an error. */
  datatype Inspection = Clean(content: string) | OtherContent | Rejected

  /** The first `Finished` event, or the end. */
  function FinishAt(events: seq<Event>): (i: nat)
    ensures i <= |events| && (i < |events| ==> events[i].Finished?)
    ensures forall j :: 0 <= j < i ==> !events[j].Finished?
  {
    if events == [] || events[0].Finished? then 0 else 1 + FinishAt(events[1..])
  }

  /** The events held back with the inspected text put before the first `Finished`, or at the end if there is none. */
  function Emission(held: seq<Event>, content: string): seq<Event> {
    var i := FinishAt(held);
    if i < |held| then held[..i] + [Delta(content)] + held[i..]
    else if content != "" then held + [Delta(content)]
    else held
  }

  /** How many of the emitted items the receiver must take for the stream to count as delivered. */
  function Needed(held: seq<Event>, content: string): nat {
    if FinishAt(held) < |held| then |Emission(held, content)| else |held|
  }

  /** An emission, position by position: event `k` follows the text iff the first `Finished` is not after it. */
  ghost predicate Emits(emission: seq<Event>, held: seq<Event>, content: string, finish: nat) {
    && finish <= |held| && (finish < |held| ==> held[finish].Finished?)
    && (forall j :: 0 <= j < finish ==> !held[j].Finished?)
    && |emission| == |held| + (if finish < |held| || content != "" then 1 else 0)
    && (finish < |emission| && |emission| > |held| ==> emission[finish] == Delta(content))
    && (forall k :: 0 <= k < finish ==> emission[k] == held[k])
    && (forall k :: finish <= k < |held| ==> emission[k + 1] == held[k])
  }

  lemma EmissionEmits(held: seq<Event>, content: string)
    ensures Emits(Emission(held, content), held, content, FinishAt(held))
  {
    var i := FinishAt(held);
    if i < |held| || content != "" {
      InsertedAt(held, i, Delta(content));
      assert i == |held| ==> held[..i] + [Delta(content)] + held[i..] == held + [Delta(content)];
    }
  }

  lemma InsertedAt(held: seq<Event>, i: nat, event: Event)
    requires i <= |held|
    ensures var inserted := held[..i] + [event] + held[i..];
            && |inserted| == |held| + 1 && inserted[i] == event
            && (forall k :: 0 <= k < i ==> inserted[k] == held[k])
            && (forall k :: i <= k < |held| ==> inserted[k + 1] == held[k])
  {}

  lemma EmissionLength(held: seq<Event>, content: string)
    ensures Needed(held, content) == if FinishAt(held) < |held| then |held| + 1 else |held|
  {}

  /** Send the event that comes next in the emission. */
  method SendNext(event: Event, sender: Sender, ghost emission: seq<Event>, ghost next: nat, ghost before: seq<Item>)
    returns (ok: bool)
    requires next < |emission| && emission[next] == event
    requires sender.sent == before + Items(emission[..next]) && |sender.sent| <= sender.accepts
    modifies sender
    ensures |sender.sent| <= sender.accepts
    ensures ok <==> |before| + next < sender.accepts
    ensures sender.sent == before + Items(emission[..if ok then next + 1 else next])
  {
    ok := sender.Send(Item.Event(event));
    assert emission[..next + 1] == emission[..next] + [emission[next]];
    assert Items(emission[..next + 1]) == Items(emission[..next]) + [Item.Event(emission[next])];
  }

  method Emit(held: seq<Event>, content: string, sender: Sender, ghost emission: seq<Event>, ghost finish: nat)
    returns (status: UsageStatus)
    requires Emits(emission, held, content, finish)
    requires |sender.sent| <= sender.accepts
    modifies sender
    ensures |sender.sent| <= sender.accepts
    ensures var room := sender.accepts - old(|sender.sent|);
            && sender.sent == old(sender.sent) + Items(emission[..if |emission| <= room then |emission| else room])
            && status == if (if finish < |held| then |held| + 1 else |held|) <= room then Succeeded else Interrupted
  {
    status := Succeeded;
    var emitted := false;
    ghost var before := sender.sent;
    ghost var next: nat := 0;
    assert before == before + Items(emission[..0]);
    for k := 0 to |held|
      invariant |sender.sent| <= sender.accepts
      invariant status.Succeeded? && (emitted <==> finish < k)
      invariant next == (if emitted then k + 1 else k) <= |emission|
      invariant |before| + next <= sender.accepts && sender.sent == before + Items(emission[..next])
    {
      if !emitted && held[k].Finished? {
        var took := SendNext(Delta(content), sender, emission, next, before);
        emitted := true;
        if !took {
          var _ := sender.Send(Item.Event(held[k]));
          status := Interrupted;
          break;
        }
        next := next + 1;
      }
      var ok := SendNext(held[k], sender, emission, next, before);
      if !ok {
        status := Interrupted;
        break;
      }
      next := next + 1;
    }
    if !emitted && content != "" {
      if status.Succeeded? {
        var _ := SendNext(Delta(content), sender, emission, next, before);
      } else {
        var _ := sender.Send(Item.Event(Delta(content)));
      }
    }
  }

  /** What is sent once the upstream has ended, the whole text having been inspected. */
  ghost predicate Released(held: seq<Event>, inspection: Inspection, before: seq<Item>, accepts: nat,
                           sent: seq<Item>, status: UsageStatus)
    requires |before| <= accepts
  {
    var room := accepts - |before|;
    match inspection
    case Clean(content) =>
      var emission := Emission(held, content);
      && sent == before + Items(emission[..if |emission| <= room then |emission| else room])
      && status == if Needed(held, content) <= room then Succeeded else Interrupted
    case OtherContent => status.Succeeded? && sent == before
    case Rejected => status.Succeeded? && sent == before + (if room > 0 then [SecurityFailure] else [])
  }

  method Release(held: seq<Event>, inspection: Inspection, sender: Sender) returns (status: UsageStatus)
    requires |sender.sent| <= sender.accepts
    modifies sender
    ensures Released(held, inspection, old(sender.sent), sender.accepts, sender.sent, status)
  {
    status := Succeeded;
    match inspection {
      case Clean(content) =>
        EmissionEmits(held, content);
        EmissionLength(held, content);
        status := Emit(held, content, sender, Emission(held, content), FinishAt(held));
      case OtherContent =>
      case Rejected => var _ := sender.Send(SecurityFailure);
    }
  }

  /** Without the last event the text is not too long. */
  ghost predicate FitsButForLast(consumed: seq<Event>) {
    consumed != [] ==> |Text(consumed[..|consumed| - 1])| <= MAX_OUTPUT
  }

  lemma OneMoreFits(consumed: seq<Event>, event: Event)
    requires |Text(consumed)| <= MAX_OUTPUT
    ensures FitsButForLast(consumed + [event])
  {
    assert (consumed + [event])[..|consumed|] == consumed;
  }

  /** Nothing of the stream is sent before its whole text has passed inspection. */
  ghost predicate Inspected(upstream: seq<Result<Event, ProviderError>>, before: seq<Item>, accepts: nat,
                            promptTokens: U64, includeUsage: bool, inspect: string -> Inspection, sent: seq<Item>,
                            usage: TokenUsage, status: UsageStatus, consumed: seq<Event>)
    requires |before| <= accepts
  {
    && consumed <= Good(upstream)
    && (|Text(Good(upstream))| <= MAX_OUTPUT ==> consumed == Good(upstream))
    && (|Text(consumed)| <= MAX_OUTPUT ==> consumed == Good(upstream))
    && FitsButForLast(consumed)
    && usage == Metered(consumed, promptTokens)
    && if |Text(consumed)| > MAX_OUTPUT then
         status.Interrupted? && sent == before
       else if FailureOf(upstream).Some? then
         status.ProviderFailed? &&
         sent == before + if accepts > |before| then [ProviderFailure(FailureOf(upstream).value)] else []
       else
         Released(NonDelta(Kept(consumed, includeUsage)), inspect(Text(consumed)), before, accepts, sent, status)
  }

  /** What the client gets and how the stream ends, case by case. Reading stops with the delta that takes the text
      beyond 16 MiB. */
  ghost predicate InspectedInFull(upstream: seq<Result<Event, ProviderError>>, before: seq<Item>, accepts: nat,
                                  promptTokens: U64, includeUsage: bool, inspect: string -> Inspection,
                                  sent: seq<Item>, usage: TokenUsage, status: UsageStatus, consumed: seq<Event>)
    requires |before| <= accepts
  {
    var read := |consumed|;
    && BeginsWith(upstream, consumed) && IsMeteredBy(consumed, promptTokens, usage)
    && (read > 0 ==> |Text(consumed[..read - 1])| <= 16_777_216)
    && if |Text(consumed)| > 16_777_216 then status == Interrupted && sent == before
       else if read < |upstream| then
         && upstream[read].Err? && status == ProviderFailed
         && sent == before + if |before| < accepts then [ProviderFailure(upstream[read].error)] else []
       else
         match inspect(Text(consumed))
         case OtherContent => status == Succeeded && sent == before
         case Rejected => status == Succeeded && sent == before + if |before| < accepts then [SecurityFailure] else []
         case Clean(content) =>
           ReleasedInFull(NonDelta(Kept(consumed, includeUsage)), content, accepts - |before|, before, sent, status)
  }

  /** The inspected text is put before the first `Finished`, or at the end if there is none and it is not empty; the
      client gets what it takes, and that makes a success iff all events and a text before a `Finished` are taken. */
  ghost predicate ReleasedInFull(held: seq<Event>, content: string, room: nat, before: seq<Item>, sent: seq<Item>,
                                 status: UsageStatus)
  {
    exists emission: seq<Event>, finish: nat ::
      && Emits(emission, held, content, finish)
      && sent == before + Items(emission[..if |emission| <= room then |emission| else room])
      && status == if (if finish < |held| then |held| + 1 else |held|) <= room then Succeeded else Interrupted
  }

  lemma ReleaseIsInFull(held: seq<Event>, content: string, before: seq<Item>, accepts: nat, sent: seq<Item>,
                        status: UsageStatus)
    requires |before| <= accepts && Released(held, Clean(content), before, accepts, sent, status)
    ensures ReleasedInFull(held, content, accepts - |before|, before, sent, status)
  {
    hide Emits;
    EmissionEmits(held, content);
    EmissionLength(held, content);
  }

  lemma ReadInFull(upstream: seq<Result<Event, ProviderError>>, before: seq<Item>, accepts: nat, promptTokens: U64,
                   includeUsage: bool, inspect: string -> Inspection, sent: seq<Item>, usage: TokenUsage,
                   status: UsageStatus, consumed: seq<Event>)
    requires |before| <= accepts
    requires Inspected(upstream, before, accepts, promptTokens, includeUsage, inspect, sent, usage, status, consumed)
    ensures InspectedInFull(upstream, before, accepts, promptTokens, includeUsage, inspect, sent, usage, status,
                            consumed)
  {
    hide Good, Kept, NonDelta, Text, FailureOf, Metered, IsMeteredBy, ReleasedInFull;
    GoodAt(upstream);
    MeteredInFull(consumed, promptTokens);
    match inspect(Text(consumed)) {
      case Clean(content) =>
        if |Text(consumed)| <= MAX_OUTPUT && FailureOf(upstream).None? {
          ReleaseIsInFull(NonDelta(Kept(consumed, includeUsage)), content, before, accepts, sent, status);
        }
      case _ =>
    }
  }

  lemma HeldAfter(consumed: seq<Event>, event: Event, includeUsage: bool)
    ensures Text(consumed + [event]) == if event.Delta? then Text(consumed) + event.content else Text(consumed)
    ensures LastUsage(consumed + [event]) == if event.Usage? then Some(event.usage) else LastUsage(consumed)
    ensures NonDelta(Kept(consumed + [event], includeUsage)) ==
            if event.Delta? || (event.Usage? && !includeUsage) then NonDelta(Kept(consumed, includeUsage))
            else NonDelta(Kept(consumed, includeUsage)) + [event]
  {
    AppendOne(consumed, event, includeUsage);
    AppendOne(Kept(consumed, includeUsage), event, includeUsage);
    assert Kept(consumed, includeUsage) + [] == Kept(consumed, includeUsage);
    assert NonDelta(Kept(consumed, includeUsage)) + [] == NonDelta(Kept(consumed, includeUsage));
  }

  method ConsumeInspectedStream(upstream: seq<Result<Event, ProviderError>>, sender: Sender, promptTokens: U64,
                                includeUsage: bool, inspect: string -> Inspection)
    returns (usage: TokenUsage, status: UsageStatus, ghost consumed: seq<Event>)
    requires |sender.sent| <= sender.accepts
    modifies sender
    ensures Inspected(upstream, old(sender.sent), sender.accepts, promptTokens, includeUsage, inspect, sender.sent,
                      usage, status, consumed)
    ensures InspectedInFull(upstream, old(sender.sent), sender.accepts, promptTokens, includeUsage, inspect,
                            sender.sent, usage, status, consumed)
  {
    hide Good, Kept, NonDelta, Text, LastUsage, FailureOf, Released, FitsButForLast, InspectedInFull;
    NothingRead(upstream, includeUsage);
    var events: seq<Event> := [];
    var output := "";
    var last: Option<TokenUsage> := None;
    status, consumed := Succeeded, [];
    for k := 0 to |upstream|
      invariant forall i :: 0 <= i < k ==> upstream[i].Ok?
      invariant status.Succeeded? && consumed == Good(upstream[..k])
      invariant sender.sent == old(sender.sent)
      invariant output == Text(consumed) && |output| <= MAX_OUTPUT
      invariant FitsButForLast(consumed)
      invariant events == NonDelta(Kept(consumed, includeUsage)) && last == LastUsage(consumed)
    {
      GoodUpTo(upstream, k);
      match upstream[k] {
        case Ok(event) =>
          HeldAfter(consumed, event, includeUsage);
          GoodUpTo(upstream, k + 1);
          TextGrows(consumed + [event], Good(upstream));
          OneMoreFits(consumed, event);
          consumed := consumed + [event];
          match event {
            case Delta(content) =>
              output := output + content;
              if |output| > MAX_OUTPUT {
                status := Interrupted;
                break;
              }
            case Usage(value) =>
              last := Some(value);
              if includeUsage {
                events := events + [event];
              }
            case _ =>
              events := events + [event];
          }
        case Err(error) =>
          status := ProviderFailed;
          var _ := sender.Send(ProviderFailure(error));
          break;
      }
    }
    if status.Succeeded? {
      WholeStream(upstream);
      assert upstream[..|upstream|] == upstream;
      status := Release(events, inspect(output), sender);
    }
    usage := if last.Some? then last.value else TokenUsage(promptTokens, Clamp(|output|), true);
    ReadInFull(upstream, old(sender.sent), sender.accepts, promptTokens, includeUsage, inspect, sender.sent, usage,
               status, consumed);
  }

  lemma TextGrows(a: seq<Event>, all: seq<Event>)
    requires a <= all
    ensures |Text(a)| <= |Text(all)|
  {
    assert all == a + all[|a|..];
    AppendText(a, all[|a|..]);
  }

  // ---------------------------------------------------------------- the two agree

  lemma {:induction false} KeptKeepsText(events: seq<Event>, includeUsage: bool)
    ensures Text(Kept(events, includeUsage)) == Text(events)
  {
    if events != [] {
      KeptKeepsText(events[1..], includeUsage);
    }
  }

  lemma {:induction false} NonDeltaHasNoText(events: seq<Event>)
    ensures Text(NonDelta(events)) == "" && NonDelta(NonDelta(events)) == NonDelta(events)
    ensures forall i :: 0 <= i < |NonDelta(events)| ==> !NonDelta(events)[i].Delta?
  {
    if events != [] {
      NonDeltaHasNoText(events[1..]);
    }
  }

  lemma {:induction false} NoDeltas(events: seq<Event>)
    requires forall i :: 0 <= i < |events| ==> !events[i].Delta?
    ensures Text(events) == "" && NonDelta(events) == events
  {
    if events != [] {
      NoDeltas(events[1..]);
    }
  }

  lemma OneDelta(content: string)
    ensures Text([Delta(content)]) == content && NonDelta([Delta(content)]) == []
  {
    One(Delta(content), true);
  }

  lemma InsertedText(before: seq<Event>, content: string, after: seq<Event>)
    requires Text(before) == "" && Text(after) == ""
    ensures Text(before + [Delta(content)] + after) == content
  {
    OneDelta(content);
    AppendText(before, [Delta(content)]);
    AppendText(before + [Delta(content)], after);
  }

  lemma InsertedAmong(before: seq<Event>, content: string, after: seq<Event>)
    requires NonDelta(before) == before && NonDelta(after) == after
    ensures NonDelta(before + [Delta(content)] + after) == before + after
  {
    OneDelta(content);
    AppendNonDelta(before, [Delta(content)]);
    AppendNonDelta(before + [Delta(content)], after);
    assert before + [] == before;
  }

  lemma EmissionOf(held: seq<Event>, content: string)
    requires forall i :: 0 <= i < |held| ==> !held[i].Delta?
    ensures Text(Emission(held, content)) == content
    ensures NonDelta(Emission(held, content)) == held
  {
    hide Text, NonDelta, FinishAt;
    var i := FinishAt(held);
    NoDeltas(held[..i]);
    NoDeltas(held[i..]);
    if content == "" {
      NoDeltas(held);
    }
    if i < |held| {
      InsertedText(held[..i], content, held[i..]);
      InsertedAmong(held[..i], content, held[i..]);
      assert held[..i] + held[i..] == held;
    } else {
      assert held[..i] == held;
      NoDeltas([]);
      InsertedText(held, content, []);
      InsertedAmong(held, content, []);
      assert held + [Delta(content)] + [] == held + [Delta(content)] && held + [] == held;
    }
  }

  lemma NothingAfterFinish(held: seq<Event>, content: string)
    requires forall i :: 0 <= i < |held| ==> !held[i].Delta?
    ensures var emission := Emission(held, content);
            forall i, j :: 0 <= i < j < |emission| && emission[i].Finished? ==> !emission[j].Delta?
  {}

  /** When inspection changes nothing, the two consumers show the client the same text and the same other events
      in the same order, and the inspecting one shows no text after the first `Finished`. */
  lemma SameStreamEitherWay(events: seq<Event>, includeUsage: bool)
    ensures var passed := Kept(events, includeUsage);
            var inspected := Emission(NonDelta(passed), Text(events));
            && Text(inspected) == Text(passed) == Text(events)
            && NonDelta(inspected) == NonDelta(passed)
            && forall i, j :: 0 <= i < j < |inspected| && inspected[i].Finished? ==> !inspected[j].Delta?
  {
    hide Kept, NonDelta, Text, Emission;
    KeptKeepsText(events, includeUsage);
    NonDeltaHasNoText(Kept(events, includeUsage));
    EmissionOf(NonDelta(Kept(events, includeUsage)), Text(events));
    NothingAfterFinish(NonDelta(Kept(events, includeUsage)), Text(events));
  }

  /** Over an upstream run without error, with room for all of it and content that inspection leaves alone, both
      consumers succeed, meter the same usage, and send the same text and the same other events. */
  lemma ConsumersAgree(upstream: seq<Result<Event, ProviderError>>, before: seq<Item>, accepts: nat, promptTokens: U64,
                       includeUsage: bool, inspect: string -> Inspection,
                       sent: seq<Item>, usage: TokenUsage, status: UsageStatus, consumed: seq<Event>,
                       sent': seq<Item>, usage': TokenUsage, status': UsageStatus, consumed': seq<Event>)
    requires FailureOf(upstream).None? && |before| + |upstream| < accepts
    requires |Text(Good(upstream))| <= MAX_OUTPUT && inspect(Text(Good(upstream))) == Clean(Text(Good(upstream)))
    requires PassedThrough(upstream, before, accepts, promptTokens, includeUsage, sent, usage, status, consumed)
    requires Inspected(upstream, before, accepts, promptTokens, includeUsage, inspect, sent', usage', status',
                       consumed')
    ensures status == status' == Succeeded && usage == usage'
    ensures var passed := Kept(Good(upstream), includeUsage);
            var inspected := Emission(NonDelta(passed), Text(Good(upstream)));
            && sent == before + Items(passed) && sent' == before + Items(inspected)
            && Text(inspected) == Text(passed) && NonDelta(inspected) == NonDelta(passed)
            && forall i, j :: 0 <= i < j < |inspected| && inspected[i].Finished? ==> !inspected[j].Delta?
  {
    var events := Good(upstream);
    SameStreamEitherWay(events, includeUsage);
    ClientThatStays(events, includeUsage, Text(events));
    GoodIsShorter(upstream);
    var inspected := Emission(NonDelta(Kept(events, includeUsage)), Text(events));
    assert inspected[..|inspected|] == inspected;
  }

  lemma {:induction false} GoodIsShorter(upstream: seq<Result<Event, ProviderError>>)
    ensures |Good(upstream)| <= |upstream|
  {
    if upstream != [] {
      GoodIsShorter(upstream[1..]);
    }
  }

  /** A client that takes one item more than the stream has events gets all that either consumer sends. */
  lemma {:induction false} ClientThatStays(events: seq<Event>, includeUsage: bool, content: string)
    ensures var held := NonDelta(Kept(events, includeUsage));
            && |Kept(events, includeUsage)| <= |events|
            && Needed(held, content) <= |Emission(held, content)| <= |events| + 1
  {
    KeptIsShorter(events, includeUsage);
  }

  lemma {:induction false} KeptIsShorter(events: seq<Event>, includeUsage: bool)
    ensures |NonDelta(Kept(events, includeUsage))| <= |Kept(events, includeUsage)| <= |events|
  {
    if events != [] {
      KeptIsShorter(events[1..], includeUsage);
    }
  }
}
