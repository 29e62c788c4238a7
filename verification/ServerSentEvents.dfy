/** The incremental reader of server-sent events in the web client. */
module ServerSentEvents {
  import opened Types

  const BLANK_LINE: string := "\n\n"

  predicate BlankLineAt(text: string, i: int) {
    0 <= i && i + 1 < |text| && text[i] == '\n' && text[i + 1] == '\n'
  }

  ghost predicate HasBlankLine(text: string) {
    exists i :: BlankLineAt(text, i)
  }

  function IndexFrom(text: string, from: nat): (r: Option<nat>)
    ensures r.Some? ==> BlankLineAt(text, r.value) && forall j :: from <= j < r.value ==> !BlankLineAt(text, j)
    ensures r.None? ==> forall j :: from <= j ==> !BlankLineAt(text, j)
    decreases |text| - from
  {
    if from + 1 >= |text| then None
    else if BlankLineAt(text, from) then Some(from)
    else IndexFrom(text, from + 1)
  }

  /** `indexOf("\n\n")`. */
  function IndexOfBlankLine(text: string): Option<nat> {
    IndexFrom(text, 0)
  }

  /** `replaceAll("\r\n", "\n")`. */
  function Normalize(text: string): string {
    if text == "" then ""
    else if StartsWithCrlf(text) then ['\n'] + Normalize(text[2..])
    else [text[0]] + Normalize(text[1..])
  }

  predicate StartsWithCrlf(text: string) {
    |text| >= 2 && text[0] == '\r' && text[1] == '\n'
  }

  // ---------------------------------------------------------------- whole-text specification

  /** The complete blocks of a text and the incomplete rest. */
  datatype Split = Split(blocks: seq<string>, rest: string)

  function SplitBlocks(text: string): Split
    decreases |text|
  {
    match IndexOfBlankLine(text)
    case None => Split([], text)
    case Some(i) =>
      var s := SplitBlocks(text[i + 2..]);
      Split([text[..i]] + s.blocks, s.rest)
  }

  function SplitLines(block: string): (lines: seq<string>)
    ensures lines != []
  {
    if block == "" then [""]
    else if block[0] == '\n' then [""] + SplitLines(block[1..])
    else
      var lines := SplitLines(block[1..]);
      [[block[0]] + lines[0]] + lines[1..]
  }

  /** White space and line terminators, as `trimStart` knows them. */
  predicate IsSpace(c: char) {
    var code := c as int;
    9 <= code <= 13 || code == 0x20 || code == 0xA0 || code == 0x1680 || 0x2000 <= code <= 0x200A ||
    code == 0x2028 || code == 0x2029 || code == 0x202F || code == 0x205F || code == 0x3000 || code == 0xFEFF
  }

  function TrimStart(s: string): string {
    if s != "" && IsSpace(s[0]) then TrimStart(s[1..]) else s
  }

  const DATA: string := "data:"
  const DONE: string := "[DONE]"

  /** The payload a line carries, if it is to be parsed. */
  function Payload(line: string): Option<string> {
    if !(DATA <= line) then None
    else
      var data := TrimStart(line[5..]);
      if data == DONE then None else Some(data)
  }

  function LinePayloads(lines: seq<string>): seq<string> {
    if lines == [] then []
    else
      (match Payload(lines[0]) case Some(data) => [data] case None => []) + LinePayloads(lines[1..])
  }

  function BlockPayloads(blocks: seq<string>): seq<string> {
    if blocks == [] then [] else LinePayloads(SplitLines(blocks[0])) + BlockPayloads(blocks[1..])
  }

  /** What is delivered of a sequence of payloads when the reader stops at the first one `JSON.parse` rejects. */
  function Deliverable(payloads: seq<string>, parses: string -> bool): seq<string> {
    if payloads == [] || !parses(payloads[0]) then [] else [payloads[0]] + Deliverable(payloads[1..], parses)
  }

  ghost function Concat(chunks: seq<string>): string {
    if chunks == [] then "" else chunks[0] + Concat(chunks[1..])
  }

  ghost function NormalizeEach(chunks: seq<string>): string {
    if chunks == [] then "" else Normalize(chunks[0]) + NormalizeEach(chunks[1..])
  }

  // ---------------------------------------------------------------- payloads, character by character

  /** The 25 characters that ECMAScript counts as white space or line terminators. */
  predicate IsWhite(c: char) {
    c as int in {9, 10, 11, 12, 13, 0x20, 0xA0, 0x1680, 0x2000, 0x2001, 0x2002, 0x2003, 0x2004, 0x2005, 0x2006, 0x2007,
                 0x2008, 0x2009, 0x200A, 0x2028, 0x2029, 0x202F, 0x205F, 0x3000, 0xFEFF}
  }

  lemma SpaceIff(c: char)
    ensures IsSpace(c) <==> IsWhite(c)
  {
    assert c as int < 0x2000 || 0x200A < c as int ||
           c as int in {0x2000, 0x2001, 0x2002, 0x2003, 0x2004, 0x2005, 0x2006, 0x2007, 0x2008, 0x2009, 0x200A};
  }

  /** `data:`, white space, and then the data, which neither begins with white space nor is the terminator. */
  ghost predicate CarriesPayload(line: string, data: string) {
    && |line| >= 5 && line[0] == 'd' && line[1] == 'a' && line[2] == 't' && line[3] == 'a' && line[4] == ':'
    && data != "[DONE]"
    && exists k :: IsTrimmed(line, 5, k) && data == line[k..]
  }

  /** The white space from `from` on ends at `k`. */
  ghost predicate IsTrimmed(line: string, from: nat, k: int) {
    && from <= k <= |line| && (forall j :: from <= j < k ==> IsWhite(line[j]))
    && (k < |line| ==> !IsWhite(line[k]))
  }

  lemma {:induction false} TrimmedAt(line: string, from: nat) returns (k: nat)
    requires from <= |line|
    ensures IsTrimmed(line, from, k) && TrimStart(line[from..]) == line[k..]
    ensures forall other :: IsTrimmed(line, from, other) ==> other == k
    decreases |line| - from
  {
    hide IsWhite, IsSpace;
    k := from;
    if from < |line| {
      SpaceIff(line[from]);
      assert line[from..][0] == line[from];
      if IsWhite(line[from]) {
        k := TrimmedAt(line, from + 1);
        assert line[from..][1..] == line[from + 1..];
        forall other | IsTrimmed(line, from, other) ensures other == k {
          assert IsTrimmed(line, from + 1, other);
        }
      }
    }
  }

  lemma PayloadInFull(line: string, data: string)
    ensures Payload(line) == Some(data) <==> CarriesPayload(line, data)
  {
    hide TrimStart, IsTrimmed;
    assert DATA <= line <==> |line| >= 5 && line[0] == 'd' && line[1] == 'a' && line[2] == 't' && line[3] == 'a' &&
                             line[4] == ':' by {
      assert DATA == ['d', 'a', 't', 'a', ':'];
      assert |line| >= 5 ==> line[..5] == [line[0], line[1], line[2], line[3], line[4]];
    }
    if DATA <= line {
      var k := TrimmedAt(line, 5);
    }
  }

  /** `payloads` lists what the lines numbered by `at` carry, and no other line carries anything. */
  ghost predicate ListsPayloads(lines: seq<string>, payloads: seq<string>, at: seq<nat>) {
    && |at| == |payloads|
    && (forall j, k :: 0 <= j < k < |at| ==> at[j] < at[k])
    && (forall k :: 0 <= k < |at| ==> at[k] < |lines| && CarriesPayload(lines[at[k]], payloads[k]))
    && (forall i, data :: 0 <= i < |lines| && CarriesPayload(lines[i], data) ==> i in at)
  }

  /** The payloads of some lines are theirs, in their order. */
  lemma {:induction false} PayloadsListed(lines: seq<string>, k: nat) returns (at: seq<nat>)
    requires k <= |lines|
    ensures ListsPayloads(lines[..k], LinePayloads(lines[..k]), at)
  {
    hide CarriesPayload, Payload, LinePayloads;
    if k == 0 {
      at := [];
      assert LinePayloads(lines[..0]) == [] by { NoLines(); }
    } else {
      var front, line := lines[..k - 1], lines[k - 1];
      at := PayloadsListed(lines, k - 1);
      LinesUpTo(lines, k - 1);
      OneLine(line);
      forall data ensures Payload(line) == Some(data) <==> CarriesPayload(line, data) {
        PayloadInFull(line, data);
      }
      if Payload(line).Some? {
        at := at + [k - 1];
      } else {
        assert LinePayloads(front) + [] == LinePayloads(front);
      }
      assert lines[..k] == front + [line];
    }
  }

  lemma NoLines()
    ensures LinePayloads([]) == []
  {}

  // ---------------------------------------------------------------- splitting

  /** The first blank line is where it is, whatever follows. */
  lemma FirstBlankLine(text: string, i: nat)
    requires BlankLineAt(text, i) && forall j :: 0 <= j < i ==> !BlankLineAt(text, j)
    ensures IndexOfBlankLine(text) == Some(i)
  {}

  lemma SplitAtBlankLine(text: string, i: nat)
    requires IndexOfBlankLine(text) == Some(i)
    ensures var s := SplitBlocks(text[i + 2..]); SplitBlocks(text) == Split([text[..i]] + s.blocks, s.rest)
  {}

  lemma BlankLineStays(a: string, b: string, i: nat)
    requires IndexOfBlankLine(a) == Some(i)
    ensures IndexOfBlankLine(a + b) == Some(i)
  {
    assert forall j :: 0 <= j <= i ==> (BlankLineAt(a + b, j) <==> BlankLineAt(a, j));
    FirstBlankLine(a + b, i);
  }

  /** Splitting can go on from the incomplete rest of what was split before. */
  lemma {:induction false} SplitContinues(a: string, b: string)
    ensures var s := SplitBlocks(a);
            var t := SplitBlocks(s.rest + b);
            SplitBlocks(a + b) == Split(s.blocks + t.blocks, t.rest)
    decreases |a|
  {
    var first := IndexOfBlankLine(a);
    if first.None? {
      assert SplitBlocks(a) == Split([], a);
      assert [] + SplitBlocks(a + b).blocks == SplitBlocks(a + b).blocks;
    } else {
      var i := first.value;
      BlankLineStays(a, b, i);
      SplitAtBlankLine(a, i);
      SplitAtBlankLine(a + b, i);
      assert (a + b)[i + 2..] == a[i + 2..] + b && (a + b)[..i] == a[..i];
      SplitContinues(a[i + 2..], b);
      Reassociate(a[..i], SplitBlocks(a[i + 2..]).blocks, SplitBlocks(SplitBlocks(a).rest + b).blocks);
    }
  }

  lemma Reassociate(x: string, p: seq<string>, q: seq<string>)
    ensures [x] + (p + q) == [x] + p + q
  {}

  lemma {:induction false} PayloadsOfMore(a: seq<string>, b: seq<string>)
    ensures BlockPayloads(a + b) == BlockPayloads(a) + BlockPayloads(b)
  {
    if a == [] {
      assert a + b == b;
    } else {
      assert (a + b)[1..] == a[1..] + b;
      PayloadsOfMore(a[1..], b);
    }
  }

  /** Text that ends every block before a blank line, and the blocks put back together. */
  ghost predicate WellSplit(s: Split) {
    && (forall i :: 0 <= i < |s.blocks| ==> !HasBlankLine(s.blocks[i] + "\n"))
    && !HasBlankLine(s.rest)
  }

  function Join(s: Split): string
    decreases |s.blocks|
  {
    if s.blocks == [] then s.rest else s.blocks[0] + BLANK_LINE + Join(Split(s.blocks[1..], s.rest))
  }

  lemma BlockComesFirst(block: string, tail: string)
    requires !HasBlankLine(block + "\n")
    ensures var text := block + BLANK_LINE + tail;
            IndexOfBlankLine(text) == Some(|block|) && text[..|block|] == block && text[|block| + 2..] == tail
  {
    var text := block + BLANK_LINE + tail;
    assert forall j :: 0 <= j < |block| ==> (BlankLineAt(text, j) <==> BlankLineAt(block + "\n", j));
    FirstBlankLine(text, |block|);
  }

  lemma SplitOffBlock(block: string, tail: string)
    requires !HasBlankLine(block + "\n")
    ensures SplitBlocks(block + BLANK_LINE + tail) == Split([block] + SplitBlocks(tail).blocks, SplitBlocks(tail).rest)
  {
    BlockComesFirst(block, tail);
    SplitAtBlankLine(block + BLANK_LINE + tail, |block|);
  }

  lemma BlockEndsBefore(text: string, i: nat)
    requires IndexOfBlankLine(text) == Some(i)
    ensures text == text[..i] + BLANK_LINE + text[i + 2..] && !HasBlankLine(text[..i] + "\n")
  {
    assert forall j :: BlankLineAt(text[..i] + "\n", j) ==> BlankLineAt(text, j);
  }

  lemma {:induction false} SplitThenJoin(text: string)
    ensures Join(SplitBlocks(text)) == text && WellSplit(SplitBlocks(text))
    decreases |text|
  {
    var first := IndexOfBlankLine(text);
    if first.Some? {
      var i := first.value;
      SplitThenJoin(text[i + 2..]);
      SplitAtBlankLine(text, i);
      BlockEndsBefore(text, i);
      assert SplitBlocks(text).blocks[1..] == SplitBlocks(text[i + 2..]).blocks;
    }
  }

  lemma {:induction false} JoinThenSplit(s: Split)
    requires WellSplit(s)
    ensures SplitBlocks(Join(s)) == s
    decreases |s.blocks|
  {
    if s.blocks == [] {
      assert IndexOfBlankLine(s.rest).None?;
    } else {
      var tail := Split(s.blocks[1..], s.rest);
      assert WellSplit(tail);
      JoinThenSplit(tail);
      SplitOffBlock(s.blocks[0], Join(tail));
      assert [s.blocks[0]] + s.blocks[1..] == s.blocks;
    }
  }

  // ---------------------------------------------------------------- the reader

  /** The payloads of a text that is read as a whole. */
  function WholePayloads(text: string): seq<string> {
    BlockPayloads(SplitBlocks(text).blocks)
  }

  /** The reader delivered these payloads in order, and threw at the first one that does not parse. */
  predicate Delivered(events: seq<string>, thrown: bool, payloads: seq<string>, parses: string -> bool) {
    events == Deliverable(payloads, parses) && (thrown <==> events != payloads)
  }

  /** All payloads up to the first that does not parse, at which the reader throws. */
  ghost predicate ReadInFull(payloads: seq<string>, parses: string -> bool, events: seq<string>, thrown: bool) {
    && events <= payloads && (forall e :: e in events ==> parses(e))
    && if |events| == |payloads| then !thrown else thrown && !parses(payloads[|events|])
  }

  lemma {:induction false} DeliverableIs(payloads: seq<string>, parses: string -> bool)
    ensures ReadInFull(payloads, parses, Deliverable(payloads, parses), Deliverable(payloads, parses) != payloads)
  {
    if payloads != [] && parses(payloads[0]) {
      DeliverableIs(payloads[1..], parses);
      assert payloads == [payloads[0]] + payloads[1..];
    }
  }

  lemma FirstDeliverable(payloads: seq<string>, parses: string -> bool)
    ensures Deliverable(payloads, parses) ==
            if payloads == [] || !parses(payloads[0]) then [] else [payloads[0]] + Deliverable(payloads[1..], parses)
  {}

  lemma Prepended(a: seq<string>, front: seq<string>, more: seq<string>)
    requires a != []
    ensures [a[0]] + front == a <==> front == a[1..]
    ensures [a[0]] + (a[1..] + more) == a + more
  {
    assert ([a[0]] + front)[1..] == front;
  }

  lemma {:induction false} DeliverMore(a: seq<string>, b: seq<string>, parses: string -> bool)
    ensures Deliverable(a + b, parses) ==
            if Deliverable(a, parses) == a then a + Deliverable(b, parses) else Deliverable(a, parses)
    ensures |Deliverable(a, parses)| <= |a| && (|Deliverable(a, parses)| == |a| ==> Deliverable(a, parses) == a)
  {
    hide Deliverable;
    FirstDeliverable(a, parses);
    FirstDeliverable(a + b, parses);
    if a == [] {
      assert a + b == b;
      assert a + Deliverable(b, parses) == Deliverable(b, parses);
    } else if parses(a[0]) {
      assert (a + b)[1..] == a[1..] + b;
      DeliverMore(a[1..], b, parses);
      Prepended(a, Deliverable(a[1..], parses), Deliverable(b, parses));
    }
  }

  lemma DeliveredOn(events: seq<string>, a: seq<string>, more: seq<string>, thrown: bool, b: seq<string>,
                    parses: string -> bool)
    requires Delivered(events, false, a, parses) && Delivered(more, thrown, b, parses)
    ensures Delivered(events + more, thrown, a + b, parses)
  {
    DeliverMore(a, b, parses);
    assert (a + more)[|a|..] == more && (a + b)[|a|..] == b;
  }

  lemma ThrowAt(events: seq<string>, a: seq<string>, b: seq<string>, parses: string -> bool)
    requires Delivered(events, false, a, parses) && b != [] && !parses(b[0])
    ensures Delivered(events, true, a + b, parses)
  {
    DeliveredOn(events, a, [], true, b, parses);
    assert events + [] == events;
  }

  lemma ThrownStays(events: seq<string>, a: seq<string>, b: seq<string>, parses: string -> bool)
    requires Delivered(events, true, a, parses)
    ensures Delivered(events, true, a + b, parses)
  {
    DeliverMore(a, b, parses);
  }

  lemma {:induction false} LinePayloadsOfMore(a: seq<string>, b: seq<string>)
    ensures LinePayloads(a + b) == LinePayloads(a) + LinePayloads(b)
  {
    if a == [] {
      assert a + b == b;
    } else {
      assert (a + b)[1..] == a[1..] + b;
      LinePayloadsOfMore(a[1..], b);
    }
  }

  lemma CutAt<T>(s: seq<T>, k: nat)
    requires k < |s|
    ensures s[..k + 1] == s[..k] + [s[k]] && s == s[..k] + s[k..] && s == s[..k + 1] + s[k + 1..]
  {}

  lemma OneLine(line: string)
    ensures LinePayloads([line]) == match Payload(line) case Some(data) => [data] case None => []
  {
    assert LinePayloads([line][1..]) == [];
  }

  lemma LinesUpTo(lines: seq<string>, k: nat)
    requires k < |lines|
    ensures LinePayloads(lines) == LinePayloads(lines[..k]) + LinePayloads(lines[k..])
    ensures LinePayloads(lines[..k + 1]) == LinePayloads(lines[..k]) + LinePayloads([lines[k]])
  {
    CutAt(lines, k);
    LinePayloadsOfMore(lines[..k], lines[k..]);
    LinePayloadsOfMore(lines[..k], [lines[k]]);
  }

  lemma OneChunk(chunk: string)
    ensures NormalizeEach([chunk]) == Normalize(chunk)
  {
    assert NormalizeEach([chunk][1..]) == "";
  }

  lemma ChunksUpTo(chunks: seq<string>, k: nat)
    requires k < |chunks|
    ensures NormalizeEach(chunks[..k + 1]) == NormalizeEach(chunks[..k]) + NormalizeEach([chunks[k]])
    ensures NormalizeEach(chunks) == NormalizeEach(chunks[..k + 1]) + NormalizeEach(chunks[k + 1..])
  {
    CutAt(chunks, k);
    NormalizeEachOfMore(chunks[..k], [chunks[k]]);
    NormalizeEachOfMore(chunks[..k + 1], chunks[k + 1..]);
  }

  /** The events of one block, line by line. */
  method DeliverBlock(block: string, parses: string -> bool) returns (events: seq<string>, thrown: bool)
    ensures Delivered(events, thrown, LinePayloads(SplitLines(block)), parses)
  {
    events, thrown := [], false;
    var lines := SplitLines(block);
    for k := 0 to |lines|
      invariant Delivered(events, thrown, LinePayloads(lines[..k]), parses)
      invariant !thrown
    {
      LinesUpTo(lines, k);
      OneLine(lines[k]);
      ghost var before := LinePayloads(lines[..k]);
      var data := Payload(lines[k]);
      if data.None? {
        assert before + [] == before;
      } else if parses(data.value) {
        DeliveredOn(events, before, [data.value], false, [data.value], parses);
        events := events + [data.value];
      } else {
        ThrowAt(events, before, LinePayloads(lines[k..]), parses);
        return events, true;
      }
    }
    assert lines[..|lines|] == lines;
  }

  lemma NothingWhole(text: string)
    requires IndexOfBlankLine(text).None?
    ensures WholePayloads(text) == [] && SplitBlocks(text).rest == text
  {}

  /** The complete blocks of the buffer, one by one. */
  method DrainBuffer(buffer: string, parses: string -> bool)
    returns (rest: string, events: seq<string>, thrown: bool)
    ensures Delivered(events, thrown, WholePayloads(buffer), parses)
    ensures !thrown ==> rest == SplitBlocks(buffer).rest
  {
    hide SplitLines, LinePayloads, SplitBlocks, Deliverable;
    rest, events, thrown := buffer, [], false;
    ghost var done: seq<string> := [];
    FirstDeliverable([], parses);
    var boundary := IndexOfBlankLine(rest);
    while boundary.Some?
      invariant boundary == IndexOfBlankLine(rest)
      invariant !thrown && Delivered(events, false, done, parses)
      invariant WholePayloads(buffer) == done + WholePayloads(rest)
      invariant SplitBlocks(rest).rest == SplitBlocks(buffer).rest
      decreases |rest|
    {
      var block := rest[..boundary.value];
      ghost var payloads := LinePayloads(SplitLines(block));
      SplitAtBlankLine(rest, boundary.value);
      rest := rest[boundary.value + 2..];
      assert WholePayloads(buffer) == done + payloads + WholePayloads(rest);
      var more: seq<string>;
      more, thrown := DeliverBlock(block, parses);
      DeliveredOn(events, done, more, thrown, payloads, parses);
      events, done := events + more, done + payloads;
      if thrown {
        ThrownStays(events, done, WholePayloads(rest), parses);
        return;
      }
      boundary := IndexOfBlankLine(rest);
    }
    NothingWhole(rest);
    assert done + [] == done;
  }

  /** The delivered events are those of the whole text read at once, an incomplete last block dropped. */
  method ReadSse(chunks: seq<string>, parses: string -> bool) returns (events: seq<string>, thrown: bool)
    ensures Delivered(events, thrown, WholePayloads(NormalizeEach(chunks)), parses)
    ensures ReadInFull(WholePayloads(NormalizeEach(chunks)), parses, events, thrown)
  {
    DeliverableIs(WholePayloads(NormalizeEach(chunks)), parses);
    hide ReadInFull;
    var buffer := "";
    events, thrown := [], false;
    ghost var text := "";
    for k := 0 to |chunks|
      invariant text == NormalizeEach(chunks[..k])
      invariant !thrown && Delivered(events, false, WholePayloads(text), parses)
      invariant buffer == SplitBlocks(text).rest
    {
      ChunksUpTo(chunks, k);
      OneChunk(chunks[k]);
      buffer := buffer + Normalize(chunks[k]);
      var more: seq<string>;
      buffer, more, thrown := DrainBuffer(buffer, parses);
      ReadChunk(events, text, Normalize(chunks[k]), more, thrown, parses);
      events, text := events + more, text + Normalize(chunks[k]);
      if thrown {
        StopReading(events, text, NormalizeEach(chunks[k + 1..]), parses);
        return;
      }
    }
    assert chunks[..|chunks|] == chunks;
  }

  /** Reading on after `a`: the payloads so far, then those of its incomplete rest followed by `b`. */
  lemma ReadOn(a: string, b: string)
    ensures var s := SplitBlocks(a);
            && WholePayloads(a + b) == WholePayloads(a) + WholePayloads(s.rest + b)
            && SplitBlocks(a + b).rest == SplitBlocks(s.rest + b).rest
  {
    SplitContinues(a, b);
    PayloadsOfMore(SplitBlocks(a).blocks, SplitBlocks(SplitBlocks(a).rest + b).blocks);
  }

  lemma ReadChunk(events: seq<string>, text: string, chunk: string, more: seq<string>, thrown: bool,
                  parses: string -> bool)
    requires Delivered(events, false, WholePayloads(text), parses)
    requires Delivered(more, thrown, WholePayloads(SplitBlocks(text).rest + chunk), parses)
    ensures Delivered(events + more, thrown, WholePayloads(text + chunk), parses)
    ensures SplitBlocks(text + chunk).rest == SplitBlocks(SplitBlocks(text).rest + chunk).rest
  {
    ReadOn(text, chunk);
    DeliveredOn(events, WholePayloads(text), more, thrown, WholePayloads(SplitBlocks(text).rest + chunk), parses);
  }

  lemma StopReading(events: seq<string>, text: string, tail: string, parses: string -> bool)
    requires Delivered(events, true, WholePayloads(text), parses)
    ensures Delivered(events, true, WholePayloads(text + tail), parses)
  {
    ReadOn(text, tail);
    ThrownStays(events, WholePayloads(text), WholePayloads(SplitBlocks(text).rest + tail), parses);
  }

  lemma {:induction false} NormalizeEachOfMore(a: seq<string>, b: seq<string>)
    ensures NormalizeEach(a + b) == NormalizeEach(a) + NormalizeEach(b)
  {
    if a == [] {
      assert a + b == b;
    } else {
      assert (a + b)[1..] == a[1..] + b;
      NormalizeEachOfMore(a[1..], b);
    }
  }

  // ---------------------------------------------------------------- when chunking does not matter

  /** A CRLF pair is cut between `a` and `b`. */
  predicate CutsCrlf(a: string, b: string) {
    a != "" && b != "" && a[|a| - 1] == '\r' && b[0] == '\n'
  }

  /** No chunk boundary after `read` cuts a CRLF pair. */
  ghost predicate NoCrlfCut(read: string, chunks: seq<string>)
    decreases |chunks|
  {
    chunks == [] || (!CutsCrlf(read, chunks[0]) && NoCrlfCut(read + chunks[0], chunks[1..]))
  }

  lemma NormalizePair(text: string)
    requires StartsWithCrlf(text)
    ensures Normalize(text) == ['\n'] + Normalize(text[2..])
  {}

  lemma NormalizeHead(text: string)
    requires text != "" && !StartsWithCrlf(text)
    ensures Normalize(text) == [text[0]] + Normalize(text[1..])
  {}

  lemma NormalizeNothing()
    ensures Normalize("") == ""
  {}

  lemma {:induction false} NormalizeUncut(a: string, b: string)
    requires !CutsCrlf(a, b)
    ensures Normalize(a + b) == Normalize(a) + Normalize(b)
    decreases |a|
  {
    hide Normalize;
    if a == "" {
      NormalizeNothing();
      assert a + b == b;
    } else if StartsWithCrlf(a) {
      NormalizeUncut(a[2..], b);
      assert (a + b)[2..] == a[2..] + b;
      NormalizePair(a);
      NormalizePair(a + b);
      Associate(['\n'], Normalize(a[2..]), Normalize(b));
    } else {
      NormalizeUncut(a[1..], b);
      assert (a + b)[1..] == a[1..] + b;
      NormalizeHead(a);
      NormalizeHead(a + b);
      Associate([a[0]], Normalize(a[1..]), Normalize(b));
    }
  }

  lemma Associate(x: string, y: string, z: string)
    ensures x + (y + z) == x + y + z
  {}

  lemma NormalizeCut(a: string, b: string)
    requires CutsCrlf(a, b)
    ensures |Normalize(a + b)| == |Normalize(a)| + |Normalize(b)| - 1
  {
    var front, cr := a[..|a| - 1], a[|a| - 1..];
    assert a == front + cr && a + b == front + (cr + b);
    NormalizeUncut(front, cr);
    NormalizeUncut(front, cr + b);
    CutPair(cr, b);
  }

  lemma CutPair(cr: string, b: string)
    requires |cr| == 1 && CutsCrlf(cr, b)
    ensures |Normalize(cr + b)| == |Normalize(cr)| + |Normalize(b)| - 1
  {
    NormalizeHead(cr);
    NormalizePair(cr + b);
    NormalizeHead(b);
    assert (cr + b)[2..] == b[1..];
  }

  lemma NormalizeOfMore(a: string, b: string)
    ensures |Normalize(a + b)| == |Normalize(a)| + |Normalize(b)| - (if CutsCrlf(a, b) then 1 else 0)
    ensures !CutsCrlf(a, b) ==> Normalize(a + b) == Normalize(a) + Normalize(b)
  {
    if CutsCrlf(a, b) {
      NormalizeCut(a, b);
    } else {
      NormalizeUncut(a, b);
    }
  }

  lemma {:induction false} NormalizeInPieces(read: string, chunks: seq<string>)
    ensures |Normalize(read + Concat(chunks))| <= |Normalize(read)| + |NormalizeEach(chunks)|
    ensures NoCrlfCut(read, chunks) ==> Normalize(read + Concat(chunks)) == Normalize(read) + NormalizeEach(chunks)
    ensures !NoCrlfCut(read, chunks) ==>
              |Normalize(read + Concat(chunks))| < |Normalize(read)| + |NormalizeEach(chunks)|
    decreases |chunks|
  {
    if chunks == [] {
      assert read + Concat(chunks) == read;
    } else {
      var both := read + chunks[0];
      assert read + Concat(chunks) == both + Concat(chunks[1..]);
      NormalizeOfMore(read, chunks[0]);
      NormalizeInPieces(both, chunks[1..]);
      Pieces(Normalize(both + Concat(chunks[1..])), Normalize(read), Normalize(chunks[0]), NormalizeEach(chunks[1..]),
             Normalize(both), CutsCrlf(read, chunks[0]), NoCrlfCut(both, chunks[1..]));
    }
  }

  lemma Pieces(text: string, read: string, chunk: string, rest: string, both: string, cut: bool, restUncut: bool)
    requires |both| == |read| + |chunk| - (if cut then 1 else 0) && (!cut ==> both == read + chunk)
    requires |text| <= |both| + |rest|
    requires if restUncut then text == both + rest else |text| < |both| + |rest|
    ensures |text| <= |read| + |chunk + rest|
    ensures if !cut && restUncut then text == read + (chunk + rest) else |text| < |read| + |chunk + rest|
  {
    assert read + chunk + rest == read + (chunk + rest);
  }

  /** The reader sees the text of the whole stream exactly when no chunk boundary cuts a CRLF pair. */
  lemma ChunkingIsInvisibleIff(chunks: seq<string>)
    ensures NormalizeEach(chunks) == Normalize(Concat(chunks)) <==> NoCrlfCut("", chunks)
  {
    NormalizeInPieces("", chunks);
    assert "" + Concat(chunks) == Concat(chunks);
  }

  lemma {:induction false} CarriageReturnFree(read: string, chunks: seq<string>)
    requires '\r' !in read && '\r' !in Concat(chunks)
    ensures NoCrlfCut(read, chunks)
    decreases |chunks|
  {
    if chunks != [] {
      CarriageReturnFree(read + chunks[0], chunks[1..]);
    }
  }

  lemma {:induction false} NothingToNormalize(text: string)
    requires '\r' !in text
    ensures Normalize(text) == text
  {
    if text != "" {
      NothingToNormalize(text[1..]);
      assert [text[0]] + text[1..] == text;
    }
  }

  /** Two ways of cutting one stream, neither of which cuts a CRLF pair, deliver the same. */
  lemma SameEventsHoweverCut(a: seq<string>, b: seq<string>)
    requires Concat(a) == Concat(b) && NoCrlfCut("", a) && NoCrlfCut("", b)
    ensures WholePayloads(NormalizeEach(a)) == WholePayloads(NormalizeEach(b))
  {
    ChunkingIsInvisibleIff(a);
    ChunkingIsInvisibleIff(b);
  }

  lemma NormalizeCrlf(a: string)
    requires '\r' !in a
    ensures Normalize(a + "\r\n") == a + "\n"
  {
    var crlf := "\r\n";
    NothingToNormalize(a);
    NormalizeOfMore(a, crlf);
    assert crlf[2..] == "";
  }

  /** Any event whose closing blank line is cut inside its last CRLF pair is lost, though the stream holds it. */
  lemma CutCrlfLosesEvent(line: string)
    requires '\r' !in line && '\n' !in line
    ensures WholePayloads(NormalizeEach([line + "\r\n" + "\r", "\n"])) == []
    ensures WholePayloads(NormalizeEach([line + "\r\n" + "\r" + "\n"])) == LinePayloads([line])
  {
    CutTextIsSeen(line);
    var seen := line + "\n" + "\r" + "\n";
    assert forall i :: !BlankLineAt(seen, i);
    assert SplitBlocks(seen) == Split([], seen);
    WholeTextIsSeen(line);
    var whole := line + BLANK_LINE;
    assert forall i :: 0 <= i < |line| ==> !BlankLineAt(whole, i);
    FirstBlankLine(whole, |line|);
    SplitAtBlankLine(whole, |line|);
    assert whole[|line| + 2..] == "" && whole[..|line|] == line;
    assert SplitBlocks("") == Split([], "");
    UnbrokenLine(line);
    assert BlockPayloads([line][1..]) == [];
  }

  lemma CutTextIsSeen(line: string)
    requires '\r' !in line
    ensures NormalizeEach([line + "\r\n" + "\r", "\n"]) == line + "\n" + "\r" + "\n"
  {
    var cr, lf := "\r", "\n";
    NormalizeCrlf(line);
    NormalizeOfMore(line + "\r\n", cr);
    NothingToNormalize(lf);
    assert cr[1..] == "" && Normalize(cr) == cr;
    var chunks := [line + "\r\n" + cr, lf];
    assert chunks[1..][1..] == [] && NormalizeEach(chunks[1..]) == lf;
  }

  lemma WholeTextIsSeen(line: string)
    requires '\r' !in line
    ensures NormalizeEach([line + "\r\n" + "\r" + "\n"]) == line + BLANK_LINE
  {
    var crlf := "\r\n";
    NormalizeCrlf(line);
    NormalizeCrlf("");
    assert "" + "\r\n" == crlf && "" + "\n" == "\n";
    NormalizeOfMore(line + crlf, crlf);
    var chunks := [line + "\r\n" + "\r" + "\n"];
    assert chunks[0] == line + crlf + crlf;
    assert chunks[1..] == [];
  }

  // ---------------------------------------------------------------- round trip

  /** A payload as the gateway writes it: one line, no leading space, not the terminator. */
  predicate Plain(payload: string) {
    && (forall i :: 0 <= i < |payload| ==> payload[i] != '\n' && payload[i] != '\r')
    && (payload != "" ==> !IsSpace(payload[0]))
    && payload != DONE
  }

  function Encode(payloads: seq<string>): string {
    if payloads == [] then "" else "data: " + payloads[0] + BLANK_LINE + Encode(payloads[1..])
  }

  function EncodedBlocks(payloads: seq<string>): seq<string> {
    if payloads == [] then [] else ["data: " + payloads[0]] + EncodedBlocks(payloads[1..])
  }

  lemma {:induction false} UnbrokenLine(block: string)
    requires '\n' !in block
    ensures SplitLines(block) == [block]
  {
    if block != "" {
      UnbrokenLine(block[1..]);
      assert [block[0]] + block[1..] == block;
    }
  }

  lemma OneEvent(payload: string)
    requires Plain(payload)
    ensures LinePayloads(SplitLines("data: " + payload)) == [payload]
  {
    var line := "data: " + payload;
    UnbrokenLine(line);
    OneLine(line);
    assert line[5..] == " " + payload && (" " + payload)[1..] == payload;
    assert TrimStart(" " + payload) == TrimStart(payload) == payload;
    assert DATA <= line;
  }

  lemma {:induction false} EncodedIsJoined(payloads: seq<string>)
    requires forall p :: p in payloads ==> Plain(p)
    ensures Encode(payloads) == Join(Split(EncodedBlocks(payloads), "")) && '\r' !in Encode(payloads)
    ensures WellSplit(Split(EncodedBlocks(payloads), ""))
    ensures BlockPayloads(EncodedBlocks(payloads)) == payloads
  {
    if payloads != [] {
      EncodedIsJoined(payloads[1..]);
      OneEvent(payloads[0]);
      assert EncodedBlocks(payloads)[1..] == EncodedBlocks(payloads[1..]);
      assert Plain(payloads[0]);
      assert forall i :: !BlankLineAt("data: " + payloads[0] + "\n", i);
    }
  }

  /** However the stream of a sequence of payloads is cut, exactly these payloads are delivered. */
  lemma EventsRoundTrip(payloads: seq<string>, chunks: seq<string>)
    requires forall p :: p in payloads ==> Plain(p)
    requires Concat(chunks) == Encode(payloads)
    ensures WholePayloads(NormalizeEach(chunks)) == payloads
  {
    EncodedIsJoined(payloads);
    CarriageReturnFree("", chunks);
    ChunkingIsInvisibleIff(chunks);
    NothingToNormalize(Encode(payloads));
    JoinThenSplit(Split(EncodedBlocks(payloads), ""));
  }
}
