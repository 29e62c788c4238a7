/** What a chunk boundary inside a CRLF pair does to the events of a stream. */
module CutEvents {
  import opened Types
  import opened ServerSentEvents

  /** The lines of a text that a line feed ends. */
  function Terminated(text: string): seq<string> {
    SplitLines(text)[..|SplitLines(text)| - 1]
  }

  function PayloadOf(line: string): seq<string> {
    match Payload(line)
    case Some(data) => [data]
    case None => []
  }

  /** The payloads up to the last blank line. */
  function Delivered(lines: seq<string>): seq<string> {
    if "" !in lines then [] else PayloadOf(lines[0]) + Delivered(lines[1..])
  }

  // ---------------------------------------------------------------- delivery, line by line

  lemma FirstLine(text: string)
    requires text != ""
    ensures SplitLines(text[1..]) != []
    ensures var rest := SplitLines(text[1..]);
            SplitLines(text) == if text[0] == '\n' then [""] + rest else [[text[0]] + rest[0]] + rest[1..]
  {}

  lemma NoLine()
    ensures SplitLines("") == [""]
  {}

  lemma {:induction false} LinesAcross(a: string, b: string)
    ensures SplitLines(a + ['\n'] + b) == SplitLines(a) + SplitLines(b)
  {
    hide SplitLines;
    var all := a + ['\n'] + b;
    FirstLine(all);
    if a == "" {
      NoLine();
      assert all[1..] == b;
    } else {
      FirstLine(a);
      LinesAcross(a[1..], b);
      assert (a + ['\n'] + b)[1..] == a[1..] + ['\n'] + b;
      var first, more := SplitLines(a[1..]), SplitLines(b);
      if a[0] == '\n' {
        Regroup([""], first, more);
      } else {
        assert (first + more)[0] == first[0] && (first + more)[1..] == first[1..] + more;
        Regroup([[a[0]] + first[0]], first[1..], more);
      }
    }
  }

  lemma Regroup(x: seq<string>, y: seq<string>, z: seq<string>)
    ensures x + (y + z) == x + y + z
  {}

  lemma LinesAroundBlank(block: string, rest: string)
    ensures Terminated(block + BLANK_LINE + rest) == SplitLines(block) + ([""] + Terminated(rest))
  {
    var text := block + BLANK_LINE + rest;
    assert text == block + ['\n'] + (['\n'] + rest);
    LinesAcross(block, ['\n'] + rest);
    assert SplitLines(['\n'] + rest) == [""] + SplitLines(rest);
    assert SplitLines(text) == SplitLines(block) + [""] + SplitLines(rest);
  }

  lemma {:induction false} DeliveredAcross(lines: seq<string>, rest: seq<string>)
    ensures Delivered(lines + ([""] + rest)) == LinePayloads(lines) + Delivered(rest)
  {
    var all := lines + ([""] + rest);
    assert all[|lines|] == "";
    if lines == [] {
      assert all[1..] == rest;
      DeliveredAlone(rest);
    } else {
      assert all[1..] == lines[1..] + ([""] + rest);
      DeliveredAcross(lines[1..], rest);
      assert PayloadOf(lines[0]) + (LinePayloads(lines[1..]) + Delivered(rest)) ==
             PayloadOf(lines[0]) + LinePayloads(lines[1..]) + Delivered(rest);
    }
  }

  lemma DeliveredAlone(rest: seq<string>)
    ensures Delivered([""] + rest) == Delivered(rest)
  {
    assert ([""] + rest)[0] == "" && ([""] + rest)[1..] == rest;
    assert PayloadOf("") == [];
  }

  /** Without a blank line only the first line may be empty. */
  lemma {:induction false} NoBlankLine(text: string)
    requires forall i :: !BlankLineAt(text, i)
    ensures forall k :: 1 <= k < |Terminated(text)| ==> Terminated(text)[k] != ""
    ensures text != "" && text[0] != '\n' && Terminated(text) != [] ==> Terminated(text)[0] != ""
  {
    if text != "" {
      var rest := text[1..];
      forall i ensures !BlankLineAt(rest, i) {
        assert !BlankLineAt(text, i + 1);
      }
      NoBlankLine(rest);
      if text[0] == '\n' {
        assert !BlankLineAt(text, 0);
        assert Terminated(text) == [""] + Terminated(rest);
      } else if |SplitLines(rest)| > 1 {
        assert Terminated(text) == [[text[0]] + Terminated(rest)[0]] + Terminated(rest)[1..];
      }
    }
  }

  lemma NothingDelivered(lines: seq<string>)
    requires forall k :: 1 <= k < |lines| ==> lines[k] != ""
    ensures Delivered(lines) == []
  {
    if lines != [] && lines[0] == "" {
      assert "" !in lines[1..];
      assert lines == [""] + lines[1..];
      DeliveredAlone(lines[1..]);
    }
  }

  /** The payloads of a text are those of its lines up to the last blank one. */
  lemma {:induction false} WholePayloadsAreDelivered(text: string)
    ensures WholePayloads(text) == Delivered(Terminated(text))
    decreases |text|
  {
    var first := IndexOfBlankLine(text);
    if first.None? {
      assert SplitBlocks(text) == Split([], text);
      assert forall i :: !BlankLineAt(text, i);
      NoBlankLine(text);
      NothingDelivered(Terminated(text));
    } else {
      var block, rest := text[..first.value], text[first.value + 2..];
      assert text == block + BLANK_LINE + rest;
      SplitAtBlankLine(text, first.value);
      WholePayloadsAreDelivered(rest);
      LinesAroundBlank(block, rest);
      DeliveredAcross(SplitLines(block), Terminated(rest));
      assert ([block] + SplitBlocks(rest).blocks)[1..] == SplitBlocks(rest).blocks;
    }
  }

  // ---------------------------------------------------------------- cut pairs

  /** Every carriage return belongs to a CRLF pair. */
  ghost predicate Paired(text: string) {
    forall i :: 0 <= i < |text| && text[i] == '\r' ==> i + 1 < |text| && text[i + 1] == '\n'
  }

  /** The line's CRLF pair was cut, so that its carriage return is still there. */
  predicate IsCut(line: string) {
    line != "" && line[|line| - 1] == '\r'
  }

  /** The line as it was sent. */
  function Sent(line: string): string {
    if IsCut(line) then line[..|line| - 1] else line
  }

  function AllSent(lines: seq<string>): seq<string> {
    if lines == [] then [] else [Sent(lines[0])] + AllSent(lines[1..])
  }

  ghost predicate Clean(lines: seq<string>) {
    forall line :: line in lines ==> '\r' !in Sent(line)
  }

  lemma PairedTail(text: string, k: nat)
    requires Paired(text) && k <= |text|
    ensures Paired(text[k..])
  {
    forall i | 0 <= i < |text[k..]| && text[k..][i] == '\r'
      ensures i + 1 < |text[k..]| && text[k..][i + 1] == '\n'
    {
      assert text[k + i] == '\r';
    }
  }

  ghost predicate SentByLine(text: string) {
    SplitLines(Normalize(text)) == AllSent(SplitLines(text)) && Clean(SplitLines(text))
  }

  lemma SentAfterPair(text: string)
    requires StartsWithCrlf(text) && SentByLine(text[2..])
    ensures SentByLine(text)
  {
    var lines := SplitLines(text[2..]);
    NormalizePair(text);
    assert text[1..][0] == '\n' && text[1..][1..] == text[2..];
    assert SplitLines(text[1..]) == [""] + lines && ([""] + lines)[1..] == lines;
    assert [text[0]] + "" == "\r";
    assert SplitLines(text) == ["\r"] + lines;
    assert Sent("\r") == "";
    AllSentCons("\r", lines);
    assert (['\n'] + Normalize(text[2..]))[1..] == Normalize(text[2..]);
  }

  lemma SentAfterLineFeed(text: string)
    requires text != "" && text[0] == '\n' && SentByLine(text[1..])
    ensures SentByLine(text)
  {
    NormalizeHead(text);
    AllSentCons("", SplitLines(text[1..]));
    assert (['\n'] + Normalize(text[1..]))[1..] == Normalize(text[1..]);
  }

  lemma SentAfterPrefix(c: char, lines: seq<string>)
    requires c != '\r' && lines != [] && Clean(lines)
    ensures var longer := [[c] + lines[0]] + lines[1..];
            Clean(longer) && AllSent(longer) == [[c] + AllSent(lines)[0]] + AllSent(lines)[1..]
  {
    var longer := [[c] + lines[0]] + lines[1..];
    assert Sent([c] + lines[0]) == [c] + Sent(lines[0]);
    forall line | line in longer ensures '\r' !in Sent(line) {
      assert line == [c] + lines[0] || line in lines;
    }
    assert lines == [lines[0]] + lines[1..];
    AllSentCons(lines[0], lines[1..]);
    AllSentCons([c] + lines[0], lines[1..]);
  }

  lemma SentAfterChar(text: string)
    requires text != "" && text[0] != '\n' && text[0] != '\r' && SentByLine(text[1..])
    ensures SentByLine(text)
  {
    hide SplitLines, Normalize, AllSent, Clean;
    NormalizeHead(text);
    FirstLine(text);
    assert Normalize(text)[1..] == Normalize(text[1..]);
    FirstLine(Normalize(text));
    SentAfterPrefix(text[0], SplitLines(text[1..]));
  }

  /** A text with cut pairs in it, and the text that was sent, line by line. */
  lemma {:induction false} LinesSent(text: string)
    requires Paired(text)
    ensures SentByLine(text)
    decreases |text|
  {
    if text == "" {
      assert SplitLines(Normalize(text)) == [""];
    } else if StartsWithCrlf(text) {
      PairedTail(text, 2);
      LinesSent(text[2..]);
      SentAfterPair(text);
    } else {
      assert text[0] != '\r';
      PairedTail(text, 1);
      LinesSent(text[1..]);
      if text[0] == '\n' {
        SentAfterLineFeed(text);
      } else {
        SentAfterChar(text);
      }
    }
  }

  lemma AllSentCons(line: string, lines: seq<string>)
    ensures AllSent([line] + lines) == [Sent(line)] + AllSent(lines)
    ensures '\r' !in Sent(line) && Clean(lines) ==> Clean([line] + lines)
  {
    assert ([line] + lines)[1..] == lines;
  }

  lemma {:induction false} AllSentFront(lines: seq<string>)
    requires lines != []
    ensures |AllSent(lines)| == |lines|
    ensures AllSent(lines[..|lines| - 1]) == AllSent(lines)[..|lines| - 1]
  {
    if |lines| > 1 {
      AllSentFront(lines[1..]);
      assert lines[..|lines| - 1] == [lines[0]] + lines[1..][..|lines| - 2];
      AllSentCons(lines[0], lines[1..][..|lines| - 2]);
    }
  }

  /** Reading on after a chunk, when of what follows it `raw` is sent and `seen` is read. */
  lemma {:induction false} ReadOnPaired(chunk: string, raw: string, seen: string)
    requires Paired(chunk + raw) && Paired(seen) && Normalize(seen) == Normalize(raw)
    requires raw != "" && raw[0] == '\n' ==> seen != "" && seen[0] == '\n'
    ensures Paired(Normalize(chunk) + seen)
    ensures Normalize(Normalize(chunk) + seen) == Normalize(chunk + raw)
    ensures chunk != "" && chunk[0] == '\n' ==> Normalize(chunk) != "" && Normalize(chunk)[0] == '\n'
    decreases |chunk|
  {
    hide Normalize;
    NormalizeNothing();
    if chunk == "" {
      assert chunk + raw == raw && Normalize(chunk) + seen == seen;
    } else if StartsWithCrlf(chunk) {
      PairedTail(chunk + raw, 2);
      assert (chunk + raw)[2..] == chunk[2..] + raw;
      ReadOnPaired(chunk[2..], raw, seen);
      NormalizePair(chunk);
      NormalizePair(chunk + raw);
      Prefixed('\n', Normalize(chunk[2..]), seen);
    } else if chunk[0] == '\r' {
      assert (chunk + raw)[0] == '\r' && (chunk + raw)[1] == '\n';
      assert |chunk| == 1 && raw != "" && raw[0] == '\n' && chunk == "\r";
      NormalizeHead(chunk);
      assert chunk[1..] == "" && Normalize(chunk) == chunk;
      NormalizeHead(raw);
      NormalizeHead(seen);
      NormalizePair(chunk + raw);
      NormalizePair(chunk + seen);
      assert (chunk + raw)[2..] == raw[1..] && (chunk + seen)[2..] == seen[1..];
      assert Normalize(seen)[1..] == Normalize(seen[1..]) && Normalize(raw)[1..] == Normalize(raw[1..]);
      PairedCr(seen);
    } else {
      PairedTail(chunk + raw, 1);
      assert (chunk + raw)[1..] == chunk[1..] + raw;
      ReadOnPaired(chunk[1..], raw, seen);
      NormalizeHead(chunk);
      NormalizeHead(chunk + raw);
      Prefixed(chunk[0], Normalize(chunk[1..]), seen);
    }
  }

  lemma Prefixed(c: char, text: string, seen: string)
    requires c != '\r' && Paired(text + seen)
    ensures Paired([c] + text + seen)
    ensures Normalize([c] + text + seen) == [c] + Normalize(text + seen)
  {
    var all := [c] + text + seen;
    assert all[1..] == text + seen;
    NormalizeHead(all);
    forall i | 0 <= i < |all| && all[i] == '\r' ensures i + 1 < |all| && all[i + 1] == '\n' {
      assert (text + seen)[i - 1] == '\r';
    }
  }

  lemma PairedCr(seen: string)
    requires Paired(seen) && seen != "" && seen[0] == '\n'
    ensures Paired("\r" + seen)
  {
    var all := "\r" + seen;
    forall i | 0 <= i < |all| && all[i] == '\r' ensures i + 1 < |all| && all[i + 1] == '\n' {
      if i > 0 {
        assert seen[i - 1] == '\r';
      }
    }
  }

  /** What is read of a stream is what was sent, but for the carriage returns of cut pairs. */
  lemma {:induction false} SeenIsSent(chunks: seq<string>)
    requires Paired(Concat(chunks))
    ensures Paired(NormalizeEach(chunks)) && Normalize(NormalizeEach(chunks)) == Normalize(Concat(chunks))
  {
    SeenIsSentFrom("", chunks);
    assert "" + Concat(chunks) == Concat(chunks) && Normalize("") + NormalizeEach(chunks) == NormalizeEach(chunks);
  }

  lemma {:induction false} SeenIsSentFrom(chunk: string, chunks: seq<string>)
    requires Paired(chunk + Concat(chunks))
    ensures Paired(Normalize(chunk) + NormalizeEach(chunks))
    ensures Normalize(Normalize(chunk) + NormalizeEach(chunks)) == Normalize(chunk + Concat(chunks))
    ensures Paired(NormalizeEach(chunks)) && Normalize(NormalizeEach(chunks)) == Normalize(Concat(chunks))
    ensures Concat(chunks) != "" && Concat(chunks)[0] == '\n' ==>
              NormalizeEach(chunks) != "" && NormalizeEach(chunks)[0] == '\n'
    decreases |chunks|
  {
    PairedTail(chunk + Concat(chunks), |chunk|);
    assert (chunk + Concat(chunks))[|chunk|..] == Concat(chunks);
    if chunks != [] {
      SeenIsSentFrom(chunks[0], chunks[1..]);
      ReadOnPaired(chunks[0], Concat(chunks[1..]), NormalizeEach(chunks[1..]));
    }
    ReadOnPaired(chunk, Concat(chunks), NormalizeEach(chunks));
  }

  // ---------------------------------------------------------------- what a cut does to a line

  lemma {:induction false} TrimStartOf(data: string)
    ensures '\r' !in data ==> '\r' !in TrimStart(data)
    ensures TrimStart(data + "\r") == if TrimStart(data) == "" then "" else TrimStart(data) + "\r"
  {
    var cr := "\r";
    if data == "" {
      assert data + cr == cr && cr[1..] == "" && IsSpace(cr[0]);
    } else {
      assert (data + cr)[1..] == data[1..] + cr;
      if IsSpace(data[0]) {
        TrimStartOf(data[1..]);
      }
    }
  }

  /** A line with data in it, the terminator included. */
  predicate HasData(line: string) {
    DATA <= line && TrimStart(line[5..]) != ""
  }

  /** A cut line has the payload that was sent, with a carriage return after it; the cut terminator has one too, and
      lines without data are as they were sent. */
  lemma PayloadOfCut(line: string)
    requires IsCut(line)
    ensures PayloadOf(line) == if HasData(Sent(line)) then [TrimStart(Sent(line)[5..]) + "\r"]
                               else PayloadOf(Sent(line))
  {
    var sent := Sent(line);
    assert line == sent + "\r";
    assert DATA[4] == ':' && !(DATA <= line && |line| == 5);
    if DATA <= sent {
      assert DATA <= line && line[5..] == sent[5..] + "\r";
      TrimStartOf(sent[5..]);
      var data := TrimStart(sent[5..]);
      assert data != "" ==> (data + "\r")[|data|] == '\r';
      assert DONE[|DONE| - 1] == ']' && |DONE| == 6;
    }
  }

  /** The cut changes what the line delivers. */
  predicate IsSpoiled(line: string) {
    IsCut(line) && HasData(Sent(line))
  }

  /** The line is delivered: a blank line is read at or after it. */
  ghost predicate IsSeen(lines: seq<string>, i: nat) {
    exists k :: i <= k < |lines| && lines[k] == ""
  }

  /** The line should have been delivered: a blank line is sent at or after it. */
  ghost predicate IsDue(lines: seq<string>, i: nat) {
    exists k :: i <= k < |lines| && Sent(lines[k]) == ""
  }

  ghost predicate SomeSpoiled(lines: seq<string>) {
    exists i :: 0 <= i < |lines| && IsSeen(lines, i) && IsSpoiled(lines[i])
  }

  ghost predicate SomeMissed(lines: seq<string>) {
    exists i :: 0 <= i < |lines| && !IsSeen(lines, i) && IsDue(lines, i) && PayloadOf(Sent(lines[i])) != []
  }

  lemma SeenFromTail(lines: seq<string>, i: nat)
    requires 1 <= i < |lines|
    ensures IsSeen(lines, i) <==> IsSeen(lines[1..], i - 1)
    ensures IsDue(lines, i) <==> IsDue(lines[1..], i - 1)
  {
    if IsSeen(lines, i) {
      var k :| i <= k < |lines| && lines[k] == "";
      assert lines[1..][k - 1] == "";
    }
    if IsDue(lines, i) {
      var k :| i <= k < |lines| && Sent(lines[k]) == "";
      assert Sent(lines[1..][k - 1]) == "";
    }
    if IsSeen(lines[1..], i - 1) {
      var k :| i - 1 <= k < |lines[1..]| && lines[1..][k] == "";
      assert lines[k + 1] == "";
    }
    if IsDue(lines[1..], i - 1) {
      var k :| i - 1 <= k < |lines[1..]| && Sent(lines[1..][k]) == "";
      assert Sent(lines[k + 1]) == "";
    }
  }

  lemma FirstIsSeen(lines: seq<string>)
    requires "" in lines
    ensures IsSeen(lines, 0)
  {}

  /** Of lines the first of which is seen. */
  lemma FirstOfSeen(lines: seq<string>)
    requires "" in lines
    ensures SomeSpoiled(lines) <==> IsSpoiled(lines[0]) || SomeSpoiled(lines[1..])
    ensures SomeMissed(lines) <==> SomeMissed(lines[1..])
  {
    hide IsSeen, IsDue, IsSpoiled, Sent, PayloadOf;
    FirstIsSeen(lines);
    var rest := lines[1..];
    forall i | 1 <= i < |lines| ensures IsSeen(lines, i) <==> IsSeen(rest, i - 1)
      ensures IsDue(lines, i) <==> IsDue(rest, i - 1)
    {
      SeenFromTail(lines, i);
    }
    if SomeSpoiled(lines) && !IsSpoiled(lines[0]) {
      var i :| 0 <= i < |lines| && IsSeen(lines, i) && IsSpoiled(lines[i]);
      assert IsSeen(rest, i - 1) && rest[i - 1] == lines[i];
    }
    if SomeMissed(lines) {
      var i :| 0 <= i < |lines| && !IsSeen(lines, i) && IsDue(lines, i) && PayloadOf(Sent(lines[i])) != [];
      assert !IsSeen(rest, i - 1) && rest[i - 1] == lines[i];
    }
    if SomeSpoiled(rest) {
      var i :| 0 <= i < |rest| && IsSeen(rest, i) && IsSpoiled(rest[i]);
      assert IsSeen(lines, i + 1) && lines[i + 1] == rest[i];
    }
    if SomeMissed(rest) {
      var i :| 0 <= i < |rest| && !IsSeen(rest, i) && IsDue(rest, i) && PayloadOf(Sent(rest[i])) != [];
      assert !IsSeen(lines, i + 1) && lines[i + 1] == rest[i];
    }
  }

  lemma {:induction false} SentBlank(lines: seq<string>)
    ensures |AllSent(lines)| == |lines| && forall i :: 0 <= i < |lines| ==> AllSent(lines)[i] == Sent(lines[i])
    ensures "" in AllSent(lines) <==> IsDue(lines, 0)
  {
    SentAt(lines);
    if "" in AllSent(lines) {
      var i :| 0 <= i < |lines| && AllSent(lines)[i] == "";
      assert Sent(lines[i]) == "";
    }
  }

  lemma {:induction false} SentAt(lines: seq<string>)
    ensures |AllSent(lines)| == |lines| && forall i :: 0 <= i < |lines| ==> AllSent(lines)[i] == Sent(lines[i])
  {
    if lines != [] {
      SentAt(lines[1..]);
    }
  }

  /** When no blank line is read, everything that is due is missed. */
  lemma {:induction false} MissedIff(lines: seq<string>)
    requires "" !in lines
    ensures Delivered(AllSent(lines)) != [] <==> SomeMissed(lines)
    ensures !SomeSpoiled(lines)
  {
    hide IsDue, IsSpoiled, Sent, PayloadOf;
    SentBlank(lines);
    if lines != [] {
      var rest := lines[1..];
      MissedIff(rest);
      assert forall i :: !IsSeen(lines, i);
      forall i | 1 <= i < |lines| ensures IsDue(lines, i) <==> IsDue(rest, i - 1) {
        SeenFromTail(lines, i);
      }
      if SomeMissed(lines) {
        var i :| 0 <= i < |lines| && !IsSeen(lines, i) && IsDue(lines, i) && PayloadOf(Sent(lines[i])) != [];
        assert IsDue(lines, 0);
        if i > 0 {
          assert !IsSeen(rest, i - 1) && rest[i - 1] == lines[i];
        }
      }
      if SomeMissed(rest) {
        var i :| 0 <= i < |rest| && !IsSeen(rest, i) && IsDue(rest, i) && PayloadOf(Sent(rest[i])) != [];
        assert !IsSeen(lines, i + 1) && lines[i + 1] == rest[i] && IsDue(lines, i + 1);
        assert IsDue(lines, 0);
      } else if Delivered(AllSent(lines)) != [] {
        assert PayloadOf(Sent(lines[0])) != [];
        assert !IsSeen(lines, 0) && IsDue(lines, 0);
      }
    }
  }

  lemma {:induction false} NoReturnDelivered(lines: seq<string>)
    requires Clean(lines)
    ensures forall payload :: payload in Delivered(AllSent(lines)) ==> '\r' !in payload
  {
    if "" in AllSent(lines) {
      assert lines[0] in lines;
      assert forall line :: line in lines[1..] ==> line in lines;
      NoReturnDelivered(lines[1..]);
      if DATA <= Sent(lines[0]) {
        TrimStartOf(Sent(lines[0])[5..]);
      }
    }
  }

  /** Lines deliver what was sent iff none that is delivered is spoiled and none that is due is missed. */
  lemma {:induction false} DeliveredAsSentIff(lines: seq<string>)
    requires Clean(lines)
    ensures Delivered(lines) == Delivered(AllSent(lines)) <==> !SomeSpoiled(lines) && !SomeMissed(lines)
  {
    if "" !in lines {
      MissedIff(lines);
    } else {
      var first, rest := lines[0], lines[1..];
      FirstOfSeen(lines);
      SentBlank(lines);
      BlankIsDue(lines);
      assert AllSent(lines)[0] == Sent(first) && AllSent(lines)[1..] == AllSent(rest);
      assert forall line :: line in rest ==> line in lines;
      DeliveredAsSentIff(rest);
      if IsSpoiled(first) {
        SpoiledDiffers(lines);
      } else {
        UnspoiledIsSent(first);
        assert Delivered(lines) == PayloadOf(first) + Delivered(rest);
        assert Delivered(AllSent(lines)) == PayloadOf(first) + Delivered(AllSent(rest));
        SameRest(PayloadOf(first), Delivered(rest), Delivered(AllSent(rest)));
      }
    }
  }

  lemma SpoiledDiffers(lines: seq<string>)
    requires Clean(lines) && "" in lines && IsSpoiled(lines[0])
    ensures Delivered(lines) != Delivered(AllSent(lines))
  {
    PayloadOfCut(lines[0]);
    NoReturnDelivered(lines);
    var payload := TrimStart(Sent(lines[0])[5..]) + "\r";
    assert payload[|payload| - 1] == '\r' && '\r' in payload;
    assert payload !in Delivered(AllSent(lines));
    assert Delivered(lines) == [payload] + Delivered(lines[1..]);
    assert Delivered(lines)[0] == payload;
  }

  lemma SameRest<T>(first: seq<T>, a: seq<T>, b: seq<T>)
    ensures first + a == first + b <==> a == b
  {
    assert (first + a)[|first|..] == a && (first + b)[|first|..] == b;
  }

  lemma UnspoiledIsSent(line: string)
    requires !IsSpoiled(line)
    ensures PayloadOf(line) == PayloadOf(Sent(line))
  {
    if IsCut(line) {
      PayloadOfCut(line);
    }
  }

  lemma BlankIsDue(lines: seq<string>)
    requires "" in lines
    ensures "" in AllSent(lines)
  {
    SentBlank(lines);
    var i :| 0 <= i < |lines| && lines[i] == "";
    assert AllSent(lines)[i] == "";
  }

  /** The lines the reader has of a stream. */
  ghost function LinesRead(chunks: seq<string>): seq<string> {
    Terminated(NormalizeEach(chunks))
  }

  lemma ReadAndSent(chunks: seq<string>)
    requires Paired(Concat(chunks))
    ensures Terminated(Normalize(Concat(chunks))) == AllSent(LinesRead(chunks)) && Clean(LinesRead(chunks))
  {
    var seen := NormalizeEach(chunks);
    SeenIsSent(chunks);
    LinesSent(seen);
    AllSentFront(SplitLines(seen));
    assert forall line :: line in LinesRead(chunks) ==> line in SplitLines(seen);
  }

  /** A stream whose carriage returns all belong to CRLF pairs delivers the payloads of its whole text iff no cut pair
      ends a line with data in a block that is delivered, and no payload lies between the last blank line that is read
      and the last one that was sent. */
  lemma PayloadsSurviveCutsIff(chunks: seq<string>)
    requires Paired(Concat(chunks))
    ensures WholePayloads(NormalizeEach(chunks)) == WholePayloads(Normalize(Concat(chunks))) <==>
            !SomeSpoiled(LinesRead(chunks)) && !SomeMissed(LinesRead(chunks))
  {
    ReadAndSent(chunks);
    WholePayloadsAreDelivered(NormalizeEach(chunks));
    WholePayloadsAreDelivered(Normalize(Concat(chunks)));
    DeliveredAsSentIff(LinesRead(chunks));
  }

  // ---------------------------------------------------------------- what the caller sees of it

  /** The events a caller is handed, and whether the reader throws. */
  function Events<V>(payloads: seq<string>, parse: string -> Option<V>): (seq<V>, bool) {
    if payloads == [] then ([], false)
    else
      match parse(payloads[0])
      case None => ([], true)
      case Some(value) =>
        var (values, thrown) := Events(payloads[1..], parse);
        ([value] + values, thrown)
  }

  predicate Parses<V>(payload: string, parse: string -> Option<V>) {
    parse(payload).Some?
  }

  /** They are the values of what the reader delivers. */
  lemma {:induction false} EventsOfReader<V>(payloads: seq<string>, parse: string -> Option<V>)
    ensures var delivered := Deliverable(payloads, p => Parses(p, parse));
            var (values, thrown) := Events(payloads, parse);
            && |values| == |delivered| && (thrown <==> delivered != payloads)
            && forall i :: 0 <= i < |values| ==> parse(delivered[i]) == Some(values[i])
  {
    if payloads != [] && parse(payloads[0]).Some? {
      EventsOfReader(payloads[1..], parse);
      var delivered := Deliverable(payloads[1..], p => Parses(p, parse));
      assert payloads == [payloads[0]] + payloads[1..];
      assert ([payloads[0]] + delivered)[1..] == delivered;
    }
  }

  /** What is assumed of `JSON.parse`: white space at the end does not matter, and the terminator does not parse. */
  ghost predicate LikeJson<V(!new)>(parse: string -> Option<V>) {
    (forall data :: parse(data + "\r") == parse(data)) && parse(DONE).None?
  }

  /** A cut terminator, which is taken for a payload. */
  predicate IsCutDone(line: string) {
    IsCut(line) && DATA <= Sent(line) && TrimStart(Sent(line)[5..]) == DONE
  }

  /** What was sent on the line is a payload that does not parse. */
  predicate Fails<V>(line: string, parse: string -> Option<V>) {
    PayloadOf(Sent(line)) != [] && parse(PayloadOf(Sent(line))[0]).None?
  }

  /** Reading stops at the line. */
  ghost predicate IsTrouble<V>(lines: seq<string>, i: nat, parse: string -> Option<V>) {
    i < |lines| && IsSeen(lines, i) && (IsCutDone(lines[i]) || Fails(lines[i], parse))
  }

  ghost predicate IsFirstTrouble<V>(lines: seq<string>, i: nat, parse: string -> Option<V>) {
    IsTrouble(lines, i, parse) && forall j: nat :: j < i ==> !IsTrouble(lines, j, parse)
  }

  /** The first payload that is sent and due from line `i` on does not parse. */
  ghost predicate NextFails<V>(lines: seq<string>, i: nat, parse: string -> Option<V>) {
    exists k: nat :: FailsAt(lines, i, k, parse)
  }

  ghost predicate FailsAt<V>(lines: seq<string>, i: nat, k: nat, parse: string -> Option<V>) {
    && i <= k < |lines| && IsDue(lines, k) && Fails(lines[k], parse)
    && forall j :: i <= j < k ==> PayloadOf(Sent(lines[j])) == []
  }

  /** Reading stops nowhere and nothing is missed; or it stops first where a payload does not parse, or at a cut
      terminator after which the next payload sent does not parse either. */
  ghost predicate EndsAsSent<V>(lines: seq<string>, parse: string -> Option<V>) {
    && ((forall i: nat :: !IsTrouble(lines, i, parse)) ==> !SomeMissed(lines))
    && forall i: nat :: IsFirstTrouble(lines, i, parse) ==> ThrowsAsSent(lines, i, parse)
  }

  ghost predicate ThrowsAsSent<V>(lines: seq<string>, i: nat, parse: string -> Option<V>) {
    i < |lines| && (Fails(lines[i], parse) || NextFails(lines, i + 1, parse))
  }

  lemma EventsAfterOne<V>(payload: string, rest: seq<string>, parse: string -> Option<V>)
    ensures Events([payload] + rest, parse) ==
            if parse(payload).None? then ([], true)
            else ([parse(payload).value] + Events(rest, parse).0, Events(rest, parse).1)
  {
    assert ([payload] + rest)[1..] == rest;
  }

  lemma FailingLine<V(!new)>(line: string, seen: seq<string>, sent: seq<string>, parse: string -> Option<V>)
    requires LikeJson(parse) && Fails(line, parse)
    ensures Events(PayloadOf(line) + seen, parse) == ([], true)
    ensures Events(PayloadOf(Sent(line)) + sent, parse) == ([], true)
  {
    var data := PayloadOf(Sent(line))[0];
    assert PayloadOf(Sent(line)) == [data];
    EventsAfterOne(data, sent, parse);
    if IsSpoiled(line) {
      PayloadOfCut(line);
      EventsAfterOne(data + "\r", seen, parse);
    } else {
      UnspoiledIsSent(line);
      EventsAfterOne(data, seen, parse);
    }
  }

  lemma CutDoneLine<V(!new)>(line: string, seen: seq<string>, parse: string -> Option<V>)
    requires LikeJson(parse) && IsCutDone(line)
    ensures Events(PayloadOf(line) + seen, parse) == ([], true) && PayloadOf(Sent(line)) == []
  {
    PayloadOfCut(line);
    EventsAfterOne(DONE + "\r", seen, parse);
  }

  /** Any other line delivers, as the caller sees it, what was sent. */
  lemma OtherLine<V(!new)>(line: string, seen: seq<string>, sent: seq<string>, parse: string -> Option<V>)
    requires LikeJson(parse) && !Fails(line, parse) && !IsCutDone(line)
    ensures Events(PayloadOf(line) + seen, parse) == Events(PayloadOf(Sent(line)) + sent, parse) <==>
            Events(seen, parse) == Events(sent, parse)
  {
    if IsSpoiled(line) {
      var data := TrimStart(Sent(line)[5..]);
      PayloadOfCut(line);
      EventsAfterOne(data + "\r", seen, parse);
      EventsAfterOne(data, sent, parse);
      assert PayloadOf(Sent(line)) == [data];
      SameRest([parse(data).value], Events(seen, parse).0, Events(sent, parse).0);
    } else {
      UnspoiledIsSent(line);
      if PayloadOf(line) == [] {
        assert [] + seen == seen && [] + sent == sent;
      } else {
        var data := PayloadOf(line)[0];
        assert PayloadOf(line) == [data];
        EventsAfterOne(data, seen, parse);
        EventsAfterOne(data, sent, parse);
        SameRest([parse(data).value], Events(seen, parse).0, Events(sent, parse).0);
      }
    }
  }

  lemma FailsFromTail<V>(lines: seq<string>, i: nat, parse: string -> Option<V>)
    requires lines != []
    ensures NextFails(lines, i + 1, parse) <==> NextFails(lines[1..], i, parse)
  {
    hide IsDue, Fails, Sent, PayloadOf;
    var rest, next: nat := lines[1..], i + 1;
    if k: nat :| FailsAt(lines, next, k, parse) {
      SeenFromTail(lines, k);
      assert rest[k - 1] == lines[k] && forall j :: i <= j < k - 1 ==> rest[j] == lines[j + 1];
      assert FailsAt(rest, i, k - 1, parse);
    }
    if k: nat :| FailsAt(rest, i, k, parse) {
      SeenFromTail(lines, k + 1);
      assert lines[k + 1] == rest[k] && forall j :: i + 1 <= j < k + 1 ==> lines[j] == rest[j - 1];
      assert FailsAt(lines, i + 1, k + 1, parse);
    }
  }

  lemma DeliveredFirst(lines: seq<string>)
    requires lines != []
    ensures Delivered(lines) == if "" !in lines then [] else PayloadOf(lines[0]) + Delivered(lines[1..])
  {}

  lemma NoEvents<V>(parse: string -> Option<V>)
    ensures Events([], parse) == ([], false)
  {}

  /** What is sent throws before it delivers anything iff its first payload does not parse. */
  lemma {:induction false} ThrowsFirst<V>(lines: seq<string>, parse: string -> Option<V>)
    ensures Events(Delivered(AllSent(lines)), parse) == ([], true) <==> NextFails(lines, 0, parse)
  {
    hide IsDue, Sent, PayloadOf, NextFails, Events, Delivered;
    SentBlank(lines);
    NoEvents(parse);
    if !IsDue(lines, 0) {
      NothingIsDue(lines, parse);
      NothingDelivered(AllSent(lines));
    } else {
      var first, rest := lines[0], lines[1..];
      FailsFromTail(lines, 0, parse);
      ThrowsFirst(rest, parse);
      assert AllSent(lines)[0] == Sent(first) && AllSent(lines)[1..] == AllSent(rest);
      DeliveredFirst(AllSent(lines));
      FirstIsNext(lines, parse);
      AtMostOne(Sent(first));
      FirstThrows(PayloadOf(Sent(first)), Delivered(AllSent(rest)), parse);
    }
  }

  lemma AtMostOne(line: string)
    ensures |PayloadOf(line)| <= 1
  {}

  lemma FirstThrows<V>(first: seq<string>, rest: seq<string>, parse: string -> Option<V>)
    requires |first| <= 1
    ensures Events(first + rest, parse) == ([], true) <==>
            if first == [] then Events(rest, parse) == ([], true) else parse(first[0]).None?
  {
    if first == [] {
      assert [] + rest == rest;
    } else {
      assert first == [first[0]];
      EventsAfterOne(first[0], rest, parse);
    }
  }

  lemma FirstIsNext<V>(lines: seq<string>, parse: string -> Option<V>)
    requires lines != [] && IsDue(lines, 0)
    ensures NextFails(lines, 0, parse) <==>
            if PayloadOf(Sent(lines[0])) == [] then NextFails(lines, 1, parse) else Fails(lines[0], parse)
  {
    hide IsDue, Sent, PayloadOf;
    if k: nat :| FailsAt(lines, 0, k, parse) {
      if PayloadOf(Sent(lines[0])) == [] {
        assert FailsAt(lines, 1, k, parse);
      } else {
        assert k == 0;
      }
    }
    if PayloadOf(Sent(lines[0])) == [] {
      if k: nat :| FailsAt(lines, 1, k, parse) {
        assert FailsAt(lines, 0, k, parse);
      }
    } else if Fails(lines[0], parse) {
      assert FailsAt(lines, 0, 0, parse);
    }
  }

  lemma DueEarlier(lines: seq<string>, k: nat)
    requires IsDue(lines, k)
    ensures IsDue(lines, 0)
  {}

  lemma NothingIsDue<V>(lines: seq<string>, parse: string -> Option<V>)
    requires !IsDue(lines, 0)
    ensures !NextFails(lines, 0, parse)
  {
    hide IsDue;
    if k: nat :| FailsAt(lines, 0, k, parse) {
      DueEarlier(lines, k);
    }
  }

  lemma TroubleFromTail<V>(lines: seq<string>, i: nat, parse: string -> Option<V>)
    requires lines != []
    ensures IsTrouble(lines, i + 1, parse) <==> IsTrouble(lines[1..], i, parse)
  {
    hide IsSeen, IsCutDone, Fails;
    if i + 1 < |lines| {
      SeenFromTail(lines, i + 1);
    }
  }

  lemma ThrowsFromTail<V>(lines: seq<string>, i: nat, parse: string -> Option<V>)
    requires lines != []
    ensures ThrowsAsSent(lines, i + 1, parse) <==> ThrowsAsSent(lines[1..], i, parse)
  {
    hide Fails, NextFails;
    FailsFromTail(lines, i + 1, parse);
  }

  /** If reading goes on after the first line, the rest decides. */
  lemma GoesOn<V>(lines: seq<string>, parse: string -> Option<V>)
    requires lines != [] && !IsTrouble(lines, 0, parse) && (SomeMissed(lines) <==> SomeMissed(lines[1..]))
    ensures EndsAsSent(lines, parse) <==> EndsAsSent(lines[1..], parse)
  {
    hide IsTrouble, ThrowsAsSent, SomeMissed;
    var rest := lines[1..];
    NoTroubleFromTail(lines, parse);
    if EndsAsSent(lines, parse) {
      forall i: nat | IsFirstTrouble(rest, i, parse) ensures ThrowsAsSent(rest, i, parse) {
        FirstTroubleFromTail(lines, i, parse);
        ThrowsFromTail(lines, i, parse);
      }
    }
    if EndsAsSent(rest, parse) {
      forall i: nat | IsFirstTrouble(lines, i, parse) ensures ThrowsAsSent(lines, i, parse) {
        assert i > 0;
        var j: nat := i - 1;
        FirstTroubleFromTail(lines, j, parse);
        ThrowsFromTail(lines, j, parse);
      }
    }
  }

  lemma NoTroubleFromTail<V>(lines: seq<string>, parse: string -> Option<V>)
    requires lines != [] && !IsTrouble(lines, 0, parse)
    ensures (forall i: nat :: !IsTrouble(lines, i, parse)) <==> forall i: nat :: !IsTrouble(lines[1..], i, parse)
  {
    hide IsTrouble;
    if i: nat :| IsTrouble(lines, i, parse) {
      TroubleFromTail(lines, i - 1, parse);
    }
    if i: nat :| IsTrouble(lines[1..], i, parse) {
      TroubleFromTail(lines, i, parse);
    }
  }

  lemma FirstTroubleFromTail<V>(lines: seq<string>, i: nat, parse: string -> Option<V>)
    requires lines != [] && !IsTrouble(lines, 0, parse)
    ensures IsFirstTrouble(lines, i + 1, parse) <==> IsFirstTrouble(lines[1..], i, parse)
  {
    hide IsTrouble;
    var rest := lines[1..];
    forall j: nat ensures IsTrouble(lines, j + 1, parse) <==> IsTrouble(rest, j, parse) {
      TroubleFromTail(lines, j, parse);
    }
    if IsFirstTrouble(rest, i, parse) {
      forall j: nat | j < i + 1 ensures !IsTrouble(lines, j, parse) {
        if j > 0 {
          var k: nat := j - 1;
          assert IsTrouble(lines, k + 1, parse) <==> IsTrouble(rest, k, parse);
        }
      }
    }
    if IsFirstTrouble(lines, i + 1, parse) {
      forall j: nat | j < i ensures !IsTrouble(rest, j, parse) {
        assert !IsTrouble(lines, j + 1, parse);
      }
    }
  }

  /** If reading stops at the first line, that line decides. */
  lemma StopsAtOnce<V>(lines: seq<string>, parse: string -> Option<V>)
    requires lines != [] && IsTrouble(lines, 0, parse)
    ensures EndsAsSent(lines, parse) <==> Fails(lines[0], parse) || NextFails(lines, 1, parse)
  {
    hide IsTrouble, NextFails, Fails;
    assert IsFirstTrouble(lines, 0, parse);
    assert forall i: nat :: IsFirstTrouble(lines, i, parse) ==> i == 0;
  }

  lemma FirstLineDecides<V(!new)>(lines: seq<string>, parse: string -> Option<V>)
    requires LikeJson(parse) && "" in lines
    requires Events(Delivered(lines[1..]), parse) == Events(Delivered(AllSent(lines[1..])), parse) <==>
             EndsAsSent(lines[1..], parse)
    ensures Events(PayloadOf(lines[0]) + Delivered(lines[1..]), parse) ==
            Events(PayloadOf(Sent(lines[0])) + Delivered(AllSent(lines[1..])), parse) <==>
            EndsAsSent(lines, parse)
  {
    hide IsSeen, IsDue, SomeMissed, NextFails, EndsAsSent, Sent, PayloadOf, Fails, IsCutDone;
    hide Events, Delivered, AllSent;
    var first, seen, sent := lines[0], Delivered(lines[1..]), Delivered(AllSent(lines[1..]));
    FirstIsSeen(lines);
    FirstOfSeen(lines);
    if Fails(first, parse) {
      FailingLine(first, seen, sent, parse);
      StopsAtOnce(lines, parse);
    } else if IsCutDone(first) {
      CutDoneLine(first, seen, parse);
      assert [] + sent == sent;
      ThrowsFirst(lines[1..], parse);
      FailsFromTail(lines, 0, parse);
      StopsAtOnce(lines, parse);
    } else {
      OtherLine(first, seen, sent, parse);
      GoesOn(lines, parse);
    }
  }

  lemma NothingSeen<V>(lines: seq<string>, parse: string -> Option<V>)
    requires "" !in lines
    ensures Events(Delivered(lines), parse) == Events(Delivered(AllSent(lines)), parse) <==> EndsAsSent(lines, parse)
  {
    MissedIff(lines);
    NothingDelivered(lines);
    NoEvents(parse);
    assert forall i: nat :: !IsTrouble(lines, i, parse);
    if Delivered(AllSent(lines)) != [] {
      assert Events(Delivered(AllSent(lines)), parse) != ([], false);
    }
  }

  lemma {:induction false} SameEventsIff<V(!new)>(lines: seq<string>, parse: string -> Option<V>)
    requires LikeJson(parse)
    ensures Events(Delivered(lines), parse) == Events(Delivered(AllSent(lines)), parse) <==> EndsAsSent(lines, parse)
  {
    hide EndsAsSent, Events, Delivered, PayloadOf, IsDue;
    if "" !in lines {
      NothingSeen(lines, parse);
    } else {
      SentBlank(lines);
      BlankIsDue(lines);
      SameEventsIff(lines[1..], parse);
      DeliveredFirst(lines);
      DeliveredFirst(AllSent(lines));
      assert AllSent(lines)[0] == Sent(lines[0]) && AllSent(lines)[1..] == AllSent(lines[1..]);
      FirstLineDecides(lines, parse);
    }
  }

  /** Of a stream whose carriage returns all belong to CRLF pairs, a caller is handed the same events as of its whole
      text, and the reader throws or not as it would, iff it ends as sent. */
  lemma EventsSurviveCutsIff<V(!new)>(chunks: seq<string>, parse: string -> Option<V>)
    requires Paired(Concat(chunks)) && LikeJson(parse)
    ensures (Events(WholePayloads(NormalizeEach(chunks)), parse) ==
             Events(WholePayloads(Normalize(Concat(chunks))), parse)) <==>
            EndsAsSent(LinesRead(chunks), parse)
  {
    ReadAndSent(chunks);
    WholePayloadsAreDelivered(NormalizeEach(chunks));
    WholePayloadsAreDelivered(Normalize(Concat(chunks)));
    SameEventsIff(LinesRead(chunks), parse);
  }
}
