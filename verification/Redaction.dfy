/** Span redaction: the spans of the evidence are merged and spliced out of the text from right to left. */
module Redactions {
  import opened Types
  import Sorting

  /** UTF-8 text is a sequence of bytes. */
  newtype Byte = n: int | 0 <= n < 256

  type Span = (nat, nat)

  datatype Evidence = Evidence(start: Option<nat>, end: Option<nat>)

  /** "[REDACTED]" */
  const MARKER: seq<Byte> := [91, 82, 69, 68, 65, 67, 84, 69, 68, 93]

  /** `str::is_char_boundary`: not in the middle of an encoded character. */
  predicate CharBoundary(text: seq<Byte>, i: nat) {
    i == |text| || (i < |text| && !(0x80 <= text[i] < 0xC0))
  }

  /** How a code point is encoded. */
  function Utf8(c: nat): seq<Byte>
    requires c < 0x110000
  {
    if c < 0x80 then [c as Byte]
    else if c < 0x800 then [(0xC0 + c / 64) as Byte, (0x80 + c % 64) as Byte]
    else if c < 0x10000 then [(0xE0 + c / 4096) as Byte, (0x80 + c / 64 % 64) as Byte, (0x80 + c % 64) as Byte]
    else [(0xF0 + c / 262144) as Byte, (0x80 + c / 4096 % 64) as Byte, (0x80 + c / 64 % 64) as Byte,
          (0x80 + c % 64) as Byte]
  }

  type CodePoint = c: nat | c < 0x110000

  function Encoded(chars: seq<CodePoint>): seq<Byte> {
    if chars == [] then [] else Utf8(chars[0]) + Encoded(chars[1..])
  }

  /** Only the first byte of an encoded character is not a continuation byte. */
  lemma OneCharacter(c: CodePoint)
    ensures Utf8(c) != [] && !(0x80 <= Utf8(c)[0] < 0xC0)
    ensures forall i :: 0 < i < |Utf8(c)| ==> 0x80 <= Utf8(c)[i] < 0xC0
  {}

  lemma BoundaryAround(head: seq<Byte>, rest: seq<Byte>, i: nat)
    requires head != [] && forall i :: 0 < i < |head| ==> 0x80 <= head[i] < 0xC0
    ensures 0 < i < |head| ==> !CharBoundary(head + rest, i)
    ensures i >= |head| ==> (CharBoundary(head + rest, i) <==> CharBoundary(rest, i - |head|))
  {}

  lemma {:induction false} EncodedPrefix(chars: seq<CodePoint>, k: nat)
    requires 0 < k <= |chars|
    ensures |Encoded(chars[..k])| == |Utf8(chars[0])| + |Encoded(chars[1..][..k - 1])|
  {
    assert chars[..k][1..] == chars[1..][..k - 1];
  }

  lemma FirstIsBoundary(chars: seq<CodePoint>)
    ensures CharBoundary(Encoded(chars), 0) && |Encoded(chars[..0])| == 0
    ensures chars == [] ==> forall i :: i > 0 ==> !CharBoundary(Encoded(chars), i)
  {
    assert chars[..0] == [];
    if chars != [] {
      OneCharacter(chars[0]);
    }
  }

  /** The boundaries in encoded text are the places where some number of its characters ends. */
  lemma {:induction false} BoundaryIff(chars: seq<CodePoint>, i: nat)
    ensures CharBoundary(Encoded(chars), i) <==> exists k :: 0 <= k <= |chars| && i == |Encoded(chars[..k])|
  {
    hide Utf8, CharBoundary;
    if i == 0 {
      FirstIsBoundary(chars);
    } else if chars == [] {
      assert !CharBoundary(Encoded(chars), i) by { FirstIsBoundary(chars); }
    } else {
      var head, rest := Utf8(chars[0]), Encoded(chars[1..]);
      assert Encoded(chars) == head + rest;
      OneCharacter(chars[0]);
      BoundaryAround(head, rest, i);
      if i < |head| {
        forall k | 0 <= k <= |chars| ensures i != |Encoded(chars[..k])| {
          if k > 0 { EncodedPrefix(chars, k); }
        }
      } else {
        BoundaryIff(chars[1..], i - |head|);
        if CharBoundary(rest, i - |head|) {
          var k :| 0 <= k <= |chars[1..]| && i - |head| == |Encoded(chars[1..][..k])|;
          EncodedPrefix(chars, k + 1);
        }
        if k :| 0 <= k <= |chars| && i == |Encoded(chars[..k])| {
          EncodedPrefix(chars, k);
          assert i - |head| == |Encoded(chars[1..][..k - 1])|;
        }
      }
    }
  }

  function CodePoints(s: string): seq<CodePoint> {
    if s == "" then [] else [s[0] as int] + CodePoints(s[1..])
  }

  /** A text's length in bytes is that of its encoding. */
  lemma {:induction false} LengthIsThatOfEncoding(s: string)
    ensures |Encoded(CodePoints(s))| == Utf8Length(s)
  {
    if s != "" {
      LengthIsThatOfEncoding(s[1..]);
      assert CodePoints(s)[1..] == CodePoints(s[1..]);
    }
  }

  lemma MarkerIsSpelledOut()
    ensures |MARKER| == |"[REDACTED]"|
    ensures forall i :: 0 <= i < |MARKER| ==> MARKER[i] as int == "[REDACTED]"[i] as int
  {
    var text := "[REDACTED]";
    assert text[0] == '[' && text[1] == 'R' && text[2] == 'E' && text[3] == 'D' && text[4] == 'A';
    assert text[5] == 'C' && text[6] == 'T' && text[7] == 'E' && text[8] == 'D' && text[9] == ']';
  }

  predicate ValidSpan(e: Evidence, length: nat) {
    e.start.Some? && e.end.Some? && e.start.value < e.end.value <= length
  }

  // ---------------------------------------------------------------- per-position specification

  ghost predicate Covered(evidence: seq<Evidence>, length: nat, i: nat) {
    exists e :: e in evidence && ValidSpan(e, length) && e.start.value <= i < e.end.value
  }

  /** Position by position: a position no span covers is kept, a covered one disappears, and the first position
      of each maximal covered run leaves one marker. */
  ghost function RedactedFrom(text: seq<Byte>, evidence: seq<Evidence>, i: nat): seq<Byte>
    requires i <= |text|
    decreases |text| - i
  {
    if i == |text| then [] else RedactedAt(text, evidence, i) + RedactedFrom(text, evidence, i + 1)
  }

  ghost function RedactedAt(text: seq<Byte>, evidence: seq<Evidence>, i: nat): seq<Byte>
    requires i < |text|
  {
    if !Covered(evidence, |text|, i) then [text[i]]
    else if i == 0 || !Covered(evidence, |text|, i - 1) then MARKER
    else []
  }

  ghost predicate SameCoverage(a: seq<Evidence>, b: seq<Evidence>, length: nat) {
    forall i :: 0 <= i < length ==> (Covered(a, length, i) <==> Covered(b, length, i))
  }

  lemma SameAt(text: seq<Byte>, a: seq<Evidence>, b: seq<Evidence>, i: nat)
    requires SameCoverage(a, b, |text|) && i < |text|
    ensures RedactedAt(text, a, i) == RedactedAt(text, b, i)
  {}

  /** The result depends on the evidence only through what it covers, so not on its order or on repetitions. */
  lemma {:induction false} CoverageDecides(text: seq<Byte>, a: seq<Evidence>, b: seq<Evidence>, i: nat)
    requires SameCoverage(a, b, |text|) && i <= |text|
    ensures RedactedFrom(text, a, i) == RedactedFrom(text, b, i)
    decreases |text| - i
  {
    hide Covered, RedactedAt, SameCoverage;
    if i < |text| {
      var at, rest := RedactedAt(text, a, i), RedactedFrom(text, a, i + 1);
      SameAt(text, a, b, i);
      CoverageDecides(text, a, b, i + 1);
      assert RedactedFrom(text, a, i) == at + rest;
      assert RedactedFrom(text, b, i) == at + rest;
    }
  }

  lemma OrderDoesNotMatter(text: seq<Byte>, a: seq<Evidence>, b: seq<Evidence>)
    requires multiset(a) == multiset(b)
    ensures RedactedFrom(text, a, 0) == RedactedFrom(text, b, 0)
  {
    assert forall e :: e in a <==> e in multiset(a);
    assert forall e :: e in b <==> e in multiset(b);
    CoverageDecides(text, a, b, 0);
  }

  lemma Longer<T>(s: seq<T>, i: nat, j: nat, tail: seq<T>)
    requires i < j <= |s|
    ensures [s[i]] + (s[i + 1..j] + tail) == s[i..j] + tail
  {
    assert s[i..j] == [s[i]] + s[i + 1..j];
    assert ([s[i]] + s[i + 1..j]) + tail == [s[i]] + (s[i + 1..j] + tail);
  }

  lemma {:induction false} UncoveredIsKept(text: seq<Byte>, evidence: seq<Evidence>, i: nat, j: nat)
    requires i <= j <= |text|
    requires forall k :: i <= k < j ==> !Covered(evidence, |text|, k)
    ensures RedactedFrom(text, evidence, i) == text[i..j] + RedactedFrom(text, evidence, j)
    decreases j - i
  {
    hide Covered;
    if i < j {
      UncoveredIsKept(text, evidence, i + 1, j);
      Longer(text, i, j, RedactedFrom(text, evidence, j));
      assert RedactedFrom(text, evidence, i) == [text[i]] + RedactedFrom(text, evidence, i + 1);
    } else {
      assert text[i..j] == [];
    }
  }

  lemma {:induction false} RestOfRunDisappears(text: seq<Byte>, evidence: seq<Evidence>, i: nat, j: nat)
    requires 0 < i <= j <= |text|
    requires forall k :: i - 1 <= k < j ==> Covered(evidence, |text|, k)
    ensures RedactedFrom(text, evidence, i) == RedactedFrom(text, evidence, j)
    decreases j - i
  {
    if i < j {
      RestOfRunDisappears(text, evidence, i + 1, j);
    }
  }

  /** Text without evidence is unchanged. */
  lemma NothingCovered(text: seq<Byte>, evidence: seq<Evidence>)
    requires forall k :: 0 <= k < |text| ==> !Covered(evidence, |text|, k)
    ensures RedactedFrom(text, evidence, 0) == text
  {
    UncoveredIsKept(text, evidence, 0, |text|);
    assert text[0..|text|] == text;
  }

  // ---------------------------------------------------------------- the algorithm

  /** The order of `sort_unstable` on pairs. */
  predicate SpanLeq(a: Span, b: Span) {
    a.0 < b.0 || (a.0 == b.0 && a.1 <= b.1)
  }

  ghost predicate InSpans(spans: seq<Span>, i: nat) {
    exists s :: s in spans && s.0 <= i < s.1
  }

  /** Increasing, non-empty, with at least one position between neighbours. */
  ghost predicate Apart(spans: seq<Span>, length: nat) {
    && (forall i :: 0 <= i < |spans| ==> spans[i].0 < spans[i].1 <= length)
    && (forall i, j :: 0 <= i < j < |spans| ==> spans[i].1 < spans[j].0)
  }

  ghost predicate Ends(evidence: seq<Evidence>, length: nat, i: nat) {
    exists e :: e in evidence && ValidSpan(e, length) && (e.start.value == i || e.end.value == i)
  }

  /** Where a maximal covered run begins or ends. */
  ghost predicate IsEdge(evidence: seq<Evidence>, length: nat, i: nat) {
    (i > 0 && Covered(evidence, length, i - 1)) != Covered(evidence, length, i)
  }

  /** No maximal covered run begins or ends inside a character. */
  ghost predicate CutsCleanly(text: seq<Byte>, evidence: seq<Evidence>) {
    forall i: nat :: IsEdge(evidence, |text|, i) ==> CharBoundary(text, i)
  }

  /** It is enough that all valid spans end on characters; ends inside a covered run need not. */
  lemma CleanSpansCutCleanly(text: seq<Byte>, evidence: seq<Evidence>)
    requires forall i: nat :: Ends(evidence, |text|, i) ==> CharBoundary(text, i)
    ensures CutsCleanly(text, evidence)
  {
    forall i: nat | IsEdge(evidence, |text|, i) ensures Ends(evidence, |text|, i) {
      if Covered(evidence, |text|, i) {
        var e :| e in evidence && ValidSpan(e, |text|) && e.start.value <= i < e.end.value;
        assert i == 0 || e.start.value == i;
      } else {
        var e :| e in evidence && ValidSpan(e, |text|) && e.start.value <= i - 1 < e.end.value;
        assert e.end.value == i;
      }
    }
  }

  lemma InSpansAppend(spans: seq<Span>, s: Span)
    ensures forall i: nat :: InSpans(spans + [s], i) <==> InSpans(spans, i) || s.0 <= i < s.1
  {
    forall i: nat ensures InSpans(spans + [s], i) <==> InSpans(spans, i) || s.0 <= i < s.1 {
      assert forall x :: x in spans + [s] <==> x in spans || x == s;
    }
  }

  lemma CoveredAppend(evidence: seq<Evidence>, e: Evidence, length: nat)
    ensures forall i: nat :: Covered(evidence + [e], length, i) <==>
              Covered(evidence, length, i) || (ValidSpan(e, length) && e.start.value <= i < e.end.value)
  {
    forall i: nat ensures Covered(evidence + [e], length, i) <==>
        Covered(evidence, length, i) || (ValidSpan(e, length) && e.start.value <= i < e.end.value)
    {
      assert forall x :: x in evidence + [e] <==> x in evidence || x == e;
    }
  }

  method CollectSpans(text: seq<Byte>, evidence: seq<Evidence>) returns (spans: seq<Span>)
    ensures forall s :: s in spans ==> s.0 < s.1 <= |text|
    ensures forall i: nat :: InSpans(spans, i) <==> Covered(evidence, |text|, i)
  {
    spans := [];
    for k := 0 to |evidence|
      invariant forall s :: s in spans ==> s.0 < s.1 <= |text|
      invariant forall i: nat :: InSpans(spans, i) <==> Covered(evidence[..k], |text|, i)
    {
      var e := evidence[k];
      assert evidence[..k + 1] == evidence[..k] + [e];
      CoveredAppend(evidence[..k], e, |text|);
      if e.start.Some? && e.end.Some? && e.start.value < e.end.value <= |text| {
        var s := (e.start.value, e.end.value);
        assert forall x :: x in spans + [s] <==> x in spans || x == s;
        InSpansAppend(spans, s);
        spans := spans + [s];
      }
    }
    assert evidence[..|evidence|] == evidence;
  }

  /** The step of the merging fold. */
  function MergeInto(merged: seq<Span>, s: Span): seq<Span> {
    if merged != [] && s.0 <= merged[|merged| - 1].1 then
      var last := merged[|merged| - 1];
      merged[..|merged| - 1] + [(last.0, if last.1 < s.1 then s.1 else last.1)]
    else
      merged + [s]
  }

  lemma MergeIntoCovers(merged: seq<Span>, s: Span)
    requires s.0 < s.1
    requires merged != [] ==> merged[|merged| - 1].0 <= s.0 && merged[|merged| - 1].0 < merged[|merged| - 1].1
    ensures forall i: nat :: InSpans(MergeInto(merged, s), i) <==> InSpans(merged, i) || s.0 <= i < s.1
  {
    if merged != [] && s.0 <= merged[|merged| - 1].1 {
      var front, last := merged[..|merged| - 1], merged[|merged| - 1];
      assert merged == front + [last];
      InSpansAppend(front, last);
      InSpansAppend(front, (last.0, if last.1 < s.1 then s.1 else last.1));
    } else {
      InSpansAppend(merged, s);
    }
  }

  lemma ApartAppend(merged: seq<Span>, s: Span, length: nat)
    requires Apart(merged, length) && s.0 < s.1 <= length
    requires merged != [] ==> merged[|merged| - 1].1 < s.0
    ensures Apart(merged + [s], length)
  {
    forall i | 0 <= i < |merged| ensures merged[i].1 < s.0 {
      if i + 1 < |merged| {
        assert merged[i].1 < merged[|merged| - 1].0 < merged[|merged| - 1].1;
      }
    }
  }

  lemma MergeIntoStaysApart(merged: seq<Span>, s: Span, length: nat)
    requires Apart(merged, length) && s.0 < s.1 <= length
    requires merged != [] ==> merged[|merged| - 1].0 <= s.0
    ensures Apart(MergeInto(merged, s), length)
    ensures MergeInto(merged, s) != [] && MergeInto(merged, s)[|MergeInto(merged, s)| - 1].0 <= s.0
  {
    if merged != [] && s.0 <= merged[|merged| - 1].1 {
      var front, last := merged[..|merged| - 1], merged[|merged| - 1];
      ApartAppend(front, (last.0, if last.1 < s.1 then s.1 else last.1), length);
    } else {
      ApartAppend(merged, s, length);
    }
  }

  method MergeSpans(spans: seq<Span>, length: nat) returns (merged: seq<Span>)
    requires Sorting.SortedBy(SpanLeq, spans) && forall s :: s in spans ==> s.0 < s.1 <= length
    ensures Apart(merged, length)
    ensures forall i: nat :: InSpans(merged, i) <==> InSpans(spans, i)
  {
    merged := [];
    for k := 0 to |spans|
      invariant Apart(merged, length)
      invariant k < |spans| && merged != [] ==> merged[|merged| - 1].0 <= spans[k].0
      invariant forall i: nat :: InSpans(merged, i) <==> InSpans(spans[..k], i)
    {
      assert spans[k] in spans;
      assert spans[..k + 1] == spans[..k] + [spans[k]];
      InSpansAppend(spans[..k], spans[k]);
      MergeIntoCovers(merged, spans[k]);
      MergeIntoStaysApart(merged, spans[k], length);
      if k + 1 < |spans| {
        assert SpanLeq(spans[k], spans[k + 1]);
      }
      merged := MergeInto(merged, spans[k]);
    }
    assert spans[..|spans|] == spans;
  }

  /** `String::replace_range`, which panics, leaving no result, unless both ends are character boundaries. */
  method ReplaceRange(output: seq<Byte>, start: nat, end: nat) returns (r: Option<seq<Byte>>)
    requires start <= end <= |output|
    ensures r == if CharBoundary(output, start) && CharBoundary(output, end)
                 then Some(output[..start] + MARKER + output[end..]) else None
  {
    if !CharBoundary(output, start) || !CharBoundary(output, end) {
      return None;
    }
    r := Some(output[..start] + MARKER + output[end..]);
  }

  lemma SpanLeqIsOrder()
    ensures Sorting.TotalPreorder(SpanLeq)
  {}

  /** Splicing the last span out of a text whose right part is already redacted redacts one run more. */
  lemma SpliceRedactsRun(text: seq<Byte>, evidence: seq<Evidence>, start: nat, end: nat, next: nat)
    requires start < end <= next <= |text|
    requires forall i :: start <= i < end ==> Covered(evidence, |text|, i)
    requires forall i :: end <= i < next ==> !Covered(evidence, |text|, i)
    requires start > 0 ==> !Covered(evidence, |text|, start - 1)
    ensures MARKER + text[end..next] + RedactedFrom(text, evidence, next) == RedactedFrom(text, evidence, start)
  {
    UncoveredIsKept(text, evidence, end, next);
    RestOfRunDisappears(text, evidence, start + 1, end);
    assert MARKER + text[end..next] + RedactedFrom(text, evidence, next) ==
           MARKER + (text[end..next] + RedactedFrom(text, evidence, next));
  }

  /** One splice: its ends are as clean as they are in the text, and it extends the redacted part to `start`. */
  lemma SpliceStep(text: seq<Byte>, evidence: seq<Evidence>, output: seq<Byte>, start: nat, end: nat, next: nat)
    requires start < end <= next <= |text| && (end == next ==> next == |text|)
    requires forall i: nat :: start <= i < end ==> Covered(evidence, |text|, i)
    requires forall i: nat :: end <= i < next ==> !Covered(evidence, |text|, i)
    requires start > 0 ==> !Covered(evidence, |text|, start - 1)
    requires output == text[..next] + RedactedFrom(text, evidence, next)
    ensures end <= |output|
    ensures CharBoundary(output, start) <==> CharBoundary(text, start)
    ensures CharBoundary(output, end) <==> CharBoundary(text, end)
    ensures output[..start] + MARKER + output[end..] == text[..start] + RedactedFrom(text, evidence, start)
  {
    SpliceRedactsRun(text, evidence, start, end, next);
    SpliceBytes(text, RedactedFrom(text, evidence, next), start, end, next);
  }

  lemma SpliceBytes(text: seq<Byte>, tail: seq<Byte>, start: nat, end: nat, next: nat)
    requires start < end <= next <= |text| && (end == next ==> next == |text| && tail == [])
    ensures var output := text[..next] + tail;
            && (CharBoundary(output, start) <==> CharBoundary(text, start))
            && (CharBoundary(output, end) <==> CharBoundary(text, end))
            && output[..start] + MARKER + output[end..] == text[..start] + (MARKER + text[end..next] + tail)
  {
    var output := text[..next] + tail;
    assert output[..start] == text[..start];
    assert output[end..] == text[end..next] + tail;
  }

  predicate EndsClean(text: seq<Byte>, m: Span) {
    CharBoundary(text, m.0) && CharBoundary(text, m.1)
  }

  /** The ends of merged spans are edges of what is covered. */
  lemma EndsAreEdges(merged: seq<Span>, evidence: seq<Evidence>, length: nat, k: nat)
    requires Apart(merged, length) && k < |merged|
    requires forall i: nat :: InSpans(merged, i) <==> Covered(evidence, length, i)
    ensures IsEdge(evidence, length, merged[k].0) && IsEdge(evidence, length, merged[k].1)
  {
    var m := merged[k];
    GapsAreUncovered(merged, length, k, if k + 1 == |merged| then length else merged[k + 1].0);
    assert InSpans(merged, m.0) && InSpans(merged, m.1 - 1);
    assert !InSpans(merged, m.1);
  }

  /** There are no other edges. */
  lemma EdgesAreEnds(merged: seq<Span>, evidence: seq<Evidence>, length: nat, i: nat) returns (m: Span)
    requires Apart(merged, length) && IsEdge(evidence, length, i)
    requires forall i: nat :: InSpans(merged, i) <==> Covered(evidence, length, i)
    ensures m in merged && (m.0 == i || m.1 == i)
  {
    if InSpans(merged, i) {
      m :| m in merged && m.0 <= i < m.1;
      assert i == 0 || !InSpans(merged, i - 1);
    } else {
      m :| m in merged && m.0 <= i - 1 < m.1;
    }
  }

  lemma CutsCleanlyIff(text: seq<Byte>, merged: seq<Span>, evidence: seq<Evidence>)
    requires Apart(merged, |text|)
    requires forall i: nat :: InSpans(merged, i) <==> Covered(evidence, |text|, i)
    ensures CutsCleanly(text, evidence) <==> forall k :: 0 <= k < |merged| ==> EndsClean(text, merged[k])
  {
    hide Covered, InSpans, IsEdge;
    forall k | 0 <= k < |merged| && CutsCleanly(text, evidence) ensures EndsClean(text, merged[k]) {
      EndsAreEdges(merged, evidence, |text|, k);
    }
    if forall k :: 0 <= k < |merged| ==> EndsClean(text, merged[k]) {
      forall i: nat | IsEdge(evidence, |text|, i) ensures CharBoundary(text, i) {
        var m := EdgesAreEnds(merged, evidence, |text|, i);
        assert EndsClean(text, m);
      }
    }
  }

  /** Merged spans spliced out from right to left; a panic leaves no output. */
  method SpliceAll(text: seq<Byte>, merged: seq<Span>, ghost evidence: seq<Evidence>)
    returns (output: Option<seq<Byte>>)
    requires Apart(merged, |text|)
    requires forall i: nat :: InSpans(merged, i) <==> Covered(evidence, |text|, i)
    ensures output == if CutsCleanly(text, evidence) then Some(RedactedFrom(text, evidence, 0)) else None
  {
    hide Covered, InSpans, CutsCleanly;
    CutsCleanlyIff(text, merged, evidence);
    var spliced := text;
    ghost var next := |text|;
    for k := |merged| downto 0
      invariant next == if k == |merged| then |text| else merged[k].0
      invariant next <= |text|
      invariant spliced == text[..next] + RedactedFrom(text, evidence, next)
      invariant forall j :: k <= j < |merged| ==> EndsClean(text, merged[j])
    {
      var (start, end) := merged[k];
      assert merged[k] in merged;
      GapsAreUncovered(merged, |text|, k, next);
      SpliceStep(text, evidence, spliced, start, end, next);
      var replaced := ReplaceRange(spliced, start, end);
      if replaced.None? {
        assert !EndsClean(text, merged[k]);
        return None;
      }
      spliced := replaced.value;
      next := start;
    }
    UncoveredPrefix(text, evidence, merged, next);
    output := Some(spliced);
  }

  lemma UncoveredPrefix(text: seq<Byte>, evidence: seq<Evidence>, merged: seq<Span>, next: nat)
    requires Apart(merged, |text|)
    requires forall i: nat :: InSpans(merged, i) <==> Covered(evidence, |text|, i)
    requires next == if merged == [] then |text| else merged[0].0
    requires next <= |text|
    ensures text[..next] + RedactedFrom(text, evidence, next) == RedactedFrom(text, evidence, 0)
  {
    assert forall i: nat :: i < next ==> !InSpans(merged, i);
    UncoveredIsKept(text, evidence, 0, next);
  }

  // ---------------------------------------------------------------- the result, run by run

  /** The maximal runs of positions that lie in some evidence that has a start and an end within the text. */
  ghost predicate AreRuns(runs: seq<Span>, evidence: seq<Evidence>, length: nat) {
    && (forall k :: 0 <= k < |runs| ==> runs[k].0 < runs[k].1 <= length)
    && (forall j, k :: 0 <= j < k < |runs| ==> runs[j].1 < runs[k].0)
    && (forall i: nat ::
          InSpans(runs, i) <==>
          exists k :: 0 <= k < |evidence| && evidence[k].start.Some? && evidence[k].end.Some? &&
                      evidence[k].start.value <= i < evidence[k].end.value <= length)
  }

  /** The text from a position on, with the runs from number k on replaced. */
  function Replaced(text: seq<Byte>, runs: seq<Span>, k: nat, from: nat): seq<Byte>
    requires k <= |runs| && from <= |text|
    requires forall j :: k <= j < |runs| ==> runs[j].0 < runs[j].1 <= |text|
    decreases |runs| - k
  {
    if k == |runs| || runs[k].0 < from then text[from..]
    else text[from..runs[k].0] + MARKER + Replaced(text, runs, k + 1, runs[k].1)
  }

  predicate ContinuesCharacter(text: seq<Byte>, i: nat) {
    i < |text| && 0x80 <= text[i] < 0xC0
  }

  /** Each run gives way to one marker, unless a run begins or ends before a continuation byte. */
  ghost predicate RedactedInFull(text: seq<Byte>, evidence: seq<Evidence>, output: Option<seq<Byte>>) {
    exists runs: seq<Span> ::
      && AreRuns(runs, evidence, |text|)
      && output == if exists k :: 0 <= k < |runs| && (ContinuesCharacter(text, runs[k].0) ||
                                                      ContinuesCharacter(text, runs[k].1))
                   then None else Some(Replaced(text, runs, 0, 0))
  }

  lemma MergedAreRuns(merged: seq<Span>, evidence: seq<Evidence>, length: nat)
    requires Apart(merged, length)
    requires forall i: nat :: InSpans(merged, i) <==> Covered(evidence, length, i)
    ensures AreRuns(merged, evidence, length)
  {
    forall i: nat
      ensures Covered(evidence, length, i) <==>
              exists k :: 0 <= k < |evidence| && evidence[k].start.Some? && evidence[k].end.Some? &&
                          evidence[k].start.value <= i < evidence[k].end.value <= length
    {}
    hide Covered, InSpans;
  }

  lemma {:induction false} RunsAreReplaced(text: seq<Byte>, evidence: seq<Evidence>, merged: seq<Span>, k: nat,
                                           from: nat)
    requires Apart(merged, |text|) && k <= |merged|
    requires forall i: nat :: InSpans(merged, i) <==> Covered(evidence, |text|, i)
    requires from == if k == 0 then 0 else merged[k - 1].1
    ensures Replaced(text, merged, k, from) == RedactedFrom(text, evidence, from)
    decreases |merged| - k
  {
    hide Covered, InSpans, RedactedFrom;
    var next := if k == |merged| then |text| else merged[k].0;
    NothingBetween(merged, |text|, k, from, next);
    UncoveredIsKept(text, evidence, from, next);
    if k < |merged| {
      var end := merged[k].1;
      RunsAreReplaced(text, evidence, merged, k + 1, end);
      OneRunIsMarked(text, evidence, merged, k);
      assert text[from..next] + MARKER + RedactedFrom(text, evidence, end) ==
             text[from..next] + (MARKER + RedactedFrom(text, evidence, end));
    } else {
      NothingAfter(text, evidence);
      assert text[from..next] + [] == text[from..];
    }
  }

  lemma NothingAfter(text: seq<Byte>, evidence: seq<Evidence>)
    ensures RedactedFrom(text, evidence, |text|) == []
  {}

  lemma OneRunIsMarked(text: seq<Byte>, evidence: seq<Evidence>, merged: seq<Span>, k: nat)
    requires Apart(merged, |text|) && k < |merged|
    requires forall i: nat :: InSpans(merged, i) <==> Covered(evidence, |text|, i)
    ensures merged[k].0 < merged[k].1 <= |text|
    ensures RedactedFrom(text, evidence, merged[k].0) == MARKER + RedactedFrom(text, evidence, merged[k].1)
  {
    hide Covered, InSpans;
    GapsAreUncovered(merged, |text|, k, if k + 1 == |merged| then |text| else merged[k + 1].0);
    RestOfRunDisappears(text, evidence, merged[k].0 + 1, merged[k].1);
  }

  lemma NothingBetween(merged: seq<Span>, length: nat, k: nat, from: nat, next: nat)
    requires Apart(merged, length) && k <= |merged|
    requires from == if k == 0 then 0 else merged[k - 1].1
    requires next == if k == |merged| then length else merged[k].0
    ensures from <= next <= length
    ensures forall i :: from <= i < next ==> !InSpans(merged, i)
  {
    if k > 0 { assert merged[k - 1].1 <= length; }
  }

  lemma ResultInFull(text: seq<Byte>, evidence: seq<Evidence>, merged: seq<Span>)
    requires Apart(merged, |text|)
    requires forall i: nat :: InSpans(merged, i) <==> Covered(evidence, |text|, i)
    ensures RedactedInFull(text, evidence,
                           if CutsCleanly(text, evidence) then Some(RedactedFrom(text, evidence, 0)) else None)
  {
    hide Covered, InSpans, CutsCleanly, AreRuns, Replaced, RedactedFrom;
    CutsCleanlyIff(text, merged, evidence);
    RunsAreReplaced(text, evidence, merged, 0, 0);
    MergedAreRuns(merged, evidence, |text|);
    forall k | 0 <= k < |merged|
      ensures EndsClean(text, merged[k]) <==>
              !ContinuesCharacter(text, merged[k].0) && !ContinuesCharacter(text, merged[k].1)
    {}
  }

  /** Redaction of a text is its per-position redaction, unless a maximal covered run begins or ends inside a character;
      then a splice panics. */
  method RedactText(text: seq<Byte>, evidence: seq<Evidence>) returns (output: Option<seq<Byte>>)
    ensures output == if CutsCleanly(text, evidence) then Some(RedactedFrom(text, evidence, 0)) else None
    ensures RedactedInFull(text, evidence, output)
  {
    var spans := CollectSpans(text, evidence);
    SpanLeqIsOrder();
    Sorting.SortIsCorrect(SpanLeq, spans);
    var sorted := Sorting.Sort(SpanLeq, spans);
    assert forall s :: s in sorted <==> s in spans by {
      assert forall s :: s in sorted <==> s in multiset(sorted);
      assert forall s :: s in spans <==> s in multiset(spans);
    }
    var merged := MergeSpans(sorted, |text|);
    ResultInFull(text, evidence, merged);
    output := SpliceAll(text, merged, evidence);
  }

  lemma GapsAreUncovered(merged: seq<Span>, length: nat, k: nat, next: nat)
    requires Apart(merged, length) && k < |merged|
    requires next == if k + 1 == |merged| then length else merged[k + 1].0
    ensures merged[k].1 <= next
    ensures k + 1 < |merged| ==> merged[k].1 < next
    ensures forall i :: merged[k].0 <= i < merged[k].1 ==> InSpans(merged, i)
    ensures forall i :: merged[k].1 <= i < next ==> !InSpans(merged, i)
    ensures merged[k].0 > 0 ==> !InSpans(merged, merged[k].0 - 1)
  {
    assert merged[k] in merged;
  }
}
