/** JSON pointers (RFC 6901), and lists of the values that a document may have where they point. */
module JsonPointers {
  import opened Types
  import opened Strictness

  /** Each "~" followed by `code` becomes `plain`. */
  function Unescape(text: string, code: char, plain: char): string {
    if |text| < 2 then text
    else if text[0] == '~' && text[1] == code then [plain] + Unescape(text[2..], code, plain)
    else [text[0]] + Unescape(text[1..], code, plain)
  }

  /** `split('/')` */
  function SplitSlashes(text: string): (parts: seq<string>)
    ensures parts != []
  {
    if text == "" then [""]
    else
      var parts := SplitSlashes(text[1..]);
      if text[0] == '/' then [""] + parts else [[text[0]] + parts[0]] + parts[1..]
  }

  lemma {:induction false} SplitNoSlash(text: string)
    requires '/' !in text
    ensures SplitSlashes(text) == [text]
  {
    if text != "" {
      SplitNoSlash(text[1..]);
      assert text == [text[0]] + text[1..];
    }
  }

  lemma {:induction false} SplitAtSlash(a: string, b: string)
    requires '/' !in a
    ensures SplitSlashes(a + "/" + b) == [a] + SplitSlashes(b)
  {
    if a == "" {
      assert (a + "/" + b)[1..] == b;
    } else {
      assert (a + "/" + b)[1..] == a[1..] + "/" + b && (a + "/" + b)[0] == a[0];
      SplitAtSlash(a[1..], b);
      assert a == [a[0]] + a[1..];
    }
  }

  lemma {:induction false} UnescapePlain(text: string, code: char, plain: char)
    requires '~' !in text
    ensures Unescape(text, code, plain) == text
  {
    if |text| >= 2 {
      UnescapePlain(text[1..], code, plain);
      assert text == [text[0]] + text[1..];
    }
  }

  lemma PlainToken(part: string)
    requires '~' !in part
    ensures Token(part) == part
  {
    UnescapePlain(part, '1', '/');
    UnescapePlain(part, '0', '~');
  }

  function Token(part: string): string {
    Unescape(Unescape(part, '1', '/'), '0', '~')
  }

  /** The reference tokens of a pointer. A text that is not empty and does not start with a slash points nowhere. */
  function Tokens(pointer: string): Option<seq<string>> {
    if pointer == "" then Some([])
    else if pointer[0] != '/' then None
    else
      var parts := SplitSlashes(pointer[1..]);
      Some(seq(|parts|, i requires 0 <= i < |parts| => Token(parts[i])))
  }

  predicate Plain(token: string) {
    '/' !in token && '~' !in token
  }

  lemma OneToken(a: string)
    requires Plain(a)
    ensures Tokens("/" + a) == Some([a])
  {
    hide Unescape, SplitSlashes, Token;
    SplitNoSlash(a);
    PlainToken(a);
    assert ("/" + a)[1..] == a;
    var tokens := Tokens("/" + a).value;
    assert tokens == [a];
  }

  lemma TwoTokens(a: string, b: string)
    requires Plain(a) && Plain(b)
    ensures Tokens("/" + a + "/" + b) == Some([a, b])
  {
    hide Unescape, SplitSlashes, Token;
    SplitNoSlash(b);
    SplitAtSlash(a, b);
    PlainToken(a);
    PlainToken(b);
    assert ("/" + a + "/" + b)[1..] == a + "/" + b;
    var tokens := Tokens("/" + a + "/" + b).value;
    assert tokens == [a, b];
  }

  function Decimal(digits: string): Option<nat> {
    if digits == "" then Some(0)
    else
      var last := digits[|digits| - 1];
      match Decimal(digits[..|digits| - 1])
      case Some(n) => if '0' <= last <= '9' then Some(10 * n + (last as int - '0' as int)) else None
      case None => None
  }

  /** An index into an array: decimal, without sign or leading zero, and at most `usize::MAX`. */
  function Index(token: string): Option<nat> {
    if token == "" || (token[0] == '0' && |token| != 1) then None
    else
      match Decimal(token)
      case Some(n) => if n <= U64_MAX then Some(n) else None
      case None => None
  }

  function Child(v: Json, token: string): Option<Json> {
    match v
    case Obj(members) => GetMember(members, token)
    case Arr(items) =>
      (match Index(token) case Some(i) => if i < |items| then Some(items[i]) else None case None => None)
    case _ => None
  }

  /** `Value::pointer`, by tokens. */
  function Follow(v: Json, tokens: seq<string>): Option<Json>
    decreases |tokens|
  {
    if tokens == [] then Some(v)
    else
      match Child(v, tokens[0])
      case Some(child) => Follow(child, tokens[1..])
      case None => None
  }

  function Lookup(v: Json, pointer: string): Option<Json> {
    match Tokens(pointer)
    case Some(tokens) => Follow(v, tokens)
    case None => None
  }

  lemma {:induction false} FollowOn(v: Json, a: seq<string>, b: seq<string>)
    ensures Follow(v, a + b) == match Follow(v, a) case Some(w) => Follow(w, b) case None => None
    decreases |a|
  {
    if a == [] {
      assert a + b == b;
    } else {
      assert (a + b)[1..] == a[1..] + b;
      match Child(v, a[0]) {
        case Some(child) => FollowOn(child, a[1..], b);
        case None =>
      }
    }
  }

  /** The document that holds `v` where the tokens point and nothing else. */
  function Placed(tokens: seq<string>, v: Json): Json {
    if tokens == [] then v else Obj([Member(tokens[0], Placed(tokens[1..], v))])
  }

  lemma PlacedChild(tokens: seq<string>, v: Json, token: string)
    requires tokens != []
    ensures Child(Placed(tokens, v), token) ==
            if token == tokens[0] then Some(Placed(tokens[1..], v)) else None
  {
    var members := [Member(tokens[0], Placed(tokens[1..], v))];
    assert members[1..] == [];
    assert GetMember(members[1..], token) == None;
  }

  /** In such a document a pointer leads somewhere iff it is on the way to the value, or goes on within it. */
  lemma {:induction false} FollowPlaced(tokens: seq<string>, v: Json, other: seq<string>)
    ensures tokens <= other ==> Follow(Placed(tokens, v), other) == Follow(v, other[|tokens|..])
    ensures !(tokens <= other) ==>
              (Follow(Placed(tokens, v), other).Some? <==> other <= tokens)
    ensures other <= tokens ==> Follow(Placed(tokens, v), other) == Some(Placed(tokens[|other|..], v))
    decreases |tokens|
  {
    if tokens != [] && other != [] {
      PlacedChild(tokens, v, other[0]);
      FollowPlaced(tokens[1..], v, other[1..]);
      assert tokens <= other <==> tokens[0] == other[0] && tokens[1..] <= other[1..];
      assert other <= tokens <==> tokens[0] == other[0] && other[1..] <= tokens[1..];
      if |tokens| <= |other| {
        assert other[1..][|tokens| - 1..] == other[|tokens|..];
      }
      if |other| <= |tokens| {
        assert tokens[1..][|other| - 1..] == tokens[|other|..];
      }
    }
  }

  // ---------------------------------------------------------------- pointers written and read back

  /** "~" is written "~0" and "/" is written "~1" (section 3 of RFC 6901). */
  function Escape(token: string): string {
    if token == "" then ""
    else
      (if token[0] == '~' then ['~', '0'] else if token[0] == '/' then ['~', '1'] else [token[0]]) + Escape(token[1..])
  }

  function EscapeTildes(token: string): string {
    if token == "" then ""
    else (if token[0] == '~' then ['~', '0'] else [token[0]]) + EscapeTildes(token[1..])
  }

  /** The first steps of unescaping. */
  lemma UnescapeHead(text: string, code: char, plain: char)
    ensures text != "" && text[0] != '~' ==>
              Unescape(text, code, plain) == [text[0]] + Unescape(text[1..], code, plain)
    ensures |text| >= 2 && text[0] == '~' && text[1] == code ==>
              Unescape(text, code, plain) == [plain] + Unescape(text[2..], code, plain)
    ensures |text| >= 2 && text[0] == '~' && text[1] != code && text[1] != '~' ==>
              Unescape(text, code, plain) == ['~', text[1]] + Unescape(text[2..], code, plain)
  {
    if |text| == 1 {
      assert text == [text[0]] + text[1..];
    }
    if |text| == 2 {
      assert text[1..] == [text[1]] && text[2..] == "";
    } else if |text| > 2 {
      assert text[1..][1..] == text[2..];
      assert text[1] != '~' ==> Unescape(text[1..], code, plain) == [text[1]] + Unescape(text[2..], code, plain);
      assert ['~', text[1]] + Unescape(text[2..], code, plain) ==
             ['~'] + ([text[1]] + Unescape(text[2..], code, plain));
    }
  }

  lemma {:induction false} SlashesComeBack(token: string)
    ensures Unescape(Escape(token), '1', '/') == EscapeTildes(token) && '/' !in Escape(token)
  {
    hide Unescape;
    UnescapeHead(Escape(token), '1', '/');
    if token == "" {
      EmptyText('1', '/');
    } else {
      SlashesComeBack(token[1..]);
      if token[0] == '~' || token[0] == '/' {
        assert Escape(token)[2..] == Escape(token[1..]);
      } else {
        assert Escape(token)[1..] == Escape(token[1..]);
      }
    }
  }

  lemma EmptyText(code: char, plain: char)
    ensures Unescape("", code, plain) == ""
  {}

  lemma {:induction false} TildesComeBack(token: string)
    ensures Unescape(EscapeTildes(token), '0', '~') == token
  {
    hide Unescape;
    UnescapeHead(EscapeTildes(token), '0', '~');
    if token == "" {
      EmptyText('0', '~');
    } else {
      TildesComeBack(token[1..]);
      assert token == [token[0]] + token[1..];
      if token[0] == '~' {
        assert EscapeTildes(token)[2..] == EscapeTildes(token[1..]);
      } else {
        assert EscapeTildes(token)[1..] == EscapeTildes(token[1..]);
      }
    }
  }

  function PointerTo(tokens: seq<string>): string {
    if tokens == [] then "" else "/" + Escape(tokens[0]) + PointerTo(tokens[1..])
  }

  function AllEscaped(tokens: seq<string>): seq<string> {
    seq(|tokens|, i requires 0 <= i < |tokens| => Escape(tokens[i]))
  }

  lemma {:induction false} PointerIsSplit(tokens: seq<string>)
    requires tokens != []
    ensures PointerTo(tokens)[0] == '/' && SplitSlashes(PointerTo(tokens)[1..]) == AllEscaped(tokens)
  {
    hide Escape, SplitSlashes;
    SlashesComeBack(tokens[0]);
    var first := Escape(tokens[0]);
    if |tokens| == 1 {
      assert tokens[1..] == [] && PointerTo(tokens) == "/" + first;
      SplitNoSlash(first);
      assert AllEscaped(tokens) == [first];
    } else {
      PointerIsSplit(tokens[1..]);
      var rest := PointerTo(tokens[1..])[1..];
      FirstOfPointer(tokens, first, rest);
      SplitAtSlash(first, rest);
      assert AllEscaped(tokens) == [first] + AllEscaped(tokens[1..]);
    }
  }

  lemma FirstOfPointer(tokens: seq<string>, first: string, rest: string)
    requires |tokens| > 1 && first == Escape(tokens[0])
    requires PointerTo(tokens[1..]) == "/" + rest
    ensures PointerTo(tokens)[0] == '/' && PointerTo(tokens)[1..] == first + "/" + rest
  {
    hide PointerTo, Escape;
    PointerHead(tokens);
    assert ("/" + first + ("/" + rest))[1..] == first + ("/" + rest) == first + "/" + rest;
  }

  lemma PointerHead(tokens: seq<string>)
    requires tokens != []
    ensures PointerTo(tokens) == "/" + Escape(tokens[0]) + PointerTo(tokens[1..])
  {
    hide Escape;
  }

  /** A pointer written for some tokens, whatever they are, is read as these tokens. */
  lemma PointersRoundTrip(tokens: seq<string>)
    ensures Tokens(PointerTo(tokens)) == Some(tokens)
  {
    hide SplitSlashes, Unescape;
    if tokens != [] {
      PointerIsSplit(tokens);
      var read := Tokens(PointerTo(tokens)).value;
      forall i | 0 <= i < |tokens| ensures read[i] == tokens[i] {
        SlashesComeBack(tokens[i]);
        TildesComeBack(tokens[i]);
      }
      assert read == tokens;
    }
  }

  /** A number in decimal, without a leading zero. */
  function DecimalText(n: nat): string {
    (if n < 10 then "" else DecimalText(n / 10)) + ["0123456789"[n % 10]]
  }

  lemma DigitIs(digit: nat)
    requires digit < 10
    ensures "0123456789"[digit] as int == '0' as int + digit
  {}

  lemma DecimalOfOneMore(front: string, c: char)
    requires '0' <= c <= '9' && Decimal(front).Some?
    ensures Decimal(front + [c]) == Some(10 * Decimal(front).value + (c as int - '0' as int))
  {
    var text := front + [c];
    assert text[..|text| - 1] == front && text[|text| - 1] == c;
  }

  lemma {:induction false} DecimalIsRead(n: nat)
    ensures Decimal(DecimalText(n)) == Some(n)
    ensures DecimalText(n) != "" && (DecimalText(n)[0] == '0' ==> n == 0)
  {
    hide Decimal;
    DigitIs(n % 10);
    if n < 10 {
      NoDecimal();
      DecimalOfOneMore("", "0123456789"[n]);
      assert "" + ["0123456789"[n % 10]] == DecimalText(n);
    } else {
      DecimalIsRead(n / 10);
      DecimalOfOneMore(DecimalText(n / 10), "0123456789"[n % 10]);
    }
  }

  lemma NoDecimal()
    ensures Decimal("") == Some(0)
  {}

  lemma {:induction false} DecimalIsWritten(token: string)
    requires Decimal(token).Some? && token != "" && (token[0] == '0' ==> |token| == 1)
    ensures token == DecimalText(Decimal(token).value)
  {
    var front, last := token[..|token| - 1], token[|token| - 1];
    var n := Decimal(token).value;
    var digit := last as int - '0' as int;
    assert token == front + [last];
    assert "0123456789"[digit] == last;
    if front != "" {
      assert front[0] == token[0] != '0';
      DecimalIsWritten(front);
      LeadingDigit(front);
      assert n / 10 == Decimal(front).value && n % 10 == digit;
    }
  }

  lemma {:induction false} LeadingDigit(token: string)
    requires Decimal(token).Some? && token != "" && token[0] != '0'
    ensures Decimal(token).value > 0
  {
    var front := token[..|token| - 1];
    if front != "" {
      assert front[0] == token[0];
      LeadingDigit(front);
    }
  }

  /** An index is the decimal text of a number below 2^64. */
  lemma IndexIff(token: string, n: nat)
    ensures Index(token) == Some(n) <==> token == DecimalText(n) && n < 0x1_0000_0000_0000_0000
  {
    DecimalIsRead(n);
    if Index(token) == Some(n) {
      DecimalIsWritten(token);
    }
    if n < 10 && token == DecimalText(n) {
      assert |token| == 1;
    }
  }

  predicate IsFirstNamed(members: seq<Member>, i: int, name: string) {
    0 <= i < |members| && members[i].name == name && forall j :: 0 <= j < i ==> members[j].name != name
  }

  lemma {:induction false} FirstNamed(members: seq<Member>, name: string, i: nat)
    requires IsFirstNamed(members, i, name)
    ensures GetMember(members, name) == Some(members[i].value)
  {
    if i > 0 {
      FirstNamed(members[1..], name, i - 1);
    }
  }

  lemma {:induction false} SomeFirstNamed(members: seq<Member>, name: string) returns (i: nat)
    requires GetMember(members, name).Some?
    ensures IsFirstNamed(members, i, name)
  {
    i := 0;
    if members[0].name != name {
      var rest := SomeFirstNamed(members[1..], name);
      i := rest + 1;
    }
  }

  /** Token by token, from a value to the member of that name, or the item of that number, and in the end to `w`. */
  ghost predicate LeadsTo(v: Json, tokens: seq<string>, w: Json)
    decreases |tokens|
  {
    if tokens == [] then v == w
    else
      match v
      case Obj(members) =>
        exists i :: IsFirstNamed(members, i, tokens[0]) && LeadsTo(members[i].value, tokens[1..], w)
      case Arr(items) =>
        exists i :: 0 <= i < |items| && i < 0x1_0000_0000_0000_0000 && tokens[0] == DecimalText(i) &&
                    LeadsTo(items[i], tokens[1..], w)
      case _ => false
  }

  lemma {:induction false} FollowIff(v: Json, tokens: seq<string>, w: Json)
    ensures Follow(v, tokens) == Some(w) <==> LeadsTo(v, tokens, w)
    decreases |tokens|
  {
    hide GetMember, Index, DecimalText;
    if tokens != [] {
      match v {
        case Obj(members) =>
          forall i | IsFirstNamed(members, i, tokens[0])
            ensures Child(v, tokens[0]) == Some(members[i].value)
            ensures Follow(members[i].value, tokens[1..]) == Some(w) <==> LeadsTo(members[i].value, tokens[1..], w)
          {
            FirstNamed(members, tokens[0], i);
            FollowIff(members[i].value, tokens[1..], w);
          }
          if GetMember(members, tokens[0]).Some? {
            var i := SomeFirstNamed(members, tokens[0]);
            assert IsFirstNamed(members, i, tokens[0]);
          }
        case Arr(items) =>
          forall i | 0 <= i < |items|
            ensures Index(tokens[0]) == Some(i) <==> tokens[0] == DecimalText(i) && i < 0x1_0000_0000_0000_0000
            ensures Follow(items[i], tokens[1..]) == Some(w) <==> LeadsTo(items[i], tokens[1..], w)
          {
            IndexIff(tokens[0], i);
            FollowIff(items[i], tokens[1..], w);
          }
        case _ =>
      }
    }
  }

  /** Looking a pointer up finds what its tokens lead to, and nothing where they lead nowhere. */
  lemma LookupIff(v: Json, tokens: seq<string>, w: Json)
    ensures Lookup(v, PointerTo(tokens)) == Some(w) <==> LeadsTo(v, tokens, w)
  {
    hide Tokens, Follow, LeadsTo;
    PointersRoundTrip(tokens);
    FollowIff(v, tokens, w);
  }

  // ---------------------------------------------------------------- restricted documents

  /** For each pointer the values that may stand there. */
  type Restrictions = map<string, seq<Json>>

  predicate FitsAt(restrictions: Restrictions, pointer: string, document: Json) {
    pointer in restrictions && Lookup(document, pointer).Some? ==>
      Lookup(document, pointer).value in restrictions[pointer]
  }

  /** Every pointer that leads somewhere leads to a listed value. */
  predicate Fits(restrictions: Restrictions, document: Json) {
    forall pointer :: pointer in restrictions ==> FitsAt(restrictions, pointer, document)
  }

  predicate IsListed(restrictions: Restrictions, pointer: string, value: Json) {
    pointer in restrictions && value in restrictions[pointer] && Tokens(pointer).Some?
  }

  function Alone(pointer: string, value: Json): Json {
    match Tokens(pointer)
    case Some(tokens) => Placed(tokens, value)
    case None => Null
  }

  /** A restricted pointer on the way to where `tokens` lead, or all the way. */
  predicate OnTheWay(restrictions: Restrictions, pointer: string, tokens: seq<string>) {
    pointer in restrictions && Tokens(pointer).Some? && Tokens(pointer).value <= tokens
  }

  lemma Shortest(restrictions: Restrictions, pointer: string, tokens: seq<string>) returns (first: string)
    requires OnTheWay(restrictions, pointer, tokens)
    ensures OnTheWay(restrictions, first, tokens)
    ensures forall q :: OnTheWay(restrictions, q, tokens) ==> |Tokens(first).value| <= |Tokens(q).value|
    decreases |Tokens(pointer).value|
  {
    if q :| OnTheWay(restrictions, q, tokens) && |Tokens(q).value| < |Tokens(pointer).value| {
      first := Shortest(restrictions, q, tokens);
    } else {
      first := pointer;
    }
  }

  /** What a document holds at the first restricted pointer on the way, alone, fits if the document does. */
  lemma FirstAloneFits(restrictions: Restrictions, document: Json, first: string, tokens: seq<string>, value: Json)
    requires Fits(restrictions, document) && OnTheWay(restrictions, first, tokens)
    requires forall q :: OnTheWay(restrictions, q, tokens) ==> |Tokens(first).value| <= |Tokens(q).value|
    requires Lookup(document, first) == Some(value)
    ensures Fits(restrictions, Alone(first, value))
  {
    hide Tokens;
    var t := Tokens(first).value;
    forall r | r in restrictions ensures FitsAt(restrictions, r, Alone(first, value)) {
      assert FitsAt(restrictions, r, document);
      if Tokens(r).Some? {
        var u := Tokens(r).value;
        FollowPlaced(t, value, u);
        assert u <= t ==> OnTheWay(restrictions, r, tokens);
        if t <= u {
          assert u == t + u[|t|..];
          FollowOn(document, t, u[|t|..]);
        }
      }
    }
  }

  /** Whatever fits the first restrictions fits the second. */
  ghost predicate Narrows(strict: Restrictions, wide: Restrictions) {
    forall document :: Fits(strict, document) ==> Fits(wide, document)
  }

  /** It is enough to look at the finitely many documents that hold one listed value and nothing else. */
  lemma NarrowsIff(strict: Restrictions, wide: Restrictions)
    requires wide.Keys <= strict.Keys
    ensures Narrows(strict, wide) <==>
            forall pointer, value :: IsListed(strict, pointer, value) && Fits(strict, Alone(pointer, value)) ==>
              Fits(wide, Alone(pointer, value))
  {
    if forall pointer, value :: IsListed(strict, pointer, value) && Fits(strict, Alone(pointer, value)) ==>
         Fits(wide, Alone(pointer, value))
    {
      forall document, pointer | Fits(strict, document) && pointer in wide
        ensures FitsAt(wide, pointer, document)
      {
        if Lookup(document, pointer).Some? {
          FitsWide(strict, wide, document, pointer);
        }
      }
    }
  }

  lemma FitsWide(strict: Restrictions, wide: Restrictions, document: Json, pointer: string)
    requires wide.Keys <= strict.Keys && Fits(strict, document)
    requires forall pointer, value :: IsListed(strict, pointer, value) && Fits(strict, Alone(pointer, value)) ==>
               Fits(wide, Alone(pointer, value))
    requires pointer in wide && Lookup(document, pointer).Some?
    ensures FitsAt(wide, pointer, document)
  {
    var tokens := Tokens(pointer).value;
    var first := Shortest(strict, pointer, tokens);
    var t := Tokens(first).value;
    assert tokens == t + tokens[|t|..];
    FollowOn(document, t, tokens[|t|..]);
    var value := Lookup(document, first).value;
    assert FitsAt(strict, first, document);
    FirstAloneFits(strict, document, first, tokens, value);
    assert IsListed(strict, first, value);
    FollowPlaced(t, value, tokens);
    assert FitsAt(wide, pointer, Alone(first, value));
  }
}
