/**
 * Strings survive: the decoder accepts exactly the escaped-piece grammar and
 * inverts it, and the comment scanner leaves a string exactly where the decoder
 * closes it.
 */
module TomlStrings {
  import opened Basics
  import opened Text
  import opened TomlLite

  // ----- The grammar of basic strings -----

  datatype Piece = Plain(c: char) | Short(letter: char) | Hex4(digits: string) | Hex8(digits: string)

  predicate WellFormed(p: Piece) {
    match p
    case Plain(c) => c != '"' && c != '\\' && (c == '\t' || !IsControl(c))
    case Short(letter) => IsShort(letter)
    case Hex4(digits) => |digits| == 4 && AllHex(digits) && IsScalar(HexValue(digits))
    case Hex8(digits) => |digits| == 8 && AllHex(digits) && IsScalar(HexValue(digits))
  }

  function Meaning(p: Piece): char
    requires WellFormed(p)
  {
    match p
    case Plain(c) => c
    case Short(letter) => ShortMeaning(letter)
    case Hex4(digits) => HexValue(digits) as char
    case Hex8(digits) => HexValue(digits) as char
  }

  function Render(p: Piece): (r: string)
    ensures r != []
  {
    match p
    case Plain(c) => [c]
    case Short(letter) => ['\\', letter]
    case Hex4(digits) => ['\\', 'u'] + digits
    case Hex8(digits) => ['\\', 'U'] + digits
  }

  predicate AllWellFormed(ps: seq<Piece>) {
    forall i :: 0 <= i < |ps| ==> WellFormed(ps[i])
  }

  function RenderAll(ps: seq<Piece>): string {
    if ps == [] then [] else Render(ps[0]) + RenderAll(ps[1..])
  }

  function MeaningAll(ps: seq<Piece>): string
    requires AllWellFormed(ps)
  {
    if ps == [] then [] else [Meaning(ps[0])] + MeaningAll(ps[1..])
  }

  /** Decoding one rendered piece yields its meaning and moves past it. */
  lemma {:induction false} DecodePiece(p: Piece, rest: string)
    requires WellFormed(p)
    ensures Decode('"', Render(p) + rest) == Push(Meaning(p), |Render(p)|, Decode('"', rest))
  {
    var s := Render(p) + rest;
    match p {
      case Plain(c) =>
        assert s[1..] == rest;
      case Short(letter) =>
        assert s[1..] == [letter] + rest && s[2..] == rest;
      case Hex4(digits) =>
        DecodeHexPiece('u', digits, rest);
        assert s == ['\\', 'u'] + digits + rest;
      case Hex8(digits) =>
        DecodeHexPiece('U', digits, rest);
        assert s == ['\\', 'U'] + digits + rest;
    }
  }

  lemma {:induction false} DecodeHexPiece(letter: char, digits: string, rest: string)
    requires (letter == 'u' && |digits| == 4) || (letter == 'U' && |digits| == 8)
    requires AllHex(digits) && IsScalar(HexValue(digits))
    ensures Decode('"', ['\\', letter] + digits + rest) == Push(HexValue(digits) as char, 2 + |digits|, Decode('"', rest))
  {
    var (s, n) := (['\\', letter] + digits + rest, |digits|);
    var e := s[1..];
    assert e[1..] == digits + rest && (digits + rest)[..n] == digits;
    assert DecodeEscape(e) == DecodeHex(e[1..], n);
    assert s[n + 2..] == rest;
  }

  lemma RenderedFirst(ps: seq<Piece>, tail: string)
    requires ps != []
    ensures RenderAll(ps) + tail == Render(ps[0]) + (RenderAll(ps[1..]) + tail)
  {
  }

  /** Every string the grammar can write is read back. */
  lemma {:induction false} DecodeRendered(ps: seq<Piece>, after: string)
    requires AllWellFormed(ps) && AllSpace(after)
    ensures Decode('"', RenderAll(ps) + (['"'] + after)) == Ok(Literal(MeaningAll(ps), |RenderAll(ps)|))
  {
    var tail := ['"'] + after;
    if ps == [] {
      assert RenderAll(ps) + tail == tail && tail[1..] == after;
    } else {
      var rest := RenderAll(ps[1..]);
      DecodeRendered(ps[1..], after);
      DecodePiece(ps[0], rest + tail);
      RenderedFirst(ps, tail);
    }
  }

  lemma {:induction false} EscapePiece(e: string) returns (p: Piece)
    requires DecodeEscape(e).Ok?
    ensures WellFormed(p) && |Render(p)| <= |e| + 1 && Render(p) == ['\\'] + e[..|Render(p)| - 1]
  {
    if IsShort(e[0]) {
      p := Short(e[0]);
    } else {
      var n := if e[0] == 'u' then 4 else 8;
      var digits := e[1..][..n];
      assert e[..n + 1] == [e[0]] + digits;
      p := if e[0] == 'u' then Hex4(digits) else Hex8(digits);
    }
  }

  /** The piece an accepted literal begins with. */
  lemma {:induction false} FirstPiece(s: string) returns (p: Piece)
    requires s != [] && s[0] != '"' && Decode('"', s).Ok?
    ensures WellFormed(p) && |Render(p)| <= |s| && s == Render(p) + s[|Render(p)|..]
  {
    if s[0] != '\\' {
      p := Plain(s[0]);
    } else {
      EscapeIsDecoded(s);
      p := EscapePiece(s[1..]);
      assert s[..|Render(p)|] == ['\\'] + s[1..][..|Render(p)| - 1];
    }
  }

  lemma EscapeIsDecoded(s: string)
    requires s != [] && s[0] == '\\' && Decode('"', s).Ok?
    ensures DecodeEscape(s[1..]).Ok?
  {
  }

  /** Everything the decoder accepts was written by the grammar, and means what it decodes to. */
  lemma {:induction false} AcceptedIsRendered(s: string) returns (ps: seq<Piece>, after: string)
    requires Decode('"', s).Ok?
    ensures AllWellFormed(ps) && AllSpace(after) && s == RenderAll(ps) + (['"'] + after)
    ensures Decode('"', s).value == Literal(MeaningAll(ps), |RenderAll(ps)|)
    decreases |s|
  {
    if s[0] == '"' {
      ps, after := [], s[1..];
      assert s == [] + (['"'] + s[1..]);
    } else {
      var p := FirstPiece(s);
      var rest := s[|Render(p)|..];
      DecodePiece(p, rest);
      var inner;
      inner, after := AcceptedIsRendered(rest);
      ps := [p] + inner;
      assert ps[1..] == inner;
      assert Render(p) + (RenderAll(inner) + (['"'] + after)) == Render(p) + RenderAll(inner) + (['"'] + after);
    }
  }

  // ----- A canonical writer -----

  function HexChar(d: nat): (c: char)
    requires d < 16
    ensures IsHex(c) && Digit(c) == d
  {
    if d < 10 then ('0' as int + d) as char else ('A' as int + d - 10) as char
  }

  function HexFour(v: nat): string
    requires v < 0x1_0000
  {
    var (a, b) := (v / 16, v / 16 / 16);
    [] + [HexChar(b / 16)] + [HexChar(b % 16)] + [HexChar(a % 16)] + [HexChar(v % 16)]
  }

  lemma HexSnoc(s: string, d: nat)
    requires AllHex(s) && d < 16
    ensures AllHex(s + [HexChar(d)]) && HexValue(s + [HexChar(d)]) == 16 * HexValue(s) + d
  {
    var t := s + [HexChar(d)];
    assert t[..|t| - 1] == s;
  }

  lemma {:induction false} HexFourValue(v: nat)
    requires v < 0x1_0000
    ensures AllHex(HexFour(v)) && HexValue(HexFour(v)) == v
  {
    var (a, b) := (v / 16, v / 16 / 16);
    HexSnoc([], b / 16);
    HexSnoc([] + [HexChar(b / 16)], b % 16);
    HexSnoc([] + [HexChar(b / 16)] + [HexChar(b % 16)], a % 16);
    HexSnoc([] + [HexChar(b / 16)] + [HexChar(b % 16)] + [HexChar(a % 16)], v % 16);
  }

  /** Quotes and backslashes by short escapes, other control characters but tab by code point. */
  function CanonicalPiece(c: char): Piece {
    if c == '"' || c == '\\' then Short(c)
    else if c != '\t' && IsControl(c) then Hex4(HexFour(c as int))
    else Plain(c)
  }

  function Canonical(text: string): seq<Piece> {
    seq(|text|, i requires 0 <= i < |text| => CanonicalPiece(text[i]))
  }

  function EncodeString(text: string): string {
    ['"'] + RenderAll(Canonical(text)) + ['"']
  }

  lemma {:induction false} CanonicalMeans(text: string)
    ensures AllWellFormed(Canonical(text)) && MeaningAll(Canonical(text)) == text
  {
    forall i | 0 <= i < |text| ensures WellFormed(Canonical(text)[i]) && Meaning(Canonical(text)[i]) == text[i] {
      if text[i] != '\t' && IsControl(text[i]) {
        HexFourValue(text[i] as int);
      }
    }
    MeaningPointwise(Canonical(text), text);
  }

  lemma {:induction false} MeaningPointwise(ps: seq<Piece>, text: string)
    requires |ps| == |text| && AllWellFormed(ps) && forall i :: 0 <= i < |ps| ==> Meaning(ps[i]) == text[i]
    ensures MeaningAll(ps) == text
  {
    if ps != [] {
      MeaningPointwise(ps[1..], text[1..]);
    }
  }

  /** Round trip: every string, written canonically, decodes to itself. */
  lemma {:induction false} EncodeDecodes(text: string)
    ensures StripTomlStr(EncodeString(text)) == Ok(text)
  {
    CanonicalMeans(text);
    var ps := Canonical(text);
    DecodeRendered(ps, []);
    var s := EncodeString(text);
    assert s[1..] == RenderAll(ps) + (['"'] + []);
    NotTripleQuoted(text);
  }

  lemma {:induction false} NotTripleQuoted(text: string)
    ensures var s := EncodeString(text); !(|s| >= 3 && s[1] == '"' && s[2] == '"')
  {
    var ps := Canonical(text);
    if text != [] {
      assert RenderAll(ps) == Render(ps[0]) + RenderAll(ps[1..]);
      assert Render(ps[0])[0] != '"';
    }
  }

  // ----- Scanner and decoder agree on where a string ends -----

  predicate CommentFree(st: Scan, s: string)
    decreases |s|
  {
    s == [] || (!StartsComment(st, s[0]) && CommentFree(ScanStep(st, s[0]), s[1..]))
  }

  function ScanAll(st: Scan, s: string): Scan
    decreases |s|
  {
    if s == [] then st else ScanAll(ScanStep(st, s[0]), s[1..])
  }

  lemma {:induction false} CommentAfter(st: Scan, a: string, b: string)
    requires CommentFree(st, a)
    ensures CommentAt(st, a + b) == |a| + CommentAt(ScanAll(st, a), b)
    decreases |a|
  {
    if a == [] {
      assert a + b == b;
    } else {
      assert (a + b)[1..] == a[1..] + b;
      CommentAfter(ScanStep(st, a[0]), a[1..], b);
    }
  }

  lemma {:induction false} ScanConcat(st: Scan, a: string, b: string)
    requires CommentFree(st, a) && CommentFree(ScanAll(st, a), b)
    ensures CommentFree(st, a + b) && ScanAll(st, a + b) == ScanAll(ScanAll(st, a), b)
    decreases |a|
  {
    if a == [] {
      assert a + b == b;
    } else {
      assert (a + b)[1..] == a[1..] + b;
      ScanConcat(ScanStep(st, a[0]), a[1..], b);
    }
  }

  const INSIDE: Scan := Scan(Some('"'), false)

  /** Scanning `s` never leaves the string. */
  predicate StaysInside(st: Scan, s: string)
    decreases |s|
  {
    s == [] || (ScanStep(st, s[0]).quote.Some? && StaysInside(ScanStep(st, s[0]), s[1..]))
  }

  /** No comment can start inside a string, at any prefix. */
  lemma {:induction false} InsideIsCommentFree(st: Scan, s: string, j: nat)
    requires st.quote.Some? && StaysInside(st, s) && j <= |s|
    ensures CommentFree(st, s) && ScanAll(st, s[..j]).quote.Some?
    decreases |s|
  {
    if s != [] {
      InsideIsCommentFree(ScanStep(st, s[0]), s[1..], if j == 0 then 0 else j - 1);
      if j > 0 {
        assert s[..j][1..] == s[1..][..j - 1];
      }
    }
  }

  lemma {:induction false} InsideConcat(st: Scan, a: string, b: string)
    requires StaysInside(st, a) && StaysInside(ScanAll(st, a), b)
    ensures StaysInside(st, a + b) && ScanAll(st, a + b) == ScanAll(ScanAll(st, a), b)
    decreases |a|
  {
    if a == [] {
      assert a + b == b;
    } else {
      assert (a + b)[1..] == a[1..] + b;
      InsideConcat(ScanStep(st, a[0]), a[1..], b);
    }
  }

  lemma {:induction false} HexIsOrdinary(s: string)
    requires AllHex(s)
    ensures StaysInside(INSIDE, s) && ScanAll(INSIDE, s) == INSIDE
    decreases |s|
  {
    if s != [] {
      HexIsOrdinary(s[1..]);
    }
  }

  lemma {:induction false} ScanPiece(p: Piece)
    requires WellFormed(p)
    ensures StaysInside(INSIDE, Render(p)) && ScanAll(INSIDE, Render(p)) == INSIDE
  {
    var s := Render(p);
    match p {
      case Plain(c) =>
        assert s[1..] == [];
      case Short(letter) =>
        assert s[1..] == [letter] && s[1..][1..] == [];
      case Hex4(digits) =>
        assert s[1..] == ['u'] + digits && s[1..][1..] == digits;
        HexIsOrdinary(digits);
      case Hex8(digits) =>
        assert s[1..] == ['U'] + digits && s[1..][1..] == digits;
        HexIsOrdinary(digits);
    }
  }

  lemma {:induction false} ScanPieces(ps: seq<Piece>)
    requires AllWellFormed(ps)
    ensures StaysInside(INSIDE, RenderAll(ps)) && ScanAll(INSIDE, RenderAll(ps)) == INSIDE
  {
    if ps != [] {
      ScanPiece(ps[0]);
      ScanPieces(ps[1..]);
      InsideConcat(INSIDE, Render(ps[0]), RenderAll(ps[1..]));
    }
  }

  /** Literal strings: the text runs verbatim up to the closing quote. */
  lemma {:induction false} LiteralRunsVerbatim(s: string)
    requires Decode('\'', s).Ok?
    ensures var lit := Decode('\'', s).value; lit.text == s[..lit.close] && s[lit.close] == '\''
    ensures var body := s[..Decode('\'', s).value.close];
            StaysInside(Scan(Some('\''), false), body) && ScanAll(Scan(Some('\''), false), body) == Scan(Some('\''), false)
    decreases |s|
  {
    if s[0] != '\'' {
      LiteralRunsVerbatim(s[1..]);
      var k := Decode('\'', s).value.close;
      assert s[..k] == [s[0]] + s[1..][..k - 1] && s[..k][1..] == s[1..][..k - 1];
    }
  }

  /**
   * The two automata agree: over any accepted literal, quotes included, the
   * scanner sees no comment and is outside again exactly at the decoder's
   * closing quote.
   */
  lemma {:induction false} ScannerLeavesWhereDecoderCloses(quote: char, s: string)
    requires IsQuote(quote) && Decode(quote, s).Ok?
    ensures var k := Decode(quote, s).value.close;
            var literal := [quote] + s[..k + 1];
            && s[k] == quote
            && CommentFree(OUTSIDE, literal) && ScanAll(OUTSIDE, literal) == OUTSIDE
            && (forall j :: 0 <= j <= k ==> ScanAll(Scan(Some(quote), false), s[..j]) != OUTSIDE)
  {
    var k, st := Decode(quote, s).value.close, Scan(Some(quote), false);
    BodyStaysInside(quote, s);
    InsideIsCommentFree(st, s[..k], 0);
    assert [quote][1..] == [];
    ScanConcat(st, s[..k], [quote]);
    assert s[..k + 1] == s[..k] + [quote];
    assert ([quote] + s[..k + 1])[1..] == s[..k + 1];
    forall j | 0 <= j <= k ensures ScanAll(st, s[..j]) != OUTSIDE {
      InsideIsCommentFree(st, s[..k], j);
      assert s[..j] == s[..k][..j];
    }
  }

  lemma {:induction false} BodyStaysInside(quote: char, s: string)
    requires IsQuote(quote) && Decode(quote, s).Ok?
    ensures var (k, st) := (Decode(quote, s).value.close, Scan(Some(quote), false));
            s[k] == quote && StaysInside(st, s[..k]) && ScanAll(st, s[..k]) == st
  {
    var k := Decode(quote, s).value.close;
    if quote == '"' {
      var ps, after := AcceptedIsRendered(s);
      ScanPieces(ps);
      assert s[..k] == RenderAll(ps) && s[k] == '"';
    } else {
      LiteralRunsVerbatim(s);
    }
  }

  // ----- The standard's own escapes -----

  /** Each short escape stands for its control character, quote or backslash. */
  lemma {:induction false} ShortEscape(letter: char, c: char)
    requires (letter, c) in {('b', '\U{8}'), ('t', '\U{9}'), ('n', '\U{A}'), ('f', '\U{C}'), ('r', '\U{D}'), ('"', '"'), ('\\', '\\')}
    ensures StripTomlStr(['"', '\\', letter, '"']) == Ok([c])
  {
    var (ps, lit) := ([Short(letter)], ['"', '\\', letter, '"']);
    assert ps[1..] == [] && RenderAll([]) == [] && MeaningAll([]) == [];
    assert RenderAll(ps) == ['\\', letter] && MeaningAll(ps) == [c];
    DecodeRendered(ps, []);
    assert lit[1..] == RenderAll(ps) + (['"'] + []);
  }

  lemma {:induction false} HexOfFour(a: char, b: char, c: char, d: char)
    requires IsHex(a) && IsHex(b) && IsHex(c) && IsHex(d)
    ensures HexValue([a, b, c, d]) == 4096 * Digit(a) + 256 * Digit(b) + 16 * Digit(c) + Digit(d)
  {
    var (s, t, u, v) := ([a, b, c, d], [a, b, c], [a, b], [a]);
    assert s[..3] == t && t[..2] == u && u[..1] == v && v[..0] == [];
    assert HexValue(v) == Digit(a);
    assert HexValue(u) == 16 * HexValue(v) + Digit(b);
    assert HexValue(t) == 16 * HexValue(u) + Digit(c);
    assert HexValue(s) == 16 * HexValue(t) + Digit(d);
  }

  /** The sixteen digits, in either case. */
  lemma DigitIs(c: char, d: nat)
    requires d < 16
    ensures IsHex(c) && Digit(c) == d <==> c == "0123456789abcdef"[d] || c == "0123456789ABCDEF"[d]
  {
  }

  /** A four-digit escape stands for the character with that number. */
  lemma {:induction false} HexEscape(a: char, b: char, c: char, d: char, n: nat)
    requires IsHex(a) && IsHex(b) && IsHex(c) && IsHex(d)
    requires n == 4096 * Digit(a) + 256 * Digit(b) + 16 * Digit(c) + Digit(d) && !(0xD800 <= n < 0xE000)
    ensures StripTomlStr(['"', '\\', 'u', a, b, c, d, '"']) == Ok([n as char])
  {
    var (digits, lit) := ([a, b, c, d], ['"', '\\', 'u', a, b, c, d, '"']);
    HexOfFour(a, b, c, d);
    var ps := [Hex4(digits)];
    assert ps[1..] == [] && RenderAll([]) == [] && MeaningAll([]) == [];
    assert RenderAll(ps) == ['\\', 'u'] + digits && MeaningAll(ps) == [n as char];
    DecodeRendered(ps, []);
    assert lit[1..] == RenderAll(ps) + (['"'] + []);
  }

  /** A literal string is accepted exactly when it is closed, holds no control character but tabs, and only blanks follow. */
  ghost predicate IsLiteral(s: string, close: nat) {
    && close < |s| && s[close] == '\'' && AllSpace(s[close + 1..])
    && forall i :: 0 <= i < close ==> s[i] != '\'' && (s[i] == '\t' || !IsControl(s[i]))
  }

  lemma {:induction false} LiteralIsRead(s: string, close: nat)
    requires IsLiteral(s, close)
    ensures Decode('\'', s) == Ok(Literal(s[..close], close))
    decreases |s|
  {
    if close > 0 {
      assert s[1..][close - 1 + 1..] == s[close + 1..];
      LiteralIsRead(s[1..], close - 1);
      assert [s[0]] + s[1..][..close - 1] == s[..close];
    } else {
      assert s[..0] == [];
    }
  }

  lemma {:induction false} ReadIsLiteral(s: string)
    requires Decode('\'', s).Ok?
    ensures IsLiteral(s, Decode('\'', s).value.close)
    decreases |s|
  {
    if s[0] != '\'' {
      ReadIsLiteral(s[1..]);
      var close := Decode('\'', s[1..]).value.close;
      assert s[1..][close + 1..] == s[close + 2..];
      forall i | 0 <= i < close + 1 ensures s[i] != '\'' && (s[i] == '\t' || !IsControl(s[i])) {
        assert i > 0 ==> s[i] == s[1..][i - 1];
      }
    }
  }

  lemma {:induction false} LiteralAcceptedIff(s: string)
    ensures Decode('\'', s).Ok? <==> exists close: nat :: IsLiteral(s, close)
  {
    if close: nat :| IsLiteral(s, close) {
      LiteralIsRead(s, close);
    }
    if Decode('\'', s).Ok? {
      ReadIsLiteral(s);
    }
  }
}
