/**
 * The single-line TOML subset of the configuration file: a comment scanner and
 * a string decoder that track quotes independently, and the line parser built
 * on them.
 */
module TomlLite {
  import opened Basics
  import opened Text
  import opened Decimals

  datatype TomlError =
    | QuoteWholeString | Multiline | TrailingText | ControlCharacter | UnfinishedEscape | HexDigits
    | NotScalar | UnsupportedEscape | Unterminated | BadAssignment | UnknownKey | DuplicateKey | BadDimension

  // ----- The comment scanner -----

  datatype Scan = Scan(quote: Option<char>, escaped: bool)

  const OUTSIDE: Scan := Scan(None, false)

  predicate StartsComment(st: Scan, ch: char) {
    st == OUTSIDE && ch == '#'
  }

  function ScanStep(st: Scan, ch: char): Scan {
    if st.escaped then st.(escaped := false)
    else if st.quote == Some('"') && ch == '\\' then st.(escaped := true)
    else if st.quote == Some(ch) then OUTSIDE
    else if st.quote.None? && (ch == '"' || ch == '\'') then Scan(Some(ch), false)
    else st
  }

  /** Length of the part before a comment. */
  function CommentAt(st: Scan, line: string): (k: nat)
    ensures k <= |line|
    decreases |line|
  {
    if line == [] || StartsComment(st, line[0]) then 0 else 1 + CommentAt(ScanStep(st, line[0]), line[1..])
  }

  method WithoutTomlComment(line: string) returns (r: string)
    ensures r == line[..CommentAt(OUTSIDE, line)]
  {
    var quote: Option<char>, escaped := None, false;
    for i := 0 to |line|
      invariant escaped ==> quote.Some?
      invariant CommentAt(OUTSIDE, line) == i + CommentAt(Scan(quote, escaped), line[i..])
    {
      var ch := line[i];
      assert line[i..][1..] == line[i + 1..];
      if escaped {
        escaped := false;
      } else if quote == Some('"') && ch == '\\' {
        escaped := true;
      } else if quote == Some(ch) {
        quote := None;
      } else if quote.None? && (ch == '"' || ch == '\'') {
        quote := Some(ch);
      } else if quote.None? && ch == '#' {
        return line[..i];
      }
    }
    r := line;
  }

  // ----- The string decoder -----

  /** A decoded literal and the index of its closing quote. */
  datatype Literal = Literal(text: string, close: nat)

  type Decoded = Result<Literal, TomlError>

  predicate IsHex(c: char) {
    '0' <= c <= '9' || 'a' <= c <= 'f' || 'A' <= c <= 'F'
  }

  function Digit(c: char): (d: nat)
    requires IsHex(c)
    ensures d < 16
  {
    if c <= '9' then c as int - '0' as int
    else if c <= 'F' then c as int - 'A' as int + 10
    else c as int - 'a' as int + 10
  }

  predicate AllHex(s: string) {
    forall i :: 0 <= i < |s| ==> IsHex(s[i])
  }

  /** Big-endian value, accumulated four bits at a time. */
  function HexValue(s: string): nat
    requires AllHex(s)
  {
    if s == [] then 0 else 16 * HexValue(s[..|s| - 1]) + Digit(s[|s| - 1])
  }

  predicate IsScalar(v: nat) {
    v < 0xD800 || 0xE000 <= v < 0x11_0000
  }

  datatype Escape = Escape(meaning: char, used: nat)

  function DecodeHex(s: string, n: nat): Result<Escape, TomlError> {
    if |s| < n || !AllHex(s[..n]) then Err(HexDigits)
    else
      var v := HexValue(s[..n]);
      if IsScalar(v) then Ok(Escape(v as char, n + 1)) else Err(NotScalar)
  }

  predicate IsShort(c: char) {
    c == 'b' || c == 't' || c == 'n' || c == 'f' || c == 'r' || c == '"' || c == '\\'
  }

  function ShortMeaning(c: char): char
    requires IsShort(c)
  {
    match c
    case 'b' => '\U{8}'
    case 't' => '\t'
    case 'n' => '\n'
    case 'f' => '\U{C}'
    case 'r' => '\r'
    case _ => c
  }

  /** The escape after a backslash: its meaning and how many characters it uses. */
  function DecodeEscape(s: string): (r: Result<Escape, TomlError>)
    ensures r.Ok? ==> 0 < r.value.used <= |s|
  {
    if s == [] then Err(UnfinishedEscape)
    else if IsShort(s[0]) then Ok(Escape(ShortMeaning(s[0]), 1))
    else if s[0] == 'u' then DecodeHex(s[1..], 4)
    else if s[0] == 'U' then DecodeHex(s[1..], 8)
    else Err(UnsupportedEscape)
  }

  function Push(c: char, used: nat, rest: Decoded): Decoded {
    if rest.Ok? then Ok(Literal([c] + rest.value.text, used + rest.value.close)) else rest
  }

  /** Decode what follows an opening quote. */
  function Decode(quote: char, s: string): (r: Decoded)
    ensures r.Ok? ==> r.value.close < |s|
    decreases |s|
  {
    if s == [] then Err(Unterminated)
    else if s[0] == quote then if AllSpace(s[1..]) then Ok(Literal([], 0)) else Err(TrailingText)
    else if s[0] != '\t' && IsControl(s[0]) then Err(ControlCharacter)
    else if quote == '\'' || s[0] != '\\' then Push(s[0], 1, Decode(quote, s[1..]))
    else match DecodeEscape(s[1..])
      case Err(e) => Err(e)
      case Ok(Escape(c, used)) => Push(c, 1 + used, Decode(quote, s[1 + used..]))
  }

  predicate IsQuote(c: char) {
    c == '"' || c == '\''
  }

  function TrimCommas(s: string): string {
    if s != [] && s[|s| - 1] == ',' then TrimCommas(s[..|s| - 1]) else s
  }

  /** The value of the text right of an equals sign. */
  function StripTomlStr(s: string): Result<string, TomlError> {
    if s == [] || !IsQuote(s[0]) then
      if '"' in s || '\'' in s then Err(QuoteWholeString) else Ok(TrimCommas(s))
    else if |s| >= 3 && s[1] == s[0] && s[2] == s[0] then Err(Multiline)
    else
      var d := Decode(s[0], s[1..]);
      if d.Ok? then Ok(d.value.text) else Err(d.error)
  }

  method DecodeHexDigits(s: string, n: nat) returns (r: Result<Escape, TomlError>)
    ensures r == DecodeHex(s, n)
  {
    var value := 0;
    for i := 0 to n
      invariant i <= |s| && AllHex(s[..i]) && value == HexValue(s[..i])
    {
      if i == |s| || !IsHex(s[i]) {
        assert |s| >= n ==> s[..n][i] == s[i];
        return Err(HexDigits);
      }
      assert s[..i + 1] == s[..i] + [s[i]];
      value := 16 * value + Digit(s[i]);
    }
    r := if IsScalar(value) then Ok(Escape(value as char, n + 1)) else Err(NotScalar);
  }

  function Join(front: string, rest: Decoded): Result<string, TomlError> {
    if rest.Ok? then Ok(front + rest.value.text) else Err(rest.error)
  }

  /** An unquoted scalar: no quote anywhere, and trailing commas dropped. */
  method BareValue(s: string) returns (r: Result<string, TomlError>)
    ensures r == if '"' in s || '\'' in s then Err(QuoteWholeString) else Ok(TrimCommas(s))
  {
    if '"' in s || '\'' in s {
      return Err(QuoteWholeString);
    }
    var end := |s|;
    assert s[..end] == s;
    while end > 0 && s[end - 1] == ','
      invariant 0 <= end <= |s| && TrimCommas(s) == TrimCommas(s[..end])
    {
      assert s[..end][..end - 1] == s[..end - 1];
      end := end - 1;
    }
    r := Ok(s[..end]);
  }

  /** The escape that begins at `i`. */
  method EscapeAt(s: string, i: nat) returns (r: Result<Escape, TomlError>)
    requires i <= |s|
    ensures r == DecodeEscape(s[i..])
  {
    if i < |s| && (s[i] == 'u' || s[i] == 'U') {
      r := DecodeHexDigits(s[i + 1..], if s[i] == 'u' then 4 else 8);
      assert s[i..][1..] == s[i + 1..];
    } else {
      r := DecodeEscape(s[i..]);
    }
  }

  /** The decoding loop. */
  method StripString(s: string) returns (r: Result<string, TomlError>)
    ensures r == StripTomlStr(s)
  {
    if s == [] || !IsQuote(s[0]) {
      r := BareValue(s);
      return;
    }
    if |s| >= 3 && s[1] == s[0] && s[2] == s[0] {
      return Err(Multiline);
    }
    var quote, decoded, i := s[0], "", 1;
    assert var d := Decode(quote, s[1..]); d.Ok? ==> "" + d.value.text == d.value.text;
    while i < |s|
      invariant 1 <= i <= |s| && StripTomlStr(s) == Join(decoded, Decode(quote, s[i..]))
      decreases |s| - i
    {
      var ch := s[i];
      assert s[i..][1..] == s[i + 1..];
      if ch == quote {
        assert decoded + [] == decoded;
        return if AllSpace(s[i + 1..]) then Ok(decoded) else Err(TrailingText);
      }
      if ch != '\t' && IsControl(ch) {
        return Err(ControlCharacter);
      }
      if quote == '\'' || ch != '\\' {
        JoinPush(decoded, ch, 1, Decode(quote, s[i + 1..]));
        decoded, i := decoded + [ch], i + 1;
      } else {
        var escape := EscapeAt(s, i + 1);
        if escape.Err? {
          return Err(escape.error);
        }
        var Escape(c, used) := escape.value;
        assert s[i..][1 + used..] == s[i + 1 + used..];
        JoinPush(decoded, c, 1 + used, Decode(quote, s[i + 1 + used..]));
        decoded, i := decoded + [c], i + 1 + used;
      }
    }
    r := Err(Unterminated);
  }

  lemma JoinPush(front: string, c: char, used: nat, rest: Decoded)
    ensures Join(front, Push(c, used, rest)) == Join(front + [c], rest)
  {
    if rest.Ok? {
      assert front + ([c] + rest.value.text) == front + [c] + rest.value.text;
    }
  }

  // ----- The line parser -----

  datatype Section = Root | Roles | Embeddings | Knowledge | Unknown

  /** The current table and the values set so far, by section-qualified key. */
  datatype Config = Config(section: Section, values: map<string, string>)

  predicate Known(section: Section, key: string) {
    match section
    case Root =>
      key == "persona_policy" || key == "default_role" || key == "memory_backend" || key == "abi_bin" || key == "backend"
    case Roles => key == "max" || key == "gemma"
    case Embeddings =>
      key == "provider" || key == "endpoint" || key == "model" || key == "dimension" || key == "language"
    case Knowledge => key == "source" || key == "folder"
    case Unknown => false
  }

  function Qualified(section: Section, key: string): string {
    match section
    case Roles => "roles." + key
    case Embeddings => "embeddings." + key
    case Knowledge => "knowledge." + key
    case _ => key
  }

  function Lower(s: string): string {
    seq(|s|, i requires 0 <= i < |s| => if 'A' <= s[i] <= 'Z' then (s[i] as int + 32) as char else s[i])
  }

  predicate AllDigits(s: string) {
    s != [] && forall i :: 0 <= i < |s| ==> IsDigit(s[i])
  }

  function WithoutPlus(s: string): string {
    if s != [] && s[0] == '+' then s[1..] else s
  }

  /** A machine-word count: digits, optionally after a plus sign. */
  predicate IsCount(s: string) {
    AllDigits(WithoutPlus(s)) && NumeralValue(WithoutPlus(s)) <= 0xFFFF_FFFF_FFFF_FFFF
  }

  /** Store a decoded value under a known key of the current table. */
  function SetValue(st: Config, key: string, v: string): Result<Config, TomlError> {
    var q := Qualified(st.section, key);
    if st.section.Knowledge? && q in st.values then Err(DuplicateKey)
    else if st.section.Embeddings? && key == "dimension" && !IsCount(v) then Err(BadDimension)
    else
      var folded := (st.section.Embeddings? && key == "provider") || (st.section.Root? && key == "backend");
      Ok(st.(values := st.values[q := if folded then Lower(v) else v]))
  }

  function IndexOf(c: char, s: string): (k: nat)
    ensures k <= |s| && (forall i :: 0 <= i < k ==> s[i] != c) && (k < |s| ==> s[k] == c)
  {
    if s == [] || s[0] == c then 0 else 1 + IndexOf(c, s[1..])
  }

  /** A trimmed, comment-free line that is not a table header. */
  function ParseAssignment(st: Config, line: string): Result<Config, TomlError> {
    var eq := IndexOf('=', line);
    if eq == |line| then if st.section.Knowledge? then Err(BadAssignment) else Ok(st)
    else
      var key := Trim(line[..eq]);
      if !Known(st.section, key) then if st.section.Knowledge? then Err(UnknownKey) else Ok(st)
      else match StripTomlStr(Trim(line[eq + 1..]))
        case Err(e) => Err(e)
        case Ok(v) => SetValue(st, key, v)
  }

  function ParseBare(st: Config, line: string): Result<Config, TomlError> {
    if line == [] then Ok(st)
    else if line == "[roles]" then Ok(st.(section := Roles))
    else if line == "[embeddings]" then Ok(st.(section := Embeddings))
    else if line == "[knowledge]" then Ok(st.(section := Knowledge))
    else if line[0] == '[' then Ok(st.(section := Unknown))
    else ParseAssignment(st, line)
  }

  function ParseLine(st: Config, raw: string): Result<Config, TomlError> {
    ParseBare(st, Trim(raw[..CommentAt(OUTSIDE, raw)]))
  }

  function ParseLines(st: Config, lines: seq<string>): Result<Config, TomlError>
    decreases |lines|
  {
    if lines == [] then Ok(st)
    else match ParseLine(st, lines[0])
      case Err(e) => Err(e)
      case Ok(next) => ParseLines(next, lines[1..])
  }

  const START: Config := Config(Root, map[])

  method ParseTomlLite(text: string) returns (r: Result<Config, TomlError>)
    ensures r == ParseLines(START, Lines(text))
  {
    var lines, st := Lines(text), START;
    for i := 0 to |lines|
      invariant ParseLines(START, lines) == ParseLines(st, lines[i..])
    {
      assert lines[i..][1..] == lines[i + 1..];
      var bare := WithoutTomlComment(lines[i]);
      var next := ParseBareLine(st, Trim(bare));
      if next.Err? {
        return next;
      }
      st := next.value;
    }
    r := Ok(st);
  }

  method ParseBareLine(st: Config, line: string) returns (r: Result<Config, TomlError>)
    ensures r == ParseBare(st, line)
  {
    if line == [] {
      return Ok(st);
    }
    if line[0] == '[' {
      return Ok(st.(section := if line == "[roles]" then Roles else if line == "[embeddings]" then Embeddings
                               else if line == "[knowledge]" then Knowledge else Unknown));
    }
    var eq := IndexOf('=', line);
    if eq == |line| {
      return if st.section.Knowledge? then Err(BadAssignment) else Ok(st);
    }
    var key := Trim(line[..eq]);
    if !Known(st.section, key) {
      return if st.section.Knowledge? then Err(UnknownKey) else Ok(st);
    }
    var v := StripString(Trim(line[eq + 1..]));
    if v.Err? {
      return Err(v.error);
    }
    r := SetValue(st, key, v.value);
  }
}
