/** From strings to lines to documents: what is written is what is parsed, whatever the comments say. */
module TomlDocuments {
  import opened Basics
  import opened Text
  import opened TomlLite
  import opened TomlStrings

  /** No quote and no hash: transparent to the comment scanner. */
  predicate Transparent(s: string) {
    forall i :: 0 <= i < |s| ==> s[i] != '"' && s[i] != '\'' && s[i] != '#'
  }

  lemma {:induction false} TransparentScan(s: string)
    requires Transparent(s)
    ensures CommentFree(OUTSIDE, s) && ScanAll(OUTSIDE, s) == OUTSIDE
    decreases |s|
  {
    if s != [] {
      TransparentScan(s[1..]);
    }
  }

  lemma SpaceIsTransparent(s: string)
    requires AllSpace(s)
    ensures Transparent(s) && forall i :: 0 <= i < |s| ==> s[i] != '='
  {
  }

  predicate KeyChar(c: char) {
    'a' <= c <= 'z' || c == '_'
  }

  predicate PlainKey(key: string) {
    key != [] && forall i :: 0 <= i < |key| ==> KeyChar(key[i])
  }

  /** Nothing a known key contains can confuse the line parser. */
  lemma KnownKeysArePlain(section: Section, key: string)
    requires Known(section, key)
    ensures PlainKey(key)
  {
  }

  lemma KeyCharIsOrdinary(c: char)
    requires KeyChar(c)
    ensures !IsSpace(c) && c != '=' && c != '"' && c != '\'' && c != '#' && c != '['
  {
  }

  /** A quoted value that ends with its own closing quote. */
  predicate Quoted(lit: string, v: string) {
    |lit| >= 2 && IsQuote(lit[0]) && StripTomlStr(lit) == Ok(v) && Decode(lit[0], lit[1..]).value.close == |lit| - 2
  }

  lemma {:induction false} QuotedScan(lit: string, v: string)
    requires Quoted(lit, v)
    ensures CommentFree(OUTSIDE, lit) && ScanAll(OUTSIDE, lit) == OUTSIDE && lit[|lit| - 1] == lit[0]
  {
    var s := lit[1..];
    ScannerLeavesWhereDecoderCloses(lit[0], s);
    assert s[..|lit| - 1] == s && [lit[0]] + s == lit;
  }

  /** A comment as it stands on its line, or nothing. */
  function Remark(comment: Option<string>): string {
    if comment.Some? then ['#'] + comment.value else []
  }

  /** The comment is cut right where it starts, however many quotes or hashes follow or precede it in strings. */
  lemma {:induction false} CommentIsCut(front: string, lit: string, v: string, pad: string, comment: Option<string>)
    requires Transparent(front) && Quoted(lit, v) && AllSpace(pad)
    ensures var kept := front + lit + pad;
            var raw := kept + Remark(comment);
            CommentAt(OUTSIDE, raw) == |kept| && raw[..|kept|] == kept
  {
    TransparentScan(front);
    QuotedScan(lit, v);
    SpaceIsTransparent(pad);
    TransparentScan(pad);
    ScanConcat(OUTSIDE, front, lit);
    ScanConcat(OUTSIDE, front + lit, pad);
    CommentAfter(OUTSIDE, front + lit + pad, Remark(comment));
  }

  lemma {:induction false} IndexOfIs(c: char, s: string, k: nat)
    requires k < |s| && s[k] == c && forall i :: 0 <= i < k ==> s[i] != c
    ensures IndexOf(c, s) == k
  {
    if k > 0 {
      IndexOfIs(c, s[1..], k - 1);
    }
  }

  lemma QuotesAreNotSpace(c: char)
    requires IsQuote(c)
    ensures !IsSpace(c)
  {
  }

  lemma {:induction false} EqualsIsFirst(key: string, g1: string, right: string)
    requires PlainKey(key) && AllSpace(g1)
    ensures IndexOf('=', key + g1 + ['='] + right) == |key + g1|
  {
    var left := key + g1;
    SpaceIsTransparent(g1);
    forall i | 0 <= i < |left| ensures left[i] != '=' {
      if i < |key| {
        KeyCharIsOrdinary(key[i]);
      }
    }
    IndexOfIs('=', left + ['='] + right, |left|);
  }

  lemma {:induction false} QuotedIsTight(lit: string, v: string)
    requires Quoted(lit, v)
    ensures Tight(lit)
  {
    QuotedScan(lit, v);
    QuotesAreNotSpace(lit[0]);
  }

  /** The two sides of an assignment, whatever surrounds the equals sign. */
  lemma {:induction false} SidesOfAssignment(key: string, g1: string, g2: string, lit: string)
    requires PlainKey(key) && AllSpace(g1) && AllSpace(g2) && Tight(lit)
    ensures var (line, eq) := (key + g1 + ['='] + g2 + lit, |key + g1|);
            IndexOf('=', line) == eq < |line| && Trim(line[..eq]) == key && Trim(line[eq + 1..]) == lit
  {
    var (line, left) := (key + g1 + ['='] + g2 + lit, key + g1);
    EqualsIsFirst(key, g1, g2 + lit);
    assert line == left + ['='] + (g2 + lit);
    assert line[..|left|] == [] + key + g1;
    KeyCharIsOrdinary(key[0]);
    KeyCharIsOrdinary(key[|key| - 1]);
    TrimPadded([], key, g1);
    assert line[|left| + 1..] == g2 + lit + [];
    TrimPadded(g2, lit, []);
  }

  lemma {:induction false} AssignmentIsRead(st: Config, key: string, g1: string, g2: string, lit: string, v: string)
    requires PlainKey(key) && AllSpace(g1) && AllSpace(g2) && Tight(lit) && StripTomlStr(lit) == Ok(v) && Known(st.section, key)
    ensures ParseAssignment(st, key + g1 + ['='] + g2 + lit) == SetValue(st, key, v)
  {
    SidesOfAssignment(key, g1, g2, lit);
    SidesAreRead(st, key + g1 + ['='] + g2 + lit, |key + g1|, key, lit, v);
  }

  lemma SidesAreRead(st: Config, line: string, eq: nat, key: string, lit: string, v: string)
    requires IndexOf('=', line) == eq < |line| && Trim(line[..eq]) == key && Trim(line[eq + 1..]) == lit
    requires Known(st.section, key) && StripTomlStr(lit) == Ok(v)
    ensures ParseAssignment(st, line) == SetValue(st, key, v)
  {
  }

  lemma BareIsAssignment(st: Config, line: string)
    requires line != [] && line[0] != '['
    ensures ParseBare(st, line) == ParseAssignment(st, line)
  {
  }

  lemma {:induction false} LeftIsTransparent(indent: string, key: string, g1: string, g2: string)
    requires PlainKey(key) && AllSpace(indent) && AllSpace(g1) && AllSpace(g2)
    ensures Transparent(indent + (key + g1 + ['='] + g2))
  {
    SpaceIsTransparent(indent);
    SpaceIsTransparent(g1);
    SpaceIsTransparent(g2);
    forall i | 0 <= i < |key| ensures key[i] != '"' && key[i] != '\'' && key[i] != '#' {
      KeyCharIsOrdinary(key[i]);
    }
  }

  /** What remains of an assignment line once its comment and surrounding blanks are gone. */
  lemma {:induction false} LineIsTrimmed(indent: string, left: string, lit: string, g3: string)
    requires AllSpace(indent) && AllSpace(g3) && left != [] && !IsSpace(left[0]) && Tight(lit)
    ensures Trim(indent + left + lit + g3) == left + lit
  {
    var line := left + lit;
    assert indent + left + lit == indent + line;
    assert line[0] == left[0] && line[|line| - 1] == lit[|lit| - 1];
    TrimPadded(indent, line, g3);
  }

  /** One assignment line, with any spacing and any comment or none, sets exactly its key to exactly its string. */
  lemma {:induction false} LineIsRead(st: Config, indent: string, key: string, g1: string, g2: string, lit: string, v: string,
                                      g3: string, comment: Option<string>)
    requires Known(st.section, key) && Quoted(lit, v)
    requires AllSpace(indent) && AllSpace(g1) && AllSpace(g2) && AllSpace(g3)
    ensures ParseLine(st, indent + (key + g1 + ['='] + g2) + lit + g3 + Remark(comment)) == SetValue(st, key, v)
  {
    KnownKeysArePlain(st.section, key);
    KeyCharIsOrdinary(key[0]);
    var left := key + g1 + ['='] + g2;
    LeftIsTransparent(indent, key, g1, g2);
    CommentIsCut(indent + left, lit, v, g3, comment);
    QuotedIsTight(lit, v);
    LineIsTrimmed(indent, left, lit, g3);
    AssignmentIsRead(st, key, g1, g2, lit, v);
    BareIsAssignment(st, left + lit);
  }

  // ----- Whole documents -----

  datatype Entry =
    | Header(section: Section, comment: Option<string>)
    | Assign(key: string, value: string, comment: Option<string>)
    | Blank(comment: Option<string>)

  function HeaderText(section: Section): string {
    match section
    case Roles => "[roles]"
    case Embeddings => "[embeddings]"
    case Knowledge => "[knowledge]"
    case _ => "[other]"
  }

  function WriteEntry(e: Entry): string {
    match e
    case Header(section, comment) => HeaderText(section) + [' '] + Remark(comment)
    case Assign(key, value, comment) =>
      [] + (key + [' '] + ['='] + [' ']) + EncodeString(value) + [' '] + Remark(comment)
    case Blank(comment) => [' '] + Remark(comment)
  }

  function WriteAll(es: seq<Entry>): seq<string> {
    seq(|es|, i requires 0 <= i < |es| => WriteEntry(es[i]))
  }

  function Effect(st: Config, e: Entry): Result<Config, TomlError> {
    match e
    case Header(section, _) => Ok(st.(section := section))
    case Assign(key, value, _) => SetValue(st, key, value)
    case Blank(_) => Ok(st)
  }

  function Effects(st: Config, es: seq<Entry>): Result<Config, TomlError>
    decreases |es|
  {
    if es == [] then Ok(st)
    else match Effect(st, es[0])
      case Err(e) => Err(e)
      case Ok(next) => Effects(next, es[1..])
  }

  /** Headers name a table, keys are known where they stand, and comments stay on their line. */
  predicate Writable(section: Section, es: seq<Entry>)
    decreases |es|
  {
    es == [] ||
    (&& '\n' !in Remark(es[0].comment)
     && (match es[0]
         case Header(s, _) => !s.Root? && Writable(s, es[1..])
         case Assign(key, _, _) => Known(section, key) && Writable(section, es[1..])
         case Blank(_) => Writable(section, es[1..])))
  }

  lemma {:induction false} EncodedIsQuoted(text: string)
    ensures Quoted(EncodeString(text), text)
  {
    EncodeDecodes(text);
    CanonicalMeans(text);
    var (ps, lit) := (Canonical(text), EncodeString(text));
    DecodeRendered(ps, []);
    assert lit[1..] == RenderAll(ps) + (['"'] + []);
  }

  lemma {:induction false} EncodedHasNoBreak(text: string)
    ensures '\n' !in EncodeString(text) && '\r' !in EncodeString(text)
  {
    PiecesHaveNoBreak(text);
  }

  lemma {:induction false} PiecesHaveNoBreak(text: string)
    ensures '\n' !in RenderAll(Canonical(text)) && '\r' !in RenderAll(Canonical(text))
  {
    if text != [] {
      var ps := Canonical(text);
      assert ps[1..] == Canonical(text[1..]);
      PiecesHaveNoBreak(text[1..]);
      var head := Render(ps[0]);
      if ps[0].Hex4? {
        HexFourValue(text[0] as int);
        assert forall i :: 0 <= i < 4 ==> IsHex(ps[0].digits[i]);
      }
      assert '\n' !in head && '\r' !in head;
    }
  }

  /** Any bracketed text without quotes or hashes survives the comment and blank stripping. */
  lemma {:induction false} BracketedIsKept(text: string, comment: Option<string>)
    requires text != [] && text[0] == '[' && text[|text| - 1] == ']' && Transparent(text)
    ensures var raw := text + [' '] + Remark(comment);
            Trim(raw[..CommentAt(OUTSIDE, raw)]) == text
  {
    var kept := text + [' '];
    TransparentScan(kept);
    CommentAfter(OUTSIDE, kept, Remark(comment));
    var raw := kept + Remark(comment);
    assert raw[..|kept|] == [] + text + [' '];
    TrimPadded([], text, [' ']);
  }

  lemma {:induction false} BlankIsSkipped(st: Config, comment: Option<string>)
    ensures ParseLine(st, WriteEntry(Blank(comment))) == Ok(st)
  {
    var (kept, raw) := ([' '], [' '] + Remark(comment));
    TransparentScan(kept);
    CommentAfter(OUTSIDE, kept, Remark(comment));
    assert raw[..1] == kept;
    BlankTrims();
  }

  lemma BlankTrims()
    ensures Trim([' ']) == []
  {
    TrimEndPadding([], [' ']);
    assert [] + [' '] == [' '];
    assert Trim([]) == [];
  }

  lemma HeaderIsPlain(section: Section)
    ensures var text := HeaderText(section);
            text != [] && text[0] == '[' && text[|text| - 1] == ']' && Transparent(text)
  {
  }

  lemma HeaderNamesSection(st: Config, section: Section)
    requires !section.Root?
    ensures ParseBare(st, HeaderText(section)) == Ok(st.(section := section))
  {
    assert |"[roles]"| == 7 && |"[embeddings]"| == 12 && |"[knowledge]"| == 11;
    assert "[other]"[1] == 'o' && "[roles]"[1] == 'r';
  }

  lemma {:induction false} HeaderIsRead(st: Config, section: Section, comment: Option<string>)
    requires !section.Root?
    ensures ParseLine(st, WriteEntry(Header(section, comment))) == Ok(st.(section := section))
  {
    HeaderIsPlain(section);
    BracketedIsKept(HeaderText(section), comment);
    HeaderNamesSection(st, section);
  }

  lemma {:induction false} AssignIsRead(st: Config, key: string, value: string, comment: Option<string>)
    requires Known(st.section, key)
    ensures ParseLine(st, WriteEntry(Assign(key, value, comment))) == SetValue(st, key, value)
  {
    EncodedIsQuoted(value);
    LineIsRead(st, [], key, [' '], [' '], EncodeString(value), value, [' '], comment);
  }

  function StripRemark(comment: Option<string>): Option<string> {
    if comment.Some? then Some(StripReturn(comment.value)) else None
  }

  /** What stands before the comment. */
  function Front(e: Entry): string {
    match e
    case Header(section, _) => HeaderText(section) + [' ']
    case Assign(key, value, _) => [] + (key + [' '] + ['='] + [' ']) + EncodeString(value) + [' ']
    case Blank(_) => [' ']
  }

  /** A carriage return at the end of a line belongs to its comment. */
  lemma {:induction false} ReturnIsComment(e: Entry)
    ensures StripReturn(WriteEntry(e)) == WriteEntry(e.(comment := StripRemark(e.comment)))
  {
    assert WriteEntry(e) == Front(e) + Remark(e.comment) && Front(e)[|Front(e)| - 1] == ' ';
    StripInside(Front(e), e.comment);
  }

  lemma StripInside(front: string, comment: Option<string>)
    requires front != [] && front[|front| - 1] == ' '
    ensures StripReturn(front + Remark(comment)) == front + Remark(StripRemark(comment))
  {
    var raw := front + Remark(comment);
    if comment.Some? && comment.value != [] {
      assert raw[|raw| - 1] == comment.value[|comment.value| - 1];
    } else if comment.Some? {
      assert raw[|raw| - 1] == '#';
    }
  }

  lemma {:induction false} EntryIsRead(st: Config, e: Entry)
    requires Writable(st.section, [e])
    ensures ParseLine(st, WriteEntry(e)) == Effect(st, e)
  {
    match e {
      case Header(section, comment) => HeaderIsRead(st, section, comment);
      case Assign(key, value, comment) => AssignIsRead(st, key, value, comment);
      case Blank(comment) => BlankIsSkipped(st, comment);
    }
  }

  lemma {:induction false} StrippedIsRead(st: Config, e: Entry)
    requires Writable(st.section, [e])
    ensures ParseLine(st, StripReturn(WriteEntry(e))) == Effect(st, e)
  {
    ReturnIsComment(e);
    EntryIsRead(st, e.(comment := StripRemark(e.comment)));
  }

  lemma {:induction false} LinesAreRead(st: Config, es: seq<Entry>)
    requires Writable(st.section, es)
    ensures ParseLines(st, StripReturns(WriteAll(es))) == Effects(st, es)
    decreases |es|
  {
    if es != [] {
      var lines := StripReturns(WriteAll(es));
      assert lines[0] == StripReturn(WriteEntry(es[0])) && lines[1..] == StripReturns(WriteAll(es[1..]));
      assert [es[0]][1..] == [] && Writable(st.section, [es[0]]);
      StrippedIsRead(st, es[0]);
      if Effect(st, es[0]).Ok? {
        LinesAreRead(Effect(st, es[0]).value, es[1..]);
      }
    }
  }

  lemma NoBreakInBoth(a: string, b: string)
    requires '\n' !in a && '\n' !in b
    ensures '\n' !in a + b
  {
  }

  lemma {:induction false} FrontHasNoBreak(section: Section, e: Entry)
    requires e.Assign? ==> Known(section, e.key)
    ensures '\n' !in Front(e)
  {
    if e.Assign? {
      KnownKeysArePlain(section, e.key);
      EncodedHasNoBreak(e.value);
      NoBreakInBoth(e.key, [' ']);
      NoBreakInBoth(e.key + [' '], ['=']);
      NoBreakInBoth(e.key + [' '] + ['='], [' ']);
      NoBreakInBoth([], e.key + [' '] + ['='] + [' ']);
      NoBreakInBoth([] + (e.key + [' '] + ['='] + [' ']), EncodeString(e.value));
    }
  }

  lemma {:induction false} EntryHasNoBreak(section: Section, e: Entry)
    requires '\n' !in Remark(e.comment) && (e.Assign? ==> Known(section, e.key))
    ensures '\n' !in WriteEntry(e)
  {
    FrontHasNoBreak(section, e);
    NoBreakInBoth(Front(e), Remark(e.comment));
  }

  lemma {:induction false} EntriesHaveNoBreaks(section: Section, es: seq<Entry>)
    requires Writable(section, es)
    ensures forall i :: 0 <= i < |es| ==> '\n' !in WriteAll(es)[i]
    decreases |es|
  {
    if es != [] {
      EntryHasNoBreak(section, es[0]);
      EntriesHaveNoBreaks(if es[0].Header? then es[0].section else section, es[1..]);
      forall i | 0 <= i < |es| ensures '\n' !in WriteAll(es)[i] {
        if i > 0 {
          assert WriteAll(es)[i] == WriteAll(es[1..])[i - 1];
        }
      }
    }
  }

  /**
   * Document round trip: tables, assignments of arbitrary strings and blank
   * lines, written out one per line with or without comments, parse back to the effect of the
   * assignments in order, including the refusal of a repeated knowledge key.
   */
  lemma {:induction false} DocumentRoundTrips(st: Config, es: seq<Entry>)
    requires Writable(st.section, es)
    ensures ParseLines(st, Lines(Unlines(WriteAll(es)))) == Effects(st, es)
  {
    EntriesHaveNoBreaks(st.section, es);
    LinesOfUnlines(WriteAll(es));
    LinesAreRead(st, es);
  }
}
