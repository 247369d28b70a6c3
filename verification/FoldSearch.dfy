/** Case-insensitive search: from a byte offset in the folded text back to a character of the document. */
module FoldSearch {
  import opened Basics
  import opened Text
  import opened Utf8
  import opened Pieces

  const MAX_EXCERPT_BYTES := 512

  const SIGMA: char := '\U{03A3}'
  const FINAL_SIGMA: char := '\U{03C2}'

  /** The octets of the two small sigmas, U+03C3 and U+03C2. */
  const SMALL_SIGMA_BYTES: seq<byte> := [0xCF, 0x83]
  const FINAL_SIGMA_BYTES: seq<byte> := [0xCF, 0x82]

  /** Unicode's character data, as far as lower-casing needs it; `lower` gives the octets of a character's lower-case form. */
  datatype Casing = Casing(lower: char -> seq<byte>, cased: char -> bool, ignorable: char -> bool)

  predicate SomeText(bytes: seq<byte>) {
    bytes != [] && Valid(bytes)
  }

  /** All that is known of it: nothing folds away, and a lone capital sigma folds to the small one. */
  ghost predicate Lawful(k: Casing) {
    && k.lower(SIGMA) == SMALL_SIGMA_BYTES
    && forall c :: SomeText(k.lower(c))
  }

  // ----- Lower-casing of a whole text -----

  predicate CasedAhead(k: Casing, s: string) {
    s != [] && if k.ignorable(s[0]) then CasedAhead(k, s[1..]) else k.cased(s[0])
  }

  predicate CasedBehind(k: Casing, s: string) {
    s != [] && if k.ignorable(s[|s| - 1]) then CasedBehind(k, s[..|s| - 1]) else k.cased(s[|s| - 1])
  }

  /** A sigma after a letter and not before one. */
  predicate IsWordFinal(k: Casing, doc: string, i: nat)
    requires i < |doc|
  {
    CasedBehind(k, doc[..i]) && !CasedAhead(k, doc[i + 1..])
  }

  /** What the character at `i` becomes; only a capital sigma looks at its neighbours. */
  function Piece(k: Casing, doc: string, i: nat): seq<byte>
    requires i < |doc|
  {
    if doc[i] == SIGMA && IsWordFinal(k, doc, i) then FINAL_SIGMA_BYTES else k.lower(doc[i])
  }

  /** The bytes each character folds to where it stands. */
  function Folds(k: Casing, doc: string): seq<seq<byte>> {
    seq(|doc|, i requires 0 <= i < |doc| => Piece(k, doc, i))
  }

  function Fold(k: Casing, doc: string): seq<byte> {
    Joined(Folds(k, doc))
  }

  /** The bytes each character folds to on its own, as the mapping loop counts them. */
  function Plains(k: Casing, doc: string): seq<seq<byte>> {
    seq(|doc|, i requires 0 <= i < |doc| => k.lower(doc[i]))
  }

  lemma EncodeOne(c: char)
    ensures Encode([c]) == EncodeChar(c)
  {
    assert Encode([]) == [];
  }

  /** The two forms of sigma take the same room, so counting without context is exact. */
  lemma {:induction false} ContextKeepsSizes(k: Casing, doc: string)
    requires Lawful(k)
    ensures SameSizes(Folds(k, doc), Plains(k, doc))
  {
  }

  lemma {:induction false} PieceIsNonempty(k: Casing, doc: string, i: nat)
    requires Lawful(k) && i < |doc|
    ensures var piece := Folds(k, doc)[i];
            piece != [] && !IsTail(piece[0])
  {
    assert SomeText(k.lower(doc[i]));
    assert CharLen(FINAL_SIGMA_BYTES) == 2;
  }

  // ----- Finding and mapping back -----

  /** The first occurrence at or after `from`. */
  function FindFrom(hay: seq<byte>, needle: seq<byte>, from: nat): (r: Option<nat>)
    requires from <= |hay|
    ensures r.Some? ==> from <= r.value && OccursAt(needle, hay, r.value)
    ensures forall at: nat :: from <= at && OccursAt(needle, hay, at) ==> r.Some? && r.value <= at
    decreases |hay| - from
  {
    if OccursAt(needle, hay, from) then Some(from)
    else if from == |hay| then None
    else FindFrom(hay, needle, from + 1)
  }

  function BytesTo(doc: string, n: nat): nat
    requires n <= |doc|
  {
    if n == 0 then 0 else BytesTo(doc, n - 1) + |EncodeChar(doc[n - 1])|
  }

  lemma PlainWidth(k: Casing, doc: string, i: nat)
    requires i < |doc|
    ensures SumTo(Plains(k, doc), i + 1) == SumTo(Plains(k, doc), i) + |k.lower(doc[i])|
  {
    assert Plains(k, doc)[i] == k.lower(doc[i]);
  }

  /** One pass over the document's characters; `start` is a byte index, `at` the same place counted in characters. */
  method MapOffset(k: Casing, doc: string, offset: nat) returns (start: nat, at: nat)
    ensures at <= |doc| && start == BytesTo(doc, at)
    ensures offset < Total(Plains(k, doc)) ==> at < |doc| && Covers(Plains(k, doc), at, offset)
    ensures offset >= Total(Plains(k, doc)) ==> start == 0 && at == 0
  {
    ghost var plains := Plains(k, doc);
    var folded, index := 0, 0;
    for i := 0 to |doc|
      invariant folded == SumTo(plains, i) && folded <= offset
      invariant index == BytesTo(doc, i)
    {
      PlainWidth(k, doc, i);
      folded := folded + |k.lower(doc[i])|;
      if offset < folded {
        SumNeverFalls(plains, i + 1, |doc|);
        return index, i;
      }
      index := index + |EncodeChar(doc[i])|;
    }
    start, at := 0, 0;
  }

  /** The byte index is one the document may be sliced at, and what follows is the text from that character on. */
  lemma {:induction false} ByteIndexCuts(doc: string, n: nat)
    requires n <= |doc|
    ensures BytesTo(doc, n) <= |Encode(doc)|
    ensures Encode(doc[..n]) == Encode(doc)[..BytesTo(doc, n)] && Encode(doc[n..]) == Encode(doc)[BytesTo(doc, n)..]
  {
    BytesAreEncoded(doc, n);
    assert doc == doc[..n] + doc[n..];
    EncodeConcat(doc[..n], doc[n..]);
  }

  lemma {:induction false} BytesAreEncoded(doc: string, n: nat)
    requires n <= |doc|
    ensures |Encode(doc[..n])| == BytesTo(doc, n)
  {
    if n > 0 {
      BytesAreEncoded(doc, n - 1);
      assert doc[..n] == doc[..n - 1] + [doc[n - 1]];
      EncodeConcat(doc[..n - 1], [doc[n - 1]]);
      EncodeOne(doc[n - 1]);
    }
  }

  lemma {:induction false} ByteIndexGrows(doc: string, m: nat, n: nat)
    requires m < n <= |doc|
    ensures BytesTo(doc, m) < BytesTo(doc, n)
  {
    if m < n - 1 {
      ByteIndexGrows(doc, m, n - 1);
    }
  }

  /** The bytes of the character at `i`, in place. */
  lemma {:induction false} CharInPlace(doc: string, i: nat, t: nat)
    requires i < |doc| && t < |EncodeChar(doc[i])|
    ensures BytesTo(doc, i) + t < |Encode(doc)| && Encode(doc)[BytesTo(doc, i) + t] == EncodeChar(doc[i])[t]
  {
    ByteIndexCuts(doc, i);
    assert doc[i..][0] == doc[i];
  }

  /** Between two characters the document may be cut, inside one it may not. */
  lemma {:induction false} CharsAreBoundaries(doc: string, i: nat, t: nat)
    requires i < |doc| && t < |EncodeChar(doc[i])|
    ensures BytesTo(doc, i) + t <= |Encode(doc)| && (IsBoundary(Encode(doc), BytesTo(doc, i) + t) <==> t == 0)
  {
    CharInPlace(doc, i, t);
  }

  /** A boundary ahead leaves room for the whole next character. */
  lemma {:induction false} CharFits(doc: string, i: nat, start: nat)
    requires i <= |doc| && BytesTo(doc, i) < start <= |Encode(doc)| && IsBoundary(Encode(doc), start)
    ensures i < |doc| && BytesTo(doc, i + 1) <= start
  {
    BytesAreEncoded(doc, |doc|);
    assert doc[..|doc|] == doc;
    if start < BytesTo(doc, i) + |EncodeChar(doc[i])| {
      CharsAreBoundaries(doc, i, start - BytesTo(doc, i));
    }
  }

  /** The text from byte `start` on, as a string slice gives it; the cut has to fall between characters. */
  method SliceFrom(doc: string, start: nat) returns (text: string, ghost at: nat)
    requires start <= |Encode(doc)| && IsBoundary(Encode(doc), start)
    ensures at <= |doc| && start == BytesTo(doc, at) && text == doc[at..] && Encode(text) == Encode(doc)[start..]
  {
    var i, index := 0, 0;
    while index < start
      invariant i <= |doc| && index == BytesTo(doc, i) <= start
    {
      CharFits(doc, i, start);
      index, i := index + |EncodeChar(doc[i])|, i + 1;
    }
    ByteIndexCuts(doc, i);
    text, at := doc[i..], i;
  }

  lemma {:induction false} FoldIsEmptyIff(k: Casing, s: string)
    requires Lawful(k)
    ensures |Fold(k, s)| == Total(Plains(k, s))
    ensures Fold(k, s) == [] <==> s == []
    ensures s != [] ==> !IsTail(Fold(k, s)[0])
  {
    ContextKeepsSizes(k, s);
    SumOfPrefix(Folds(k, s), Plains(k, s), |s|);
    if s != [] {
      PieceIsNonempty(k, s, 0);
      FlatByte(Folds(k, s), |s|, 0, 0);
    }
  }

  /** The fallback to the start of the document is never what a match uses, except for nothing in nothing. */
  lemma {:induction false} FallbackIffBothEmpty(k: Casing, doc: string, query: string, offset: nat)
    requires Lawful(k) && FindFrom(Fold(k, doc), Fold(k, query), 0) == Some(offset)
    ensures offset >= Total(Plains(k, doc)) <==> doc == [] && query == []
  {
    FoldIsEmptyIff(k, query);
    FoldIsEmptyIff(k, doc);
    if query == [] {
      assert OccursAt(Fold(k, query), Fold(k, doc), 0);
    }
  }

  /**
   * A match of a folded query is pinned to one character: its folded form
   * covers the offset, the match starts on a character boundary inside that
   * form (at its very start when it is one character long), and the folded
   * document from there on holds the query at the residual offset.
   */
  lemma {:induction false} MatchIsPinned(k: Casing, doc: string, query: string, needle: seq<byte>, offset: nat, at: nat)
    requires Lawful(k) && query != [] && needle == Fold(k, query) && OccursAt(needle, Fold(k, doc), offset)
    requires at < |doc| && Covers(Plains(k, doc), at, offset)
    ensures var residual := offset - SumTo(Plains(k, doc), at);
            && residual < |Folds(k, doc)[at]| && IsBoundary(Folds(k, doc)[at], residual)
            && (CharLen(Folds(k, doc)[at]) == |Folds(k, doc)[at]| ==> residual == 0)
            && OccursAt(needle, Joined(Folds(k, doc)[at..]), residual)
  {
    FoldIsEmptyIff(k, query);
    NeedleIsPinned(k, doc, needle, offset, at);
  }

  lemma {:induction false} NeedleIsPinned(k: Casing, doc: string, needle: seq<byte>, offset: nat, at: nat)
    requires Lawful(k) && needle != [] && !IsTail(needle[0]) && OccursAt(needle, Fold(k, doc), offset)
    requires at < |doc| && Covers(Plains(k, doc), at, offset)
    ensures var residual := offset - SumTo(Plains(k, doc), at);
            && residual < |Folds(k, doc)[at]| && IsBoundary(Folds(k, doc)[at], residual)
            && (CharLen(Folds(k, doc)[at]) == |Folds(k, doc)[at]| ==> residual == 0)
            && OccursAt(needle, Joined(Folds(k, doc)[at..]), residual)
  {
    ContextKeepsSizes(k, doc);
    OccurrenceIsPinned(needle, Folds(k, doc), Plains(k, doc), at, offset);
  }

  // ----- Folding the rest of the document again -----

  /** Cutting away what precedes `at` changes the form of the sigma at `j`. */
  predicate SigmaFlips(k: Casing, doc: string, at: nat, j: nat)
    requires at <= j < |doc|
  {
    doc[j] == SIGMA && IsWordFinal(k, doc, j) != IsWordFinal(k, doc[at..], j - at)
  }

  lemma {:induction false} PieceOfRest(k: Casing, doc: string, at: nat, j: nat, t: nat)
    requires Lawful(k) && at <= j < |doc| && t < |Piece(k, doc, j)|
    ensures t < |Piece(k, doc[at..], j - at)|
    ensures Piece(k, doc, j)[t] == Piece(k, doc[at..], j - at)[t] <==> !(SigmaFlips(k, doc, at, j) && t == 1)
  {
  }

  lemma {:induction false} RestHasSizes(k: Casing, doc: string, at: nat)
    requires Lawful(k) && at <= |doc|
    ensures SameSizes(Folds(k, doc)[at..], Folds(k, doc[at..]))
  {
    ContextKeepsSizes(k, doc);
    ContextKeepsSizes(k, doc[at..]);
    assert Plains(k, doc)[at..] == Plains(k, doc[at..]);
  }

  /** Which characters from `at` on are such sigmas. */
  function Flips(k: Casing, doc: string, at: nat): seq<bool>
    requires at <= |doc|
  {
    seq(|doc| - at, i requires 0 <= i < |doc| - at => SigmaFlips(k, doc, at, at + i))
  }

  lemma {:induction false} FlippedHasTwo(k: Casing, doc: string, at: nat, j: nat)
    requires Lawful(k) && at <= |doc| && j < |doc| - at && Flips(k, doc, at)[j]
    ensures |Folds(k, doc)[at..][j]| == 2
  {
    assert SigmaFlips(k, doc, at, at + j) && Folds(k, doc)[at..][j] == Piece(k, doc, at + j);
  }

  lemma {:induction false} SameUnlessFlipped(k: Casing, doc: string, at: nat, j: nat, t: nat)
    requires Lawful(k) && at <= |doc| && j < |doc| - at && t < |Folds(k, doc)[at..][j]|
    ensures t < |Folds(k, doc[at..])[j]|
    ensures SameByte(Folds(k, doc)[at..], Folds(k, doc[at..]), j, t) <==> !(Flips(k, doc, at)[j] && t == 1)
  {
    PieceOfRest(k, doc, at, at + j, t);
  }

  lemma {:induction false} OnlySigmasDiffer(k: Casing, doc: string, at: nat)
    requires Lawful(k) && at <= |doc|
    ensures DifferInSecond(Folds(k, doc)[at..], Folds(k, doc[at..]), Flips(k, doc, at))
  {
    RestHasSizes(k, doc, at);
    var (a, b, flags) := (Folds(k, doc)[at..], Folds(k, doc[at..]), Flips(k, doc, at));
    forall j: nat | j < |a| && flags[j] ensures |a[j]| == 2 {
      FlippedHasTwo(k, doc, at, j);
    }
    forall j: nat, t: nat | j < |a| && t < |a[j]| ensures SameByte(a, b, j, t) <==> !(flags[j] && t == 1) {
      SameUnlessFlipped(k, doc, at, j, t);
    }
  }

  /**
   * Searching the excerpted part of the document again finds the query at the
   * residual offset exactly when no capital sigma whose last byte is inside
   * the match changes its form with the text before it cut away.
   */
  lemma {:induction false} RefoldContainsIff(k: Casing, doc: string, needle: seq<byte>, offset: nat, at: nat)
    requires Lawful(k) && needle != [] && OccursAt(needle, Joined(Folds(k, doc)), offset)
    requires at < |doc| && Covers(Plains(k, doc), at, offset)
    ensures OccursAt(needle, Joined(Folds(k, doc[at..])), offset - SumTo(Plains(k, doc), at))
       <==> AvoidsFlags(Plains(k, doc), at, Flips(k, doc, at), offset, offset + |needle|)
  {
    var (folds, plains, later, flips) := (Folds(k, doc), Plains(k, doc), Folds(k, doc[at..]), Flips(k, doc, at));
    ContextKeepsSizes(k, doc);
    OnlySigmasDiffer(k, doc, at);
    ReplacedContainsIff(needle, folds, plains, at, offset, later, flips);
  }

  /** A visible character between the cut and the sigma settles its form: only sigmas right behind the cut can flip. */
  lemma {:induction false} FlipNeedsOnlyIgnorables(k: Casing, doc: string, at: nat, j: nat)
    requires at <= j < |doc| && SigmaFlips(k, doc, at, j)
    ensures forall i :: at <= i < j ==> k.ignorable(doc[i])
  {
    assert doc[at..][j - at + 1..] == doc[j + 1..];
    assert doc[at..][..j - at] == doc[at..j];
    BehindIsLocal(k, doc, at, j);
  }

  lemma {:induction false} BehindIsLocal(k: Casing, doc: string, at: nat, j: nat)
    requires at <= j <= |doc|
    ensures CasedBehind(k, doc[..j]) == CasedBehind(k, doc[at..j]) || forall i :: at <= i < j ==> k.ignorable(doc[i])
    decreases j - at
  {
    if at < j {
      assert doc[..j][..j - 1] == doc[..j - 1] && doc[at..j][..j - 1 - at] == doc[at..j - 1];
      if k.ignorable(doc[j - 1]) {
        BehindIsLocal(k, doc, at, j - 1);
      }
    }
  }

  /** Enough of Unicode for one Greek word: a letter before the sigma, nothing ignorable. */
  function SmallCasing(): Casing {
    Casing(c => if c == SIGMA then SMALL_SIGMA_BYTES else if c == 'A' then Encode(['a']) else Encode([c]), c => c == 'A' || c == SIGMA, c => false)
  }

  lemma {:induction false} SmallIsLawful()
    ensures Lawful(SmallCasing())
    ensures SmallCasing().lower('A') == [97] && SmallCasing().lower(FINAL_SIGMA) == FINAL_SIGMA_BYTES
  {
    EncodeOne('a');
    EncodeOne(FINAL_SIGMA);
    assert CharLen(SMALL_SIGMA_BYTES) == 2;
    forall c: char ensures SomeText(SmallCasing().lower(c)) {
      EncodedIsValid(['a']);
      EncodedIsValid([c]);
      EncodeOne(c);
    }
  }

  lemma {:induction false} WordFolds(doc: string)
    requires doc == ['A', SIGMA]
    ensures Fold(SmallCasing(), doc) == [97, 0xCF, 0x82] && Covers(Plains(SmallCasing(), doc), 1, 1)
  {
    var k := SmallCasing();
    SmallIsLawful();
    assert CasedBehind(k, doc[..1]) && doc[2..] == [];
    assert Folds(k, doc) == [[97], [0xCF, 0x82]];
    FlatOfTwo([97], [0xCF, 0x82]);
    assert Plains(k, doc) == [[97], [0xCF, 0x83]];
    FlatOfTwo([97], [0xCF, 0x83]);
  }

  lemma {:induction false} SigmaFolds()
    ensures Fold(SmallCasing(), [SIGMA]) == [0xCF, 0x83] && Fold(SmallCasing(), [FINAL_SIGMA]) == [0xCF, 0x82]
  {
    var k := SmallCasing();
    SmallIsLawful();
    assert [SIGMA][..0] == [];
    assert Folds(k, [SIGMA]) == [[0xCF, 0x83]] && Folds(k, [FINAL_SIGMA]) == [[0xCF, 0x82]];
    FlatOfOne([0xCF, 0x83]);
    FlatOfOne([0xCF, 0x82]);
  }

  /** Searching for a final sigma finds it in a word, but not in the excerpt that starts at it. */
  lemma {:induction false} RefoldCanMiss(doc: string, query: string)
    requires doc == ['A', SIGMA] && query == [FINAL_SIGMA]
    ensures var k := SmallCasing();
            && Lawful(k) && FindFrom(Fold(k, doc), Fold(k, query), 0) == Some(1) && Covers(Plains(k, doc), 1, 1)
            && FindFrom(Fold(k, doc[1..]), Fold(k, query), 0) == None
  {
    SmallIsLawful();
    WordFolds(doc);
    SigmaFolds();
    assert doc[1..] == [SIGMA];
    FindsOnlyLast();
  }

  lemma FlatOfOne(a: seq<byte>)
    ensures Joined([a]) == a
  {
    assert Flat([a], 0) == [];
    assert Flat([a], 1) == Flat([a], 0) + a;
  }

  lemma FlatOfTwo(a: seq<byte>, b: seq<byte>)
    ensures Joined([a, b]) == a + b && SumTo([a, b], 1) == |a| && SumTo([a, b], 2) == |a| + |b|
  {
    var ps := [a, b];
    assert Flat(ps, 0) == [];
    assert Flat(ps, 1) == Flat(ps, 0) + a;
    assert Flat(ps, 2) == Flat(ps, 1) + b;
    assert SumTo(ps, 0) == 0;
  }

  lemma FindsOnlyLast()
    ensures FindFrom([97, 0xCF, 0x82], [0xCF, 0x82], 0) == Some(1) && FindFrom([0xCF, 0x83], [0xCF, 0x82], 0) == None
  {
    assert [97, 0xCF, 0x82][1..3] == [0xCF, 0x82];
    assert OccursAt([0xCF, 0x82], [97, 0xCF, 0x82], 1);
    assert [97, 0xCF, 0x82][0..2][0] == 97;
    assert [0xCF, 0x83][0..2][1] == 0x83;
    assert !OccursAt([0xCF, 0x82], [0xCF, 0x83], 0);
  }

  // ----- The excerpt -----

  function Clean(c: char): char {
    if IsControl(c) then ' ' else c
  }

  function Cleaned(s: string): string {
    seq(|s|, i requires 0 <= i < |s| => Clean(s[i]))
  }

  lemma {:induction false} CleanedGrows(text: string, n: nat)
    requires n < |text|
    ensures Cleaned(text[..n + 1]) == Cleaned(text[..n]) + [Clean(text[n])]
    ensures |Encode(Cleaned(text[..n + 1]))| == |Encode(Cleaned(text[..n]))| + |EncodeChar(Clean(text[n]))|
  {
    assert Cleaned(text[..n + 1]) == Cleaned(text[..n]) + [Clean(text[n])];
    EncodeConcat(Cleaned(text[..n]), [Clean(text[n])]);
    EncodeOne(Clean(text[n]));
  }

  lemma {:induction false} LongerIsLonger(text: string, m: nat, n: nat)
    requires m <= n <= |text|
    ensures |Encode(Cleaned(text[..m]))| <= |Encode(Cleaned(text[..n]))|
  {
    if m < n {
      LongerIsLonger(text, m, n - 1);
      CleanedGrows(text, n - 1);
    }
  }

  /** As much of the text as fits, with control characters blanked and nothing else changed. */
  ghost predicate IsExcerpt(text: string, r: string) {
    && |r| <= |text| && r == Cleaned(text[..|r|]) && |Encode(r)| <= MAX_EXCERPT_BYTES
    && forall n: nat :: |r| < n <= |text| ==> |Encode(Cleaned(text[..n]))| > MAX_EXCERPT_BYTES
  }

  lemma ExcerptIsUnique(text: string, r: string, q: string)
    requires IsExcerpt(text, r) && IsExcerpt(text, q)
    ensures r == q
  {
    assert |r| == |q|;
  }

  method BoundedExcerpt(text: string) returns (r: string)
    ensures IsExcerpt(text, r)
  {
    r := [];
    var size := 0;
    for i := 0 to |text|
      invariant |r| == i && r == Cleaned(text[..i])
      invariant size == |Encode(r)| <= MAX_EXCERPT_BYTES
    {
      CleanedGrows(text, i);
      var c := Clean(text[i]);
      if size + |EncodeChar(c)| > MAX_EXCERPT_BYTES {
        forall n: nat | i < n <= |text| ensures |Encode(Cleaned(text[..n]))| > MAX_EXCERPT_BYTES {
          LongerIsLonger(text, i + 1, n);
        }
        return;
      }
      r := r + [c];
      size := size + |EncodeChar(c)|;
    }
  }

  /** A control code: below U+0020, or from U+007F to U+009F. */
  predicate IsControlCode(code: int) {
    code < 0x20 || 0x7F <= code <= 0x9F
  }

  /** Character by character: a control code becomes a blank, everything else stays. */
  predicate IsBlanked(c: char, r: char) {
    if IsControlCode(c as int) then r == ' ' else r == c
  }

  /** Nothing more fits: the next character, blanked if it is a control code, would pass 512 bytes. */
  predicate StopsBefore(r: string, c: char) {
    |Encode(r)| + |EncodeChar(if IsControlCode(c as int) then ' ' else c)| > 512
  }

  /** The excerpt in terms of its characters and the one it stops at. */
  lemma {:induction false} ExcerptIff(text: string, r: string)
    ensures IsExcerpt(text, r)
       <==> && |r| <= |text| && (forall i :: 0 <= i < |r| ==> IsBlanked(text[i], r[i])) && |Encode(r)| <= 512
            && (|r| < |text| ==> StopsBefore(r, text[|r|]))
  {
    if |r| <= |text| {
      var cleaned := Cleaned(text[..|r|]);
      assert r == cleaned <==> forall i :: 0 <= i < |r| ==> r[i] == cleaned[i];
      if r == cleaned && |r| < |text| {
        CleanedGrows(text, |r|);
        var n := |r| + 1;
        assert |Encode(Cleaned(text[..n]))| > 512 <==> StopsBefore(r, text[|r|]);
        forall m: nat | n <= m <= |text| ensures |Encode(Cleaned(text[..n]))| <= |Encode(Cleaned(text[..m]))| {
          LongerIsLonger(text, n, m);
        }
      }
    }
  }

  // ----- The word-final sigma, by position -----

  /** A letter before `i` with nothing but ignorable characters in between. */
  ghost predicate LetterBefore(k: Casing, doc: string, i: nat, a: nat)
    requires i <= |doc|
  {
    a < i && k.cased(doc[a]) && !k.ignorable(doc[a]) && forall b :: a < b < i ==> k.ignorable(doc[b])
  }

  /** A letter after `i` with nothing but ignorable characters in between. */
  ghost predicate LetterAfter(k: Casing, doc: string, i: nat, a: nat) {
    i < a < |doc| && k.cased(doc[a]) && !k.ignorable(doc[a]) && forall b :: i < b < a ==> k.ignorable(doc[b])
  }

  lemma {:induction false} BehindIff(k: Casing, doc: string, i: nat)
    requires i <= |doc|
    ensures CasedBehind(k, doc[..i]) <==> exists a: nat :: LetterBefore(k, doc, i, a)
  {
    if i > 0 {
      var j := i - 1;
      assert doc[..i][..j] == doc[..j];
      BehindIff(k, doc, j);
      if k.ignorable(doc[j]) {
        assert forall a: nat :: LetterBefore(k, doc, j, a) <==> LetterBefore(k, doc, i, a);
      } else {
        assert k.cased(doc[j]) <==> LetterBefore(k, doc, i, j);
        assert forall a: nat :: LetterBefore(k, doc, i, a) ==> a == j;
      }
    }
  }

  lemma {:induction false} AheadIff(k: Casing, doc: string, i: nat)
    requires i < |doc|
    ensures CasedAhead(k, doc[i + 1..]) <==> exists a: nat :: LetterAfter(k, doc, i, a)
    decreases |doc| - i
  {
    var j := i + 1;
    if j < |doc| {
      assert doc[j..][1..] == doc[j + 1..];
      AheadIff(k, doc, j);
      if k.ignorable(doc[j]) {
        assert forall a: nat :: LetterAfter(k, doc, j, a) <==> LetterAfter(k, doc, i, a);
      } else {
        assert k.cased(doc[j]) <==> LetterAfter(k, doc, i, j);
        assert forall a: nat :: LetterAfter(k, doc, i, a) ==> a == j;
      }
    }
  }

  /** Where a character stands matters to the capital sigma alone, which is final exactly when a letter comes before it and none after it, ignorable characters aside. */
  lemma {:induction false} FoldedAt(k: Casing, doc: string, i: nat)
    requires Lawful(k) && i < |doc|
    ensures doc[i] != '\U{03A3}' ==> Folds(k, doc)[i] == k.lower(doc[i])
    ensures doc[i] == '\U{03A3}' ==> Folds(k, doc)[i] == [0xCF, 0x82] || Folds(k, doc)[i] == [0xCF, 0x83]
    ensures doc[i] == '\U{03A3}' ==>
              (Folds(k, doc)[i] == [0xCF, 0x82] <==> (exists a: nat :: LetterBefore(k, doc, i, a)) && !(exists a: nat :: LetterAfter(k, doc, i, a)))
  {
    BehindIff(k, doc, i);
    AheadIff(k, doc, i);
    assert SMALL_SIGMA_BYTES[1] == 0x83;
  }
}
