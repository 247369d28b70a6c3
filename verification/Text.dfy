/** Character classes, trimming and line splitting as the standard string type defines them. */
module Text {

  /** The Unicode White_Space property. */
  predicate IsSpace(c: char) {
    || '\t' <= c <= '\r' || c == ' ' || c == '\U{85}' || c == '\U{A0}' || c == '\U{1680}'
    || '\U{2000}' <= c <= '\U{200A}' || c == '\U{2028}' || c == '\U{2029}' || c == '\U{202F}'
    || c == '\U{205F}' || c == '\U{3000}'
  }

  /** The Unicode control category. */
  predicate IsControl(c: char) {
    c < ' ' || '\U{7F}' <= c <= '\U{9F}'
  }

  predicate AllSpace(s: string) {
    forall i :: 0 <= i < |s| ==> IsSpace(s[i])
  }

  /** Nothing to trim at either end. */
  predicate Tight(s: string) {
    s != [] && !IsSpace(s[0]) && !IsSpace(s[|s| - 1])
  }

  /** How many whitespace characters lead. */
  function Leading(s: string): (k: nat)
    ensures k <= |s| && (forall i :: 0 <= i < k ==> IsSpace(s[i])) && (k < |s| ==> !IsSpace(s[k]))
  {
    if s != [] && IsSpace(s[0]) then 1 + Leading(s[1..]) else 0
  }

  /** Where trailing whitespace begins. */
  function Trailing(s: string): (k: nat)
    ensures k <= |s| && (forall i :: k <= i < |s| ==> IsSpace(s[i])) && (k > 0 ==> !IsSpace(s[k - 1]))
  {
    if s != [] && IsSpace(s[|s| - 1]) then Trailing(s[..|s| - 1]) else |s|
  }

  function TrimStart(s: string): string {
    s[Leading(s)..]
  }

  function TrimEnd(s: string): string {
    s[..Trailing(s)]
  }

  function Trim(s: string): string {
    TrimStart(TrimEnd(s))
  }

  lemma {:induction false} LeadingIs(s: string, k: nat)
    requires k <= |s| && (forall i :: 0 <= i < k ==> IsSpace(s[i])) && (k < |s| ==> !IsSpace(s[k]))
    ensures Leading(s) == k
  {
    if k > 0 {
      LeadingIs(s[1..], k - 1);
    }
  }

  lemma {:induction false} TrailingIs(s: string, k: nat)
    requires k <= |s| && (forall i :: k <= i < |s| ==> IsSpace(s[i])) && (k > 0 ==> !IsSpace(s[k - 1]))
    ensures Trailing(s) == k
  {
    if k < |s| {
      TrailingIs(s[..|s| - 1], k);
    }
  }

  /** Trimming leaves nothing exactly when everything is whitespace. */
  lemma {:induction false} TrimEmptyIff(s: string)
    ensures Trim(s) == [] <==> forall i :: 0 <= i < |s| ==> IsSpace(s[i])
  {
    var t := TrimEnd(s);
    if t != [] {
      assert t[|t| - 1] == s[Trailing(s) - 1];
      assert Leading(t) < |t|;
    }
  }

  lemma TrimStartPadding(pad: string, s: string)
    requires AllSpace(pad)
    ensures TrimStart(pad + s) == TrimStart(s)
  {
    LeadingIs(pad + s, |pad| + Leading(s));
  }

  lemma TrimEndPadding(s: string, pad: string)
    requires AllSpace(pad)
    ensures TrimEnd(s + pad) == TrimEnd(s)
  {
    TrailingIs(s + pad, Trailing(s));
  }

  lemma TrimTight(s: string)
    requires Tight(s)
    ensures Trim(s) == s
  {
    assert Trailing(s) == |s| && Leading(s) == 0;
  }

  /** Whitespace around text that neither begins nor ends with any. */
  lemma TrimPadded(before: string, s: string, after: string)
    requires AllSpace(before) && AllSpace(after) && Tight(s)
    ensures Trim(before + s + after) == s
  {
    TrimEndPadding(before + s, after);
    assert Trailing(before + s) == |before + s|;
    TrimStartPadding(before, s);
    assert Leading(s) == 0;
  }

  // ----- Lines -----

  /** Index of the first newline, or the length. */
  function BreakAt(s: string): (k: nat)
    ensures k <= |s| && '\n' !in s[..k] && (k < |s| ==> s[k] == '\n')
  {
    if s == [] || s[0] == '\n' then 0
    else
      var k := BreakAt(s[1..]);
      assert s[..k + 1] == [s[0]] + s[1..][..k];
      k + 1
  }

  /** A carriage return right before the newline belongs to the line ending. */
  function StripReturn(s: string): string {
    if s != [] && s[|s| - 1] == '\r' then s[..|s| - 1] else s
  }

  /** Lines without their endings; a final newline opens no further line. */
  function Lines(s: string): (r: seq<string>)
    decreases |s|
  {
    if s == [] then []
    else
      var k := BreakAt(s);
      if k == |s| then [s] else [StripReturn(s[..k])] + Lines(s[k + 1..])
  }

  /** Every line terminated by a newline. */
  function Unlines(lines: seq<string>): string {
    if lines == [] then [] else lines[0] + ['\n'] + Unlines(lines[1..])
  }

  function StripReturns(lines: seq<string>): seq<string> {
    seq(|lines|, i requires 0 <= i < |lines| => StripReturn(lines[i]))
  }

  lemma {:induction false} BreakAfter(line: string, rest: string)
    requires '\n' !in line
    ensures BreakAt(line + ['\n'] + rest) == |line|
  {
    var s := line + ['\n'] + rest;
    if line != [] {
      assert s[1..] == line[1..] + ['\n'] + rest;
      BreakAfter(line[1..], rest);
    }
  }

  /** Splitting written-out lines gives them back, less a trailing carriage return each. */
  lemma {:induction false} LinesOfUnlines(lines: seq<string>)
    requires forall i :: 0 <= i < |lines| ==> '\n' !in lines[i]
    ensures Lines(Unlines(lines)) == StripReturns(lines)
  {
    if lines != [] {
      var (line, rest) := (lines[0], Unlines(lines[1..]));
      BreakAfter(line, rest);
      var s := Unlines(lines);
      assert s == line + ['\n'] + rest;
      assert s[..|line|] == line && s[|line| + 1..] == rest;
      LinesOfUnlines(lines[1..]);
    }
  }

  lemma {:induction false} LinesHaveNoBreaks(s: string)
    ensures forall i :: 0 <= i < |Lines(s)| ==> '\n' !in Lines(s)[i]
    decreases |s|
  {
    if s != [] && BreakAt(s) < |s| {
      LinesHaveNoBreaks(s[BreakAt(s) + 1..]);
    }
  }

  lemma {:induction false} BreakNever(s: string)
    requires '\n' !in s
    ensures BreakAt(s) == |s|
  {
  }

  lemma {:induction false} LinesStep(line: string, rest: string)
    requires '\n' !in line
    ensures Lines(line + ['\n'] + rest) == [StripReturn(line)] + Lines(rest)
  {
    BreakAfter(line, rest);
    var s := line + ['\n'] + rest;
    assert s[..|line|] == line && s[|line| + 1..] == rest;
  }

  lemma StripReturnsCons(lines: seq<string>)
    requires lines != []
    ensures StripReturns(lines) == [StripReturn(lines[0])] + StripReturns(lines[1..])
  {
  }

  lemma {:induction false} UnlinesThen(lines: seq<string>, last: string)
    requires lines != []
    ensures Unlines(lines) + last == lines[0] + ['\n'] + (Unlines(lines[1..]) + last)
  {
    var (first, rest) := (lines[0] + ['\n'], Unlines(lines[1..]));
    assert first + rest + last == first + (rest + last);
  }

  /** A last line without a newline is a line too, and keeps a carriage return. */
  lemma {:induction false} LinesWithOpenEnd(lines: seq<string>, last: string)
    requires (forall i :: 0 <= i < |lines| ==> '\n' !in lines[i]) && '\n' !in last && last != []
    ensures Lines(Unlines(lines) + last) == StripReturns(lines) + [last]
  {
    if lines == [] {
      BreakNever(last);
      assert [] + last == last;
    } else {
      UnlinesThen(lines, last);
      LinesStep(lines[0], Unlines(lines[1..]) + last);
      LinesWithOpenEnd(lines[1..], last);
      StripReturnsCons(lines);
    }
  }
}
