/** The task checklist: parsing items out of a plan file and marking one of them done. */
module Checklist {
  import opened Basics
  import opened Text

  datatype PlanItem = PlanItem(line: nat, done: bool, text: string)

  /** Begins with a checkbox marked `mark`, then a blank: `- [mark] `. */
  predicate Box(s: string, mark: char) {
    |s| >= 6 && s[0] == '-' && s[1] == ' ' && s[2] == '[' && s[3] == mark && s[4] == ']' && s[5] == ' '
  }

  const DONE := "- [x] "

  // ----- Line loops -----

  /** What `f` finds on each line, in order; lines are numbered from `n`. */
  function Collect<T>(f: (nat, string) -> Option<T>, n: nat, lines: seq<string>): seq<T>
    decreases |lines|
  {
    if lines == [] then []
    else (if f(n, lines[0]).Some? then [f(n, lines[0]).value] else []) + Collect(f, n + 1, lines[1..])
  }

  method CollectLines<T>(f: (nat, string) -> Option<T>, lines: seq<string>) returns (r: seq<T>)
    ensures r == Collect(f, 1, lines)
  {
    r := [];
    for i := 0 to |lines|
      invariant Collect(f, 1, lines) == r + Collect(f, i + 1, lines[i..])
    {
      assert lines[i..][1..] == lines[i + 1..];
      var item := f(i + 1, lines[i]);
      if item.Some? {
        r := r + [item.value];
      }
    }
  }

  /** Index of the first line whose `key` is `want`, or the number of lines. */
  function FirstWith(key: string -> Option<string>, want: string, lines: seq<string>): (k: nat)
    ensures k <= |lines|
    ensures forall i :: 0 <= i < k ==> key(lines[i]) != Some(want)
    ensures k < |lines| ==> key(lines[k]) == Some(want)
  {
    if lines == [] || key(lines[0]) == Some(want) then 0 else 1 + FirstWith(key, want, lines[1..])
  }

  /** The lines with the first one of that key changed. */
  function ChangeFirst(key: string -> Option<string>, want: string, change: string -> string, lines: seq<string>): (r: seq<string>)
    ensures |r| == |lines|
  {
    var k := FirstWith(key, want, lines);
    if k < |lines| then lines[k := change(lines[k])] else lines
  }

  lemma {:induction false} UnlinesSnoc(lines: seq<string>, line: string)
    ensures Unlines(lines + [line]) == Unlines(lines) + line + ['\n']
  {
    if lines == [] {
      assert lines + [line] == [line] && [line][1..] == [];
    } else {
      var (first, rest) := (lines[0] + ['\n'], Unlines(lines[1..]));
      assert (lines + [line])[1..] == lines[1..] + [line] && (lines + [line])[0] == lines[0];
      UnlinesSnoc(lines[1..], line);
      assert first + (rest + line + ['\n']) == first + rest + line + ['\n'];
    }
  }

  method RewriteFirst(key: string -> Option<string>, want: string, change: string -> string, lines: seq<string>)
    returns (updated: bool, out: string)
    ensures updated == (FirstWith(key, want, lines) < |lines|)
    ensures out == Unlines(ChangeFirst(key, want, change, lines))
  {
    ghost var (at, goal) := (FirstWith(key, want, lines), ChangeFirst(key, want, change, lines));
    updated, out := false, "";
    for i := 0 to |lines|
      invariant updated == (at < i) && out == Unlines(goal[..i])
    {
      assert goal[..i + 1] == goal[..i] + [goal[i]];
      UnlinesSnoc(goal[..i], goal[i]);
      if !updated && key(lines[i]) == Some(want) {
        out := out + change(lines[i]) + ['\n'];
        updated := true;
      } else {
        out := out + lines[i] + ['\n'];
      }
    }
    assert goal[..|lines|] == goal;
  }

  // ----- Parsing -----

  /** The item a line denotes, if any; `n` is its one-based number. */
  function ItemOf(n: nat, line: string): Option<PlanItem> {
    var trimmed := Trim(line);
    if Box(trimmed, ' ') then Some(PlanItem(n, false, Trim(trimmed[6..])))
    else if Box(trimmed, 'x') || Box(trimmed, 'X') then Some(PlanItem(n, true, Trim(trimmed[6..])))
    else None
  }

  function Items(text: string): seq<PlanItem> {
    Collect(ItemOf, 1, Lines(text))
  }

  method ParsePlanItems(text: string) returns (items: seq<PlanItem>)
    ensures items == Items(text)
  {
    items := CollectLines(ItemOf, Lines(text));
  }

  // ----- Marking -----

  /** The text a pending line would be matched by; trailing blanks may leave it empty. */
  function MarkKey(line: string): Option<string> {
    var body := TrimStart(line);
    if Box(body, ' ') then Some(Trim(body[6..])) else None
  }

  function MarkedLine(line: string): string {
    var body := TrimStart(line);
    if Box(body, ' ') then line[..|line| - |body|] + DONE + body[6..] else line
  }

  /** The rewritten plan, or nothing when no line matches. */
  function Mark(text: string, task: string): Option<string> {
    var (lines, want) := (Lines(text), Trim(task));
    if FirstWith(MarkKey, want, lines) < |lines| then Some(Unlines(ChangeFirst(MarkKey, want, MarkedLine, lines)))
    else None
  }

  method MarkTaskCompleted(text: string, task: string) returns (out: Option<string>)
    ensures out == Mark(text, task)
  {
    var updated, written := RewriteFirst(MarkKey, Trim(task), MarkedLine, Lines(text));
    out := if updated then Some(written) else None;
  }
}
