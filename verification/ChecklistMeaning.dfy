/** Items and marks said of the lines themselves: which lines are items, how they are numbered, and what marking changes. */
module ChecklistMeaning {
  import opened Basics
  import opened Text
  import opened Checklist
  import opened ChecklistLaws

  function BoxOf(mark: char): string {
    ['-', ' ', '[', mark, ']', ' ']
  }

  /** Indentation, a box with this mark, blanks, the text, blanks; the text begins and ends with something visible. */
  ghost predicate Spells(line: string, mark: char, text: string) {
    exists indent, gap, pad ::
      AllSpace(indent) && AllSpace(gap) && AllSpace(pad) && Tight(text) && line == indent + (BoxOf(mark) + gap + text) + pad
  }

  /** The line is a task with this text: open with a blank in its box, done with an x of either case. */
  ghost predicate Says(line: string, done: bool, text: string) {
    if done then Spells(line, 'x', text) || Spells(line, 'X', text) else Spells(line, ' ', text)
  }

  // ----- One line -----

  lemma {:induction false} TightCore(mark: char, gap: string, text: string)
    requires AllSpace(gap) && Tight(text)
    ensures var core := BoxOf(mark) + gap + text;
            Tight(core) && Box(core, mark) && Trim(core[6..]) == text
  {
    var core := BoxOf(mark) + gap + text;
    DashIsVisible();
    assert core[|core| - 1] == text[|text| - 1] && core[0] == '-';
    assert core[6..] == gap + text + [];
    TrimPadded(gap, text, []);
  }

  lemma DashIsVisible()
    ensures !IsSpace('-') && IsSpace(' ')
  {
  }

  /** A tight text with a box in front is a box, blanks and a tight text. */
  lemma {:induction false} CoreParts(core: string, mark: char) returns (gap: string, text: string)
    requires Tight(core) && Box(core, mark)
    ensures AllSpace(gap) && Tight(text) && core == BoxOf(mark) + gap + text && text == Trim(core[6..])
  {
    var rest := core[6..];
    DashIsVisible();
    assert core[5] == ' ' && |core| > 6;
    assert rest[|rest| - 1] == core[|core| - 1];
    LastSurvives(rest);
    var indent, body, pad := Decompose(rest);
    LastIsVisible(indent + body, pad);
    assert rest == indent + body + pad && rest == indent + body;
    TrimOfParts(indent, body, pad);
    gap, text := indent, body;
    assert core == BoxOf(mark) + rest;
  }

  lemma {:induction false} LastIsVisible(s: string, pad: string)
    requires AllSpace(pad) && s + pad != [] && !IsSpace((s + pad)[|s + pad| - 1])
    ensures pad == []
  {
    if pad != [] {
      LastOfPad(s, pad);
    }
  }

  lemma LastOfPad(s: string, pad: string)
    requires AllSpace(pad) && pad != []
    ensures IsSpace((s + pad)[|s + pad| - 1])
  {
  }

  lemma {:induction false} SpellsIff(line: string, mark: char, text: string)
    ensures Spells(line, mark, text) <==> Box(Trim(line), mark) && text == Trim(Trim(line)[6..])
  {
    if Spells(line, mark, text) {
      var indent, gap, pad :|
        AllSpace(indent) && AllSpace(gap) && AllSpace(pad) && Tight(text) && line == indent + (BoxOf(mark) + gap + text) + pad;
      TightCore(mark, gap, text);
      TrimPadded(indent, BoxOf(mark) + gap + text, pad);
    }
    if Box(Trim(line), mark) && text == Trim(Trim(line)[6..]) {
      NotBlank(line);
      var indent, core, pad := Decompose(line);
      TrimOfParts(indent, core, pad);
      var gap, body := CoreParts(core, mark);
      assert line == indent + (BoxOf(mark) + gap + body) + pad;
    }
  }

  lemma NotBlank(line: string)
    requires Trim(line) != []
    ensures TrimStart(line) != []
  {
    if TrimStart(line) == [] {
      TrimOfBlank(line);
    }
  }

  /** The item of a line, exactly. */
  lemma {:induction false} ItemIff(n: nat, line: string, item: PlanItem)
    ensures ItemOf(n, line) == Some(item) <==> item.line == n && Says(line, item.done, item.text)
  {
    SpellsIff(line, ' ', item.text);
    SpellsIff(line, 'x', item.text);
    SpellsIff(line, 'X', item.text);
  }

  // ----- All lines -----

  ghost predicate FoundAt<T(!new)>(f: (nat, string) -> Option<T>, n: nat, lines: seq<string>, x: T, i: nat) {
    i < |lines| && f(n + i, lines[i]) == Some(x)
  }

  lemma {:induction false} CollectIff<T(!new)>(f: (nat, string) -> Option<T>, n: nat, lines: seq<string>, x: T)
    ensures x in Collect(f, n, lines) <==> exists i: nat :: FoundAt(f, n, lines, x, i)
    decreases |lines|
  {
    if lines != [] {
      var (rest, m) := (lines[1..], n + 1);
      CollectIff(f, m, rest, x);
      assert FoundAt(f, n, lines, x, 0) <==> f(n, lines[0]) == Some(x);
      if j: nat :| FoundAt(f, m, rest, x, j) {
        assert m + j == n + (j + 1);
        assert FoundAt(f, n, lines, x, j + 1);
      }
      if i: nat :| FoundAt(f, n, lines, x, i) {
        if i > 0 {
          assert m + (i - 1) == n + i;
          assert FoundAt(f, m, rest, x, i - 1);
        }
      }
    }
  }

  /** An item is listed exactly when the line of its number, counted from one, says so. */
  lemma {:induction false} ItemsAreLines(text: string, item: PlanItem)
    ensures item in Items(text) <==> 1 <= item.line <= |Lines(text)| && Says(Lines(text)[item.line - 1], item.done, item.text)
  {
    var lines := Lines(text);
    CollectIff(ItemOf, 1, lines, item);
    if i: nat :| FoundAt(ItemOf, 1, lines, item, i) {
      ItemIff(1 + i, lines[i], item);
    }
    if 1 <= item.line <= |lines| && Says(lines[item.line - 1], item.done, item.text) {
      var i: nat := item.line - 1;
      ItemIff(1 + i, lines[i], item);
      assert FoundAt(ItemOf, 1, lines, item, i);
    }
  }

  ghost predicate Ascending(items: seq<PlanItem>, from: nat) {
    (forall i :: 0 <= i < |items| ==> items[i].line >= from) && forall i, j :: 0 <= i < j < |items| ==> items[i].line < items[j].line
  }

  lemma AscendingCons(item: PlanItem, items: seq<PlanItem>)
    requires Ascending(items, item.line + 1)
    ensures Ascending([item] + items, item.line)
  {
  }

  lemma {:induction false} CollectedInOrder(n: nat, lines: seq<string>)
    ensures Ascending(Collect(ItemOf, n, lines), n)
    decreases |lines|
  {
    if lines != [] {
      var rest := Collect(ItemOf, n + 1, lines[1..]);
      CollectedInOrder(n + 1, lines[1..]);
      if ItemOf(n, lines[0]).Some? {
        AscendingCons(ItemOf(n, lines[0]).value, rest);
      } else {
        assert Collect(ItemOf, n, lines) == rest;
      }
    }
  }

  /** The list is in file order, one item a line. */
  lemma {:induction false} ItemsInFileOrder(text: string)
    ensures Ascending(Items(text), 1)
  {
    CollectedInOrder(1, Lines(text));
  }

  // ----- Marking -----

  /** The line is an open box, after indentation, whose text is the task's up to surrounding blanks. */
  ghost predicate Opens(line: string, task: string, indent: string, rest: string) {
    AllSpace(indent) && line == indent + (BoxOf(' ') + rest) && Trim(rest) == Trim(task)
  }

  lemma {:induction false} OpensIff(line: string, task: string)
    ensures MarkKey(line) == Some(Trim(task)) <==> exists indent, rest :: Opens(line, task, indent, rest)
  {
    if MarkKey(line) == Some(Trim(task)) {
      var (l, body) := (Leading(line), TrimStart(line));
      assert line == line[..l] + (BoxOf(' ') + body[6..]);
      assert AllSpace(line[..l]) && Opens(line, task, line[..l], body[6..]);
    }
    if indent, rest :| Opens(line, task, indent, rest) {
      OpenBody(indent, rest);
    }
  }

  lemma {:induction false} OpenBody(indent: string, rest: string)
    requires AllSpace(indent)
    ensures var (line, body) := (indent + (BoxOf(' ') + rest), BoxOf(' ') + rest);
            && TrimStart(line) == body && Box(body, ' ') && body[6..] == rest
            && MarkedLine(line) == indent + (BoxOf('x') + rest)
  {
    var (line, body) := (indent + (BoxOf(' ') + rest), BoxOf(' ') + rest);
    DashIsVisible();
    assert body[0] == '-';
    TrimStartPadding(indent, body);
    LeadingIs(body, 0);
    assert body[6..] == rest;
    MarkedBody(line, indent, body);
    assert DONE == BoxOf('x');
  }

  /** `after` is `text` rewritten line by line with the box of one line ticked, the first that is open for the task. */
  ghost predicate Ticks(lines: seq<string>, task: string, k: nat, indent: string, rest: string, after: string) {
    && k < |lines| && Opens(lines[k], task, indent, rest)
    && (forall j: nat :: j < k ==> !IsOpenFor(lines[j], task))
    && after == Unlines(lines[k := indent + (BoxOf('x') + rest)])
  }

  ghost predicate IsOpenFor(line: string, task: string) {
    exists indent, rest :: Opens(line, task, indent, rest)
  }

  /** What marking does: it ticks the first open line and rewrites nothing else. */
  lemma {:induction false} MarkTicks(text: string, task: string) returns (k: nat, indent: string, rest: string)
    requires Mark(text, task).Some?
    ensures Ticks(Lines(text), task, k, indent, rest, Mark(text, task).value)
  {
    var lines := Lines(text);
    k := FirstWith(MarkKey, Trim(task), lines);
    OpensIff(lines[k], task);
    indent, rest :| Opens(lines[k], task, indent, rest);
    OpenBody(indent, rest);
    forall j: nat | j < k ensures !IsOpenFor(lines[j], task) {
      OpensIff(lines[j], task);
    }
  }

  ghost predicate SomeOpen(lines: seq<string>, task: string) {
    exists k: nat :: k < |lines| && IsOpenFor(lines[k], task)
  }

  lemma {:induction false} FoundIff(lines: seq<string>, task: string)
    ensures FirstWith(MarkKey, Trim(task), lines) < |lines| <==> SomeOpen(lines, task)
  {
    var k := FirstWith(MarkKey, Trim(task), lines);
    if k < |lines| {
      OpensIff(lines[k], task);
    } else {
      forall j: nat | j < |lines| ensures !IsOpenFor(lines[j], task) {
        OpensIff(lines[j], task);
      }
    }
  }

  /** Marking succeeds exactly when some line is an open box for the task. */
  lemma {:induction false} MarkSucceedsIff(text: string, task: string)
    ensures Mark(text, task).Some? <==> SomeOpen(Lines(text), task)
  {
    FoundIff(Lines(text), task);
  }
}
