/** Selecting and marking the first pending task completes the plan in file order. */
module ChecklistLaws {
  import opened Basics
  import opened Text
  import opened Checklist

  // ----- One line -----

  lemma {:induction false} Ends(line: string)
    requires TrimStart(line) != []
    ensures Leading(line) < Trailing(line) && AllSpace(line[..Leading(line)]) && AllSpace(line[Trailing(line)..])
  {
    var l, k := Leading(line), Trailing(line);
    assert !IsSpace(line[l]);
  }

  /** A line that is not blank: indentation, a tight core, trailing whitespace. */
  lemma {:induction false} Decompose(line: string) returns (indent: string, core: string, pad: string)
    requires TrimStart(line) != []
    ensures line == indent + core + pad && AllSpace(indent) && AllSpace(pad) && Tight(core)
  {
    Ends(line);
    var l, k := Leading(line), Trailing(line);
    indent, core, pad := line[..l], line[l..k], line[k..];
    assert core[0] == line[l] && core[|core| - 1] == line[k - 1];
  }

  lemma {:induction false} TrimOfParts(indent: string, core: string, pad: string)
    requires AllSpace(indent) && AllSpace(pad) && Tight(core)
    ensures Trim(indent + core + pad) == core && TrimStart(indent + core + pad) == core + pad
  {
    TrimPadded(indent, core, pad);
    assert indent + core + pad == indent + (core + pad);
    TrimStartPadding(indent, core + pad);
    LeadingIs(core + pad, 0);
  }

  lemma TrimOfBlank(line: string)
    requires TrimStart(line) == []
    ensures Trim(line) == []
  {
    assert Leading(line) == |line|;
    TrailingIs(line, 0);
  }

  /** A box needs text after it to survive trimming at the end. */
  lemma {:induction false} CoreBox(core: string, pad: string, mark: char)
    requires Tight(core) && AllSpace(pad)
    ensures Box(core, mark) <==> Box(core + pad, mark) && Trim((core + pad)[6..]) != []
    ensures Box(core, mark) ==> Trim((core + pad)[6..]) == Trim(core[6..])
  {
    var s := core + pad;
    if |core| >= 6 {
      assert s[6..] == core[6..] + pad;
      TrimEndPadding(core[6..], pad);
      if Box(core, mark) {
        TrailingIs(core[6..], |core| - 6);
        assert core[6..][|core| - 7] == core[|core| - 1];
        assert TrimEnd(core[6..]) == core[6..];
        LastSurvives(core[6..]);
      }
    } else if |s| >= 6 {
      assert forall i :: 6 <= i < |s| ==> s[i] == pad[i - |core|];
      TrailingIs(s[6..], 0);
    }
  }

  lemma LastSurvives(s: string)
    requires s != [] && !IsSpace(s[|s| - 1])
    ensures TrimStart(s) != []
  {
  }

  predicate PendingItem(item: Option<PlanItem>) {
    item.Some? && !item.value.done
  }

  predicate Matchable(key: Option<string>) {
    key.Some? && key.value != []
  }

  /** A pending item is exactly a line that marking could match by some text, namely the item's. */
  lemma {:induction false} PendingLine(n: nat, line: string)
    ensures PendingItem(ItemOf(n, line)) <==> Matchable(MarkKey(line))
    ensures Matchable(MarkKey(line)) ==> ItemOf(n, line) == Some(PlanItem(n, false, MarkKey(line).value))
  {
    if TrimStart(line) == [] {
      TrimOfBlank(line);
    } else {
      var indent, core, pad := Decompose(line);
      TrimOfParts(indent, core, pad);
      CoreBox(core, pad, ' ');
    }
  }

  lemma {:induction false} MarkedBody(line: string, indent: string, body: string)
    requires line == indent + body && TrimStart(line) == body && Box(body, ' ')
    ensures MarkedLine(line) == indent + (DONE + body[6..])
  {
    assert line[..|line| - |body|] == indent;
  }

  lemma {:induction false} MarkedParts(indent: string, core: string, pad: string)
    requires AllSpace(indent) && AllSpace(pad) && Tight(core) && Box(core, ' ')
    ensures MarkedLine(indent + core + pad) == indent + core[3 := 'x'] + pad
  {
    TrimOfParts(indent, core, pad);
    Regroup(indent, core, pad);
    SwapBox(core, pad);
    MarkedBody(indent + core + pad, indent, core + pad);
    Regroup(indent, core[3 := 'x'], pad);
  }

  lemma Regroup(a: string, b: string, c: string)
    ensures a + b + c == a + (b + c)
  {
  }

  lemma SwapBox(core: string, pad: string)
    requires Box(core, ' ')
    ensures Box(core + pad, ' ') && DONE + (core + pad)[6..] == core[3 := 'x'] + pad
  {
    assert |DONE| == 6;
  }

  lemma {:induction false} ItemOfParts(n: nat, indent: string, core: string, pad: string)
    requires AllSpace(indent) && AllSpace(pad) && Tight(core)
    ensures Box(core, ' ') ==> ItemOf(n, indent + core + pad) == Some(PlanItem(n, false, Trim(core[6..])))
    ensures Box(core, 'x') ==> ItemOf(n, indent + core + pad) == Some(PlanItem(n, true, Trim(core[6..])))
    ensures PendingItem(ItemOf(n, indent + core + pad)) ==> Box(core, ' ')
  {
    TrimOfParts(indent, core, pad);
  }

  /** Marking flips a pending line's item and keeps its number and text. */
  lemma {:induction false} MarkedLineIsDone(n: nat, line: string)
    requires PendingItem(ItemOf(n, line))
    ensures ItemOf(n, MarkedLine(line)) == Some(ItemOf(n, line).value.(done := true))
  {
    PendingLine(n, line);
    var indent, core, pad := Decompose(line);
    ItemOfParts(n, indent, core, pad);
    MarkedParts(indent, core, pad);
    TickedCore(core);
    ItemOfParts(n, indent, core[3 := 'x'], pad);
  }

  lemma TickedCore(core: string)
    requires Tight(core) && Box(core, ' ')
    ensures var ticked := core[3 := 'x']; Tight(ticked) && Box(ticked, 'x') && ticked[6..] == core[6..]
  {
    assert IsSpace(core[5]);
  }

  lemma {:induction false} ReturnIsInvisible(n: nat, line: string)
    ensures ItemOf(n, StripReturn(line)) == ItemOf(n, line)
  {
    if line != [] && line[|line| - 1] == '\r' {
      var front := line[..|line| - 1];
      assert line == front + ['\r'];
      TrimEndPadding(front, ['\r']);
    }
  }

  // ----- The whole plan -----

  function Pending(items: seq<PlanItem>): seq<PlanItem> {
    if items == [] then [] else (if items[0].done then [] else [items[0]]) + Pending(items[1..])
  }

  function AllDone(items: seq<PlanItem>): seq<PlanItem> {
    if items == [] then [] else [items[0].(done := true)] + AllDone(items[1..])
  }

  /** The text of the first item not done. */
  function NextTask(items: seq<PlanItem>): Option<string> {
    if Pending(items) == [] then None else Some(Pending(items)[0].text)
  }

  function FlipFirst(items: seq<PlanItem>): seq<PlanItem> {
    if items == [] then []
    else if items[0].done then [items[0]] + FlipFirst(items[1..])
    else [items[0].(done := true)] + items[1..]
  }

  lemma {:induction false} FlipFirstCompletesOne(items: seq<PlanItem>)
    requires Pending(items) != []
    ensures Pending(FlipFirst(items)) == Pending(items)[1..] && AllDone(FlipFirst(items)) == AllDone(items)
  {
    var flipped := FlipFirst(items);
    assert flipped[1..] == if items[0].done then FlipFirst(items[1..]) else items[1..];
    if items[0].done {
      assert Pending(items) == Pending(items[1..]);
      FlipFirstCompletesOne(items[1..]);
    } else {
      assert Pending(items)[1..] == Pending(items[1..]);
    }
  }

  lemma {:induction false} NothingPending(items: seq<PlanItem>)
    requires Pending(items) == []
    ensures AllDone(items) == items
  {
    if items != [] {
      NothingPending(items[1..]);
    }
  }

  /** Pending items are the matchable lines, by their text, and `change` completes such an item. */
  ghost predicate Completes(f: (nat, string) -> Option<PlanItem>, key: string -> Option<string>, change: string -> string) {
    && (forall n: nat, l {:trigger f(n, l)} :: PendingItem(f(n, l)) <==> Matchable(key(l)))
    && (forall n: nat, l {:trigger f(n, l)} :: PendingItem(f(n, l)) ==> key(l) == Some(f(n, l).value.text))
    && (forall n: nat, l {:trigger f(n, change(l))} ::
          PendingItem(f(n, l)) ==> f(n, change(l)) == Some(f(n, l).value.(done := true)))
  }

  /** Changing the first line matching the selected text flips the first pending item. */
  lemma {:induction false} FlipLine(f: (nat, string) -> Option<PlanItem>, key: string -> Option<string>, change: string -> string,
                                    n: nat, lines: seq<string>, task: string)
    requires Completes(f, key, change) && NextTask(Collect(f, n, lines)) == Some(task)
    ensures task != [] && FirstWith(key, task, lines) < |lines|
    ensures Collect(f, n, ChangeFirst(key, task, change, lines)) == FlipFirst(Collect(f, n, lines))
    decreases |lines|
  {
    var first, rest := f(n, lines[0]), Collect(f, n + 1, lines[1..]);
    if first.Some? {
      FlipCons(first.value, rest);
    } else {
      assert Collect(f, n, lines) == rest;
    }
    if PendingItem(first) {
      assert ChangeFirst(key, task, change, lines)[1..] == lines[1..];
    } else {
      FlipLine(f, key, change, n + 1, lines[1..], task);
      assert ChangeFirst(key, task, change, lines)[1..] == ChangeFirst(key, task, change, lines[1..]);
    }
  }

  lemma FlipCons(x: PlanItem, s: seq<PlanItem>)
    ensures FlipFirst([x] + s) == if x.done then [x] + FlipFirst(s) else [x.(done := true)] + s
    ensures Pending([x] + s) == if x.done then Pending(s) else [x] + Pending(s)
  {
    assert ([x] + s)[1..] == s;
  }

  lemma {:induction false} MarkingCompletes()
    ensures Completes(ItemOf, MarkKey, MarkedLine)
  {
    forall n: nat, l
      ensures PendingItem(ItemOf(n, l)) <==> Matchable(MarkKey(l))
      ensures PendingItem(ItemOf(n, l)) ==> MarkKey(l) == Some(ItemOf(n, l).value.text)
      ensures PendingItem(ItemOf(n, l)) ==> ItemOf(n, MarkedLine(l)) == Some(ItemOf(n, l).value.(done := true))
    {
      PendingLine(n, l);
      if PendingItem(ItemOf(n, l)) {
        MarkedLineIsDone(n, l);
      }
    }
  }

  lemma TrimTwice(s: string)
    ensures Trim(Trim(s)) == Trim(s)
  {
    if TrimStart(s) == [] {
      TrimOfBlank(s);
    } else {
      var indent, core, pad := Decompose(s);
      TrimOfParts(indent, core, pad);
      TrimTight(core);
    }
  }

  lemma {:induction false} TaskIsTrimmed(n: nat, lines: seq<string>)
    requires Pending(Collect(ItemOf, n, lines)) != []
    ensures var task := NextTask(Collect(ItemOf, n, lines)).value; Trim(task) == task
    decreases |lines|
  {
    var first, rest := ItemOf(n, lines[0]), Collect(ItemOf, n + 1, lines[1..]);
    if first.Some? {
      FlipCons(first.value, rest);
      TrimTwice(Trim(lines[0])[6..]);
    } else {
      assert Collect(ItemOf, n, lines) == rest;
    }
    if !PendingItem(first) {
      TaskIsTrimmed(n + 1, lines[1..]);
    }
  }

  lemma {:induction false} CollectStripped(n: nat, lines: seq<string>)
    ensures Collect(ItemOf, n, StripReturns(lines)) == Collect(ItemOf, n, lines)
    decreases |lines|
  {
    if lines != [] {
      ReturnIsInvisible(n, lines[0]);
      assert StripReturns(lines)[1..] == StripReturns(lines[1..]);
      CollectStripped(n + 1, lines[1..]);
    }
  }

  lemma MarkedLineHasNoBreak(line: string)
    requires '\n' !in line
    ensures '\n' !in MarkedLine(line)
  {
  }

  /** Items of a written-out plan are the items of its lines. */
  lemma {:induction false} ItemsOfWritten(lines: seq<string>)
    requires forall i :: 0 <= i < |lines| ==> '\n' !in lines[i]
    ensures Items(Unlines(lines)) == Collect(ItemOf, 1, lines)
  {
    LinesOfUnlines(lines);
    CollectStripped(1, lines);
  }

  /** Marking the selected task succeeds and re-parses with exactly that item's flag flipped. */
  lemma {:induction false} MarkCompletesSelected(text: string, task: string)
    requires NextTask(Items(text)) == Some(task)
    ensures Mark(text, task).Some? && Items(Mark(text, task).value) == FlipFirst(Items(text))
  {
    var lines := Lines(text);
    MarkingCompletes();
    TaskIsTrimmed(1, lines);
    FlipLine(ItemOf, MarkKey, MarkedLine, 1, lines, task);
    LinesHaveNoBreaks(text);
    var k := FirstWith(MarkKey, task, lines);
    MarkedLineHasNoBreak(lines[k]);
    ItemsOfWritten(lines[k := MarkedLine(lines[k])]);
  }

  /** Select-and-mark ends after exactly the pending tasks, completed in file order. */
  method CompletePlan(text: string) returns (final: string, order: seq<string>)
    ensures Items(final) == AllDone(Items(text))
    ensures |order| == |Pending(Items(text))|
    ensures forall i :: 0 <= i < |order| ==> order[i] == Pending(Items(text))[i].text
  {
    final, order := text, [];
    var items := ParsePlanItems(final);
    ghost var (start, goal) := (Pending(items), AllDone(items));
    while NextTask(items).Some?
      invariant items == Items(final) && AllDone(items) == goal
      invariant |order| <= |start| && Pending(items) == start[|order|..]
      invariant forall i :: 0 <= i < |order| ==> order[i] == start[i].text
      decreases |start| - |order|
    {
      var task := NextTask(items).value;
      MarkCompletesSelected(final, task);
      FlipFirstCompletesOne(items);
      var out := MarkTaskCompleted(final, task);
      final, order := out.value, order + [task];
      items := ParsePlanItems(final);
    }
    NothingPending(items);
  }

  // ----- The two plan files -----

  datatype Workspace = Workspace(fixPlan: Option<string>, todo: Option<string>)

  function LoadItems(ws: Workspace): seq<PlanItem> {
    if ws.fixPlan.Some? then Items(ws.fixPlan.value)
    else if ws.todo.Some? then Items(ws.todo.value)
    else []
  }

  function MarkIn(ws: Workspace, task: string): (bool, Workspace) {
    if ws.fixPlan.None? || Mark(ws.fixPlan.value, task).None? then (false, ws)
    else (true, ws.(fixPlan := Mark(ws.fixPlan.value, task)))
  }

  /** The selected task gets marked exactly when it came from `fix_plan.md`, not from the fallback list. */
  lemma {:induction false} SelectedIsMarkedIffPrimary(ws: Workspace, task: string)
    requires NextTask(LoadItems(ws)) == Some(task)
    ensures MarkIn(ws, task).0 <==> ws.fixPlan.Some?
    ensures LoadItems(MarkIn(ws, task).1) == if ws.fixPlan.Some? then FlipFirst(LoadItems(ws)) else LoadItems(ws)
  {
    if ws.fixPlan.Some? {
      MarkCompletesSelected(ws.fixPlan.value, task);
    }
  }

  lemma {:induction false} OneLine(line: string)
    requires line != [] && '\n' !in line
    ensures Lines(line) == [line]
  {
    assert BreakAt(line) == |line|;
  }

  lemma {:induction false} CollectOne<T>(f: (nat, string) -> Option<T>, line: string)
    requires f(1, line).Some?
    ensures Collect(f, 1, [line]) == [f(1, line).value]
  {
    var lines: seq<string> := [line];
    assert lines[0] == line && lines[1..] == [];
    assert Collect(f, 2, []) == [];
  }

  lemma {:induction false} OneItem(line: string, item: PlanItem)
    requires Lines(line) == [line] && ItemOf(1, line) == Some(item)
    ensures Items(line) == [item]
  {
    CollectOne(ItemOf, line);
  }

  lemma {:induction false} OnePending(item: PlanItem)
    requires !item.done
    ensures NextTask([item]) == Some(item.text)
  {
    var items := [item];
    assert items[1..] == [];
  }

  lemma {:induction false} SampleTask(line: string, task: string)
    requires line == "- [ ] a" && task == "a"
    ensures ItemOf(1, line) == Some(PlanItem(1, false, task))
  {
    TrimTight(line);
    assert line[6..] == task;
    TrimTight(task);
  }

  /** A workspace with only the fallback list: its task is selected, and marking it changes nothing. */
  lemma {:induction false} FallbackIsNeverMarked(ws: Workspace, line: string, task: string)
    requires line == "- [ ] a" && task == "a" && ws == Workspace(None, Some(line))
    ensures NextTask(LoadItems(ws)) == Some(task) && MarkIn(ws, task) == (false, ws)
  {
    SampleTask(line, task);
    OneLine(line);
    OneItem(line, PlanItem(1, false, task));
    OnePending(PlanItem(1, false, task));
  }
}
