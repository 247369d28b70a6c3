/** What every run of the reducer keeps, and what paging through a ledger collects. */
module RunControlLaws {
  import opened Basics
  import opened RunControl

  // ----- The order of states -----

  function EndOf(s: RunState, path: seq<RunState>): RunState {
    if path == [] then s else path[|path| - 1]
  }

  lemma CanFollowIsPartialOrder(a: RunState, b: RunState, c: RunState)
    ensures CanFollow(a, a)
    ensures CanFollow(a, b) && CanFollow(b, a) ==> a == b
    ensures CanFollow(a, b) && CanFollow(b, c) ==> CanFollow(a, c)
  {
  }

  lemma {:induction false} WalkFollows(s: RunState, path: seq<RunState>)
    requires Walk(Some(s), path)
    ensures CanFollow(s, EndOf(s, path))
    decreases |path|
  {
    if path != [] {
      WalkFollows(path[0], path[1..]);
      CanFollowIsPartialOrder(s, path[0], EndOf(s, path));
    }
  }

  lemma WalkCons(s: RunState, t: RunState, path: seq<RunState>)
    requires Transition(s, t) && Walk(Some(t), path)
    ensures Walk(Some(s), [t] + path)
  {
    assert ([t] + path)[1..] == path;
  }

  /** A legal event path from `s` to `t`, when the snapshot order allows one. */
  lemma {:induction false} FindPath(s: RunState, t: RunState) returns (path: seq<RunState>)
    requires CanFollow(s, t)
    ensures Walk(Some(s), path) && EndOf(s, path) == t
  {
    path := [];
    if s != t {
      WalkCons(if Transition(s, t) then s else if t.Running? then Starting else Running, t, []);
      path := [t] + [];
      if !Transition(s, t) {
        if s.Queued? && !t.Running? {
          WalkCons(Starting, Running, path);
          path := [Running] + path;
        }
        WalkCons(s, if s.Queued? then Starting else Running, path);
        path := [if s.Queued? then Starting else Running] + path;
      }
    }
  }

  /** The snapshot order is exactly reachability through legal lifecycle events. */
  lemma {:induction false} CanFollowIsReachability(s: RunState, t: RunState)
    ensures CanFollow(s, t) <==> exists path :: Walk(Some(s), path) && EndOf(s, path) == t
  {
    if CanFollow(s, t) {
      var path := FindPath(s, t);
    }
    forall path | Walk(Some(s), path) && EndOf(s, path) == t ensures CanFollow(s, t) {
      WalkFollows(s, path);
    }
  }

  function Rank(s: RunState): nat {
    match s
    case Queued => 0
    case Starting => 1
    case Running => 2
    case CancelRequested => 3
    case _ => 4
  }

  /** A lifecycle can only be so long: every event strictly advances. */
  lemma {:induction false} WalkIsShort(previous: Option<RunState>, states: seq<RunState>)
    requires Walk(previous, states)
    ensures |states| <= if previous.Some? then 4 - Rank(previous.value) else 5
    decreases |states|
  {
    if states != [] {
      WalkIsShort(Some(states[0]), states[1..]);
    }
  }

  lemma {:induction false} WalkConcat(previous: Option<RunState>, a: seq<RunState>, b: seq<RunState>)
    ensures Walk(previous, a + b) <==>
            Walk(previous, a) && Walk(if a == [] then previous else Some(a[|a| - 1]), b)
    decreases |a|
  {
    if a == [] {
      assert a + b == b;
    } else {
      assert (a + b)[1..] == a[1..] + b;
      WalkConcat(Some(a[0]), a[1..], b);
    }
  }

  // ----- What every reachable view satisfies -----

  function AllEvents(pages: seq<Page>): seq<Record> {
    if pages == [] then [] else AllEvents(pages[..|pages| - 1]) + pages[|pages| - 1].events
  }

  /** Valid pages of one run and one watermark, each starting where the one before it ended. */
  ghost predicate Chained(pages: seq<Page>) {
    && (forall i :: 0 <= i < |pages| ==> ValidPage(pages[i]) && pages[i].runId == pages[0].runId)
    && (forall i :: 0 <= i < |pages| ==> pages[i].through == pages[0].through)
    && (forall i :: 0 <= i < |pages| - 1 ==> pages[i].hasMore && pages[i + 1].afterSeq == pages[i].nextAfter)
  }

  /** The events numbered from just behind `after` up to `upto`, opening with the queued one if from the start. */
  ghost predicate Numbered(events: seq<Record>, after: nat, upto: nat) {
    && after + |events| == upto
    && (after == 0 && events != [] ==> events[0].event.QueuedEvent?)
    && forall i :: 0 <= i < |events| ==> events[i].sequence == after + 1 + i
  }

  /** Pages of one run tile one fixed-watermark interval with one lifecycle path. */
  ghost predicate Tiled(pages: seq<Page>) {
    && Chained(pages) && Walk(None, States(AllEvents(pages)))
    && (pages != [] ==> Numbered(AllEvents(pages), pages[0].afterSeq, pages[|pages| - 1].nextAfter))
  }

  ghost predicate Good(v: View) {
    && Tiled(v.pages)
    && (v.snapshot.Some? ==> ValidSnapshot(v.snapshot.value))
    && (v.snapshot.Some? && v.pages != [] ==> v.snapshot.value.runId == v.pages[0].runId)
  }

  lemma StatesConcat(a: seq<Record>, b: seq<Record>)
    ensures States(a + b) == States(a) + States(b)
  {
  }

  /** The last event held is the last page's, when that page promised more. */
  lemma {:induction false} LastOfAll(pages: seq<Page>)
    requires pages != [] && pages[|pages| - 1].events != []
    ensures var (all, last) := (AllEvents(pages), pages[|pages| - 1].events);
            all != [] && all[|all| - 1] == last[|last| - 1]
  {
  }

  lemma {:induction false} AddPageTiles(pages: seq<Page>, p: Page)
    requires Tiled(pages) && ValidPage(p)
    requires pages != [] ==>
               var last := pages[|pages| - 1];
               p.runId == last.runId && p.afterSeq == last.nextAfter && p.through == last.through && last.hasMore
    requires InLifecycleOrder(if pages == [] then None else Some(pages[|pages| - 1]), p)
    ensures Tiled(pages + [p])
  {
    EventsOfMore(pages, p);
    PathGoesOn(pages, p);
    ChainGrows(pages, p);
    PageIsNumbered(if pages == [] then None else Some(pages[|pages| - 1]), p);
    if pages == [] {
      assert AllEvents([]) == [] && [] + p.events == p.events;
    } else {
      NumberingGoesOn(AllEvents(pages), p.events, pages[0].afterSeq, p.afterSeq, p.nextAfter);
    }
  }

  lemma {:induction false} ChainGrows(pages: seq<Page>, p: Page)
    requires Chained(pages) && ValidPage(p)
    requires pages != [] ==>
               var last := pages[|pages| - 1];
               p.runId == last.runId && p.afterSeq == last.nextAfter && p.through == last.through && last.hasMore
    ensures Chained(pages + [p])
  {
  }

  lemma {:induction false} PageIsNumbered(previous: Option<Page>, p: Page)
    requires ValidPage(p) && InLifecycleOrder(previous, p)
    ensures p.afterSeq + |p.events| == p.nextAfter
    ensures forall i :: 0 <= i < |p.events| ==> p.events[i].sequence == p.afterSeq + 1 + i
    ensures previous.None? ==> Numbered(p.events, p.afterSeq, p.nextAfter)
  {
  }

  lemma {:induction false} NumberingGoesOn(a: seq<Record>, b: seq<Record>, after: nat, mid: nat, upto: nat)
    requires Numbered(a, after, mid) && mid + |b| == upto && (a == [] && after == 0 && b != [] ==> b[0].event.QueuedEvent?)
    requires forall i :: 0 <= i < |b| ==> b[i].sequence == mid + 1 + i
    ensures Numbered(a + b, after, upto)
  {
  }

  lemma EventsOfMore(pages: seq<Page>, p: Page)
    ensures AllEvents(pages + [p]) == AllEvents(pages) + p.events
  {
    assert (pages + [p])[..|pages|] == pages;
  }

  /** A page in lifecycle order continues the path of the events before it. */
  lemma {:induction false} PathGoesOn(pages: seq<Page>, p: Page)
    requires Walk(None, States(AllEvents(pages))) && InLifecycleOrder(if pages == [] then None else Some(pages[|pages| - 1]), p)
    requires pages != [] ==> ValidPage(pages[|pages| - 1]) && pages[|pages| - 1].hasMore
    ensures Walk(None, States(AllEvents(pages) + p.events))
  {
    StatesConcat(AllEvents(pages), p.events);
    WalkConcat(None, States(AllEvents(pages)), States(p.events));
    if pages != [] {
      LastOfAll(pages);
    }
  }

  /** Every accepted response keeps the view good. */
  lemma {:induction false} ApplyKeepsGood(v: View, c: Command, e: Event)
    requires Good(v) && Apply(v, c, e).Ok?
    ensures Good(Apply(v, c, e).value)
  {
    if c.RunEvents? {
      PageKeepsGood(v, c.query, e.page);
    } else {
      assert Apply(v, c, e).value.pages == v.pages;
    }
  }

  lemma {:induction false} PageKeepsGood(v: View, q: EventsQuery, p: Page)
    requires Good(v) && ValidPage(p) && MergePage(v, q, p).Ok?
    ensures Good(MergePage(v, q, p).value)
  {
    AddPageTiles(v.pages, p);
  }

  type Exchange = (Command, Event)

  /** The view after a history of exchanges; rejected ones change nothing. */
  function Run(v: View, history: seq<Exchange>): View
    decreases |history|
  {
    if history == [] then v
    else
      var r := Apply(v, history[0].0, history[0].1);
      Run(if r.Ok? then r.value else v, history[1..])
  }

  lemma {:induction false} RunKeepsGood(v: View, history: seq<Exchange>)
    requires Good(v)
    ensures Good(Run(v, history))
    decreases |history|
  {
    if history != [] {
      var r := Apply(v, history[0].0, history[0].1);
      if r.Ok? {
        ApplyKeepsGood(v, history[0].0, history[0].1);
      }
      RunKeepsGood(if r.Ok? then r.value else v, history[1..]);
    }
  }

  /** In every reachable state: one run, one watermark, gapless pages, one lifecycle path of at most five events. */
  lemma {:induction false} ReachableViews(history: seq<Exchange>)
    ensures var v := Run(EMPTY, history);
            Good(v) && |AllEvents(v.pages)| <= 5 &&
            forall i :: 0 <= i < |v.pages| ==> RunIdOf(v) == Some(v.pages[i].runId)
  {
    RunKeepsGood(EMPTY, history);
    WalkIsShort(None, States(AllEvents(Run(EMPTY, history).pages)));
  }

  // ----- Snapshots over whole histories -----

  /** `b` is a legitimate later reading of `a`. */
  ghost predicate Follows(a: Snapshot, b: Snapshot) {
    && a.runId == b.runId && a.idempotencyKey == b.idempotencyKey && a.conversationId == b.conversationId
    && a.createdAt.text == b.createdAt.text
    && a.eventCount <= b.eventCount
    && (a.state != b.state ==> a.eventCount < b.eventCount)
    && CanFollow(a.state, b.state)
    && (a.state.Terminal() ==> a == b)
  }

  lemma FollowsTrans(a: Snapshot, b: Snapshot, c: Snapshot)
    requires Follows(a, b) && Follows(b, c)
    ensures Follows(a, c)
  {
    CanFollowIsPartialOrder(a.state, b.state, c.state);
  }

  ghost predicate LaterView(v: View, w: View) {
    && (v.snapshot.Some? ==> w.snapshot.Some? && Follows(v.snapshot.value, w.snapshot.value))
    && v.pages <= w.pages
    && (RunIdOf(v).Some? ==> RunIdOf(w) == RunIdOf(v))
  }

  lemma ApplyIsLater(v: View, c: Command, e: Event)
    requires Good(v) && Apply(v, c, e).Ok?
    ensures LaterView(v, Apply(v, c, e).value)
  {
  }

  lemma LaterTrans(u: View, v: View, w: View)
    requires LaterView(u, v) && LaterView(v, w)
    ensures LaterView(u, w)
  {
    if u.snapshot.Some? {
      FollowsTrans(u.snapshot.value, v.snapshot.value, w.snapshot.value);
    }
  }

  lemma {:induction false} RunIsLater(v: View, history: seq<Exchange>)
    requires Good(v)
    ensures LaterView(v, Run(v, history))
    decreases |history|
  {
    if history != [] {
      var r := Apply(v, history[0].0, history[0].1);
      var next := if r.Ok? then r.value else v;
      if r.Ok? {
        ApplyKeepsGood(v, history[0].0, history[0].1);
        ApplyIsLater(v, history[0].0, history[0].1);
      }
      RunIsLater(next, history[1..]);
      LaterTrans(v, next, Run(v, history));
    }
  }

  lemma {:induction false} RunConcat(v: View, a: seq<Exchange>, b: seq<Exchange>)
    ensures Run(v, a + b) == Run(Run(v, a), b)
    decreases |a|
  {
    if a == [] {
      assert a + b == b;
    } else {
      assert (a + b)[1..] == a[1..] + b;
      var r := Apply(v, a[0].0, a[0].1);
      RunConcat(if r.Ok? then r.value else v, a[1..], b);
    }
  }

  /**
   * Over any history, between any two moments: identity is constant, counts
   * never fall and rise with the state, the later state follows the earlier,
   * and a terminal snapshot is frozen.
   */
  lemma {:induction false} HistoryNeverRegresses(history: seq<Exchange>, i: nat, j: nat)
    requires i <= j <= |history|
    ensures LaterView(Run(EMPTY, history[..i]), Run(EMPTY, history[..j]))
  {
    assert history[..j] == history[..i] + history[i..j];
    RunConcat(EMPTY, history[..i], history[i..j]);
    RunKeepsGood(EMPTY, history[..i]);
    RunIsLater(Run(EMPTY, history[..i]), history[i..j]);
  }

  // ----- Paging -----

  /**
   * The next page command never trips over cursor, watermark or run: a valid
   * page that answers it is refused only for its lifecycle order.
   */
  lemma {:induction false} NextPageIsJudgedByLifecycle(v: View, limit: nat, p: Page)
    requires Good(v) && v.pages != [] && 0 < limit <= MAX_EVENT_PAGE
    requires var last := v.pages[|v.pages| - 1];
             last.hasMore && ValidPage(p) && p.runId == last.runId && p.afterSeq == last.nextAfter &&
             p.through == last.through && |p.events| <= limit
    ensures var (last, next) := (v.pages[|v.pages| - 1], NextEventsCommand(v, limit));
            && next.Ok? && next.value.Some? && ValidCommand(next.value.value)
            && var r := Apply(v, next.value.value, RunEventsPage(p));
               && (r.Ok? <==> Walk(LastState(last), States(p.events)))
               && (r.Err? ==> r.error == LifecycleRegression)
               && (r.Ok? ==> r.value == v.(pages := v.pages + [p]) && p.nextAfter > last.nextAfter)
  {
    assert p.afterSeq > 0;
  }

  /** An append-only event ledger of one run. */
  ghost predicate Ledger(l: seq<Record>, runId: string) {
    && |l| < MAX_SEQUENCE
    && (forall i :: 0 <= i < |l| ==> ValidRecord(l[i]) && l[i].runId == runId && l[i].sequence == i + 1)
    && Walk(None, States(l))
    && (l != [] ==> l[0].event.QueuedEvent?)
  }

  /** What a faithful daemon answers: the next slice below the watermark. */
  function Serve(l: seq<Record>, q: EventsQuery): Page
    requires q.afterSeq <= Watermark(l, q) <= |l|
  {
    var through := Watermark(l, q);
    var next := Min(q.afterSeq + q.limit, through);
    Page(q.runId, l[q.afterSeq..next], q.afterSeq, next, through, next < through)
  }

  function Watermark(l: seq<Record>, q: EventsQuery): nat {
    if q.through.Some? then q.through.value else |l|
  }

  lemma {:induction false} ServedPageIsValid(l: seq<Record>, q: EventsQuery)
    requires Ledger(l, q.runId) && ValidQuery(q) && q.afterSeq <= Watermark(l, q) <= |l|
    ensures ValidPage(Serve(l, q)) && |Serve(l, q).events| <= q.limit
    ensures Walk(if q.afterSeq == 0 then None else Some(EventState(l[q.afterSeq - 1].event)), States(Serve(l, q).events))
  {
    var p := Serve(l, q);
    var front, rest := l[..q.afterSeq], l[p.nextAfter..];
    assert l == front + p.events + rest;
    StatesConcat(front + p.events, rest);
    StatesConcat(front, p.events);
    WalkConcat(None, States(front + p.events), States(rest));
    WalkConcat(None, States(front), States(p.events));
  }

  /** A view that has read the first `k` events of a ledger, from the beginning. */
  ghost predicate HasRead(v: View, base: seq<Record>, runId: string) {
    && Good(v) && v.pages != []
    && var last := v.pages[|v.pages| - 1];
       last.runId == runId && last.through == |base| && v.pages[0].afterSeq == 0 &&
       AllEvents(v.pages) == base[..last.nextAfter]
  }

  lemma {:induction false} LedgerContinues(v: View, base: seq<Record>, grown: seq<Record>, runId: string, q: EventsQuery)
    requires HasRead(v, base, runId) && Ledger(grown, runId) && base <= grown && ValidQuery(q)
    requires var last := v.pages[|v.pages| - 1];
             last.hasMore && q == EventsQuery(runId, last.nextAfter, Some(last.through), q.limit)
    ensures Watermark(grown, q) <= |grown| && ValidPage(Serve(grown, q)) && |Serve(grown, q).events| <= q.limit
    ensures Walk(LastState(v.pages[|v.pages| - 1]), States(Serve(grown, q).events))
  {
    ServedPageIsValid(grown, q);
    LastOfAll(v.pages);
    assert AllEvents(v.pages)[|AllEvents(v.pages)| - 1] == base[q.afterSeq - 1] == grown[q.afterSeq - 1];
  }

  lemma {:induction false} PageExtends(v: View, w: View, base: seq<Record>, grown: seq<Record>, runId: string, p: Page)
    requires HasRead(v, base, runId) && Good(w) && base <= grown && w.pages == v.pages + [p]
    requires var last := v.pages[|v.pages| - 1];
             p.runId == runId && p.through == |base| && last.nextAfter <= p.nextAfter <= |base| &&
             p.events == grown[last.nextAfter..p.nextAfter]
    ensures HasRead(w, base, runId)
  {
    assert w.pages[..|v.pages|] == v.pages;
    var last := v.pages[|v.pages| - 1];
    assert base[..last.nextAfter] + grown[last.nextAfter..p.nextAfter] == base[..p.nextAfter];
  }

  /** One more page, served from a ledger that may have grown meanwhile, is accepted and extends what was read. */
  lemma {:induction false} PagingAdvances(v: View, base: seq<Record>, grown: seq<Record>, runId: string, limit: nat, q: EventsQuery)
    requires HasRead(v, base, runId) && Ledger(grown, runId) && base <= grown && 0 < limit <= MAX_EVENT_PAGE
    requires v.pages[|v.pages| - 1].hasMore && NextEventsCommand(v, limit) == Ok(Some(RunEvents(q)))
    ensures q.afterSeq <= Watermark(grown, q) <= |grown|
    ensures var (last, p) := (v.pages[|v.pages| - 1], Serve(grown, q));
            var w := v.(pages := v.pages + [p]);
            && Apply(v, RunEvents(q), RunEventsPage(p)) == Ok(w) && HasRead(w, base, runId)
            && p.through == last.through && p.nextAfter > last.nextAfter
  {
    LedgerContinues(v, base, grown, runId, q);
    var p := Serve(grown, q);
    NextPageIsJudgedByLifecycle(v, limit, p);
    ApplyKeepsGood(v, RunEvents(q), RunEventsPage(p));
    PageExtends(v, v.(pages := v.pages + [p]), base, grown, runId, p);
  }

  method FetchNext(red: Reducer, ghost base: seq<Record>, grown: seq<Record>, runId: string, limit: nat) returns (p: Page)
    requires HasRead(red.view, base, runId) && Ledger(grown, runId) && base <= grown && 0 < limit <= MAX_EVENT_PAGE
    requires LastPage(red.view).value.hasMore
    modifies red
    ensures HasRead(red.view, base, runId) && LastPage(red.view) == Some(p)
    ensures red.view.snapshot == old(red.view.snapshot)
    ensures p.through == old(LastPage(red.view).value.through) && p.nextAfter > old(LastPage(red.view).value.nextAfter)
  {
    var next := NextEventsCommand(red.view, limit).value.value;
    PagingAdvances(red.view, base, grown, runId, limit, next.query);
    p := Serve(grown, next.query);
    var r := red.Accept(next, RunEventsPage(p));
  }

  /**
   * Paging to the end: whatever the daemon appends between requests, every page
   * is accepted and the pages hold exactly the ledger as of the first request.
   */
  method DrainEvents(red: Reducer, runId: string, limit: nat, ledger: nat -> seq<Record>)
    requires 0 < limit <= MAX_EVENT_PAGE
    requires Good(red.view) && red.view.pages == [] && Binds(red.view, runId)
    requires forall k :: Ledger(ledger(k), runId) && ledger(0) <= ledger(k)
    modifies red
    ensures Good(red.view) && AllEvents(red.view.pages) == ledger(0)
    ensures NextEventsCommand(red.view, limit) == Ok(None)
    ensures red.view.snapshot == old(red.view.snapshot)
  {
    ghost var base := ledger(0);
    var query := EventsQuery(runId, 0, None, limit);
    var page := Serve(ledger(0), query);
    FirstPageReads(red.view, base, runId, limit);
    var r := red.Accept(RunEvents(query), RunEventsPage(page));
    var k := 1;
    while page.hasMore
      invariant HasRead(red.view, base, runId) && LastPage(red.view) == Some(page)
      invariant red.view.snapshot == old(red.view.snapshot)
      decreases page.through - page.nextAfter
    {
      page := FetchNext(red, base, ledger(k), runId, limit);
      k := k + 1;
    }
    assert ValidPage(page) && base[..page.nextAfter] == base;
  }

  lemma {:induction false} FirstPageReads(v: View, base: seq<Record>, runId: string, limit: nat)
    requires Good(v) && v.pages == [] && Binds(v, runId) && Ledger(base, runId) && 0 < limit <= MAX_EVENT_PAGE
    ensures var q := EventsQuery(runId, 0, None, limit);
            var r := Apply(v, RunEvents(q), RunEventsPage(Serve(base, q)));
            r.Ok? && HasRead(r.value, base, runId) && r.value.snapshot == v.snapshot &&
            LastPage(r.value) == Some(Serve(base, q))
  {
    var q := EventsQuery(runId, 0, None, limit);
    var p := Serve(base, q);
    ServedPageIsValid(base, q);
    var r := Apply(v, RunEvents(q), RunEventsPage(p));
    ApplyKeepsGood(v, RunEvents(q), RunEventsPage(p));
    assert r.value.pages == [p] && [p][..0] == [];
    assert AllEvents([p]) == [] + p.events;
  }
}
