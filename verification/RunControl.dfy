/**
 * The run-control reducer: a fail-closed projection of snapshots and
 * fixed-watermark event pages for one run. Lifecycle states, transitions and
 * page validation are those of the application core.
 */
module RunControl {
  import opened Basics

  const MAX_EVENT_PAGE: nat := 16
  const MAX_SEQUENCE: nat := 0xFFFF_FFFF_FFFF_FFFF

  // ----- Application-core values -----

  datatype RunState =
    | Queued | Starting | Running | CancelRequested
    | Succeeded | Failed | Cancelled | Interrupted
  {
    predicate Terminal() {
      Succeeded? || Failed? || Cancelled? || Interrupted?
    }
  }

  /** The lifecycle graph of single events. */
  predicate Transition(s: RunState, t: RunState) {
    match s
    case Queued => t.Starting? || t.CancelRequested? || t.Cancelled? || t.Failed? || t.Interrupted?
    case Starting => t.Running? || t.CancelRequested? || t.Cancelled? || t.Failed? || t.Interrupted?
    case Running => t.CancelRequested? || t.Succeeded? || t.Failed? || t.Cancelled? || t.Interrupted?
    case CancelRequested => t.Succeeded? || t.Failed? || t.Cancelled? || t.Interrupted?
    case _ => false
  }

  /** `wellFormed`: the outcome of the text checks on code and message. */
  datatype Failure = Failure(code: string, message: string, retryable: bool, wellFormed: bool)

  /** A timestamp text and the instant it denotes, if it parses. */
  datatype Stamp = Stamp(text: string, instant: Option<int>)

  datatype Snapshot = Snapshot(
    runId: string, conversationId: Option<string>, idempotencyKey: string, state: RunState,
    createdAt: Stamp, updatedAt: Stamp, failure: Option<Failure>, eventCount: nat)

  predicate ValidSnapshot(s: Snapshot) {
    && s.createdAt.instant.Some? && s.updatedAt.instant.Some?
    && s.createdAt.instant.value <= s.updatedAt.instant.value
    && s.eventCount > 0
    && (s.failure.Some? ==> s.failure.value.wellFormed)
    && s.state.Failed? == s.failure.Some?
  }

  datatype Lifecycle =
    | QueuedEvent | StartingEvent | RunningEvent | CancelRequestedEvent | SucceededEvent
    | FailedEvent(failure: Failure) | CancelledEvent(requested: bool) | InterruptedEvent(restart: bool)

  function EventState(e: Lifecycle): RunState {
    match e
    case QueuedEvent => Queued
    case StartingEvent => Starting
    case RunningEvent => Running
    case CancelRequestedEvent => CancelRequested
    case SucceededEvent => Succeeded
    case FailedEvent(_) => Failed
    case CancelledEvent(_) => Cancelled
    case InterruptedEvent(_) => Interrupted
  }

  datatype Record = Record(runId: string, sequence: nat, recordedAt: Stamp, event: Lifecycle)

  predicate ValidRecord(r: Record) {
    r.sequence > 0 && r.recordedAt.instant.Some? && (r.event.FailedEvent? ==> r.event.failure.wellFormed)
  }

  datatype Page = Page(
    runId: string, events: seq<Record>, afterSeq: nat, nextAfter: nat, through: nat, hasMore: bool)

  /** Contiguous records of one run, and continuation data that follows from them. */
  predicate ValidPage(p: Page) {
    && |p.events| <= MAX_EVENT_PAGE
    && p.afterSeq <= p.nextAfter <= p.through
    && p.afterSeq + |p.events| + 1 <= MAX_SEQUENCE
    && (forall i :: 0 <= i < |p.events| ==>
          ValidRecord(p.events[i]) && p.events[i].runId == p.runId && p.events[i].sequence == p.afterSeq + 1 + i)
    && p.nextAfter == p.afterSeq + |p.events|
    && p.hasMore == (p.nextAfter < p.through)
    && !(p.events == [] && p.hasMore)
  }

  datatype EventsQuery = EventsQuery(runId: string, afterSeq: nat, through: Option<nat>, limit: nat)

  predicate ValidQuery(q: EventsQuery) {
    0 < q.limit <= MAX_EVENT_PAGE && (q.through.Some? ==> q.afterSeq <= q.through.value)
  }

  datatype Disposition = Enqueued | Existing | QueueFull

  datatype Command =
    | SubmitRun(key: string, conversation: Option<string>, wellFormed: bool)
    | GetRun(runId: string)
    | CancelRun(runId: string)
    | RunEvents(query: EventsQuery)
    | OtherCommand(wellFormed: bool)

  predicate ValidCommand(c: Command) {
    match c
    case SubmitRun(_, _, ok) => ok
    case RunEvents(q) => ValidQuery(q)
    case OtherCommand(ok) => ok
    case _ => true
  }

  datatype Event =
    | RunSubmitted(disposition: Disposition, run: Snapshot)
    | RunStatus(snapshot: Snapshot)
    | CancellationAcknowledged(snapshot: Snapshot)
    | RunEventsPage(page: Page)
    | OtherEvent(wellFormed: bool)

  predicate ValidEvent(e: Event) {
    match e
    case RunSubmitted(d, run) =>
      ValidSnapshot(run) &&
      (d.QueueFull? ==> run.state.Failed? && run.failure.Some? && run.failure.value.code == "queue_full")
    case RunStatus(s) => ValidSnapshot(s)
    case CancellationAcknowledged(s) => ValidSnapshot(s)
    case RunEventsPage(p) => ValidPage(p)
    case OtherEvent(ok) => ok
  }

  // ----- The reducer as a function of the view -----

  datatype View = View(snapshot: Option<Snapshot>, submission: Option<Disposition>, pages: seq<Page>)

  datatype Fault =
    | InvalidCommand | InvalidEvent | MismatchedResponse | MismatchedRun
    | SnapshotRegression | PaginationRegression | LifecycleRegression

  const EMPTY: View := View(None, None, [])

  function RunIdOf(v: View): Option<string> {
    if v.snapshot.Some? then Some(v.snapshot.value.runId)
    else if v.pages != [] then Some(v.pages[0].runId)
    else None
  }

  predicate Binds(v: View, runId: string) {
    RunIdOf(v).None? || RunIdOf(v).value == runId
  }

  predicate CanFollow(previous: RunState, next: RunState) {
    previous == next ||
    match previous
    case Queued => true
    case Starting => !next.Queued?
    case Running => !next.Queued? && !next.Starting?
    case CancelRequested => next.Terminal()
    case _ => false
  }

  predicate Regresses(previous: Snapshot, next: Snapshot) {
    || next.eventCount < previous.eventCount
    || next.idempotencyKey != previous.idempotencyKey
    || next.conversationId != previous.conversationId
    || next.createdAt.text != previous.createdAt.text
    || (next.state != previous.state && next.eventCount == previous.eventCount)
    || (previous.state.Terminal() && next != previous)
    || !CanFollow(previous.state, next.state)
  }

  function MergeSnapshot(v: View, s: Snapshot): Result<View, Fault> {
    if !Binds(v, s.runId) then Err(MismatchedRun)
    else if v.snapshot.Some? && Regresses(v.snapshot.value, s) then Err(SnapshotRegression)
    else Ok(v.(snapshot := Some(s)))
  }

  function States(events: seq<Record>): seq<RunState> {
    seq(|events|, i requires 0 <= i < |events| => EventState(events[i].event))
  }

  /** Each state is entered by a legal transition from the one before it. */
  predicate Walk(previous: Option<RunState>, states: seq<RunState>)
    decreases |states|
  {
    states == [] ||
    ((previous.Some? ==> Transition(previous.value, states[0])) && Walk(Some(states[0]), states[1..]))
  }

  function LastState(p: Page): Option<RunState> {
    if p.events == [] then None else Some(EventState(p.events[|p.events| - 1].event))
  }

  predicate InLifecycleOrder(previous: Option<Page>, p: Page) {
    && (p.afterSeq == 0 && p.events != [] ==> p.events[0].event.QueuedEvent?)
    && Walk(if previous.Some? then LastState(previous.value) else None, States(p.events))
  }

  function LastPage(v: View): Option<Page> {
    if v.pages == [] then None else Some(v.pages[|v.pages| - 1])
  }

  function MergePage(v: View, q: EventsQuery, p: Page): Result<View, Fault> {
    if p.runId != q.runId || p.afterSeq != q.afterSeq || (q.through.Some? && q.through.value != p.through) ||
       |p.events| > q.limit
    then Err(MismatchedResponse)
    else if !Binds(v, p.runId) then Err(MismatchedRun)
    else
      var previous := LastPage(v);
      if previous.Some? &&
         (q.afterSeq != previous.value.nextAfter || q.through != Some(previous.value.through) ||
          p.through != previous.value.through || !previous.value.hasMore)
      then Err(PaginationRegression)
      else if !InLifecycleOrder(previous, p) then Err(LifecycleRegression)
      else Ok(v.(pages := v.pages + [p]))
  }

  function Apply(v: View, c: Command, e: Event): Result<View, Fault> {
    if !ValidCommand(c) then Err(InvalidCommand)
    else if !ValidEvent(e) then Err(InvalidEvent)
    else match (c, e)
      case (SubmitRun(key, conversation, _), RunSubmitted(disposition, run)) =>
        if run.idempotencyKey != key || run.conversationId != conversation then Err(MismatchedResponse)
        else
          var merged := MergeSnapshot(v, run);
          if merged.Ok? then Ok(merged.value.(submission := Some(disposition))) else merged
      case (GetRun(id), RunStatus(s)) => if s.runId != id then Err(MismatchedResponse) else MergeSnapshot(v, s)
      case (CancelRun(id), CancellationAcknowledged(s)) =>
        if s.runId != id then Err(MismatchedResponse) else MergeSnapshot(v, s)
      case (RunEvents(q), RunEventsPage(p)) => MergePage(v, q, p)
      case _ => Err(MismatchedResponse)
  }

  function NextEventsCommand(v: View, limit: nat): Result<Option<Command>, Fault> {
    if limit == 0 || limit > MAX_EVENT_PAGE then Err(InvalidCommand)
    else
      var last := LastPage(v);
      if last.None? || !last.value.hasMore then Ok(None)
      else Ok(Some(RunEvents(EventsQuery(last.value.runId, last.value.nextAfter, Some(last.value.through), limit))))
  }

  // ----- The reducer as an object -----

  class Reducer {
    var view: View

    constructor ()
      ensures view == EMPTY
    {
      view := EMPTY;
    }

    /** Accepts exactly what `Apply` accepts; a rejected response leaves the view alone. */
    method Accept(c: Command, e: Event) returns (r: Result<(), Fault>)
      modifies this
      ensures r.Ok? == Apply(old(view), c, e).Ok?
      ensures r.Ok? ==> view == Apply(old(view), c, e).value
      ensures r.Err? ==> view == old(view) && r.error == Apply(old(view), c, e).error
    {
      if !ValidCommand(c) {
        return Err(InvalidCommand);
      }
      if !ValidEvent(e) {
        return Err(InvalidEvent);
      }
      match (c, e) {
        case (SubmitRun(key, conversation, _), RunSubmitted(disposition, run)) =>
          if run.idempotencyKey != key || run.conversationId != conversation {
            return Err(MismatchedResponse);
          }
          r := TakeSnapshot(run);
          if r.Ok? {
            view := view.(submission := Some(disposition));
          }
        case (GetRun(id), RunStatus(s)) =>
          if s.runId != id {
            return Err(MismatchedResponse);
          }
          r := TakeSnapshot(s);
        case (CancelRun(id), CancellationAcknowledged(s)) =>
          if s.runId != id {
            return Err(MismatchedResponse);
          }
          r := TakeSnapshot(s);
        case (RunEvents(q), RunEventsPage(p)) =>
          r := TakePage(q, p);
        case _ =>
          r := Err(MismatchedResponse);
      }
    }

    method TakeSnapshot(s: Snapshot) returns (r: Result<(), Fault>)
      modifies this
      ensures r.Ok? == MergeSnapshot(old(view), s).Ok?
      ensures r.Ok? ==> view == MergeSnapshot(old(view), s).value
      ensures r.Err? ==> view == old(view) && r.error == MergeSnapshot(old(view), s).error
    {
      if !Binds(view, s.runId) {
        return Err(MismatchedRun);
      }
      if view.snapshot.Some? && Regresses(view.snapshot.value, s) {
        return Err(SnapshotRegression);
      }
      view := view.(snapshot := Some(s));
      r := Ok(());
    }

    method TakePage(q: EventsQuery, p: Page) returns (r: Result<(), Fault>)
      modifies this
      ensures r.Ok? == MergePage(old(view), q, p).Ok?
      ensures r.Ok? ==> view == MergePage(old(view), q, p).value
      ensures r.Err? ==> view == old(view) && r.error == MergePage(old(view), q, p).error
    {
      if p.runId != q.runId || p.afterSeq != q.afterSeq ||
         (q.through.Some? && q.through.value != p.through) || |p.events| > q.limit
      {
        return Err(MismatchedResponse);
      }
      if !Binds(view, p.runId) {
        return Err(MismatchedRun);
      }
      var previous := LastPage(view);
      if previous.Some? &&
         (q.afterSeq != previous.value.nextAfter || q.through != Some(previous.value.through) ||
          p.through != previous.value.through || !previous.value.hasMore)
      {
        return Err(PaginationRegression);
      }
      var ordered := ValidateEventOrder(previous, p);
      if !ordered {
        return Err(LifecycleRegression);
      }
      view := view.(pages := view.pages + [p]);
      r := Ok(());
    }
  }

  /** The event loop of one page, started from the previous page's last event. */
  method ValidateEventOrder(previous: Option<Page>, p: Page) returns (ok: bool)
    ensures ok == InLifecycleOrder(previous, p)
  {
    var state := if previous.Some? then LastState(previous.value) else None;
    if p.afterSeq == 0 && p.events != [] && !p.events[0].event.QueuedEvent? {
      return false;
    }
    ghost var goal := Walk(state, States(p.events));
    for i := 0 to |p.events|
      invariant goal == Walk(state, States(p.events)[i..])
    {
      var next := EventState(p.events[i].event);
      assert States(p.events)[i..][0] == next && States(p.events)[i..][1..] == States(p.events)[i + 1..];
      if state.Some? && !Transition(state.value, next) {
        return false;
      }
      state := Some(next);
    }
    return true;
  }
}
