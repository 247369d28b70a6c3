/** Which responses the reducer accepts, and what it then holds: exact conditions, exchange by exchange. */
module RunControlAcceptance {
  import opened Basics
  import opened RunControl
  import opened RunControlLaws

  /** Everything the view holds belongs to this run. */
  ghost predicate OneRun(v: View, runId: string) {
    (v.snapshot.Some? ==> v.snapshot.value.runId == runId) && forall i :: 0 <= i < |v.pages| ==> v.pages[i].runId == runId
  }

  /** Timestamps parse and are in order, something has happened, and a well-formed failure is given exactly for a failed run. */
  ghost predicate SoundSnapshot(s: Snapshot) {
    && (exists t, u :: s.createdAt.instant == Some(t) && s.updatedAt.instant == Some(u) && t <= u)
    && s.eventCount >= 1
    && (if s.state == Failed then s.failure.Some? && s.failure.value.wellFormed else s.failure == None)
  }

  /** The snapshot a status, cancellation or submission response carries. */
  function Carried(e: Event): Option<Snapshot> {
    match e
    case RunSubmitted(_, run) => Some(run)
    case RunStatus(s) => Some(s)
    case CancellationAcknowledged(s) => Some(s)
    case _ => None
  }

  /** The response is of the kind asked for, and about what was asked. */
  predicate Answers(c: Command, e: Event) {
    || (c.GetRun? && e.RunStatus? && e.snapshot.runId == c.runId)
    || (c.CancelRun? && e.CancellationAcknowledged? && e.snapshot.runId == c.runId)
    || (c.SubmitRun? && c.wellFormed && e.RunSubmitted? && e.run.idempotencyKey == c.key && e.run.conversationId == c.conversation)
  }

  /** A submission that found the queue full carries a run that failed for that reason. */
  ghost predicate SoundResponse(e: Event) {
    && Carried(e).Some? && SoundSnapshot(Carried(e).value)
    && (e.RunSubmitted? && e.disposition == QueueFull ==>
          e.run.state == Failed && e.run.failure.Some? && e.run.failure.value.code == "queue_full")
  }

  lemma SoundIffValid(e: Event)
    requires Carried(e).Some?
    ensures SoundResponse(e) <==> ValidEvent(e)
  {
    var s := Carried(e).value;
    if ValidSnapshot(s) {
      assert s.createdAt.instant == Some(s.createdAt.instant.value) && s.updatedAt.instant == Some(s.updatedAt.instant.value);
    }
  }

  lemma FollowsIff(a: Snapshot, b: Snapshot)
    requires a.runId == b.runId
    ensures Follows(a, b) <==> !Regresses(a, b)
  {
  }

  lemma BindsIffOneRun(v: View, runId: string)
    requires Good(v)
    ensures Binds(v, runId) <==> OneRun(v, runId)
  {
  }

  /**
   * A snapshot is accepted if and only if it is sound, answers the command,
   * belongs to the run in view and follows the snapshot in view; it is then the
   * snapshot in view, and nothing else changes but a submission's disposition.
   */
  lemma {:induction false} SnapshotAcceptedIff(v: View, c: Command, e: Event)
    requires Good(v) && Carried(e).Some?
    ensures var (r, s) := (Apply(v, c, e), Carried(e).value);
            && (r.Ok? <==> SoundResponse(e) && Answers(c, e) && OneRun(v, s.runId) && (v.snapshot.Some? ==> Follows(v.snapshot.value, s)))
            && (r.Ok? ==> r.value == View(Some(s), if e.RunSubmitted? then Some(e.disposition) else v.submission, v.pages))
  {
    var s := Carried(e).value;
    SoundIffValid(e);
    BindsIffOneRun(v, s.runId);
    if v.snapshot.Some? && OneRun(v, s.runId) {
      FollowsIff(v.snapshot.value, s);
    }
  }

  /** Why a sound snapshot is refused: first the wrong answer, then the wrong run, then a regression. */
  lemma {:induction false} SnapshotRefusal(v: View, c: Command, e: Event)
    requires Good(v) && ValidCommand(c) && Carried(e).Some? && SoundResponse(e) && Apply(v, c, e).Err?
    ensures Apply(v, c, e).error ==
            if !Answers(c, e) then MismatchedResponse
            else if !OneRun(v, Carried(e).value.runId) then MismatchedRun
            else SnapshotRegression
  {
    SoundIffValid(e);
    BindsIffOneRun(v, Carried(e).value.runId);
  }

  // ----- Pages -----

  /** Up to 16 well-formed records of the run, numbered on from the cursor; the next cursor and `hasMore` follow from them. */
  ghost predicate SoundPage(p: Page) {
    && |p.events| <= 16 && p.nextAfter == p.afterSeq + |p.events| && p.nextAfter <= p.through && p.nextAfter < 0xFFFF_FFFF_FFFF_FFFF
    && (p.hasMore <==> p.nextAfter < p.through) && (p.hasMore ==> |p.events| >= 1)
    && forall i :: 0 <= i < |p.events| ==>
         var e := p.events[i];
         && e.runId == p.runId && e.sequence == p.afterSeq + i + 1 && e.recordedAt.instant != None
         && (e.event.FailedEvent? ==> e.event.failure.wellFormed)
  }

  lemma SoundIffValidPage(p: Page)
    ensures SoundPage(p) <==> ValidPage(p)
  {
  }

  /** What a page query may ask for: up to 16 records, from a cursor not beyond the watermark. */
  predicate SoundQuery(q: EventsQuery) {
    1 <= q.limit <= 16 && (q.through.Some? ==> q.afterSeq <= q.through.value)
  }

  predicate AnswersQuery(q: EventsQuery, p: Page) {
    p.runId == q.runId && p.afterSeq == q.afterSeq && |p.events| <= q.limit && (q.through == None || q.through == Some(p.through))
  }

  lemma {:induction false} TiledMeansOrder(pages: seq<Page>, p: Page)
    requires Tiled(pages) && ValidPage(p) && Tiled(pages + [p])
    ensures InLifecycleOrder(if pages == [] then None else Some(pages[|pages| - 1]), p)
    ensures pages != [] ==>
              var last := pages[|pages| - 1];
              p.runId == last.runId && p.afterSeq == last.nextAfter && p.through == last.through && last.hasMore
  {
    var more := pages + [p];
    EventsOfMore(pages, p);
    StatesConcat(AllEvents(pages), p.events);
    WalkConcat(None, States(AllEvents(pages)), States(p.events));
    if pages == [] {
      assert AllEvents(more) == p.events;
      assert more[0] == p;
    } else {
      var n := |pages|;
      assert more[n] == p && more[n - 1] == pages[n - 1] && more[0] == pages[0];
      assert more[n - 1].hasMore;
      LastOfAll(pages);
    }
  }

  /** The page fits the query, the run, the watermark and the pages in view. */
  ghost predicate PageFits(v: View, q: EventsQuery, p: Page) {
    && SoundQuery(q) && SoundPage(p) && AnswersQuery(q, p) && OneRun(v, p.runId)
    && (v.pages != [] ==> q.through == Some(v.pages[0].through)) && Tiled(v.pages + [p])
  }

  lemma {:induction false} AcceptedFits(v: View, q: EventsQuery, p: Page)
    requires Good(v) && Apply(v, RunEvents(q), RunEventsPage(p)).Ok?
    ensures PageFits(v, q, p)
  {
    SoundIffValidPage(p);
    BindsIffOneRun(v, p.runId);
    AddPageTiles(v.pages, p);
  }

  lemma {:induction false} FittingIsAccepted(v: View, q: EventsQuery, p: Page)
    requires Good(v) && PageFits(v, q, p)
    ensures Apply(v, RunEvents(q), RunEventsPage(p)) == Ok(View(v.snapshot, v.submission, v.pages + [p]))
  {
    SoundIffValidPage(p);
    BindsIffOneRun(v, p.runId);
    TiledMeansOrder(v.pages, p);
  }

  /**
   * A page is accepted if and only if it is sound, answers its query, belongs to
   * the run in view, keeps to the watermark in view, and the pages with it tile
   * one interval with one lifecycle path; it is then the last page in view.
   */
  lemma {:induction false} PageAcceptedIff(v: View, q: EventsQuery, p: Page)
    requires Good(v)
    ensures var r := Apply(v, RunEvents(q), RunEventsPage(p));
            (r.Ok? <==> PageFits(v, q, p)) && (r.Ok? ==> r.value == View(v.snapshot, v.submission, v.pages + [p]))
  {
    if Apply(v, RunEvents(q), RunEventsPage(p)).Ok? {
      AcceptedFits(v, q, p);
    }
    if PageFits(v, q, p) {
      FittingIsAccepted(v, q, p);
    }
  }

  /** A response of another kind than the command asks for is never accepted. */
  lemma {:induction false} OtherKindsAreRefused(v: View, c: Command, e: Event)
    requires ValidCommand(c) && ValidEvent(e) && !(c.RunEvents? && e.RunEventsPage?) && !Answers(c, e)
    ensures Apply(v, c, e) == Err(MismatchedResponse)
  {
  }

  /** More is asked for exactly while events below the watermark are missing. */
  lemma {:induction false} NextCommandIff(v: View, limit: nat)
    requires Good(v)
    ensures NextEventsCommand(v, limit).Err? <==> !(1 <= limit <= 16)
    ensures 1 <= limit <= 16 ==>
              (NextEventsCommand(v, limit).value.Some? <==>
                 v.pages != [] && v.pages[0].afterSeq + |AllEvents(v.pages)| < v.pages[0].through)
  {
  }

  // ----- Lifecycles as events -----

  function Happened(events: seq<Lifecycle>): seq<RunState> {
    seq(|events|, i requires 0 <= i < |events| => EventState(events[i]))
  }

  lemma WalkOfOne(s: RunState)
    ensures Walk(None, [s])
  {
    var one := [s];
    assert one[1..] == [];
  }

  lemma {:induction false} WalkGrows(states: seq<RunState>, t: RunState)
    requires states != []
    ensures Walk(None, states + [t]) <==> Walk(None, states) && Transition(states[|states| - 1], t)
  {
    WalkConcat(None, states, [t]);
    var one := [t];
    assert one[1..] == [];
  }

  lemma {:induction false} HappenedGrows(events: seq<Lifecycle>, e: Lifecycle)
    ensures Happened(events + [e]) == Happened(events) + [EventState(e)]
  {
  }

  /**
   * The lifecycle graph in words: nothing leaves an end state; a live run may end
   * at any time, but succeeds only once it runs; it starts, then runs; and it may
   * be asked to stop once.
   */
  lemma TransitionIff(s: RunState, t: RunState)
    ensures Transition(s, t) <==>
            var (ends, live) := ({Succeeded, Failed, Cancelled, Interrupted}, {Queued, Starting, Running, CancelRequested});
            && s in live
            && (|| (t in ends && (t == Succeeded ==> s == Running || s == CancelRequested))
                || (s == Queued && t == Starting) || (s == Starting && t == Running)
                || (s != CancelRequested && t == CancelRequested))
  {
  }

  /** A run that succeeds, one cancelled on request, one that fails and one that is interrupted. */
  lemma {:induction false} LifecyclesAllowed(failure: Failure)
    ensures Walk(None, Happened([QueuedEvent] + [StartingEvent] + [RunningEvent] + [SucceededEvent]))
    ensures Walk(None, Happened([QueuedEvent] + [CancelRequestedEvent] + [CancelledEvent(true)]))
    ensures Walk(None, Happened([QueuedEvent] + [FailedEvent(failure)])) && Walk(None, Happened([QueuedEvent] + [InterruptedEvent(true)]))
  {
    var q := [QueuedEvent];
    QueuedAlone();
    Extend(q, StartingEvent);
    Extend(q + [StartingEvent], RunningEvent);
    Extend(q + [StartingEvent] + [RunningEvent], SucceededEvent);
    Extend(q, CancelRequestedEvent);
    Extend(q + [CancelRequestedEvent], CancelledEvent(true));
    Extend(q, FailedEvent(failure));
    Extend(q, InterruptedEvent(true));
  }

  lemma QueuedAlone()
    ensures Walk(None, Happened([QueuedEvent]))
  {
    assert Happened([QueuedEvent]) == [Queued];
    WalkOfOne(Queued);
  }

  /** Nothing succeeds without having run, runs after a cancellation was requested, or starts after it has failed. */
  lemma {:induction false} LifecyclesRefused(failure: Failure)
    ensures !Walk(None, Happened([QueuedEvent] + [SucceededEvent])) && !Walk(None, Happened([QueuedEvent] + [RunningEvent]))
    ensures !Walk(None, Happened([QueuedEvent] + [FailedEvent(failure)] + [StartingEvent]))
    ensures !Walk(None, Happened([QueuedEvent] + [StartingEvent] + [SucceededEvent]))
    ensures !Walk(None, Happened([QueuedEvent] + [CancelRequestedEvent] + [RunningEvent]))
  {
    var q := [QueuedEvent];
    Extend(q, SucceededEvent);
    Extend(q, RunningEvent);
    Extend(q + [FailedEvent(failure)], StartingEvent);
    Extend(q + [StartingEvent], SucceededEvent);
    Extend(q + [CancelRequestedEvent], RunningEvent);
  }

  lemma {:induction false} Extend(events: seq<Lifecycle>, e: Lifecycle)
    requires events != []
    ensures Walk(None, Happened(events + [e])) <==>
            Walk(None, Happened(events)) && Transition(EventState(events[|events| - 1]), EventState(e))
  {
    HappenedGrows(events, e);
    WalkGrows(Happened(events), EventState(e));
  }
}
