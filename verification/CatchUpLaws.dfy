/** Previews and catch-ups account for occurrences: none skipped, none twice. */
module CatchUpLaws {
  import opened Basics
  import opened Schedule
  import opened ScheduleLaws

  /** What is asked of the zone as a whole; folds may cross midnight. */
  ghost predicate Lawful(z: Zone) {
    DatesInOrder(z) && EarlierDatesPassed(z) && DatesInRange(z)
  }

  /** The schedule runs at `ms`: its one instant, or what some matching wall resolves to. */
  ghost predicate Occurs(s: Compiled, ms: nat) {
    if s.once.Some? then ms == s.once.value else OccursBetween(s, s.zone.firstDay, s.zone.lastDay, ms)
  }

  ghost predicate Due(s: Compiled, from: nat, now: nat, ms: nat) {
    Occurs(s, ms) && from < ms <= now
  }

  /** Seen from any of its instants, the interval is shorter than the eight-year search horizon. */
  ghost predicate Covered(s: Compiled, from: nat, now: nat) {
    s.once.None? ==>
      && LocalDay(s.zone, from).Ok? && LocalDay(s.zone, now).Ok?
      && forall b: nat :: from <= b <= now && LocalDay(s.zone, b).Ok? ==> LocalDay(s.zone, from).value - 2 >= EarliestDate(s, b)
  }

  /** Looking back from `bound`, no run due in the interval is hidden by the date having gone back. */
  ghost predicate Clear(s: Compiled, from: nat, bound: nat) {
    s.once.None? ==> NothingHidden(s, from, bound)
  }

  /** Nowhere in the interval has the date gone back across a wall first named in it. */
  ghost predicate Calm(s: Compiled, from: nat, now: nat) {
    s.once.None? ==> forall b: nat :: from <= b <= now ==> AheadSince(s.zone, from, b)
  }

  lemma {:induction false} CalmIsClear(s: Compiled, from: nat, now: nat, bound: nat)
    requires Calm(s, from, now) && from <= bound <= now
    ensures Clear(s, from, bound)
  {
    if s.once.None? {
      AheadHidesNothing(s, from, bound);
    }
  }

  /** Every run due in a covered interval is dated inside the horizon of the search back from its end. */
  lemma {:induction false} DueIsInHorizon(s: Compiled, from: nat, bound: nat, ms: nat)
    requires Lawful(s.zone) && s.once.None? && Covered(s, from, bound) && Due(s, from, bound, ms)
    ensures LocalDay(s.zone, bound).Ok? && OccursBetween(s, EarliestDate(s, bound), s.zone.lastDay, ms)
  {
    var (lo, hi) := (EarliestDate(s, bound), s.zone.lastDay);
    var w :| Names(s, s.zone.firstDay, hi, w, ms);
    if Day(w) < LocalDay(s.zone, from).value - 2 {
      PastWallsResolvePast(s.zone, from, w, ms);
    }
    assert Names(s, lo, hi, w, ms);
  }

  /** The reverse search yields the greatest due instant exactly when nothing due is hidden; what it yields always occurs. */
  lemma {:induction false} LatestOf(s: Compiled, from: nat, bound: nat, r: Option<nat>)
    requires Lawful(s.zone) && from <= bound && Covered(s, from, bound) && Find(s, bound, true) == Ok(r)
    ensures r.Some? ==> Occurs(s, r.value) && r.value <= bound
    ensures (forall ms: nat :: Due(s, from, bound, ms) ==> r.Some? && ms <= r.value) <==> Clear(s, from, bound)
  {
    if s.once.None? {
      ReverseMeans(s, bound, r);
      ExactIffNothingHidden(s, from, bound, r);
      var (lo, local, first, hi) := (EarliestDate(s, bound), LocalDay(s.zone, bound).value, s.zone.firstDay, s.zone.lastDay);
      if r.Some? {
        AnyIsInCalendar(s, lo, local, r.value);
      }
      forall ms: nat | from < ms <= bound ensures Due(s, from, bound, ms) <==> OccursBetween(s, lo, hi, ms) {
        if Due(s, from, bound, ms) {
          DueIsInHorizon(s, from, bound, ms);
        }
        if OccursBetween(s, lo, hi, ms) {
          AnyIsInCalendar(s, lo, hi, ms);
        }
      }
    }
  }

  /** What a catch-up promises about the due instants. */
  ghost predicate Accurate(s: Compiled, from: nat, now: nat, c: CatchUp) {
    && (c.latest.None? ==> forall ms: nat :: !Due(s, from, now, ms))
    && (c.latest.Some? ==> Due(s, from, now, c.latest.value))
    && (c.latest.Some? ==> forall ms: nat :: Due(s, from, now, ms) ==> ms <= c.latest.value)
    && (c.missed.None? ==> forall a: nat, b: nat :: Due(s, from, now, a) && Due(s, from, now, b) ==> a == b)
    && (c.missed.Some? ==>
          && c.latest.Some? && c.missed.value.after == from && c.missed.value.through < c.latest.value
          && Due(s, from, now, c.missed.value.through)
          && forall ms: nat :: Due(s, from, now, ms) && ms != c.latest.value ==> ms <= c.missed.value.through)
  }

  /** The searches behind a catch-up, and how their answers are filtered. */
  lemma {:induction false} CatchUpParts(s: Compiled, from: nat, now: nat, c: CatchUp)
    requires CatchUpFrom(s, from, now) == Ok(c)
    ensures from <= now && Find(s, now, true).Ok? && c.latest == Newer(Find(s, now, true).value, from)
    ensures c.latest.None? ==> c.missed.None?
    ensures c.latest.Some? ==>
              && c.latest.value > 0 && Find(s, c.latest.value - 1, true).Ok?
              && var previous := Newer(Find(s, c.latest.value - 1, true).value, from);
                 c.missed == if previous.Some? then Some(Missed(from, previous.value)) else None
    ensures NextAfter(s, now) == Ok(c.next)
  {
  }

  /** The two instants a catch-up looks back from hide nothing. */
  ghost predicate ClearForBoth(s: Compiled, from: nat, now: nat, c: CatchUp) {
    Clear(s, from, now) && (c.latest.Some? && c.latest.value > 0 ==> Clear(s, from, c.latest.value - 1))
  }

  /** Below the latest, the second search finds the greatest of the others. */
  lemma {:induction false} EarlierIsSecond(s: Compiled, from: nat, now: nat, x: nat, earlier: Option<nat>)
    requires Lawful(s.zone) && Covered(s, from, now) && from < x <= now
    requires Clear(s, from, x - 1) && Find(s, x - 1, true) == Ok(earlier)
    requires forall ms: nat :: Due(s, from, now, ms) ==> ms <= x
    ensures earlier.Some? && earlier.value > from ==> earlier.value < x && Due(s, from, now, earlier.value)
    ensures forall ms: nat :: Due(s, from, now, ms) && ms != x ==> earlier.Some? && from < ms <= earlier.value
  {
    CoveredEarlier(s, from, now, x - 1);
    LatestOf(s, from, x - 1, earlier);
    forall ms: nat | Due(s, from, now, ms) && ms != x ensures earlier.Some? && from < ms <= earlier.value {
      assert Due(s, from, x - 1, ms);
    }
  }

  lemma {:induction false} ClearIsAccurate(s: Compiled, from: nat, now: nat, c: CatchUp)
    requires Lawful(s.zone) && Covered(s, from, now) && CatchUpFrom(s, from, now) == Ok(c) && ClearForBoth(s, from, now, c)
    ensures Accurate(s, from, now, c)
  {
    CatchUpParts(s, from, now, c);
    LatestOf(s, from, now, Find(s, now, true).value);
    if c.latest.Some? {
      var x := c.latest.value;
      EarlierIsSecond(s, from, now, x, Find(s, x - 1, true).value);
    }
  }

  lemma {:induction false} AccurateIsClear(s: Compiled, from: nat, now: nat, c: CatchUp)
    requires Lawful(s.zone) && Covered(s, from, now) && CatchUpFrom(s, from, now) == Ok(c) && Accurate(s, from, now, c)
    ensures ClearForBoth(s, from, now, c)
  {
    CatchUpParts(s, from, now, c);
    LatestOf(s, from, now, Find(s, now, true).value);
    if c.latest.Some? {
      var x: nat, before: nat := c.latest.value, c.latest.value - 1;
      CoveredEarlier(s, from, now, before);
      LatestOf(s, from, before, Find(s, before, true).value);
      forall ms: nat | Due(s, from, before, ms) ensures c.missed.Some? && ms <= c.missed.value.through {
        assert Due(s, from, now, ms) && Due(s, from, now, x);
      }
    }
  }

  /**
   * One call, exactly: `latest` is the greatest due instant and the missed
   * window ends at the second greatest and holds the rest, if and only if
   * nothing due is hidden from the two instants the catch-up looks back from.
   */
  lemma {:induction false} AccurateIffClear(s: Compiled, from: nat, now: nat, c: CatchUp)
    requires Lawful(s.zone) && Covered(s, from, now) && CatchUpFrom(s, from, now) == Ok(c)
    ensures Accurate(s, from, now, c) <==> ClearForBoth(s, from, now, c)
  {
    if ClearForBoth(s, from, now, c) {
      ClearIsAccurate(s, from, now, c);
    }
    if Accurate(s, from, now, c) {
      AccurateIsClear(s, from, now, c);
    }
  }

  /** For every calendar: a catch-up is accurate over an interval in which the date does not go back across a wall of it. */
  lemma {:induction false} CatchUpIsAccurate(s: Compiled, from: nat, now: nat, c: CatchUp)
    requires Lawful(s.zone) && Calm(s, from, now) && Covered(s, from, now) && CatchUpFrom(s, from, now) == Ok(c)
    ensures Accurate(s, from, now, c)
  {
    CatchUpParts(s, from, now, c);
    CalmIsClear(s, from, now, now);
    if c.latest.Some? {
      LatestIsWithin(s, from, now, c);
      CalmIsClear(s, from, now, c.latest.value - 1);
    }
    ClearIsAccurate(s, from, now, c);
  }

  lemma {:induction false} LatestIsWithin(s: Compiled, from: nat, now: nat, c: CatchUp)
    requires Lawful(s.zone) && Covered(s, from, now) && CatchUpFrom(s, from, now) == Ok(c) && c.latest.Some?
    ensures from < c.latest.value <= now
  {
    CatchUpParts(s, from, now, c);
    LatestOf(s, from, now, Find(s, now, true).value);
  }

  lemma CoveredEarlier(s: Compiled, from: nat, now: nat, bound: nat)
    requires Covered(s, from, now) && from <= bound <= now && Find(s, bound, true).Ok?
    ensures Covered(s, from, bound)
  {
  }

  /** A missed window is reported exactly when at least two occurrences are due. */
  lemma {:induction false} MissedIffTwoDue(s: Compiled, from: nat, now: nat, c: CatchUp)
    requires Lawful(s.zone) && Calm(s, from, now) && Covered(s, from, now) && CatchUpFrom(s, from, now) == Ok(c)
    ensures c.missed.Some? <==> exists a: nat, b: nat :: a < b && Due(s, from, now, a) && Due(s, from, now, b)
  {
    CatchUpIsAccurate(s, from, now, c);
    if c.missed.Some? {
      var a, b := c.missed.value.through, c.latest.value;
      assert a < b && Due(s, from, now, a) && Due(s, from, now, b);
    }
  }

  /** The schedule runs at `ms`, and the forward search from `bound` looks that far. */
  ghost predicate InReach(s: Compiled, bound: nat, ms: nat) {
    if s.once.Some? then ms == s.once.value
    else LocalDay(s.zone, bound).Ok? && OccursBetween(s, s.zone.firstDay, LastDate(s, bound), ms)
  }

  /** One-shot or recurring: the next occurrence is the least after the bound. */
  lemma {:induction false} NextFollows(s: Compiled, bound: nat, r: Option<nat>)
    requires Lawful(s.zone) && NextAfter(s, bound) == Ok(r)
    ensures r.Some? ==> r.value > bound && InReach(s, bound, r.value)
    ensures forall ms: nat :: ms > bound && InReach(s, bound, ms) ==> r.Some? && r.value <= ms
  {
    if s.once.None? {
      NextIsLeast(s, bound, r);
    }
  }

  /** `next` is strictly after `now`, and no occurrence of its horizon lies in between. */
  lemma {:induction false} CatchUpNextFollows(s: Compiled, from: nat, now: nat, c: CatchUp)
    requires Lawful(s.zone) && CatchUpFrom(s, from, now) == Ok(c)
    ensures c.next.Some? ==> c.next.value > now && InReach(s, now, c.next.value)
    ensures forall ms: nat :: ms > now && InReach(s, now, ms) ==> c.next.Some? && c.next.value <= ms
  {
    CatchUpParts(s, from, now, c);
    NextFollows(s, now, c.next);
  }

  predicate IsLatest(c: CatchUp, ms: nat) {
    c.latest == Some(ms)
  }

  predicate InWindow(c: CatchUp, ms: nat) {
    c.missed.Some? && c.missed.value.after < ms <= c.missed.value.through
  }

  /** Every due instant is reported exactly once by its catch-up, and nothing else that occurs is. */
  lemma {:induction false} ReportedExactlyOnce(s: Compiled, from: nat, now: nat, c: CatchUp, ms: nat)
    requires Lawful(s.zone) && Calm(s, from, now) && Covered(s, from, now) && CatchUpFrom(s, from, now) == Ok(c) && Occurs(s, ms)
    ensures from < ms <= now ==> IsLatest(c, ms) != InWindow(c, ms)
    ensures IsLatest(c, ms) || InWindow(c, ms) ==> from < ms <= now
  {
    CatchUpIsAccurate(s, from, now, c);
    if from < ms <= now {
      assert Due(s, from, now, ms);
    }
  }

  /** Catching up to `b` and then from `b` accounts for each occurrence in (a, c] exactly once. */
  lemma {:induction false} AdjacentCatchUpsPartition(s: Compiled, a: nat, b: nat, c: nat, first: CatchUp, second: CatchUp, ms: nat)
    requires Lawful(s.zone) && Calm(s, a, b) && Calm(s, b, c) && Covered(s, a, b) && Covered(s, b, c)
    requires CatchUpFrom(s, a, b) == Ok(first) && CatchUpFrom(s, b, c) == Ok(second)
    requires Occurs(s, ms) && a < ms <= c
    ensures (IsLatest(first, ms) || InWindow(first, ms)) != (IsLatest(second, ms) || InWindow(second, ms))
  {
    ReportedExactlyOnce(s, a, b, first, ms);
    ReportedExactlyOnce(s, b, c, second, ms);
  }

  // ----- Previews -----

  function Before(after: nat, p: seq<nat>, i: nat): nat
    requires i <= |p|
  {
    if i == 0 then after else p[i - 1]
  }

  lemma {:induction false} PreviewChains(s: Compiled, after: nat, count: nat, p: seq<nat>)
    requires PreviewFrom(s, after, count) == Ok(p)
    ensures |p| <= count
    ensures forall i :: 0 <= i < |p| ==> NextAfter(s, Before(after, p, i)) == Ok(Some(p[i]))
    ensures |p| < count ==> NextAfter(s, Before(after, p, |p|)) == Ok(None)
    decreases count
  {
    if count > 0 && NextAfter(s, after).value.Some? {
      var item := NextAfter(s, after).value.value;
      var rest := PreviewFrom(s, item, count - 1).value;
      PreviewChains(s, item, count - 1, rest);
      assert p[1..] == rest;
      forall i | 0 <= i < |p| ensures NextAfter(s, Before(after, p, i)) == Ok(Some(p[i])) {
        if i > 0 {
          assert Before(item, rest, i - 1) == Before(after, p, i) && rest[i - 1] == p[i];
        }
      }
    }
  }

  lemma {:induction false} PreviewStep(s: Compiled, after: nat, count: nat, p: seq<nat>, i: nat)
    requires PreviewFrom(s, after, count) == Ok(p) && i <= |p| && i < count
    ensures NextAfter(s, Before(after, p, i)) == Ok(if i < |p| then Some(p[i]) else None)
  {
    PreviewChains(s, after, count, p);
  }

  /** A preview, of a one-shot or a recurring schedule, strictly increases and skips no occurrence within each step's horizon. */
  lemma {:induction false} PreviewSkipsNothing(s: Compiled, after: nat, count: nat, p: seq<nat>, i: nat)
    requires Lawful(s.zone) && PreviewFrom(s, after, count) == Ok(p) && i <= |p| && i < count
    ensures i < |p| ==> Before(after, p, i) < p[i] && InReach(s, Before(after, p, i), p[i])
    ensures forall ms: nat :: ms > Before(after, p, i) && InReach(s, Before(after, p, i), ms) ==> i < |p| && p[i] <= ms
  {
    PreviewStep(s, after, count, p, i);
    NextFollows(s, Before(after, p, i), if i < |p| then Some(p[i]) else None);
  }

  // ----- When the operations succeed -----

  /** The zone and the one instant, if any, are ordinary: short gaps, and every instant converts. */
  ghost predicate Workable(s: Compiled) {
    && NoLongGaps(s.zone) && Convertible(s.zone) && DatesInRange(s.zone)
    && (s.once.Some? ==> Timestamp(s.zone, s.once.value))
  }

  lemma {:induction false} NextSucceedsIff(s: Compiled, after: nat)
    requires Workable(s)
    ensures NextAfter(s, after).Ok? <==> Timestamp(s.zone, after)
  {
    FindSucceedsIff(s, after, false);
  }

  /** A preview succeeds exactly from a timestamp. */
  lemma {:induction false} PreviewSucceedsIff(s: Compiled, after: nat, count: nat)
    requires Workable(s) && count > 0
    ensures PreviewFrom(s, after, count).Ok? <==> Timestamp(s.zone, after)
    decreases count
  {
    NextSucceedsIff(s, after);
    if NextAfter(s, after).Ok? && NextAfter(s, after).value.Some? && count > 1 {
      FindGivesTimestamp(s, after, false, NextAfter(s, after).value.value);
      PreviewSucceedsIff(s, NextAfter(s, after).value.value, count - 1);
    }
  }

  /** A catch-up succeeds exactly between two timestamps in order, and says which of the two is wrong otherwise. */
  lemma {:induction false} CatchUpSucceedsIff(s: Compiled, from: nat, now: nat)
    requires Workable(s)
    ensures CatchUpFrom(s, from, now).Ok? <==> Timestamp(s.zone, from) && Timestamp(s.zone, now) && from <= now
    ensures !Timestamp(s.zone, from) || !Timestamp(s.zone, now) ==> CatchUpFrom(s, from, now) == Err(InvalidTimestamp)
    ensures Timestamp(s.zone, from) && Timestamp(s.zone, now) && from > now ==> CatchUpFrom(s, from, now) == Err(InvalidInterval)
  {
    FindSucceedsIff(s, now, true);
    NextSucceedsIff(s, now);
    if Timestamp(s.zone, now) && Find(s, now, true).value.Some? {
      var ms := Find(s, now, true).value.value;
      FindGivesTimestamp(s, now, true, ms);
      if ms > 0 {
        FindSucceedsIff(s, ms - 1, true);
      }
    }
  }
}
