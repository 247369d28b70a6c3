/**
 * What the day search finds. The zone is only trusted for the laws stated here;
 * nothing is assumed about the order of walls on the same date.
 */
module ScheduleLaws {
  import opened Basics
  import opened Schedule

  // ----- Zone laws -----

  /** Among walls that exist, an earlier date names an earlier first instant. */
  ghost predicate DatesInOrder(z: Zone) {
    forall v, w :: Earliest(z, v).Some? && Earliest(z, w).Some? && Day(v) < Day(w) ==>
      Earliest(z, v).value < Earliest(z, w).value
  }

  /** A wall dated before the local date of `b` was first named no later than `b`. */
  ghost predicate EarlierDatesPassed(z: Zone) {
    forall b: nat, w :: LocalDay(z, b).Ok? && Earliest(z, w).Some? && Day(w) < LocalDay(z, b).value ==>
      Earliest(z, w).value <= b
  }

  /**
   * Of the walls first named after `since`, those dated after the local date of
   * `b` are first named after `b`: no fold has carried that date back meanwhile.
   */
  ghost predicate AheadSince(z: Zone, since: int, b: nat) {
    forall w ::
      LocalDay(z, b).Ok? && Earliest(z, w).Some? && Earliest(z, w).value >= 0 && Earliest(z, w).value > since &&
      LocalDay(z, b).value < Day(w) <= z.lastDay ==>
      Earliest(z, w).value > b
  }

  /** The same for every wall: no later-dated one was named by `b`. */
  ghost predicate AheadAt(z: Zone, b: nat) {
    AheadSince(z, -1, b)
  }

  /** No fold of this zone crosses midnight, ever. */
  ghost predicate LaterDatesAhead(z: Zone) {
    forall b: nat :: AheadAt(z, b)
  }

  /** Local dates lie inside the supported calendar, clear of its first two days. */
  ghost predicate DatesInRange(z: Zone) {
    forall b: nat :: LocalDay(z, b).Ok? ==> z.firstDay + 2 <= LocalDay(z, b).value <= z.lastDay
  }

  // ----- The search computes a best candidate -----

  ghost predicate Candidate(s: Compiled, bound: nat, backward: bool, wall: int, ms: nat) {
    wall in DayWalls(s.calendar, Day(wall)) && Resolve(s.zone, wall) == Ok(Some(ms)) && Hit(ms, bound, backward)
  }

  ghost predicate Visits(s: Compiled, backward: bool, day: int, stop: int, d: int) {
    0 <= Ahead(backward, day, d) < Ahead(backward, day, stop) && s.zone.firstDay <= d <= s.zone.lastDay
  }

  /** Three days further on, nothing can beat a hit: gaps push a wall at most two days. */
  lemma FurtherIsWorse(s: Compiled, bound: nat, backward: bool, w0: int, ms0: nat, w: int, ms: nat)
    requires DatesInOrder(s.zone)
    requires Candidate(s, bound, backward, w0, ms0) && Candidate(s, bound, backward, w, ms)
    requires Ahead(backward, Day(w0), Day(w)) >= 3
    ensures NotWorse(ms0, ms, backward)
  {
    var land0, _ := ResolveLands(s.zone, w0, w0 + GAP_MINUTES + 1);
    var land, _ := ResolveLands(s.zone, w, w + GAP_MINUTES + 1);
    assert Day(w0) <= Day(land0) <= Day(w0) + 2 && Day(w) <= Day(land) <= Day(w) + 2;
  }

  lemma {:induction false} ConsiderAllIsBest(z: Zone, walls: seq<int>, bound: nat, backward: bool, best: Option<nat>, r: Option<nat>)
    requires ConsiderAll(z, walls, bound, backward, best) == Ok(r)
    ensures best.Some? ==> r.Some? && NotWorse(r.value, best.value, backward)
    ensures forall w, ms :: w in walls && Resolve(z, w) == Ok(Some(ms)) && Hit(ms, bound, backward) ==>
              r.Some? && NotWorse(r.value, ms, backward)
    ensures r == best || (r.Some? && exists w :: w in walls && Resolve(z, w) == Ok(r) && Hit(r.value, bound, backward))
  {
    if walls != [] {
      var b := Consider(z, walls[0], bound, backward, best).value;
      ConsiderAllIsBest(z, walls[1..], bound, backward, b, r);
      if r != best && r == b {
        assert Resolve(z, walls[0]) == Ok(r);
      }
    }
  }

  /** One day's scan keeps the best, beats `ms` if `w` is dated that day, and names where its answer is from. */
  lemma DayIsBest(s: Compiled, day: int, bound: nat, backward: bool, best: Option<nat>, r: Option<nat>, w: int, ms: nat)
    returns (from: int)
    requires ConsiderAll(s.zone, DayWalls(s.calendar, day), bound, backward, best) == Ok(r)
    ensures best.Some? ==> r.Some? && NotWorse(r.value, best.value, backward)
    ensures Day(w) == day && Candidate(s, bound, backward, w, ms) ==> r.Some? && NotWorse(r.value, ms, backward)
    ensures r == best || (r.Some? && Day(from) == day && Candidate(s, bound, backward, from, r.value))
  {
    ConsiderAllIsBest(s.zone, DayWalls(s.calendar, day), bound, backward, best, r);
    from := 0;
    if r != best {
      from :| from in DayWalls(s.calendar, day) && Resolve(s.zone, from) == Ok(r) && Hit(r.value, bound, backward);
      DayWallsAreMatching(s.calendar, day, from);
    }
  }

  /** Every instant the search returns was hit on a visited day. */
  lemma {:induction false} SearchIsSound(s: Compiled, bound: nat, backward: bool, day: int, stop: int, left: Option<nat>,
                                         best: Option<nat>, r: Option<nat>)
    requires s.zone.firstDay <= day <= s.zone.lastDay
    requires Search(s, bound, backward, day, stop, left, best) == Ok(r)
    ensures r == best ||
            (r.Some? && exists w :: Visits(s, backward, day, stop, Day(w)) && Candidate(s, bound, backward, w, r.value))
    decreases Ahead(backward, day, stop)
  {
    if Ahead(backward, day, stop) > 0 {
      var b := ConsiderAll(s.zone, DayWalls(s.calendar, day), bound, backward, best).value;
      var from := DayIsBest(s, day, bound, backward, best, b, 0, 0);
      var n := if left.Some? then left.value else 2;
      var next := day + Stride(backward);
      if !(b.Some? && n == 0) && s.zone.firstDay <= next <= s.zone.lastDay {
        SearchIsSound(s, bound, backward, next, stop, if b.Some? then Some(n - 1) else left, b, r);
        assert forall d :: Visits(s, backward, next, stop, d) ==> Visits(s, backward, day, stop, d);
      }
    }
  }

  /** The padding countdown: `w0` gave the first hit `ms0`, and `left` days of it remain after `day`. */
  ghost predicate Counting(s: Compiled, bound: nat, backward: bool, day: int, left: Option<nat>, best: Option<nat>, w0: int, ms0: nat) {
    && left.Some? == best.Some?
    && (left.Some? ==>
          && left.value <= 1 && Candidate(s, bound, backward, w0, ms0)
          && Ahead(backward, Day(w0), day) == 2 - left.value && NotWorse(best.value, ms0, backward))
  }

  /** The search never gives up its best for a worse one. */
  lemma {:induction false} SearchKeepsBest(s: Compiled, bound: nat, backward: bool, day: int, stop: int, left: Option<nat>,
                                           best: Option<nat>, r: Option<nat>)
    requires Search(s, bound, backward, day, stop, left, best) == Ok(r) && best.Some?
    ensures r.Some? && NotWorse(r.value, best.value, backward)
    decreases Ahead(backward, day, stop)
  {
    if Ahead(backward, day, stop) > 0 {
      var b := ConsiderAll(s.zone, DayWalls(s.calendar, day), bound, backward, best).value;
      var _ := DayIsBest(s, day, bound, backward, best, b, 0, 0);
      var n := if left.Some? then left.value else 2;
      var next := day + Stride(backward);
      if n != 0 && s.zone.firstDay <= next <= s.zone.lastDay {
        SearchKeepsBest(s, bound, backward, next, stop, Some(n - 1), b, r);
      }
    }
  }

  /** Stopping two days after the first hit loses nothing: the result is as good as any visited candidate. */
  lemma {:induction false} SearchIsBest(s: Compiled, bound: nat, backward: bool, day: int, stop: int, left: Option<nat>,
                                        best: Option<nat>, w0: int, ms0: nat, r: Option<nat>, w: int, ms: nat)
    requires DatesInOrder(s.zone) && s.zone.firstDay <= day <= s.zone.lastDay
    requires Search(s, bound, backward, day, stop, left, best) == Ok(r)
    requires Counting(s, bound, backward, day, left, best, w0, ms0)
    requires Candidate(s, bound, backward, w, ms) && Visits(s, backward, day, stop, Day(w))
    ensures r.Some? && NotWorse(r.value, ms, backward)
    decreases Ahead(backward, day, stop)
  {
    var b := ConsiderAll(s.zone, DayWalls(s.calendar, day), bound, backward, best).value;
    var from := DayIsBest(s, day, bound, backward, best, b, w, ms);
    var n := if left.Some? then left.value else 2;
    var next, left' := day + Stride(backward), if b.Some? then Some(n - 1) else left;
    if b.Some? && n == 0 {
      if Day(w) != day {
        FurtherIsWorse(s, bound, backward, w0, ms0, w, ms);
      }
    } else if Day(w) == day {
      if s.zone.firstDay <= next <= s.zone.lastDay {
        SearchKeepsBest(s, bound, backward, next, stop, left', b, r);
      }
    } else if left.None? && b.Some? {
      SearchIsBest(s, bound, backward, next, stop, left', b, from, b.value, r, w, ms);
    } else {
      SearchIsBest(s, bound, backward, next, stop, left', b, w0, ms0, r, w, ms);
    }
  }

  // ----- What next_after and the reverse search return -----

  ghost predicate Names(s: Compiled, lo: int, hi: int, w: int, ms: nat) {
    lo <= Day(w) <= hi && s.zone.firstDay <= Day(w) <= s.zone.lastDay &&
    Matching(s.calendar, w) && RunsAt(s.zone, w, ms)
  }

  /** Some matching wall dated from `lo` through `hi` runs at `ms`. */
  ghost predicate OccursBetween(s: Compiled, lo: int, hi: int, ms: nat) {
    exists w :: Names(s, lo, hi, w, ms)
  }

  /** The dates a search from `bound` covers: [first, last] forwards, [earliest, today] backwards. */
  ghost function LastDate(s: Compiled, bound: nat): int
    requires LocalDay(s.zone, bound).Ok?
  {
    LocalDay(s.zone, bound).value + HORIZON - 3
  }

  ghost function EarliestDate(s: Compiled, bound: nat): int
    requires LocalDay(s.zone, bound).Ok?
  {
    LocalDay(s.zone, bound).value - HORIZON + 1
  }

  lemma PastWallsResolvePast(z: Zone, bound: nat, w: int, ms: nat)
    requires EarlierDatesPassed(z) && LocalDay(z, bound).Ok?
    requires RunsAt(z, w, ms) && Day(w) < LocalDay(z, bound).value - 2
    ensures ms <= bound
  {
    var land :| land <= w + 48 * 60 && LandsOn(z, w, land, ms);
    assert Day(land) <= Day(w) + 2;
  }

  lemma FutureWallsResolveLater(z: Zone, since: int, bound: nat, w: int, ms: nat)
    requires AheadSince(z, since, bound) && LocalDay(z, bound).Ok? && ms > since
    requires RunsAt(z, w, ms) && LocalDay(z, bound).value < Day(w) <= z.lastDay
    ensures ms > bound
  {
    var land :| land <= w + 48 * 60 && LandsOn(z, w, land, ms);
    assert Day(w) <= Day(land);
  }

  /** What a search says about one wall it visits, and where its answer comes from. */
  lemma {:induction false} SearchMeans(s: Compiled, bound: nat, backward: bool, day: int, lo: int, hi: int, r: Option<nat>)
    requires DatesInOrder(s.zone) && s.zone.firstDay <= day <= s.zone.lastDay
    requires Search(s, bound, backward, day, StopDay(day, backward), None, None) == Ok(r)
    requires if backward then hi == day && lo == day - HORIZON + 1 else lo == day && hi == day + HORIZON - 1
    ensures r.Some? ==> Hit(r.value, bound, backward) && OccursBetween(s, lo, hi, r.value)
    ensures forall w, ms :: Names(s, lo, hi, w, ms) && Hit(ms, bound, backward) ==> r.Some? && NotWorse(r.value, ms, backward)
  {
    SearchIsSound(s, bound, backward, day, StopDay(day, backward), None, None, r);
    if r.Some? {
      var w :| Visits(s, backward, day, StopDay(day, backward), Day(w)) && Candidate(s, bound, backward, w, r.value);
      DayWallsAreMatching(s.calendar, Day(w), w);
      ResolvedIff(s.zone, w, r.value);
      assert Names(s, lo, hi, w, r.value);
    }
    forall w, ms: nat | Names(s, lo, hi, w, ms) && Hit(ms, bound, backward)
      ensures r.Some? && NotWorse(r.value, ms, backward)
    {
      DayWallsAreMatching(s.calendar, Day(w), w);
      ResolvedIff(s.zone, w, ms);
      SearchIsBest(s, bound, backward, day, StopDay(day, backward), None, None, 0, 0, r, w, ms);
    }
  }

  /**
   * `next_after` returns the least occurrence after the bound, over every
   * matching wall dated up to the end of its horizon, however far in the past.
   */
  lemma {:induction false} NextIsLeast(s: Compiled, bound: nat, r: Option<nat>)
    requires DatesInOrder(s.zone) && EarlierDatesPassed(s.zone) && DatesInRange(s.zone)
    requires s.once.None? && Find(s, bound, false) == Ok(r)
    ensures LocalDay(s.zone, bound).Ok?
    ensures r.Some? ==> r.value > bound && OccursBetween(s, s.zone.firstDay, LastDate(s, bound), r.value)
    ensures forall ms :: ms > bound && OccursBetween(s, s.zone.firstDay, LastDate(s, bound), ms) ==>
              r.Some? && r.value <= ms
  {
    var start, last := LocalDay(s.zone, bound).value - 2, LastDate(s, bound);
    assert Search(s, bound, false, start, StopDay(start, false), None, None) == Ok(r);
    SearchMeans(s, bound, false, start, start, last, r);
    if r.Some? {
      var w :| Names(s, start, last, w, r.value);
      assert Names(s, s.zone.firstDay, last, w, r.value);
    }
    forall ms: nat | ms > bound && OccursBetween(s, s.zone.firstDay, last, ms)
      ensures r.Some? && r.value <= ms
    {
      var w :| Names(s, s.zone.firstDay, last, w, ms);
      if Day(w) < start {
        PastWallsResolvePast(s.zone, bound, w, ms);
      }
      assert Names(s, start, last, w, ms);
    }
  }

  /** In any zone the reverse search is exact among the walls dated up to the bound's local date. */
  lemma {:induction false} ReverseMeans(s: Compiled, bound: nat, r: Option<nat>)
    requires DatesInOrder(s.zone) && DatesInRange(s.zone) && s.once.None? && Find(s, bound, true) == Ok(r)
    ensures LocalDay(s.zone, bound).Ok?
    ensures var (lo, local) := (EarliestDate(s, bound), LocalDay(s.zone, bound).value);
            && (r.Some? ==> r.value <= bound && OccursBetween(s, lo, local, r.value))
            && forall ms: nat :: ms <= bound && OccursBetween(s, lo, local, ms) ==> r.Some? && ms <= r.value
  {
    var local, lo := LocalDay(s.zone, bound).value, EarliestDate(s, bound);
    assert Search(s, bound, true, local, StopDay(local, true), None, None) == Ok(r);
    SearchMeans(s, bound, true, local, lo, local, r);
    forall ms: nat | ms <= bound && OccursBetween(s, lo, local, ms) ensures r.Some? && ms <= r.value {
      var w :| Names(s, lo, local, w, ms);
    }
  }

  lemma OccursInWider(s: Compiled, lo: int, hi: int, lo': int, hi': int, ms: nat)
    requires lo' <= lo && hi <= hi' && OccursBetween(s, lo, hi, ms)
    ensures OccursBetween(s, lo', hi', ms)
  {
    var w :| Names(s, lo, hi, w, ms);
    assert Names(s, lo', hi', w, ms);
  }

  lemma {:induction false} AnyIsInCalendar(s: Compiled, lo: int, hi: int, ms: nat)
    requires OccursBetween(s, lo, hi, ms)
    ensures OccursBetween(s, s.zone.firstDay, s.zone.lastDay, ms)
  {
    var w :| Names(s, lo, hi, w, ms);
    assert Names(s, s.zone.firstDay, s.zone.lastDay, w, ms);
  }

  /** The exactness of the reverse search: nothing due after `since` and inside the horizon beats its answer. */
  ghost predicate LatestIsExact(s: Compiled, since: int, bound: nat) {
    var found := Find(s, bound, true);
    LocalDay(s.zone, bound).Ok? && found.Ok? ==>
      forall ms: nat :: since < ms <= bound && OccursBetween(s, EarliestDate(s, bound), s.zone.lastDay, ms) ==>
        found.value.Some? && ms <= found.value.value
  }

  /** A run no earlier than `ms`, and no later than the bound, of a wall dated in that range. */
  ghost predicate Followed(s: Compiled, lo: int, hi: int, bound: nat, ms: nat) {
    exists later: nat :: ms <= later <= bound && OccursBetween(s, lo, hi, later)
  }

  /** Every run due since is matched or followed by one of a wall dated up to the bound's local date. */
  ghost predicate NothingHidden(s: Compiled, since: int, bound: nat) {
    LocalDay(s.zone, bound).Ok? ==>
      forall ms: nat :: since < ms <= bound && OccursBetween(s, EarliestDate(s, bound), s.zone.lastDay, ms) ==>
        Followed(s, EarliestDate(s, bound), LocalDay(s.zone, bound).value, bound, ms)
  }

  lemma {:induction false} FollowedIff(s: Compiled, bound: nat, r: Option<nat>, ms: nat)
    requires DatesInOrder(s.zone) && DatesInRange(s.zone) && s.once.None? && Find(s, bound, true) == Ok(r)
    ensures LocalDay(s.zone, bound).Ok?
    ensures Followed(s, EarliestDate(s, bound), LocalDay(s.zone, bound).value, bound, ms) <==> r.Some? && ms <= r.value
  {
    ReverseMeans(s, bound, r);
    var (lo, local) := (EarliestDate(s, bound), LocalDay(s.zone, bound).value);
    if Followed(s, lo, local, bound, ms) {
      var later: nat :| ms <= later <= bound && OccursBetween(s, lo, local, later);
      assert r.Some? && later <= r.value;
    }
    if r.Some? && ms <= r.value {
      assert ms <= r.value <= bound && OccursBetween(s, lo, local, r.value);
    }
  }

  /** One schedule, one bound: the answer is the greatest due run exactly when no due run is hidden by the date going back. */
  lemma {:induction false} ExactIffNothingHidden(s: Compiled, since: int, bound: nat, r: Option<nat>)
    requires DatesInOrder(s.zone) && DatesInRange(s.zone) && s.once.None? && Find(s, bound, true) == Ok(r)
    ensures LatestIsExact(s, since, bound) <==> NothingHidden(s, since, bound)
  {
    forall ms: nat
      ensures LocalDay(s.zone, bound).Ok?
      ensures Followed(s, EarliestDate(s, bound), LocalDay(s.zone, bound).value, bound, ms) <==> r.Some? && ms <= r.value
    {
      FollowedIff(s, bound, r, ms);
    }
  }

  /** Where the date has not gone back across a wall named since, no schedule has anything hidden. */
  lemma {:induction false} AheadHidesNothing(s: Compiled, since: int, bound: nat)
    requires AheadSince(s.zone, since, bound)
    ensures NothingHidden(s, since, bound)
  {
    if LocalDay(s.zone, bound).Ok? {
      var (lo, local, hi) := (EarliestDate(s, bound), LocalDay(s.zone, bound).value, s.zone.lastDay);
      forall ms: nat | since < ms <= bound && OccursBetween(s, lo, hi, ms)
        ensures Followed(s, lo, local, bound, ms)
      {
        var w :| Names(s, lo, hi, w, ms);
        if Day(w) > local {
          FutureWallsResolveLater(s.zone, since, bound, w, ms);
        }
        assert Names(s, lo, local, w, ms);
        assert ms <= ms <= bound && OccursBetween(s, lo, local, ms);
      }
    }
  }

  /** The latest occurrence up to a bound at which no later-dated wall has been named. */
  lemma {:induction false} LatestIsGreatest(s: Compiled, bound: nat, r: Option<nat>)
    requires DatesInOrder(s.zone) && AheadAt(s.zone, bound) && DatesInRange(s.zone)
    requires s.once.None? && Find(s, bound, true) == Ok(r)
    ensures LocalDay(s.zone, bound).Ok? && LatestIsExact(s, -1, bound)
    ensures r.Some? ==> r.value <= bound && OccursBetween(s, EarliestDate(s, bound), s.zone.lastDay, r.value)
  {
    ReverseMeans(s, bound, r);
    AheadHidesNothing(s, -1, bound);
    ExactIffNothingHidden(s, -1, bound, r);
    if r.Some? {
      OccursInWider(s, EarliestDate(s, bound), LocalDay(s.zone, bound).value, EarliestDate(s, bound), s.zone.lastDay, r.value);
    }
  }

  lemma {:induction false} NoMatchFindsNothing(s: Compiled, bound: nat, day: int, stop: int)
    requires forall d :: d <= day ==> !s.calendar.matches(d)
    ensures Search(s, bound, true, day, stop, None, None) == Ok(None)
    decreases day - stop
  {
    if day > stop && s.zone.firstDay <= day - 1 <= s.zone.lastDay {
      NoMatchFindsNothing(s, bound, day - 1, stop);
    }
  }

  function OnlyWall(w: int): Calendar {
    Calendar(d => d == Day(w), [w % 1440 / 60], [w % 60])
  }

  lemma OnlyWallMatches(w: int)
    ensures Matching(OnlyWall(w), w)
  {
    PartsOfWall(w);
  }

  /** If a later-dated wall was already named at `b`, a calendar asking only for it defeats the search. */
  lemma {:induction false} MidnightFoldIsMissed(z: Zone, since: int, b: nat, w: int)
    requires DatesInRange(z) && LocalDay(z, b).Ok? && Earliest(z, w).Some?
    requires 0 <= Earliest(z, w).value && since < Earliest(z, w).value <= b && LocalDay(z, b).value < Day(w) <= z.lastDay
    ensures var s := Compiled(z, None, OnlyWall(w));
            && !LatestIsExact(s, since, b) && Find(s, b, true) == Ok(None)
            && OccursBetween(s, EarliestDate(s, b), z.lastDay, Earliest(z, w).value)
  {
    var c := OnlyWall(w);
    var s := Compiled(z, None, c);
    NoMatchFindsNothing(s, b, LocalDay(z, b).value, StopDay(LocalDay(z, b).value, true));
    assert Find(s, b, true) == Ok(None);
    OnlyWallMatches(w);
    var ms: nat := Earliest(z, w).value;
    assert LandsOn(z, w, w, ms);
    assert Names(s, EarliestDate(s, b), z.lastDay, w, ms);
    assert OccursBetween(s, EarliestDate(s, b), z.lastDay, ms);
  }

  lemma {:induction false} AheadMakesExact(z: Zone, since: int, b: nat, c: Calendar)
    requires DatesInOrder(z) && DatesInRange(z) && AheadSince(z, since, b)
    ensures LatestIsExact(Compiled(z, None, c), since, b)
  {
    var s := Compiled(z, None, c);
    AheadHidesNothing(s, since, b);
    if Find(s, b, true).Ok? {
      ExactIffNothingHidden(s, since, b, Find(s, b, true).value);
    }
  }

  /**
   * One call: at bound `b` the reverse search finds the latest run since a given
   * instant for every calendar precisely when, at `b`, the local date has not
   * been carried back across a wall first named since then.
   */
  lemma {:induction false} ReverseExactIffAhead(z: Zone, since: int, b: nat)
    requires DatesInOrder(z) && DatesInRange(z)
    ensures (forall c: Calendar :: LatestIsExact(Compiled(z, None, c), since, b)) <==> AheadSince(z, since, b)
  {
    if AheadSince(z, since, b) {
      forall c: Calendar ensures LatestIsExact(Compiled(z, None, c), since, b) {
        AheadMakesExact(z, since, b, c);
      }
    } else {
      var w :|
        LocalDay(z, b).Ok? && Earliest(z, w).Some? && Earliest(z, w).value >= 0 && Earliest(z, w).value > since &&
        LocalDay(z, b).value < Day(w) <= z.lastDay && Earliest(z, w).value <= b;
      MidnightFoldIsMissed(z, since, b, w);
      assert !LatestIsExact(Compiled(z, None, OnlyWall(w)), since, b);
    }
  }

  /** All calls: every calendar and every bound, precisely in zones where no fold ever crosses midnight. */
  lemma {:induction false} ReverseExactIffNoMidnightFold(z: Zone)
    requires DatesInOrder(z) && DatesInRange(z)
    ensures (forall c: Calendar, b: nat :: LatestIsExact(Compiled(z, None, c), -1, b)) <==> LaterDatesAhead(z)
  {
    if LaterDatesAhead(z) {
      forall c: Calendar, b: nat ensures LatestIsExact(Compiled(z, None, c), -1, b) {
        assert AheadAt(z, b);
        AheadMakesExact(z, -1, b, c);
      }
    } else {
      var b: nat :| !AheadAt(z, b);
      ReverseExactIffAhead(z, -1, b);
      var c: Calendar :| !LatestIsExact(Compiled(z, None, c), -1, b);
    }
  }

  /** A zone whose clock goes from 00:01 on day 1 back to 23:01 on day 0, as Newfoundland's once did. */
  function MidnightFold(): Zone {
    Zone(
      w => if w < 1381 then Single(60_000 * w)
           else if w < 1441 then Ambiguous(60_000 * w, 60_000 * (w + 60))
           else Single(60_000 * (w + 60)),
      ms => var minute := ms / 60_000;
            Some((if minute < 1441 then minute else minute - 60) / 1440),
      -10, 20, 1_000_000_000)
  }

  lemma {:induction false} MidnightFoldKeepsOrder()
    ensures var z := MidnightFold(); DatesInOrder(z) && EarlierDatesPassed(z) && DatesInRange(z)
  {
    var z := MidnightFold();
    forall v, w | Earliest(z, v).Some? && Earliest(z, w).Some? && Day(v) < Day(w)
      ensures Earliest(z, v).value < Earliest(z, w).value
    {
      assert v < w;
    }
  }

  /** At the second 23:10 of day 0 the search misses the run at midnight, ten minutes earlier. */
  lemma {:induction false} MidnightFoldExample(midnight: int, due: nat, now: nat)
    requires midnight == 1440 && due == 86_400_000 && now == 87_000_000
    ensures var z := MidnightFold();
            var s := Compiled(z, None, OnlyWall(midnight));
            && DatesInOrder(z) && EarlierDatesPassed(z) && DatesInRange(z)
            && due <= now && OccursBetween(s, z.firstDay, z.lastDay, due) && Find(s, now, true) == Ok(None)
  {
    var z := MidnightFold();
    var s := Compiled(z, None, OnlyWall(midnight));
    MidnightFoldKeepsOrder();
    assert Earliest(z, midnight) == Some(due) && LocalDay(z, now) == Ok(0);
    MidnightFoldIsMissed(z, -1, now, midnight);
    AnyIsInCalendar(s, EarliestDate(s, now), z.lastDay, due);
  }

  /** The damage is local: in that zone the condition fails during the repeated hour's first day only, from 00:01 to midnight again. */
  lemma {:induction false} MidnightFoldIsBrief(b: nat)
    ensures AheadAt(MidnightFold(), b) <==> !(86_460_000 <= b < 90_000_000)
  {
    var z := MidnightFold();
    if 86_460_000 <= b < 90_000_000 {
      assert LocalDay(z, b) == Ok(0) && Earliest(z, 1440) == Some(86_400_000);
    } else {
      forall w | LocalDay(z, b).Ok? && Earliest(z, w).Some? && LocalDay(z, b).value < Day(w) ensures Earliest(z, w).value > b {
        assert w >= 1440;
      }
    }
  }

  /** An hour skipped at 02:00 on day 1 and repeated at 02:00 on day 2. */
  function OrdinaryZone(): Zone {
    Zone(
      w => if w < 1560 then Single(60_000 * w)
           else if w < 1620 then Missing
           else if w < 3000 then Single(60_000 * (w - 60))
           else if w < 3060 then Ambiguous(60_000 * (w - 60), 60_000 * w)
           else Single(60_000 * w),
      ms => var minute := ms / 60_000;
            Some((if minute < 1560 || 3000 <= minute then minute else minute + 60) / 1440),
      -10, 20, 1_814_399_999)
  }

  /** Where the wall clock stands at a UTC minute. */
  function OrdinaryClock(minute: nat): nat {
    if minute < 1560 || 3000 <= minute then minute else minute + 60
  }

  lemma OrdinaryWall(w: int)
    ensures var z := OrdinaryZone();
            Earliest(z, w) == if 1560 <= w < 1620 then None else Some(60_000 * (if 1620 <= w < 3060 then w - 60 else w))
  {
  }

  lemma OrdinaryDate(b: nat)
    ensures LocalDay(OrdinaryZone(), b) == if b <= 1_814_399_999 then Ok(OrdinaryClock(b / 60_000) / 1440) else Err(InvalidTimestamp)
  {
  }

  lemma {:induction false} OrdinaryBefore(b: nat, w: int)
    requires b <= 1_814_399_999 && w < OrdinaryClock(b / 60_000) && !(1560 <= w < 1620) && Day(w) < Day(OrdinaryClock(b / 60_000))
    ensures Earliest(OrdinaryZone(), w).value <= b
  {
    OrdinaryWall(w);
  }

  lemma {:induction false} OrdinaryAfter(b: nat, w: int)
    requires b <= 1_814_399_999 && !(1560 <= w < 1620) && Day(OrdinaryClock(b / 60_000)) < Day(w)
    ensures Earliest(OrdinaryZone(), w).value > b
  {
    OrdinaryWall(w);
  }

  /** The laws ask no more than ordinary daylight saving gives. */
  lemma {:induction false} OrdinaryZoneIsLawful()
    ensures var z := OrdinaryZone();
            DatesInOrder(z) && EarlierDatesPassed(z) && LaterDatesAhead(z) && DatesInRange(z)
  {
    var z := OrdinaryZone();
    forall v, w | Earliest(z, v).Some? && Earliest(z, w).Some? && Day(v) < Day(w)
      ensures Earliest(z, v).value < Earliest(z, w).value
    {
      OrdinaryWall(v);
      OrdinaryWall(w);
    }
    forall b: nat, w | LocalDay(z, b).Ok? && Earliest(z, w).Some? && Day(w) < LocalDay(z, b).value
      ensures Earliest(z, w).value <= b
    {
      OrdinaryDate(b);
      OrdinaryWall(w);
      OrdinaryBefore(b, w);
    }
    forall b: nat ensures AheadAt(z, b) {
      forall w | LocalDay(z, b).Ok? && Earliest(z, w).Some? && LocalDay(z, b).value < Day(w) ensures Earliest(z, w).value > b {
        OrdinaryDate(b);
        OrdinaryWall(w);
        OrdinaryAfter(b, w);
      }
    }
    forall b: nat | LocalDay(z, b).Ok? ensures z.firstDay + 2 <= LocalDay(z, b).value <= z.lastDay {
      OrdinaryDate(b);
    }
  }

  /** In that zone 02:30 on day 1 does not exist; it runs when 03:00 begins, at 02:00 UTC. */
  lemma {:induction false} GapIsPushed(wall: int, ms: nat)
    requires wall == 1590 && ms == 93_600_000
    ensures Resolve(OrdinaryZone(), wall) == Ok(Some(ms))
  {
    assert LandsOn(OrdinaryZone(), wall, 1620, ms);
    ResolvedIff(OrdinaryZone(), wall, ms);
  }

  // ----- When searches succeed -----

  /** No wall of the zone lies in a gap of more than 48 hours. */
  ghost predicate NoLongGaps(z: Zone) {
    forall w :: !InLongGap(z, w)
  }

  /** Every timestamp has a local date, and every run of a wall of the calendar is a timestamp. */
  ghost predicate Convertible(z: Zone) {
    && (forall b: nat :: Timestamp(z, b) ==> LocalDay(z, b).Ok?)
    && (forall w, ms: nat :: z.firstDay <= Day(w) <= z.lastDay && RunsAt(z, w, ms) ==> Timestamp(z, ms))
  }

  /** The zone above is ordinary in this respect too. */
  lemma {:induction false} OrdinaryZoneIsConvertible()
    ensures NoLongGaps(OrdinaryZone()) && Convertible(OrdinaryZone())
  {
    var z := OrdinaryZone();
    forall w ensures !InLongGap(z, w) {
      assert z.at(w).Missing? ==> !z.at(w + 60).Missing?;
    }
    forall w, ms: nat | z.firstDay <= Day(w) <= z.lastDay && RunsAt(z, w, ms) ensures Timestamp(z, ms) {
      var land :| land <= w + 48 * 60 && LandsOn(z, w, land, ms);
      OrdinaryWall(land);
    }
  }

  lemma {:induction false} ConsiderAllSucceeds(z: Zone, walls: seq<int>, bound: nat, backward: bool, best: Option<nat>)
    requires NoLongGaps(z)
    ensures ConsiderAll(z, walls, bound, backward, best).Ok?
  {
    if walls != [] {
      UnresolvedIff(z, walls[0]);
      ConsiderAllSucceeds(z, walls[1..], bound, backward, Consider(z, walls[0], bound, backward, best).value);
    }
  }

  lemma {:induction false} SearchSucceeds(s: Compiled, bound: nat, backward: bool, day: int, stop: int, left: Option<nat>, best: Option<nat>)
    requires NoLongGaps(s.zone)
    ensures Search(s, bound, backward, day, stop, left, best).Ok?
    decreases Ahead(backward, day, stop)
  {
    if Ahead(backward, day, stop) > 0 {
      ConsiderAllSucceeds(s.zone, DayWalls(s.calendar, day), bound, backward, best);
      var b := ConsiderAll(s.zone, DayWalls(s.calendar, day), bound, backward, best).value;
      var n := if left.Some? then left.value else 2;
      var next := day + Stride(backward);
      if !(b.Some? && n == 0) && s.zone.firstDay <= next <= s.zone.lastDay {
        SearchSucceeds(s, bound, backward, next, stop, if b.Some? then Some(n - 1) else left, b);
      }
    }
  }

  /** Whatever a search of visited days returns is a timestamp. */
  lemma {:induction false} FoundIsTimestamp(s: Compiled, bound: nat, backward: bool, day: int, stop: int, r: Option<nat>)
    requires Convertible(s.zone) && s.zone.firstDay <= day <= s.zone.lastDay
    requires Search(s, bound, backward, day, stop, None, None) == Ok(r) && r.Some?
    ensures Timestamp(s.zone, r.value)
  {
    SearchIsSound(s, bound, backward, day, stop, None, None, r);
    var w :| Visits(s, backward, day, stop, Day(w)) && Candidate(s, bound, backward, w, r.value);
    ResolvedIff(s.zone, w, r.value);
  }

  /** In an ordinary zone a recurring search succeeds exactly from a timestamp, and a one-shot search always. */
  lemma {:induction false} FindSucceedsIff(s: Compiled, bound: nat, backward: bool)
    requires NoLongGaps(s.zone) && Convertible(s.zone) && DatesInRange(s.zone)
    requires s.once.Some? ==> Timestamp(s.zone, s.once.value)
    ensures Find(s, bound, backward).Ok? <==> s.once.Some? || Timestamp(s.zone, bound)
  {
    if s.once.None? && Timestamp(s.zone, bound) {
      var day := FirstDay(s.zone, LocalDay(s.zone, bound).value, backward);
      var stop := StopDay(day, backward);
      SearchSucceeds(s, bound, backward, day, stop, None, None);
      var r := Search(s, bound, backward, day, stop, None, None).value;
      if r.Some? {
        FoundIsTimestamp(s, bound, backward, day, stop, r);
      }
    }
  }

  /** Whatever a search returns is a timestamp. */
  lemma {:induction false} FindGivesTimestamp(s: Compiled, bound: nat, backward: bool, ms: nat)
    requires Find(s, bound, backward) == Ok(Some(ms))
    ensures Timestamp(s.zone, ms)
  {
  }
}
