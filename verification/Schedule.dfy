/**
 * Calendar scheduling over a local time zone. Wall times are minutes (day * 1440
 * + minute of day), instants are UTC milliseconds. The calendar is which days
 * match plus lists of hours and minutes; the zone says which instants, if any,
 * a wall time names, and which local date an instant falls on.
 */
module Schedule {
  import opened Basics

  const MAX_SAFE: nat := 9_007_199_254_740_991
  const GAP_MINUTES: nat := 48 * 60
  const HORIZON: nat := 8 * 366 + 4

  datatype ScheduleError = InvalidTimestamp | InvalidCount | InvalidInterval | TimezoneGap

  /** What local time names at a wall minute: one instant, two (a fold), or none (a gap). */
  datatype Local = Single(t: int) | Ambiguous(a: int, b: int) | Missing

  datatype Zone = Zone(at: int -> Local, localDay: nat -> Option<int>, firstDay: int, lastDay: int, lastInstant: nat)

  datatype Calendar = Calendar(matches: int -> bool, hours: seq<nat>, minutes: seq<nat>)

  datatype Compiled = Compiled(zone: Zone, once: Option<nat>, calendar: Calendar)

  type Found = Result<Option<nat>, ScheduleError>

  function Day(wall: int): int {
    wall / 1440
  }

  predicate Timestamp(z: Zone, ms: nat) {
    ms <= MAX_SAFE && ms <= z.lastInstant
  }

  /** The local date of an instant; conversion may leave the supported calendar. */
  function LocalDay(z: Zone, ms: nat): Result<int, ScheduleError> {
    if !Timestamp(z, ms) || z.localDay(ms).None? then Err(InvalidTimestamp) else Ok(z.localDay(ms).value)
  }

  function Earliest(z: Zone, wall: int): Option<int> {
    match z.at(wall)
    case Single(t) => Some(t)
    case Ambiguous(a, b) => Some(Min(a, b))
    case Missing => None
  }

  // ----- Resolving one wall time -----

  /** The first instant named at or after `wall`, giving up at `limit`. */
  function ResolveFrom(z: Zone, wall: int, limit: int): Found
    decreases limit - wall
  {
    if wall >= limit then Err(TimezoneGap)
    else match Earliest(z, wall)
      case Some(t) => Ok(if 0 <= t <= MAX_SAFE then Some(t) else None)
      case None => if Day(wall + 1) > z.lastDay then Ok(None) else ResolveFrom(z, wall + 1, limit)
  }

  function Resolve(z: Zone, wall: int): Found {
    ResolveFrom(z, wall, wall + GAP_MINUTES + 1)
  }

  method ResolveWall(z: Zone, start: int) returns (r: Found)
    ensures r == Resolve(z, start)
  {
    var wall := start;
    for k := 0 to GAP_MINUTES + 1
      invariant wall == start + k && Resolve(z, start) == ResolveFrom(z, wall, start + GAP_MINUTES + 1)
    {
      var instant := Earliest(z, wall);
      if instant.Some? {
        var t := instant.value;
        return Ok(if 0 <= t <= MAX_SAFE then Some(t) else None);
      }
      if Day(wall + 1) > z.lastDay {
        return Ok(None);
      }
      wall := wall + 1;
    }
    return Err(TimezoneGap);
  }

  // ----- What resolving means -----

  /** `t` is the instant local time names at `wall`: the earlier one if it names two. */
  predicate FirstNamed(z: Zone, wall: int, t: int) {
    match z.at(wall)
    case Single(u) => t == u
    case Ambiguous(a, b) => (t == a || t == b) && t <= a && t <= b
    case Missing => false
  }

  ghost predicate MissingThrough(z: Zone, from: int, to: int) {
    forall w :: from <= w < to ==> z.at(w).Missing?
  }

  /** Of the walls from `wall` on, `land` is the first that exists; a later one has to be dated inside the calendar. */
  ghost predicate LandsOn(z: Zone, wall: int, land: int, t: int) {
    wall <= land && FirstNamed(z, land, t) && MissingThrough(z, wall, land) && (land > wall ==> Day(land) <= z.lastDay)
  }

  /** A wall time runs at the first existing wall of the next 48 hours, if that is a representable instant. */
  ghost predicate RunsAt(z: Zone, wall: int, ms: nat) {
    ms <= 9_007_199_254_740_991 && exists land :: land <= wall + 48 * 60 && LandsOn(z, wall, land, ms)
  }

  /** Nothing exists for 48 hours, all of them inside the calendar. */
  ghost predicate InLongGap(z: Zone, wall: int) {
    MissingThrough(z, wall, wall + 48 * 60 + 1) && Day(wall + 48 * 60 + 1) <= z.lastDay
  }

  lemma {:induction false} ResolveFollows(z: Zone, wall: int, limit: int, land: int, t: int)
    requires land < limit && LandsOn(z, wall, land, t)
    ensures ResolveFrom(z, wall, limit) == Ok(if 0 <= t <= MAX_SAFE then Some(t) else None)
    decreases land - wall
  {
    if wall < land {
      assert z.at(wall).Missing? && Day(wall + 1) <= Day(land);
      ResolveFollows(z, wall + 1, limit, land, t);
    }
  }

  lemma {:induction false} ResolveGivesUp(z: Zone, wall: int, limit: int)
    requires wall <= limit && MissingThrough(z, wall, limit) && (wall < limit ==> Day(limit) <= z.lastDay)
    ensures ResolveFrom(z, wall, limit) == Err(TimezoneGap)
    decreases limit - wall
  {
    if wall < limit {
      assert z.at(wall).Missing? && Day(wall + 1) <= Day(limit);
      ResolveGivesUp(z, wall + 1, limit);
    }
  }

  /** What lies behind each outcome. */
  lemma {:induction false} ResolveLands(z: Zone, wall: int, limit: int) returns (land: int, t: int)
    requires wall <= limit
    ensures var r := ResolveFrom(z, wall, limit);
            && (r.Ok? && r.value.Some? ==> land < limit && LandsOn(z, wall, land, t) && 0 <= t <= MAX_SAFE && r.value.value == t)
            && (r == Ok(None) ==>
                  || (land < limit && LandsOn(z, wall, land, t) && !(0 <= t <= MAX_SAFE))
                  || (MissingThrough(z, wall, land) && wall < land <= limit && Day(land) > z.lastDay))
            && (r.Err? ==> r == Err(TimezoneGap) && MissingThrough(z, wall, limit) && (wall < limit ==> Day(limit) <= z.lastDay))
    decreases limit - wall
  {
    land, t := wall, 0;
    if wall < limit {
      match z.at(wall)
      case Single(u) => t := u;
      case Ambiguous(a, b) => t := Min(a, b);
      case Missing =>
        if Day(wall + 1) > z.lastDay {
          land := wall + 1;
        } else {
          land, t := ResolveLands(z, wall + 1, limit);
        }
    }
  }

  /** Exactly when a wall time runs, and when: a wall in a gap is pushed forward, never dropped. */
  lemma {:induction false} ResolvedIff(z: Zone, wall: int, ms: nat)
    ensures Resolve(z, wall) == Ok(Some(ms)) <==> RunsAt(z, wall, ms)
  {
    var land, t := ResolveLands(z, wall, wall + GAP_MINUTES + 1);
    if RunsAt(z, wall, ms) {
      var there :| there <= wall + 48 * 60 && LandsOn(z, wall, there, ms);
      ResolveFollows(z, wall, wall + GAP_MINUTES + 1, there, ms);
    }
  }

  /** Exactly when resolving fails. */
  lemma {:induction false} UnresolvedIff(z: Zone, wall: int)
    ensures Resolve(z, wall).Err? <==> InLongGap(z, wall)
    ensures Resolve(z, wall).Err? ==> Resolve(z, wall) == Err(TimezoneGap)
  {
    var land, t := ResolveLands(z, wall, wall + GAP_MINUTES + 1);
    if InLongGap(z, wall) {
      ResolveGivesUp(z, wall, wall + GAP_MINUTES + 1);
    }
  }

  /** Exactly when a wall time is passed over: its instant is not representable, or the calendar ends inside the gap. */
  lemma {:induction false} PassedOverIff(z: Zone, wall: int)
    ensures Resolve(z, wall) == Ok(None) <==>
            || (exists land, t :: land <= wall + 48 * 60 && LandsOn(z, wall, land, t) && !(0 <= t <= 9_007_199_254_740_991))
            || (exists end :: wall < end <= wall + 48 * 60 + 1 && MissingThrough(z, wall, end) && Day(end) > z.lastDay)
  {
    var limit := wall + GAP_MINUTES + 1;
    var land, t := ResolveLands(z, wall, limit);
    if there, u :| there <= wall + 48 * 60 && LandsOn(z, wall, there, u) && !(0 <= u <= 9_007_199_254_740_991) {
      ResolveFollows(z, wall, limit, there, u);
    }
    if end :| wall < end <= wall + 48 * 60 + 1 && MissingThrough(z, wall, end) && Day(end) > z.lastDay {
      RunsOffCalendar(z, wall, limit, end);
    }
  }

  lemma {:induction false} RunsOffCalendar(z: Zone, wall: int, limit: int, end: int)
    requires wall < end <= limit && MissingThrough(z, wall, end) && Day(end) > z.lastDay
    ensures ResolveFrom(z, wall, limit) == Ok(None)
    decreases end - wall
  {
    assert z.at(wall).Missing?;
    if Day(wall + 1) <= z.lastDay {
      RunsOffCalendar(z, wall + 1, limit, end);
    }
  }

  // ----- One day's walls -----

  function WallAt(day: int, hour: nat, minute: nat): int {
    1440 * day + 60 * hour + minute
  }

  /** Walls still to visit on `day` from the given hour and minute positions on. */
  function WallsFrom(c: Calendar, day: int, h: nat, m: nat): seq<int>
    requires h <= |c.hours| && m <= |c.minutes|
    decreases |c.hours| - h, |c.minutes| - m
  {
    if h == |c.hours| then []
    else if m == |c.minutes| then WallsFrom(c, day, h + 1, 0)
    else if c.hours[h] < 24 && c.minutes[m] < 60 then
      [WallAt(day, c.hours[h], c.minutes[m])] + WallsFrom(c, day, h, m + 1)
    else WallsFrom(c, day, h, m + 1)
  }

  function DayWalls(c: Calendar, day: int): seq<int> {
    if c.matches(day) then WallsFrom(c, day, 0, 0) else []
  }

  /** Some hour and minute of the calendar, from the given positions on, name this wall. */
  ghost predicate NamedFrom(c: Calendar, day: int, h: nat, m: nat, wall: int) {
    exists i, j ::
      0 <= i < |c.hours| && 0 <= j < |c.minutes| && (h < i || (h == i && m <= j)) &&
      c.hours[i] < 24 && c.minutes[j] < 60 && wall == WallAt(day, c.hours[i], c.minutes[j])
  }

  /** The calendar asks for this wall time: its date matches, and its hour and minute are listed. */
  ghost predicate Matching(c: Calendar, wall: int) {
    c.matches(Day(wall)) && wall % 1440 / 60 in c.hours && wall % 60 in c.minutes
  }

  lemma WallParts(day: int, hour: nat, minute: nat)
    requires hour < 24 && minute < 60
    ensures var wall := WallAt(day, hour, minute);
            Day(wall) == day && wall % 1440 == 60 * hour + minute && wall % 1440 / 60 == hour && wall % 60 == minute
  {
    var wall := WallAt(day, hour, minute);
    assert wall == 60 * (24 * day + hour) + minute;
  }

  lemma {:induction false} PartsOfWall(wall: int)
    ensures var (hour, minute) := (wall % 1440 / 60, wall % 60);
            0 <= hour < 24 && 0 <= minute < 60 && wall == WallAt(Day(wall), hour, minute)
  {
    var (q, m) := (wall / 60, wall % 60);
    assert wall == 60 * q + m && q == 24 * (q / 24) + q % 24;
    assert wall == 1440 * (q / 24) + (60 * (q % 24) + m);
  }

  lemma {:induction false} WallsFromAreNamed(c: Calendar, day: int, h: nat, m: nat, wall: int)
    requires h <= |c.hours| && m <= |c.minutes|
    ensures wall in WallsFrom(c, day, h, m) <==> NamedFrom(c, day, h, m, wall)
    decreases |c.hours| - h, |c.minutes| - m
  {
    if h < |c.hours| {
      if m == |c.minutes| {
        WallsFromAreNamed(c, day, h + 1, 0, wall);
      } else {
        WallsFromAreNamed(c, day, h, m + 1, wall);
        var here := WallAt(day, c.hours[h], c.minutes[m]);
        if wall == here && c.hours[h] < 24 && c.minutes[m] < 60 {
          assert NamedFrom(c, day, h, m, wall);
        }
      }
    }
  }

  /** The nested hour and minute loops visit exactly the matching walls of a day. */
  lemma {:induction false} DayWallsAreMatching(c: Calendar, day: int, wall: int)
    ensures wall in DayWalls(c, day) <==> Day(wall) == day && Matching(c, wall)
  {
    WallsFromAreNamed(c, day, 0, 0, wall);
    if NamedFrom(c, day, 0, 0, wall) {
      var i, j :| 0 <= i < |c.hours| && 0 <= j < |c.minutes| && c.hours[i] < 24 && c.minutes[j] < 60 &&
                  wall == WallAt(day, c.hours[i], c.minutes[j]);
      WallParts(day, c.hours[i], c.minutes[j]);
    }
    if Day(wall) == day && Matching(c, wall) {
      PartsOfWall(wall);
      var i :| 0 <= i < |c.hours| && c.hours[i] == wall % 1440 / 60;
      var j :| 0 <= j < |c.minutes| && c.minutes[j] == wall % 60;
      assert NamedFrom(c, day, 0, 0, wall);
    }
  }

  // ----- The best instant so far -----

  predicate Hit(ms: nat, bound: nat, backward: bool) {
    if backward then ms <= bound else ms > bound
  }

  predicate NotWorse(a: nat, b: nat, backward: bool) {
    if backward then a >= b else a <= b
  }

  function Improve(best: Option<nat>, ms: nat, backward: bool): Option<nat> {
    match best
    case None => Some(ms)
    case Some(prior) => Some(if backward then Max(prior, ms) else Min(prior, ms))
  }

  /** One wall's contribution to the best instant. */
  function Consider(z: Zone, wall: int, bound: nat, backward: bool, best: Option<nat>): Found {
    match Resolve(z, wall)
    case Err(e) => Err(e)
    case Ok(None) => Ok(best)
    case Ok(Some(ms)) => Ok(if Hit(ms, bound, backward) then Improve(best, ms, backward) else best)
  }

  function ConsiderAll(z: Zone, walls: seq<int>, bound: nat, backward: bool, best: Option<nat>): Found {
    if walls == [] then Ok(best)
    else match Consider(z, walls[0], bound, backward, best)
      case Err(e) => Err(e)
      case Ok(b) => ConsiderAll(z, walls[1..], bound, backward, b)
  }

  method ScanDay(s: Compiled, day: int, bound: nat, backward: bool, start: Option<nat>) returns (r: Found)
    ensures r == ConsiderAll(s.zone, DayWalls(s.calendar, day), bound, backward, start)
  {
    var best := start;
    var c := s.calendar;
    if c.matches(day) {
      for h := 0 to |c.hours|
        invariant ConsiderAll(s.zone, DayWalls(c, day), bound, backward, start) ==
                  ConsiderAll(s.zone, WallsFrom(c, day, h, 0), bound, backward, best)
      {
        for m := 0 to |c.minutes|
          invariant ConsiderAll(s.zone, DayWalls(c, day), bound, backward, start) ==
                    ConsiderAll(s.zone, WallsFrom(c, day, h, m), bound, backward, best)
        {
          if c.hours[h] < 24 && c.minutes[m] < 60 {
            var wall := WallAt(day, c.hours[h], c.minutes[m]);
            assert WallsFrom(c, day, h, m)[1..] == WallsFrom(c, day, h, m + 1);
            var resolved := ResolveWall(s.zone, wall);
            if resolved.Err? {
              return resolved;
            }
            if resolved.value.Some? && Hit(resolved.value.value, bound, backward) {
              best := Improve(best, resolved.value.value, backward);
            }
          }
        }
      }
    }
    r := Ok(best);
  }

  // ----- The day search -----

  function Stride(backward: bool): int {
    if backward then -1 else 1
  }

  /** Days between `here` and `there`, counted in the search direction. */
  function Ahead(backward: bool, here: int, there: int): int {
    if backward then here - there else there - here
  }

  /** Search days up to `stop`, exclusive; `left` is the padding countdown, started by the first hit. */
  function Search(s: Compiled, bound: nat, backward: bool, day: int, stop: int, left: Option<nat>, best: Option<nat>): Found
    decreases Ahead(backward, day, stop)
  {
    if Ahead(backward, day, stop) <= 0 then Ok(best)
    else match ConsiderAll(s.zone, DayWalls(s.calendar, day), bound, backward, best)
      case Err(e) => Err(e)
      case Ok(b) =>
        var n := if left.Some? then left.value else 2;
        var next := day + Stride(backward);
        if b.Some? && n == 0 then Ok(b)
        else if !(s.zone.firstDay <= next <= s.zone.lastDay) then Ok(b)
        else Search(s, bound, backward, next, stop, if b.Some? then Some(n - 1) else left, b)
  }

  function FirstDay(z: Zone, local: int, backward: bool): int {
    if backward || local - 2 < z.firstDay then local else local - 2
  }

  function StopDay(day: int, backward: bool): int {
    if backward then day - HORIZON else day + HORIZON
  }

  /** Every returned instant must itself convert to local time. */
  function Occurrence(z: Zone, ms: nat): Found {
    match LocalDay(z, ms)
    case Err(e) => Err(e)
    case Ok(_) => Ok(Some(ms))
  }

  function Labelled(z: Zone, found: Found): Found {
    if found.Ok? && found.value.Some? then Occurrence(z, found.value.value) else found
  }

  function Find(s: Compiled, bound: nat, backward: bool): Found {
    if s.once.Some? then
      if Hit(s.once.value, bound, backward) then Occurrence(s.zone, s.once.value) else Ok(None)
    else match LocalDay(s.zone, bound)
      case Err(e) => Err(e)
      case Ok(local) =>
        var day := FirstDay(s.zone, local, backward);
        Labelled(s.zone, Search(s, bound, backward, day, StopDay(day, backward), None, None))
  }

  method FindOccurrence(s: Compiled, bound: nat, backward: bool) returns (r: Found)
    ensures r == Find(s, bound, backward)
  {
    if s.once.Some? {
      return if Hit(s.once.value, bound, backward) then Occurrence(s.zone, s.once.value) else Ok(None);
    }
    var local := LocalDay(s.zone, bound);
    if local.Err? {
      return Err(local.error);
    }
    var day := FirstDay(s.zone, local.value, backward);
    var best: Option<nat> := None;
    var remaining: Option<nat> := None;
    ghost var stop := StopDay(day, backward);
    ghost var goal := Search(s, bound, backward, day, stop, None, None);
    var k := 0;
    while k < HORIZON
      invariant 0 <= k <= HORIZON
      invariant Ahead(backward, day, stop) == HORIZON - k
      invariant goal == Search(s, bound, backward, day, stop, remaining, best)
    {
      var scanned := ScanDay(s, day, bound, backward, best);
      if scanned.Err? {
        return scanned;
      }
      best := scanned.value;
      if best.Some? {
        var n := if remaining.Some? then remaining.value else 2;
        if n == 0 {
          assert goal == Ok(best);
          break;
        }
        remaining := Some(n - 1);
      }
      var next := day + Stride(backward);
      if !(s.zone.firstDay <= next <= s.zone.lastDay) {
        assert goal == Ok(best);
        break;
      }
      day, k := next, k + 1;
    }
    assert goal == Ok(best);
    r := Labelled(s.zone, Ok(best));
  }

  // ----- The public operations -----

  function NextAfter(s: Compiled, after: nat): Found {
    if Timestamp(s.zone, after) then Find(s, after, false) else Err(InvalidTimestamp)
  }

  method NextOccurrence(s: Compiled, after: nat) returns (r: Found)
    ensures r == NextAfter(s, after)
  {
    if !Timestamp(s.zone, after) {
      return Err(InvalidTimestamp);
    }
    r := FindOccurrence(s, after, false);
  }

  type Listing = Result<seq<nat>, ScheduleError>

  function PreviewFrom(s: Compiled, after: nat, count: nat): Listing
    decreases count
  {
    if count == 0 then Ok([])
    else match NextAfter(s, after)
      case Err(e) => Err(e)
      case Ok(None) => Ok([])
      case Ok(Some(item)) => Extend([item], PreviewFrom(s, item, count - 1))
  }

  function Extend(front: seq<nat>, rest: Listing): Listing {
    if rest.Ok? then Ok(front + rest.value) else rest
  }

  lemma ExtendTwice(a: seq<nat>, b: seq<nat>, rest: Listing)
    ensures Extend(a, Extend(b, rest)) == Extend(a + b, rest)
    ensures Extend([], rest) == rest
  {
    if rest.Ok? {
      assert a + (b + rest.value) == (a + b) + rest.value;
      assert [] + rest.value == rest.value;
    }
  }

  method Preview(s: Compiled, afterMs: nat, count: nat) returns (r: Listing)
    ensures !(1 <= count <= 50) ==> r == Err(InvalidCount)
    ensures 1 <= count <= 50 ==> r == PreviewFrom(s, afterMs, count)
  {
    if !(1 <= count <= 50) {
      return Err(InvalidCount);
    }
    if !Timestamp(s.zone, afterMs) {
      return Err(InvalidTimestamp);
    }
    var result: seq<nat>, after := [], afterMs;
    ghost var goal := PreviewFrom(s, afterMs, count);
    ExtendTwice([], [], goal);
    for k := 0 to count
      invariant goal == Extend(result, PreviewFrom(s, after, count - k))
    {
      var item := NextOccurrence(s, after);
      if item.Err? {
        return Err(item.error);
      }
      if item.value.None? {
        assert result + [] == result;
        return Ok(result);
      }
      ExtendTwice(result, [item.value.value], PreviewFrom(s, item.value.value, count - k - 1));
      after, result := item.value.value, result + [item.value.value];
    }
    assert result + [] == result;
    r := Ok(result);
  }

  datatype Missed = Missed(after: nat, through: nat)

  datatype CatchUp = CatchUp(latest: Option<nat>, missed: Option<Missed>, next: Option<nat>)

  function Newer(found: Option<nat>, than: nat): Option<nat> {
    if found.Some? && found.value > than then found else None
  }

  function CatchUpFrom(s: Compiled, from: nat, now: nat): Result<CatchUp, ScheduleError> {
    if !Timestamp(s.zone, from) || !Timestamp(s.zone, now) then Err(InvalidTimestamp)
    else if from > now then Err(InvalidInterval)
    else match Find(s, now, true)
      case Err(e) => Err(e)
      case Ok(found) =>
        var latest := Newer(found, from);
        match (if latest.Some? && latest.value > 0 then Find(s, latest.value - 1, true) else Ok(None))
        case Err(e) => Err(e)
        case Ok(earlier) =>
          var previous := Newer(earlier, from);
          match NextAfter(s, now)
          case Err(e) => Err(e)
          case Ok(next) =>
            Ok(CatchUp(latest, if previous.Some? then Some(Missed(from, previous.value)) else None, next))
  }
}
