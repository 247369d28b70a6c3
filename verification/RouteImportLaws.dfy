/** What every import keeps: nothing lost, nothing charged twice, safe to repeat. */
module RouteImportLaws {
  import opened Basics
  import opened RouteImport

  function Elements<T(==)>(s: seq<T>): set<T> {
    set x | x in s
  }

  // ----- Identities -----

  /** No digest collision among `known`, and timestamps without blanks. */
  ghost predicate Distinguishes(c: Codec, known: set<Route>) {
    && (forall r :: r in known ==> |c.digest(r)| == 64 && ' ' !in r.ts)
    && forall r, q :: r in known && q in known && c.digest(r) == c.digest(q) ==> r == q
  }

  lemma ProvenanceIsIdentity(c: Codec, known: set<Route>, r: Route, q: Route)
    requires Distinguishes(c, known) && r in known && q in known && Provenance(c, r) == Provenance(c, q)
    ensures r == q
  {
    var p := Provenance(c, r);
    assert p[|p| - 64..] == c.digest(r);
    assert p[|p| - 64..] == c.digest(q);
  }

  lemma ProvenanceIsNotLegacy(c: Codec, known: set<Route>, r: Route, q: Route)
    requires Distinguishes(c, known) && q in known
    ensures Provenance(c, r) != LegacyProvenance(q)
  {
    var full, bare := Provenance(c, r), LegacyProvenance(q);
    assert full[14 + |r.ts|] == ' ';
    assert forall i :: 14 <= i < |bare| ==> bare[i] == q.ts[i - 14];
  }

  lemma StoredRowsAreUnmatchable(c: Codec, known: set<Route>, rows: seq<Row>, r: Route)
    requires Distinguishes(c, known) && Provs(rows) <= KnownProvs(c, known) && r in known
    ensures LegacyKey(c, r) !in multiset(Keys(rows))
  {
    forall i | 0 <= i < |rows| ensures KeyOf(rows[i]) != LegacyKey(c, r) {
      assert rows[i].provenance in Provs(rows);
      var q :| q in known && Provenance(c, q) == rows[i].provenance;
      ProvenanceIsNotLegacy(c, known, q, r);
    }
  }

  // ----- Rows as texts -----

  function Either(s: Option<string>, other: string): string {
    if s.Some? then s.value else other
  }

  /** Summary, payload and confidence of the row are this route's, spelled out. */
  ghost predicate Describes(c: Codec, r: Route, row: Row) {
    && row.summary == "route " + r.persona + "/" + r.role + " \U{2192} " + r.model
    && row.payload == r.cwd + "\nreason=" + r.reason + "\nconfidence=" + c.decimals(r.confidence) +
                      "\nalternate=" + Either(r.alternate, "-") + "\nfallback=" + Either(r.fallback, "-")
    && row.confidence == r.confidence
  }

  /** The row an import stores for the route. */
  ghost predicate IsRowFor(c: Codec, r: Route, row: Row) {
    && row.provenance == "route.jsonl @ " + r.ts + " sha256:" + c.digest(r) && Describes(c, r, row)
    && row.retention == "activity" && row.tags == ["activity", "self-learn", r.role]
  }

  /** An older row, known by timestamp only, that says the same of the route. */
  ghost predicate IsLegacyRowFor(c: Codec, r: Route, row: Row) {
    row.provenance == "route.jsonl @ " + r.ts && Describes(c, r, row)
  }

  /** Nothing about the route that an older row would not have kept. */
  predicate HasNoExtras(r: Route) {
    r.tools == [] && r.correlation == None && r.stage == None
  }

  lemma {:induction false} NewRowIsFor(c: Codec, r: Route, row: Row)
    requires row == NewRow(c, r)
    ensures IsRowFor(c, r, row)
  {
    assert "route.jsonl @ " + r.ts + (" sha256:" + c.digest(r)) == "route.jsonl @ " + r.ts + " sha256:" + c.digest(r);
  }

  lemma {:induction false} KeyIffLegacyRow(c: Codec, r: Route, row: Row)
    ensures KeyOf(row) == LegacyKey(c, r) <==> IsLegacyRowFor(c, r, row)
    ensures Plain(r) <==> HasNoExtras(r)
  {
  }

  // ----- What every step keeps -----

  ghost function KnownProvs(c: Codec, known: set<Route>): set<string> {
    set r | r in known :: Provenance(c, r)
  }

  ghost predicate Kept(c: Codec, existing: seq<Row>, known: set<Route>, st: State) {
    && st.already == Provs(existing) + Provs(st.stored) + RouteProvs(c, st.charged)
    && multiset(LegacyKeys(c, st.charged)) + st.legacy == multiset(Keys(existing))
    && Distinct(st.charged)
    && (forall r :: r in st.charged ==> r in known && Plain(r) && Provenance(c, r) !in Provs(existing) + Provs(st.stored))
    && Provs(st.stored) <= KnownProvs(c, known) && Provs(st.stored) !! Provs(existing)
    && (forall i, j :: 0 <= i < j < |st.stored| ==> st.stored[i].provenance != st.stored[j].provenance)
  }

  lemma ProvsSnoc(rows: seq<Row>, row: Row)
    ensures Provs(rows + [row]) == Provs(rows) + {row.provenance}
  {
  }

  lemma RouteProvsSnoc(c: Codec, rs: seq<Route>, r: Route)
    ensures RouteProvs(c, rs + [r]) == RouteProvs(c, rs) + {Provenance(c, r)}
  {
  }

  lemma LegacyKeysSnoc(c: Codec, rs: seq<Route>, r: Route)
    ensures LegacyKeys(c, rs + [r]) == LegacyKeys(c, rs) + [LegacyKey(c, r)]
  {
  }

  lemma MoveOne<T>(a: multiset<T>, b: multiset<T>, x: T)
    requires x in b
    ensures (a + multiset{x}) + (b - multiset{x}) == a + b
  {
  }

  lemma ChargeKeeps(c: Codec, existing: seq<Row>, known: set<Route>, st: State, r: Route)
    requires r in known && Kept(c, existing, known, st)
    requires Provenance(c, r) !in st.already && Chargeable(c, st, r)
    ensures Kept(c, existing, known, Step(c, st, r))
  {
    RouteProvsSnoc(c, st.charged, r);
    LegacyKeysSnoc(c, st.charged, r);
    MoveOne(multiset(LegacyKeys(c, st.charged)), st.legacy, LegacyKey(c, r));
    forall q | q in st.charged ensures q != r {
      assert Provenance(c, q) in RouteProvs(c, st.charged);
    }
  }

  lemma StoreKeeps(c: Codec, existing: seq<Row>, known: set<Route>, st: State, r: Route)
    requires r in known && Kept(c, existing, known, st) && WouldStore(c, st, r)
    ensures Kept(c, existing, known, Step(c, st, r))
  {
    ProvsSnoc(st.stored, NewRow(c, r));
    assert Provenance(c, r) in KnownProvs(c, known);
    forall i | 0 <= i < |st.stored| ensures st.stored[i].provenance != Provenance(c, r) {
      assert st.stored[i].provenance in Provs(st.stored);
    }
    forall q | q in st.charged ensures Provenance(c, q) != Provenance(c, r) {
      assert Provenance(c, q) in RouteProvs(c, st.charged);
    }
  }

  lemma StepKeeps(c: Codec, existing: seq<Row>, known: set<Route>, st: State, r: Route)
    requires r in known && Kept(c, existing, known, st)
    ensures Kept(c, existing, known, Step(c, st, r))
  {
    if WouldStore(c, st, r) {
      StoreKeeps(c, existing, known, st, r);
    } else if Provenance(c, r) !in st.already {
      ChargeKeeps(c, existing, known, st, r);
    }
  }

  lemma {:induction false} ImportKeeps(c: Codec, existing: seq<Row>, known: set<Route>, st: State, routes: seq<Route>, allowance: Option<nat>)
    requires (forall r :: r in routes ==> r in known) && Kept(c, existing, known, st)
    ensures Kept(c, existing, known, Import(c, st, routes, allowance).st)
    decreases |routes|
  {
    if routes != [] && !(WouldStore(c, st, routes[0]) && allowance == Some(|st.stored|)) {
      StepKeeps(c, existing, known, st, routes[0]);
      ImportKeeps(c, existing, known, Step(c, st, routes[0]), routes[1..], allowance);
    }
  }

  lemma StartKept(c: Codec, existing: seq<Row>, known: set<Route>)
    ensures Kept(c, existing, known, Start(existing))
  {
  }

  /** Append-only: an import only adds rows, and what was already known stays known. */
  lemma {:induction false} ImportAppends(c: Codec, st: State, routes: seq<Route>, allowance: Option<nat>)
    ensures var end := Import(c, st, routes, allowance).st;
            st.stored <= end.stored && st.charged <= end.charged && st.already <= end.already
    ensures Import(c, st, routes, allowance).ok ==>
              forall r :: r in routes ==> Provenance(c, r) in Import(c, st, routes, allowance).st.already
    decreases |routes|
  {
    if routes != [] && !(WouldStore(c, st, routes[0]) && allowance == Some(|st.stored|)) {
      ImportAppends(c, Step(c, st, routes[0]), routes[1..], allowance);
    }
  }

  /**
   * Lossless: after a completed import every route is stored under its own
   * provenance or charged; a charged route is plain and is not also stored.
   */
  lemma {:induction false} ImportLosesNothing(c: Codec, existing: seq<Row>, routes: seq<Route>, allowance: Option<nat>, r: Route)
    requires Distinguishes(c, Elements(routes)) && r in routes
    requires Import(c, Start(existing), routes, allowance).ok
    ensures var end := Import(c, Start(existing), routes, allowance).st;
            && (r in end.charged <==> Provenance(c, r) !in Provs(existing + end.stored))
            && (r in end.charged ==> HasNoExtras(r))
  {
    var known := Elements(routes);
    var end := Import(c, Start(existing), routes, allowance).st;
    StartKept(c, existing, known);
    ImportKeeps(c, existing, known, Start(existing), routes, allowance);
    ImportAppends(c, Start(existing), routes, allowance);
    assert Provs(existing + end.stored) == Provs(existing) + Provs(end.stored);
    if Provenance(c, r) !in Provs(existing + end.stored) {
      assert Provenance(c, r) in RouteProvs(c, end.charged);
      var q :| q in end.charged && Provenance(c, q) == Provenance(c, r);
      ProvenanceIsIdentity(c, known, r, q);
    }
  }

  function Without<T>(s: seq<T>, k: nat): seq<T>
    requires k < |s|
  {
    s[..k] + s[k + 1..]
  }

  lemma WithoutCounts<T>(s: seq<T>, k: nat)
    requires k < |s|
    ensures multiset(s) == multiset(Without(s, k)) + multiset{s[k]}
  {
    assert s == s[..k] + [s[k]] + s[k + 1..];
  }

  /** Dropping the same element from both sides keeps multiset inclusion. */
  lemma IncludeRest<T>(a: seq<T>, b: seq<T>, k: nat)
    requires a != [] && k < |b| && b[k] == a[0] && multiset(a) <= multiset(b)
    ensures multiset(a[1..]) <= multiset(Without(b, k))
  {
    WithoutCounts(b, k);
    WithoutCounts(a, 0);
    assert Without(a, 0) == a[1..];
    forall y ensures multiset(a[1..])[y] <= multiset(Without(b, k))[y] {
      assert multiset(a)[y] <= multiset(b)[y];
    }
  }

  ghost predicate Placed<T>(a: seq<T>, b: seq<T>, at: seq<nat>) {
    |at| == |a| && Distinct(at) && forall i :: 0 <= i < |at| ==> at[i] < |b| && b[at[i]] == a[i]
  }

  function Skip(at: seq<nat>, k: nat): seq<nat> {
    seq(|at|, i requires 0 <= i < |at| => if at[i] < k then at[i] else at[i] + 1)
  }

  lemma PlaceFirst<T>(a: seq<T>, b: seq<T>, k: nat, at: seq<nat>)
    requires a != [] && k < |b| && b[k] == a[0] && Placed(a[1..], Without(b, k), at)
    ensures Placed(a, b, [k] + Skip(at, k))
  {
    var all := [k] + Skip(at, k);
    forall i | 0 <= i < |all| ensures all[i] < |b| && b[all[i]] == a[i] {
      if i > 0 {
        assert Without(b, k)[at[i - 1]] == a[1..][i - 1];
      }
    }
  }

  /** Occurrences can be paired off with positions, each used once. */
  lemma {:induction false} Embed<T>(a: seq<T>, b: seq<T>) returns (at: seq<nat>)
    requires multiset(a) <= multiset(b)
    ensures Placed(a, b, at)
    decreases |a|
  {
    if a == [] {
      at := [];
    } else {
      assert a[0] in multiset(a) && a[0] in multiset(b);
      var k :| 0 <= k < |b| && b[k] == a[0];
      IncludeRest(a, b, k);
      var inner := Embed(a[1..], Without(b, k));
      PlaceFirst(a, b, k, inner);
      at := [k] + Skip(inner, k);
    }
  }

  /** Every charged route owns a legacy row with its projection, and no row is charged twice. */
  lemma {:induction false} ChargesAreDistinctRows(c: Codec, existing: seq<Row>, routes: seq<Route>, allowance: Option<nat>)
    returns (at: seq<nat>)
    ensures var charged := Import(c, Start(existing), routes, allowance).st.charged;
            && |at| == |charged| && Distinct(at)
            && forall i :: 0 <= i < |at| ==>
                 at[i] < |existing| && IsLegacyRowFor(c, charged[i], existing[at[i]]) && HasNoExtras(charged[i])
  {
    var known := Elements(routes);
    StartKept(c, existing, known);
    ImportKeeps(c, existing, known, Start(existing), routes, allowance);
    var charged := Import(c, Start(existing), routes, allowance).st.charged;
    at := Embed(LegacyKeys(c, charged), Keys(existing));
    forall i | 0 <= i < |at|
      ensures at[i] < |existing| && IsLegacyRowFor(c, charged[i], existing[at[i]]) && HasNoExtras(charged[i])
    {
      assert Keys(existing)[at[i]] == LegacyKeys(c, charged)[i] && charged[i] in charged;
      KeyIffLegacyRow(c, charged[i], existing[at[i]]);
    }
  }

  // ----- What is stored -----

  /** The rows stored after the first `n` are those of routes taken in order. */
  ghost predicate RowsFor(c: Codec, routes: seq<Route>, rows: seq<Row>, at: seq<nat>) {
    && |at| == |rows| && (forall i, j :: 0 <= i < j < |at| ==> at[i] < at[j])
    && forall i :: 0 <= i < |at| ==> at[i] < |routes| && IsRowFor(c, routes[at[i]], rows[i])
  }

  function Raised(at: seq<nat>): seq<nat> {
    seq(|at|, i requires 0 <= i < |at| => at[i] + 1)
  }

  lemma {:induction false} RowsForLater(c: Codec, routes: seq<Route>, rows: seq<Row>, at: seq<nat>)
    requires routes != [] && RowsFor(c, routes[1..], rows, at)
    ensures RowsFor(c, routes, rows, Raised(at))
  {
  }

  lemma {:induction false} RowsForFirst(c: Codec, routes: seq<Route>, rows: seq<Row>, at: seq<nat>, row: Row)
    requires routes != [] && RowsFor(c, routes[1..], rows, at) && IsRowFor(c, routes[0], row)
    ensures RowsFor(c, routes, [row] + rows, [0] + Raised(at))
  {
    RowsForLater(c, routes, rows, at);
    var (all, places) := ([row] + rows, [0] + Raised(at));
    forall i | 0 <= i < |places| ensures places[i] < |routes| && IsRowFor(c, routes[places[i]], all[i]) {
      if i > 0 {
        assert all[i] == rows[i - 1] && places[i] == Raised(at)[i - 1];
      }
    }
  }

  /** Every row an import appends is, field by field, that of one of the routes, and they come in the routes' order. */
  lemma {:induction false} StoredRowsBelong(c: Codec, st: State, routes: seq<Route>, allowance: Option<nat>) returns (at: seq<nat>)
    ensures var end := Import(c, st, routes, allowance).st.stored;
            st.stored <= end && RowsFor(c, routes, end[|st.stored|..], at)
    decreases |routes|
  {
    var end := Import(c, st, routes, allowance).st.stored;
    if routes == [] || (WouldStore(c, st, routes[0]) && allowance == Some(|st.stored|)) {
      at := [];
      assert end[|st.stored|..] == [];
    } else {
      var next := Step(c, st, routes[0]);
      var later := StoredRowsBelong(c, next, routes[1..], allowance);
      var rest := end[|next.stored|..];
      RowsForLater(c, routes, rest, later);
      at := Raised(later);
      if WouldStore(c, st, routes[0]) {
        var row := NewRow(c, routes[0]);
        NewRowIsFor(c, routes[0], row);
        RowsForFirst(c, routes, rest, later, row);
        assert next.stored == st.stored + [row] && end[|st.stored|..] == [row] + rest;
        at := [0] + at;
      }
    }
  }

  /** A plain route was stored only because no row was left to charge it to. */
  ghost predicate NoneLeft(c: Codec, known: set<Route>, st: State) {
    forall r :: r in known && Provenance(c, r) in Provs(st.stored) && Plain(r) ==> LegacyKey(c, r) !in st.legacy
  }

  lemma {:induction false} NoneLeftStep(c: Codec, known: set<Route>, st: State, q: Route)
    requires Distinguishes(c, known) && q in known && NoneLeft(c, known, st)
    ensures NoneLeft(c, known, Step(c, st, q))
  {
    var next := Step(c, st, q);
    forall r | r in known && Provenance(c, r) in Provs(next.stored) && Plain(r) ensures LegacyKey(c, r) !in next.legacy {
      if WouldStore(c, st, q) {
        ProvsSnoc(st.stored, NewRow(c, q));
        if Provenance(c, r) == Provenance(c, q) {
          ProvenanceIsIdentity(c, known, r, q);
        }
      }
    }
  }

  lemma {:induction false} NoneLeftRun(c: Codec, known: set<Route>, st: State, routes: seq<Route>, allowance: Option<nat>)
    requires Distinguishes(c, known) && NoneLeft(c, known, st) && forall r :: r in routes ==> r in known
    ensures NoneLeft(c, known, Import(c, st, routes, allowance).st)
    decreases |routes|
  {
    if routes != [] && !(WouldStore(c, st, routes[0]) && allowance == Some(|st.stored|)) {
      NoneLeftStep(c, known, st, routes[0]);
      NoneLeftRun(c, known, Step(c, st, routes[0]), routes[1..], allowance);
    }
  }

  /**
   * Charging goes as far as it can: if a route without extras was stored after
   * all, the older rows that say the same of it are all charged, one by one.
   */
  lemma {:induction false} StoredOnlyWhenNoneLeft(c: Codec, existing: seq<Row>, routes: seq<Route>, allowance: Option<nat>, r: Route)
    requires Distinguishes(c, Elements(routes)) && r in routes && HasNoExtras(r)
    requires Provenance(c, r) in Provs(Import(c, Start(existing), routes, allowance).st.stored)
    ensures var charged := Import(c, Start(existing), routes, allowance).st.charged;
            multiset(LegacyKeys(c, charged))[LegacyKey(c, r)] == multiset(Keys(existing))[LegacyKey(c, r)]
  {
    var (known, st, k) := (Elements(routes), Start(existing), LegacyKey(c, r));
    var end := Import(c, st, routes, allowance).st;
    StartKept(c, existing, known);
    ImportKeeps(c, existing, known, st, routes, allowance);
    NoneLeftAtStart(c, existing, known);
    NoneLeftRun(c, known, st, routes, allowance);
    KeptCounts(c, existing, known, end, k);
  }

  lemma NoneLeftAtStart(c: Codec, existing: seq<Row>, known: set<Route>)
    ensures NoneLeft(c, known, Start(existing))
  {
  }

  lemma KeptCounts(c: Codec, existing: seq<Row>, known: set<Route>, st: State, k: Key)
    requires Kept(c, existing, known, st)
    ensures multiset(LegacyKeys(c, st.charged))[k] + st.legacy[k] == multiset(Keys(existing))[k]
  {
    assert (multiset(LegacyKeys(c, st.charged)) + st.legacy)[k] == multiset(Keys(existing))[k];
  }

  // ----- Repeating an import -----

  function Map<T, U>(f: T -> U, s: seq<T>): seq<U> {
    seq(|s|, i requires 0 <= i < |s| => f(s[i]))
  }

  lemma {:induction false} MapIncludes<T, U>(f: T -> U, a: seq<T>, b: seq<T>)
    requires multiset(a) <= multiset(b)
    ensures multiset(Map(f, a)) <= multiset(Map(f, b))
    decreases |a|
  {
    if a != [] {
      assert a[0] in multiset(a) && a[0] in multiset(b);
      var k :| 0 <= k < |b| && b[k] == a[0];
      IncludeRest(a, b, k);
      MapIncludes(f, a[1..], Without(b, k));
      WithoutCounts(Map(f, b), k);
      WithoutCounts(Map(f, a), 0);
      assert Without(Map(f, b), k) == Map(f, Without(b, k));
      assert Without(Map(f, a), 0) == Map(f, a[1..]);
    }
  }

  lemma KeysInclude(a: seq<Row>, b: seq<Row>)
    requires multiset(a) <= multiset(b)
    ensures multiset(Keys(a)) <= multiset(Keys(b))
  {
    MapIncludes(KeyOf, a, b);
    assert Keys(a) == Map(KeyOf, a) && Keys(b) == Map(KeyOf, b);
  }

  lemma LegacyKeysInclude(c: Codec, a: seq<Route>, b: seq<Route>)
    requires multiset(a) <= multiset(b)
    ensures multiset(LegacyKeys(c, a)) <= multiset(LegacyKeys(c, b))
  {
    var f := r => LegacyKey(c, r);
    MapIncludes(f, a, b);
    assert LegacyKeys(c, a) == Map(f, a) && LegacyKeys(c, b) == Map(f, b);
  }

  lemma {:induction false} DistinctCountsOnce<T>(s: seq<T>, x: T)
    requires Distinct(s)
    ensures multiset(s)[x] <= 1
  {
    if s != [] {
      assert s == [s[0]] + s[1..];
      DistinctCountsOnce(s[1..], x);
      if x == s[0] {
        assert x !in s[1..];
      }
    }
  }

  lemma DistinctIncludes<T>(a: seq<T>, b: seq<T>)
    requires Distinct(a) && forall x :: x in a ==> x in b
    ensures multiset(a) <= multiset(b)
  {
    forall x ensures multiset(a)[x] <= multiset(b)[x] {
      DistinctCountsOnce(a, x);
      if x in a {
        assert x in multiset(b);
      }
    }
  }

  /** These routes can all be charged to `existing` at once. */
  ghost predicate Affordable(c: Codec, existing: seq<Row>, charged: seq<Route>) {
    multiset(LegacyKeys(c, charged)) <= multiset(Keys(existing)) && forall r :: r in charged ==> Plain(r)
  }

  /** Whatever was charged so far is among routes that can all be charged. */
  ghost predicate Quiet(c: Codec, existing: seq<Row>, known: set<Route>, charged: seq<Route>, st: State) {
    Kept(c, existing, known, st) && forall r :: r in st.charged ==> r in charged
  }

  lemma {:induction false} QuietStep(c: Codec, existing: seq<Row>, known: set<Route>, charged: seq<Route>, st: State, r: Route)
    requires Affordable(c, existing, charged) && Quiet(c, existing, known, charged, st) && r in known
    requires Provenance(c, r) in Provs(existing) || r in charged
    ensures !WouldStore(c, st, r) && Quiet(c, existing, known, charged, Step(c, st, r))
  {
    StepKeeps(c, existing, known, st, r);
    if Provenance(c, r) !in st.already {
      var more := st.charged + [r];
      forall q | q in st.charged ensures q != r {
        assert Provenance(c, q) in RouteProvs(c, st.charged);
      }
      DistinctIncludes(more, charged);
      LegacyKeysInclude(c, more, charged);
      LegacyKeysSnoc(c, st.charged, r);
      var k := LegacyKey(c, r);
      assert multiset(LegacyKeys(c, more))[k] == multiset(LegacyKeys(c, st.charged))[k] + 1;
      assert multiset(LegacyKeys(c, more))[k] <= multiset(LegacyKeys(c, charged))[k] <= multiset(Keys(existing))[k];
    }
  }

  lemma {:induction false} QuietRun(c: Codec, existing: seq<Row>, known: set<Route>, charged: seq<Route>, st: State,
                                    again: seq<Route>, allowance: Option<nat>)
    requires Affordable(c, existing, charged) && Quiet(c, existing, known, charged, st)
    requires forall r :: r in again ==> r in known && (Provenance(c, r) in Provs(existing) || r in charged)
    ensures Import(c, st, again, allowance).ok && Import(c, st, again, allowance).st.stored == st.stored
    decreases |again|
  {
    if again != [] {
      QuietStep(c, existing, known, charged, st, again[0]);
      QuietRun(c, existing, known, charged, Step(c, st, again[0]), again[1..], allowance);
    }
  }

  /** The different routes that no row carries the provenance of, as first met. */
  function Unseen(c: Codec, existing: seq<Row>, routes: seq<Route>): (u: seq<Route>)
    ensures Distinct(u) && forall r :: r in u <==> r in routes && Provenance(c, r) !in Provs(existing)
    decreases |routes|
  {
    if routes == [] then []
    else
      var (front, r) := (routes[..|routes| - 1], routes[|routes| - 1]);
      var u := Unseen(c, existing, front);
      assert routes == front + [r];
      if Provenance(c, r) in Provs(existing) || r in u then u else u + [r]
  }

  /** Every route has a row of its own, or a legacy row can be found for each of those that do not. */
  ghost predicate Backed(c: Codec, existing: seq<Row>, routes: seq<Route>) {
    Affordable(c, existing, Unseen(c, existing, routes))
  }

  lemma {:induction false} BackedBy(c: Codec, existing: seq<Row>, routes: seq<Route>, charged: seq<Route>)
    requires Affordable(c, existing, charged)
    requires forall r :: r in routes ==> Provenance(c, r) in Provs(existing) || r in charged
    ensures Backed(c, existing, routes)
  {
    var unseen := Unseen(c, existing, routes);
    DistinctIncludes(unseen, charged);
    LegacyKeysInclude(c, unseen, charged);
  }

  /** A completed import found a row, its own or a legacy one, for everything it did not store. */
  lemma {:induction false} RestIsBacked(c: Codec, existing: seq<Row>, routes: seq<Route>, some: seq<Route>)
    requires Distinguishes(c, Elements(routes)) && Import(c, Start(existing), routes, None).ok
    requires forall r :: r in some ==> r in routes && Provenance(c, r) !in Provs(Import(c, Start(existing), routes, None).st.stored)
    ensures Backed(c, existing, some)
  {
    var (known, end) := (Elements(routes), Import(c, Start(existing), routes, None).st);
    StartKept(c, existing, known);
    ImportKeeps(c, existing, known, Start(existing), routes, None);
    assert Provs(existing + end.stored) == Provs(existing) + Provs(end.stored);
    forall r | r in some ensures Provenance(c, r) in Provs(existing) || r in end.charged {
      ImportLosesNothing(c, existing, routes, None, r);
    }
    BackedBy(c, existing, some, end.charged);
  }

  /** An import stores nothing exactly when the rows it looks at back every route. */
  lemma {:induction false} QuietIffBacked(c: Codec, existing: seq<Row>, routes: seq<Route>, allowance: Option<nat>)
    requires Distinguishes(c, Elements(routes))
    ensures Import(c, Start(existing), routes, allowance).ok && Import(c, Start(existing), routes, allowance).st.stored == []
       <==> Backed(c, existing, routes)
  {
    if Backed(c, existing, routes) {
      StartKept(c, existing, Elements(routes));
      QuietRun(c, existing, Elements(routes), Unseen(c, existing, routes), Start(existing), routes, allowance);
    }
    if Import(c, Start(existing), routes, allowance).ok && Import(c, Start(existing), routes, allowance).st.stored == [] {
      CompletedIsWhole(c, Start(existing), routes, allowance);
      RestIsBacked(c, existing, routes, routes);
    }
  }

  /** A limited run is the unlimited one, cut short at its limit. */
  lemma {:induction false} CompletedIsWhole(c: Codec, st: State, routes: seq<Route>, allowance: Option<nat>)
    requires allowance.Some? ==> |st.stored| <= allowance.value
    ensures var (run, whole) := (Import(c, st, routes, allowance), Import(c, st, routes, None));
            && whole.ok && run.st.stored <= whole.st.stored && (run.ok ==> run == whole)
            && (!run.ok ==> allowance.Some? && |run.st.stored| == allowance.value < |whole.st.stored|)
    decreases |routes|
  {
    if routes != [] {
      if WouldStore(c, st, routes[0]) && allowance == Some(|st.stored|) {
        ImportAppends(c, Step(c, st, routes[0]), routes[1..], None);
        NeverFails(c, st, routes);
      } else {
        CompletedIsWhole(c, Step(c, st, routes[0]), routes[1..], allowance);
      }
    }
  }

  lemma {:induction false} NeverFails(c: Codec, st: State, routes: seq<Route>)
    ensures Import(c, st, routes, None).ok
    decreases |routes|
  {
    if routes != [] {
      NeverFails(c, Step(c, st, routes[0]), routes[1..]);
    }
  }

  lemma SameRowsSameKeys(a: seq<Row>, b: seq<Row>)
    requires multiset(a) == multiset(b)
    ensures Provs(a) == Provs(b) && multiset(Keys(a)) == multiset(Keys(b))
  {
    KeysInclude(a, b);
    KeysInclude(b, a);
    assert forall row :: row in a <==> row in multiset(a);
    assert forall row :: row in b <==> row in multiset(b);
  }

  /** What a completed import leaves behind lets every later import of the same routes stay quiet. */
  lemma {:induction false} ImportSettles(c: Codec, existing: seq<Row>, routes: seq<Route>, allowance: Option<nat>, later: seq<Row>)
    requires Distinguishes(c, Elements(routes)) && Import(c, Start(existing), routes, allowance).ok
    requires multiset(later) == multiset(existing + Import(c, Start(existing), routes, allowance).st.stored)
    ensures var charged := Import(c, Start(existing), routes, allowance).st.charged;
            Affordable(c, later, charged) && forall r :: r in routes ==> Provenance(c, r) in Provs(later) || r in charged
  {
    var known := Elements(routes);
    var end := Import(c, Start(existing), routes, allowance).st;
    StartKept(c, existing, known);
    ImportKeeps(c, existing, known, Start(existing), routes, allowance);
    SameRowsSameKeys(later, existing + end.stored);
    KeysInclude(existing, existing + end.stored);
    forall r | r in routes ensures Provenance(c, r) in Provs(later) || r in end.charged {
      ImportLosesNothing(c, existing, routes, allowance, r);
    }
  }

  /**
   * Idempotence: after a completed import, importing any selection of the same
   * routes, in any order and with repeats, over the resulting rows in any
   * order, succeeds and stores nothing.
   */
  lemma {:induction false} ReimportStoresNothing(c: Codec, existing: seq<Row>, routes: seq<Route>, allowance: Option<nat>,
                                                 later: seq<Row>, again: seq<Route>, allowance': Option<nat>)
    requires Distinguishes(c, Elements(routes)) && Import(c, Start(existing), routes, allowance).ok
    requires multiset(later) == multiset(existing + Import(c, Start(existing), routes, allowance).st.stored)
    requires forall r :: r in again ==> r in routes
    ensures Import(c, Start(later), again, allowance').ok && Import(c, Start(later), again, allowance').st.stored == []
  {
    var known := Elements(routes);
    ImportSettles(c, existing, routes, allowance, later);
    StartKept(c, later, known);
    QuietRun(c, later, known, Import(c, Start(existing), routes, allowance).st.charged, Start(later), again, allowance');
  }
}
