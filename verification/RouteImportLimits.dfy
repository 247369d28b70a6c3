/**
 * The import through the store's own query, which shows at most the newest
 * 10,000 rows: exactly when repeating and retrying stay safe, and inputs where
 * they do not.
 */
module RouteImportLimits {
  import opened Basics
  import opened RouteImport
  import opened RouteImportLaws
  import opened RouteImportRetry

  lemma VisibleIsNewest(rows: seq<Row>, limit: nat)
    ensures multiset(Visible(rows, limit)) == multiset(LastN(rows, limit))
  {
    var newest := LastN(rows, limit);
    VisibleByIndex(rows, limit);
    ReverseElements(newest);
    assert Visible(rows, limit) == Reverse(newest);
  }

  lemma VisibleIsAll(rows: seq<Row>)
    requires |rows| <= LIMIT
    ensures multiset(Visible(rows, LIMIT)) == multiset(rows)
  {
    ReverseElements(rows);
  }

  lemma {:induction false} LastSlides<T>(rows: seq<T>, added: seq<T>, limit: nat)
    ensures multiset(LastN(rows + added, limit)) <= multiset(LastN(rows, limit)) + multiset(added)
  {
    var (last, both) := (LastN(rows + added, limit), LastN(rows, limit) + added);
    var lost := both[..|both| - |last|];
    assert both == lost + last;
    assert multiset(both) == multiset(lost) + multiset(last);
  }

  /** New rows push old ones out of sight, and bring none back. */
  lemma {:induction false} VisibleSlides(rows: seq<Row>, added: seq<Row>, limit: nat)
    ensures multiset(Visible(rows + added, limit)) <= multiset(Visible(rows, limit) + added)
  {
    VisibleIsNewest(rows + added, limit);
    VisibleIsNewest(rows, limit);
    LastSlides(rows, added, limit);
  }

  /** Some row with this route's provenance is among the newest 10,000. */
  ghost predicate Recalled(c: Codec, rows: seq<Row>, r: Route) {
    exists i :: |rows| - LIMIT <= i < |rows| && 0 <= i && rows[i].provenance == Provenance(c, r)
  }

  lemma {:induction false} RecalledIffVisible(c: Codec, rows: seq<Row>, r: Route)
    ensures Recalled(c, rows, r) <==> Provenance(c, r) in Provs(Visible(rows, LIMIT))
  {
    var seen := Visible(rows, LIMIT);
    VisibleByIndex(rows, LIMIT);
    if Recalled(c, rows, r) {
      var i :| |rows| - LIMIT <= i < |rows| && 0 <= i && rows[i].provenance == Provenance(c, r);
      assert seen[|rows| - 1 - i] == rows[i];
      ProvsMember(seen, |rows| - 1 - i);
    }
    if Provenance(c, r) in Provs(seen) {
      var row :| row in seen && row.provenance == Provenance(c, r);
      var j :| 0 <= j < |seen| && seen[j] == row;
      assert rows[|rows| - 1 - j].provenance == Provenance(c, r);
    }
  }

  /** No legacy row stands for any of these routes. */
  ghost predicate Unmatched(c: Codec, rows: seq<Row>, routes: seq<Route>) {
    forall row, r :: row in rows && r in routes ==> !(Plain(r) && KeyOf(row) == LegacyKey(c, r))
  }

  lemma {:induction false} VisibleRow(rows: seq<Row>, row: Row)
    requires row in Visible(rows, LIMIT)
    ensures row in rows
  {
    VisibleByIndex(rows, LIMIT);
    var j :| 0 <= j < |Visible(rows, LIMIT)| && Visible(rows, LIMIT)[j] == row;
    assert rows[|rows| - 1 - j] == row;
  }

  /** Without legacy rows a route is backed only by a row of its own. */
  lemma {:induction false} BackedIffRecalled(c: Codec, rows: seq<Row>, routes: seq<Route>)
    requires Unmatched(c, rows, routes)
    ensures Backed(c, Visible(rows, LIMIT), routes) <==> forall r :: r in routes ==> Recalled(c, rows, r)
  {
    var seen := Visible(rows, LIMIT);
    var unseen := Unseen(c, seen, routes);
    forall r ensures Recalled(c, rows, r) <==> Provenance(c, r) in Provs(seen) {
      RecalledIffVisible(c, rows, r);
    }
    if unseen != [] {
      var r := unseen[0];
      assert r in unseen;
      assert LegacyKeys(c, unseen)[0] == LegacyKey(c, r);
      if Plain(r) {
        NoKeyFor(c, rows, routes, r);
      }
      assert !Affordable(c, seen, unseen);
    } else {
      assert LegacyKeys(c, unseen) == [];
    }
  }

  lemma {:induction false} NoKeyFor(c: Codec, rows: seq<Row>, routes: seq<Route>, r: Route)
    requires Unmatched(c, rows, routes) && r in routes && Plain(r)
    ensures LegacyKey(c, r) !in multiset(Keys(Visible(rows, LIMIT)))
  {
    var seen := Visible(rows, LIMIT);
    forall j | 0 <= j < |seen| ensures Keys(seen)[j] != LegacyKey(c, r) {
      VisibleRow(rows, seen[j]);
    }
  }

  /** Rows an import stores are never mistaken for legacy rows. */
  lemma {:induction false} StoredStayUnmatched(c: Codec, rows: seq<Row>, added: seq<Row>, routes: seq<Route>)
    requires Distinguishes(c, Elements(routes)) && Unmatched(c, rows, routes) && Provs(added) <= KnownProvs(c, Elements(routes))
    ensures Unmatched(c, rows + added, routes)
  {
    forall row, r | row in rows + added && r in routes ensures !(Plain(r) && KeyOf(row) == LegacyKey(c, r)) {
      if row in added {
        StoredRowsAreUnmatchable(c, Elements(routes), added, r);
        var i :| 0 <= i < |added| && added[i] == row;
        assert Keys(added)[i] == KeyOf(row);
      }
    }
  }

  // ----- Repeating -----

  /** Through the store itself: with at most 10,000 route rows in all, repeating an import stores nothing. */
  lemma {:induction false} ReimportWithinLimit(c: Codec, rows: seq<Row>, routes: seq<Route>, allowance: Option<nat>,
                                               again: seq<Route>, allowance': Option<nat>)
    requires Distinguishes(c, Elements(routes)) && forall r :: r in again ==> r in routes
    requires var done := Import(c, Start(Visible(rows, LIMIT)), routes, allowance);
             done.ok && |rows| + |done.st.stored| <= LIMIT
    ensures var stored := Import(c, Start(Visible(rows, LIMIT)), routes, allowance).st.stored;
            var repeat := Import(c, Start(Visible(rows + stored, LIMIT)), again, allowance');
            repeat.ok && repeat.st.stored == []
  {
    var stored := Import(c, Start(Visible(rows, LIMIT)), routes, allowance).st.stored;
    VisibleIsAll(rows);
    VisibleIsAll(rows + stored);
    ReimportStoresNothing(c, Visible(rows, LIMIT), routes, allowance, Visible(rows + stored, LIMIT), again, allowance');
  }

  /** The store after an import, and what an import of `again` over it does. */
  function Repeat(c: Codec, rows: seq<Row>, routes: seq<Route>, allowance: Option<nat>, again: seq<Route>, allowance': Option<nat>): Outcome {
    var stored := Import(c, Start(Visible(rows, LIMIT)), routes, allowance).st.stored;
    Import(c, Start(Visible(rows + stored, LIMIT)), again, allowance')
  }

  /**
   * Exactly when repeating is free, for any store and any import, complete or
   * not: iff the newest 10,000 rows back every repeated route; where no legacy
   * row is involved, iff each of them still has its row among those.
   */
  lemma {:induction false} RepeatIsFreeIff(c: Codec, rows: seq<Row>, routes: seq<Route>, allowance: Option<nat>,
                                           again: seq<Route>, allowance': Option<nat>)
    requires Distinguishes(c, Elements(routes)) && forall r :: r in again ==> r in routes
    ensures var after := rows + Import(c, Start(Visible(rows, LIMIT)), routes, allowance).st.stored;
            var repeat := Repeat(c, rows, routes, allowance, again, allowance');
            && (repeat.ok && repeat.st.stored == [] <==> Backed(c, Visible(after, LIMIT), again))
            && (Unmatched(c, rows, routes) ==>
                  (repeat.ok && repeat.st.stored == [] <==> forall r :: r in again ==> Recalled(c, after, r)))
  {
    var stored := Import(c, Start(Visible(rows, LIMIT)), routes, allowance).st.stored;
    assert Elements(again) <= Elements(routes);
    QuietIffBacked(c, Visible(rows + stored, LIMIT), again, allowance');
    if Unmatched(c, rows, routes) {
      StartKept(c, Visible(rows, LIMIT), Elements(routes));
      ImportKeeps(c, Visible(rows, LIMIT), Elements(routes), Start(Visible(rows, LIMIT)), routes, allowance);
      StoredStayUnmatched(c, rows, stored, routes);
      BackedIffRecalled(c, rows + stored, again);
    }
  }

  // ----- Retrying -----

  /** What the rerun of a failed import gets to see. */
  function SeenByRerun(c: Codec, rows: seq<Row>, routes: seq<Route>, k: nat): seq<Row> {
    Visible(rows + Import(c, Start(Visible(rows, LIMIT)), routes, Some(k)).st.stored, LIMIT)
  }

  /** With at most 10,000 route rows by then, a rerun resumes, wherever it fails itself. */
  lemma {:induction false} RetryWithinLimit(c: Codec, rows: seq<Row>, routes: seq<Route>, k: nat, allowance: Option<nat>)
    requires Distinguishes(c, Elements(routes)) && !Import(c, Start(Visible(rows, LIMIT)), routes, Some(k)).ok && |rows| + k <= LIMIT
    ensures Resumes(c, Visible(rows, LIMIT), routes, k, SeenByRerun(c, rows, routes, k), allowance)
  {
    var stored := Import(c, Start(Visible(rows, LIMIT)), routes, Some(k)).st.stored;
    FirstPart(c, Visible(rows, LIMIT), routes, k);
    VisibleIsAll(rows);
    VisibleIsAll(rows + stored);
    RetryContinues(c, Visible(rows, LIMIT), routes, k, SeenByRerun(c, rows, routes, k), allowance);
  }

  /**
   * Exactly when retrying is safe, for any store: a completed rerun resumes iff
   * the newest 10,000 rows back every route that is not owed; where no legacy
   * row is involved, iff every route that had a row in sight, or was stored by
   * the failed run, still has it among those.
   */
  lemma {:induction false} RetryIsSafeIff(c: Codec, rows: seq<Row>, routes: seq<Route>, k: nat)
    requires Distinguishes(c, Elements(routes)) && !Import(c, Start(Visible(rows, LIMIT)), routes, Some(k)).ok
    ensures var existing := Visible(rows, LIMIT);
            var stored := Import(c, Start(existing), routes, Some(k)).st.stored;
            var safe := Resumes(c, existing, routes, k, SeenByRerun(c, rows, routes, k), None);
            && (safe <==> Backed(c, SeenByRerun(c, rows, routes, k), Settled(c, routes, Owed(c, existing, routes, k))))
            && (Unmatched(c, rows, routes) ==>
                  (safe <==> forall r :: r in routes && (Recalled(c, rows, r) || Provenance(c, r) in Provs(stored)) ==> Recalled(c, rows + stored, r)))
  {
    var existing := Visible(rows, LIMIT);
    var stored := Import(c, Start(existing), routes, Some(k)).st.stored;
    VisibleSlides(rows, stored, LIMIT);
    ResumesIffBacked(c, existing, routes, k, SeenByRerun(c, rows, routes, k));
    if Unmatched(c, rows, routes) {
      var settled := Settled(c, routes, Owed(c, existing, routes, k));
      FirstPart(c, existing, routes, k);
      EndIsKept(c, existing, routes);
      ProvsOfPart(Import(c, Start(existing), routes, None).st.stored, k);
      StoredStayUnmatched(c, rows, stored, routes);
      BackedIffRecalled(c, rows + stored, settled);
      forall r | r in routes ensures r in settled <==> Recalled(c, rows, r) || Provenance(c, r) in Provs(stored) {
        SettledIff(c, rows, routes, k, r);
      }
    }
  }

  lemma {:induction false} SettledIff(c: Codec, rows: seq<Row>, routes: seq<Route>, k: nat, r: Route)
    requires Distinguishes(c, Elements(routes)) && !Import(c, Start(Visible(rows, LIMIT)), routes, Some(k)).ok
    requires Unmatched(c, rows, routes) && r in routes
    ensures r in Settled(c, routes, Owed(c, Visible(rows, LIMIT), routes, k))
       <==> Recalled(c, rows, r) || Provenance(c, r) in Provs(Import(c, Start(Visible(rows, LIMIT)), routes, Some(k)).st.stored)
  {
    var existing := Visible(rows, LIMIT);
    var end := Import(c, Start(existing), routes, None).st;
    FirstPart(c, existing, routes, k);
    EndIsKept(c, existing, routes);
    NeverFails(c, Start(existing), routes);
    ProvsOfPart(end.stored, k);
    StoredOnce(end.stored, k);
    RecalledIffVisible(c, rows, r);
    NothingCharged(c, rows, routes);
    ImportLosesNothing(c, existing, routes, None, r);
    assert Provs(existing + end.stored) == Provs(existing) + Provs(end.stored);
  }

  lemma {:induction false} NothingCharged(c: Codec, rows: seq<Row>, routes: seq<Route>)
    requires Unmatched(c, rows, routes)
    ensures Import(c, Start(Visible(rows, LIMIT)), routes, None).st.charged == []
  {
    forall r | r in routes ensures !Chargeable(c, Start(Visible(rows, LIMIT)), r) {
      if Plain(r) {
        NoKeyFor(c, rows, routes, r);
      }
    }
    ChargesNothing(c, Start(Visible(rows, LIMIT)), routes);
  }

  lemma {:induction false} ChargesNothing(c: Codec, st: State, routes: seq<Route>)
    requires forall r :: r in routes ==> !Chargeable(c, st, r)
    ensures Import(c, st, routes, None).st.charged == st.charged
    decreases |routes|
  {
    if routes != [] {
      var next := Step(c, st, routes[0]);
      assert !Chargeable(c, st, routes[0]) && next.legacy == st.legacy;
      forall r | r in routes[1..] ensures !Chargeable(c, next, r) {
        assert r in routes;
      }
      ChargesNothing(c, Step(c, st, routes[0]), routes[1..]);
    }
  }

  // ----- Inputs where the limit bites -----

  /** Exactly 10,000 rows, the oldest of which is the one for `a`. */
  function FullStore(c: Codec, a: Route, filler: Row): (rows: seq<Row>)
    ensures |rows| == LIMIT && rows[0] == NewRow(c, a) && forall i :: 1 <= i < |rows| ==> rows[i] == filler
  {
    [NewRow(c, a)] + seq(LIMIT - 1, i => filler)
  }

  /** The filler stands for none of these different routes, by provenance or as a legacy row. */
  ghost predicate Setting(c: Codec, known: set<Route>, filler: Row) {
    Distinguishes(c, known) && forall r :: r in known ==> filler.provenance != Provenance(c, r) && KeyOf(filler) != LegacyKey(c, r)
  }

  /** After one more row the oldest is out of sight, and the new one in sight. */
  lemma {:induction false} OldestSlides(c: Codec, known: set<Route>, a: Route, b: Route, filler: Row, r: Route)
    requires Setting(c, known, filler) && a in known && b in known && r in known && a != b
    ensures Provenance(c, r) in Provs(Visible(FullStore(c, a, filler), LIMIT)) <==> r == a
    ensures Provenance(c, r) in Provs(Visible(FullStore(c, a, filler) + [NewRow(c, b)], LIMIT)) <==> r == b
  {
    var rows := FullStore(c, a, filler);
    var more := rows + [NewRow(c, b)];
    RecalledIffVisible(c, rows, r);
    RecalledIffVisible(c, more, r);
    assert more[LIMIT] == NewRow(c, b);
    if Provenance(c, a) == Provenance(c, r) {
      ProvenanceIsIdentity(c, known, a, r);
    }
    if Provenance(c, b) == Provenance(c, r) {
      ProvenanceIsIdentity(c, known, b, r);
    }
  }

  lemma {:induction false} NoneIsLegacy(c: Codec, known: set<Route>, a: Route, b: Route, filler: Row, r: Route)
    requires Setting(c, known, filler) && a in known && b in known && r in known
    ensures !Chargeable(c, Start(Visible(FullStore(c, a, filler), LIMIT)), r)
    ensures !Chargeable(c, Start(Visible(FullStore(c, a, filler) + [NewRow(c, b)], LIMIT)), r)
  {
    var rows := FullStore(c, a, filler);
    var more := rows + [NewRow(c, b)];
    ProvenanceIsNotLegacy(c, known, a, r);
    ProvenanceIsNotLegacy(c, known, b, r);
    assert Unmatched(c, rows, [r]) && Unmatched(c, more, [r]);
    if Plain(r) {
      NoKeyFor(c, rows, [r], r);
      NoKeyFor(c, more, [r], r);
    }
  }

  /** The rows of the routes not known yet. */
  function News(c: Codec, known: set<string>, routes: seq<Route>): seq<Row> {
    if routes == [] then []
    else (if Provenance(c, routes[0]) in known then [] else [NewRow(c, routes[0])]) + News(c, known, routes[1..])
  }

  lemma {:induction false} NewsIgnores(c: Codec, known: set<string>, p: string, routes: seq<Route>)
    requires forall r :: r in routes ==> Provenance(c, r) != p
    ensures News(c, known + {p}, routes) == News(c, known, routes)
  {
    if routes != [] {
      NewsIgnores(c, known, p, routes[1..]);
    }
  }

  lemma {:induction false} StoreOne(c: Codec, st: State, r: Route)
    requires !Chargeable(c, st, r)
    ensures var next := Step(c, st, r);
            && next.legacy == st.legacy && next.already == st.already + {Provenance(c, r)}
            && next.stored == st.stored + (if Provenance(c, r) in st.already then [] else [NewRow(c, r)])
  {
  }

  /** Without legacy rows, an import of different routes stores exactly the unknown ones, in order. */
  lemma {:induction false} StoresNews(c: Codec, st: State, routes: seq<Route>)
    requires forall r :: r in routes ==> !Chargeable(c, st, r)
    requires forall i, j :: 0 <= i < j < |routes| ==> Provenance(c, routes[i]) != Provenance(c, routes[j])
    ensures Import(c, st, routes, None).st.stored == st.stored + News(c, st.already, routes)
    decreases |routes|
  {
    if routes != [] {
      var (r, rest) := (routes[0], routes[1..]);
      assert r in routes;
      StoreOne(c, st, r);
      forall q | q in rest ensures !Chargeable(c, Step(c, st, r), q) && Provenance(c, q) != Provenance(c, r) {
        assert q in routes;
      }
      StoresNews(c, Step(c, st, r), rest);
      NewsIgnores(c, st.already, Provenance(c, r), rest);
    }
  }

  lemma {:induction false} NewsOfThree(c: Codec, known: set<string>, q: Route, r: Route, s: Route)
    ensures News(c, known, [q, r, s]) == News(c, known, [q]) + News(c, known, [r]) + News(c, known, [s])
    ensures News(c, known, [q, r]) == News(c, known, [q]) + News(c, known, [r])
    ensures News(c, known, [q]) == if Provenance(c, q) in known then [] else [NewRow(c, q)]
  {
    assert [q, r, s][1..] == [r, s] && [r, s][1..] == [s] && [q][1..] == [] && [q, r][1..] == [r];
  }

  lemma {:induction false} ProvsApart(c: Codec, known: set<Route>, routes: seq<Route>)
    requires Distinguishes(c, known) && Distinct(routes) && forall r :: r in routes ==> r in known
    ensures forall i, j :: 0 <= i < j < |routes| ==> Provenance(c, routes[i]) != Provenance(c, routes[j])
  {
    forall i, j | 0 <= i < j < |routes| ensures Provenance(c, routes[i]) != Provenance(c, routes[j]) {
      if Provenance(c, routes[i]) == Provenance(c, routes[j]) {
        ProvenanceIsIdentity(c, known, routes[i], routes[j]);
      }
    }
  }

  lemma {:induction false} StoresOverFull(c: Codec, known: set<Route>, a: Route, b: Route, filler: Row, routes: seq<Route>)
    requires Setting(c, known, filler) && a in known && b in known && a != b && Distinct(routes) && forall r :: r in routes ==> r in known
    ensures var rows := FullStore(c, a, filler);
            var more := rows + [NewRow(c, b)];
            && Import(c, Start(Visible(rows, LIMIT)), routes, None).st.stored == News(c, Provs(Visible(rows, LIMIT)), routes)
            && Import(c, Start(Visible(more, LIMIT)), routes, None).st.stored == News(c, Provs(Visible(more, LIMIT)), routes)
  {
    var rows := FullStore(c, a, filler);
    forall r | r in routes
      ensures !Chargeable(c, Start(Visible(rows, LIMIT)), r)
      ensures !Chargeable(c, Start(Visible(rows + [NewRow(c, b)], LIMIT)), r)
    {
      NoneIsLegacy(c, known, a, b, filler, r);
    }
    ProvsApart(c, known, routes);
    StoresNews(c, Start(Visible(rows, LIMIT)), routes);
    StoresNews(c, Start(Visible(rows + [NewRow(c, b)], LIMIT)), routes);
  }

  /** A full store and two routes: the import stores one row, and repeating it stores the other route's row again. */
  lemma {:induction false} RepeatCanStore(c: Codec, a: Route, b: Route, filler: Row)
    requires Setting(c, {a, b}, filler) && a != b
    ensures var rows := FullStore(c, a, filler);
            && |rows| == LIMIT && Import(c, Start(Visible(rows, LIMIT)), [a, b], None).st.stored == [NewRow(c, b)]
            && Repeat(c, rows, [a, b], None, [a, b], None).st.stored == [NewRow(c, a)]
  {
    var rows := FullStore(c, a, filler);
    var more := rows + [NewRow(c, b)];
    StoresOverFull(c, {a, b}, a, b, filler, [a, b]);
    OldestSlides(c, {a, b}, a, b, filler, a);
    OldestSlides(c, {a, b}, a, b, filler, b);
    NewsOfThree(c, Provs(Visible(rows, LIMIT)), a, b, b);
    NewsOfThree(c, Provs(Visible(rows, LIMIT)), b, b, b);
    NewsOfThree(c, Provs(Visible(more, LIMIT)), a, b, b);
    NewsOfThree(c, Provs(Visible(more, LIMIT)), b, b, b);
  }

  lemma {:induction false} ThreeOverFull(c: Codec, a: Route, b: Route, d: Route, filler: Row)
    requires Setting(c, {a, b, d}, filler) && Distinct([a, b, d])
    ensures var rows := FullStore(c, a, filler);
            && Import(c, Start(Visible(rows, LIMIT)), [a, b, d], None).st.stored == [NewRow(c, b), NewRow(c, d)]
            && Import(c, Start(Visible(rows + [NewRow(c, b)], LIMIT)), [a, b, d], None).st.stored == [NewRow(c, a), NewRow(c, d)]
  {
    var (rows, known) := (FullStore(c, a, filler), {a, b, d});
    var more := rows + [NewRow(c, b)];
    assert [a, b, d][0] != [a, b, d][1] && [a, b, d][0] != [a, b, d][2] && [a, b, d][1] != [a, b, d][2];
    StoresOverFull(c, known, a, b, filler, [a, b, d]);
    OldestSlides(c, known, a, b, filler, a);
    OldestSlides(c, known, a, b, filler, b);
    OldestSlides(c, known, a, b, filler, d);
    ThreeNews(c, Provs(Visible(rows, LIMIT)), a, b, d);
    ThreeNews(c, Provs(Visible(more, LIMIT)), a, b, d);
  }

  lemma {:induction false} ThreeNews(c: Codec, known: set<string>, q: Route, r: Route, s: Route)
    ensures News(c, known, [q, r, s]) ==
            (if Provenance(c, q) in known then [] else [NewRow(c, q)]) + (if Provenance(c, r) in known then [] else [NewRow(c, r)]) +
            (if Provenance(c, s) in known then [] else [NewRow(c, s)])
  {
    NewsOfThree(c, known, q, r, s);
    NewsOfThree(c, known, r, r, r);
    NewsOfThree(c, known, s, s, s);
  }

  lemma {:induction false} StopsAfterOne(c: Codec, st: State, routes: seq<Route>, first: Row, second: Row)
    requires st.stored == [] && Import(c, st, routes, None).st.stored == [first, second]
    ensures !Import(c, st, routes, Some(1)).ok && Import(c, st, routes, Some(1)).st.stored == [first]
    decreases |routes|
  {
    CompletedIsWhole(c, st, routes, Some(1));
    StoresWithin(c, st, routes, 1);
    var part := Import(c, st, routes, Some(1)).st.stored;
    assert |part| == 1 ==> part == [first];
  }

  lemma {:induction false} StoresWithin(c: Codec, st: State, routes: seq<Route>, k: nat)
    requires |st.stored| <= k
    ensures |Import(c, st, routes, Some(k)).st.stored| <= k
    decreases |routes|
  {
    if routes != [] && !(WouldStore(c, st, routes[0]) && |st.stored| == k) {
      StoresWithin(c, Step(c, st, routes[0]), routes[1..], k);
    }
  }

  /** The same store, three routes and a failure after one row: the rerun stores a row that one run would not. */
  lemma {:induction false} RetryCanStoreMore(c: Codec, a: Route, b: Route, d: Route, filler: Row)
    requires Setting(c, {a, b, d}, filler) && Distinct([a, b, d])
    ensures var (rows, routes) := (FullStore(c, a, filler), [a, b, d]);
            var first := Import(c, Start(Visible(rows, LIMIT)), routes, Some(1));
            && !first.ok && first.st.stored == [NewRow(c, b)]
            && Import(c, Start(SeenByRerun(c, rows, routes, 1)), routes, None).st.stored == [NewRow(c, a), NewRow(c, d)]
            && Import(c, Start(Visible(rows, LIMIT)), routes, None).st.stored == [NewRow(c, b), NewRow(c, d)]
  {
    ThreeOverFull(c, a, b, d, filler);
    StopsAfterOne(c, Start(Visible(FullStore(c, a, filler), LIMIT)), [a, b, d], NewRow(c, b), NewRow(c, d));
  }

  // ----- Routes, rows and digests to which the above applies -----

  function Sample(reason: char): Route {
    Route("2026-01-01T00:00:00Z", "/", "abbey", "chat", "local", [reason], 0.0, [], None, None, None, None)
  }

  function SampleCodec(): Codec {
    Codec((r: Route) => seq(64, i => if r.reason == [] then '-' else r.reason[0]), (x: real) => "0.00")
  }

  /** An old row of another day. */
  function Filler(): Row {
    Row("route.jsonl @ 2025-12-31T00:00:00Z", "", "", 0.0, "activity", [])
  }

  lemma SettingShrinks(c: Codec, known: set<Route>, some: set<Route>, filler: Row)
    requires Setting(c, known, filler) && some <= known
    ensures Setting(c, some, filler)
  {
  }

  lemma {:induction false} SampleDigest(x: char)
    ensures var (c, r) := (SampleCodec(), Sample(x));
            |c.digest(r)| == 64 && c.digest(r)[0] == x && ' ' !in r.ts && r.reason[0] == x
  {
    assert ' ' !in "2026-01-01T00:00:00Z";
  }

  /** With these routes and rows both failures happen. */
  lemma {:induction false} SampleSetting()
    ensures Setting(SampleCodec(), {Sample('a'), Sample('b'), Sample('c')}, Filler())
    ensures Distinct([Sample('a'), Sample('b'), Sample('c')])
  {
    SampleDigest('a');
    SampleDigest('b');
    SampleDigest('c');
    FillerIsOther(SampleCodec(), 'a');
    FillerIsOther(SampleCodec(), 'b');
    FillerIsOther(SampleCodec(), 'c');
  }

  lemma FillerIsOther(c: Codec, reason: char)
    ensures Filler().provenance != Provenance(c, Sample(reason)) && KeyOf(Filler()) != LegacyKey(c, Sample(reason))
  {
    assert Filler().provenance[17] == '5';
    assert Provenance(c, Sample(reason))[17] == '6';
    assert LegacyProvenance(Sample(reason))[17] == '6';
  }

  /** Both failures on one store of 10,000 rows and three routes. */
  lemma {:induction false} LimitExample()
    ensures var (c, a, b, d) := (SampleCodec(), Sample('a'), Sample('b'), Sample('c'));
            var rows := FullStore(c, a, Filler());
            && |rows| == LIMIT && Repeat(c, rows, [a, b], None, [a, b], None).st.stored == [NewRow(c, a)]
            && !Resumes(c, Visible(rows, LIMIT), [a, b, d], 1, SeenByRerun(c, rows, [a, b, d], 1), None)
  {
    var (c, a, b, d) := (SampleCodec(), Sample('a'), Sample('b'), Sample('c'));
    SampleSetting();
    SettingShrinks(c, {a, b, d}, {a, b}, Filler());
    assert [a, b, d][0] != [a, b, d][1];
    RepeatCanStore(c, a, b, Filler());
    RetryCanStoreMore(c, a, b, d, Filler());
  }
}
