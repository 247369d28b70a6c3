/** Rerunning an import that failed part way, over rows some of which may be out of sight by then. */
module RouteImportRetry {
  import opened Basics
  import opened RouteImport
  import opened RouteImportLaws

  function Shift(allowance: Option<nat>, k: nat): Option<nat> {
    if allowance.Some? then Some(allowance.value + k) else None
  }

  /** What an uninterrupted import stores after its first `k` rows. */
  function Owed(c: Codec, existing: seq<Row>, routes: seq<Route>, k: nat): seq<Row> {
    var stored := Import(c, Start(existing), routes, None).st.stored;
    if k <= |stored| then stored[k..] else []
  }

  /** The routes that are not to be stored any more. */
  function Settled(c: Codec, routes: seq<Route>, owed: seq<Row>): (s: seq<Route>)
    ensures forall r :: r in s <==> r in routes && Provenance(c, r) !in Provs(owed)
    decreases |routes|
  {
    if routes == [] then []
    else
      var rest := Settled(c, routes[1..], owed);
      if Provenance(c, routes[0]) in Provs(owed) then rest else [routes[0]] + rest
  }

  /** The uninterrupted run, seen from outside: where it started and ended, and how much the first run managed. */
  datatype Whole = Whole(existing: seq<Row>, later: seq<Row>, known: set<Route>, end: State, k: nat)

  ghost predicate Fits(c: Codec, w: Whole) {
    && w.k <= |w.end.stored| && Kept(c, w.existing, w.known, w.end) && Distinguishes(c, w.known)
    && Provs(w.later) <= Provs(w.existing) + Provs(w.end.stored[..w.k])
    && (forall r :: r in w.known ==> multiset(Keys(w.later))[LegacyKey(c, r)] <= multiset(Keys(w.existing))[LegacyKey(c, r)])
  }

  function Beyond(stored: seq<Row>, k: nat): seq<Row> {
    if |stored| <= k then [] else stored[k..]
  }

  /**
   * The uninterrupted run at `x` and the rerun at `y` have processed the same
   * routes: the rerun stored what the other did beyond `k`, charged only what
   * the other knows, and has no more legacy rows left.
   */
  ghost predicate Aligned(c: Codec, w: Whole, x: State, y: State) {
    && x.stored <= w.end.stored && (forall r :: r in x.charged ==> r in w.end.charged)
    && y.stored == Beyond(x.stored, w.k)
    && (forall r :: r in y.charged ==> Provenance(c, r) in x.already)
    && (forall r :: r in w.known ==> y.legacy[LegacyKey(c, r)] <= x.legacy[LegacyKey(c, r)])
  }

  ghost predicate InStep(c: Codec, w: Whole, need: seq<Route>, x: State, y: State) {
    Kept(c, w.existing, w.known, x) && Quiet(c, w.later, w.known, need, y) && Aligned(c, w, x, y)
  }

  /** The next step of the whole run leads towards its end. */
  predicate Towards(c: Codec, w: Whole, x: State, r: Route) {
    Step(c, x, r).stored <= w.end.stored && forall q :: q in Step(c, x, r).charged ==> q in w.end.charged
  }

  predicate StoredAlike(c: Codec, k: nat, x: State, y: State, r: Route) {
    && (WouldStore(c, y, r) ==> WouldStore(c, x, r) && |x.stored| >= k)
    && (WouldStore(c, x, r) && !WouldStore(c, y, r) ==> |x.stored| < k)
  }

  /** How one route is treated in both runs: stored beyond `k` by both or by none, and charged by the rerun whenever by the other. */
  predicate Matched(c: Codec, w: Whole, x: State, y: State, r: Route) {
    && StoredAlike(c, w.k, x, y, r)
    && (Provenance(c, r) !in x.already && Chargeable(c, x, r) ==> Provenance(c, r) !in y.already && Chargeable(c, y, r))
  }

  lemma {:induction false} MatchedStep(c: Codec, w: Whole, x: State, y: State, r: Route)
    requires Aligned(c, w, x, y) && Matched(c, w, x, y, r) && Towards(c, w, x, r)
    ensures Aligned(c, w, Step(c, x, r), Step(c, y, r))
  {
    LegacyFalls(c, w.known, x, y, r);
    BeyondGrows(x.stored, w.k, NewRow(c, r));
    StepIsKnown(c, x, r);
  }

  ghost predicate Needs(c: Codec, w: Whole, need: seq<Route>) {
    && Affordable(c, w.later, need)
    && (forall r :: r in w.known && Provenance(c, r) !in Provs(Beyond(w.end.stored, w.k)) ==> Provenance(c, r) in Provs(w.later) || r in need)
    && (forall r :: r in need ==> Provenance(c, r) !in Provs(Beyond(w.end.stored, w.k)))
  }

  lemma ProvsMember(rows: seq<Row>, i: nat)
    requires i < |rows|
    ensures rows[i].provenance in Provs(rows)
  {
  }

  lemma ProvsOfPart(rows: seq<Row>, k: nat)
    requires k <= |rows|
    ensures Provs(rows) == Provs(rows[..k]) + Provs(rows[k..])
  {
    assert rows == rows[..k] + rows[k..];
  }

  /** A provenance stored once is stored nowhere else. */
  lemma {:induction false} StoredOnce(rows: seq<Row>, k: nat)
    requires k <= |rows| && forall i, j :: 0 <= i < j < |rows| ==> rows[i].provenance != rows[j].provenance
    ensures Provs(rows[..k]) !! Provs(rows[k..])
  {
    forall a, b | a in rows[..k] && b in rows[k..] ensures a.provenance != b.provenance {
      var i :| 0 <= i < k && rows[i] == a;
      var j :| k <= j < |rows| && rows[j] == b;
    }
  }

  lemma {:induction false} StoredBeyond(full: seq<Row>, part: seq<Row>, k: nat, p: string)
    requires k <= |full| && forall i, j :: 0 <= i < j < |full| ==> full[i].provenance != full[j].provenance
    requires part <= full && p in Provs(part) && p in Provs(full[k..])
    ensures p in Provs(Beyond(part, k))
  {
    var a :| a in part && a.provenance == p;
    var b :| b in full[k..] && b.provenance == p;
    var i: nat :| i < |part| && part[i] == a;
    var j: nat :| j < |full[k..]| && full[k..][j] == b;
    assert full[i] == a && full[k + j] == b;
    assert i == k + j;
    ProvsMember(Beyond(part, k), i - k);
  }

  lemma BeyondGrows(stored: seq<Row>, k: nat, row: Row)
    ensures Beyond(stored + [row], k) == if |stored| < k then Beyond(stored, k) else Beyond(stored, k) + [row]
  {
  }

  /** What the rerun knows, the uninterrupted run knows or is going to store. */
  lemma {:induction false} KnownToWhole(c: Codec, w: Whole, need: seq<Route>, x: State, y: State)
    requires Fits(c, w) && InStep(c, w, need, x, y)
    ensures y.already <= x.already + Provs(w.end.stored[..w.k])
  {
    forall p | p in RouteProvs(c, y.charged) ensures p in x.already {
      var r :| r in y.charged && Provenance(c, r) == p;
    }
    forall p | p in Provs(y.stored) ensures p in Provs(x.stored) {
      var row :| row in y.stored && row.provenance == p;
      assert row in x.stored;
    }
  }

  /** A route the whole run charges is one it never stores. */
  lemma {:induction false} ChargedIsNotStored(c: Codec, w: Whole, x: State, r: Route)
    requires Fits(c, w) && Provenance(c, r) !in x.already && Chargeable(c, x, r)
    requires forall q :: q in Step(c, x, r).charged ==> q in w.end.charged
    ensures Provenance(c, r) !in Provs(w.end.stored)
  {
    assert r in Step(c, x, r).charged;
  }

  /** The next row the whole run stores is the next row of its result. */
  lemma {:induction false} NextIsStored(c: Codec, w: Whole, x: State, r: Route)
    requires WouldStore(c, x, r) && Step(c, x, r).stored <= w.end.stored
    ensures |x.stored| < |w.end.stored| && w.end.stored[|x.stored|] == NewRow(c, r)
    ensures |x.stored| >= w.k ==> Provenance(c, r) in Provs(Beyond(w.end.stored, w.k))
    ensures |x.stored| < w.k <= |w.end.stored| ==> Provenance(c, r) in Provs(w.end.stored[..w.k])
  {
    var n := |x.stored|;
    assert Step(c, x, r).stored[n] == NewRow(c, r);
    if n >= w.k {
      assert Beyond(w.end.stored, w.k)[n - w.k] == NewRow(c, r);
      ProvsMember(Beyond(w.end.stored, w.k), n - w.k);
    } else if w.k <= |w.end.stored| {
      assert w.end.stored[..w.k][n] == NewRow(c, r);
      ProvsMember(w.end.stored[..w.k], n);
    }
  }

  /** The legacy rows of both runs after one more route, unless only the whole run charged it. */
  lemma {:induction false} LegacyFalls(c: Codec, known: set<Route>, x: State, y: State, r: Route)
    requires forall q :: q in known ==> y.legacy[LegacyKey(c, q)] <= x.legacy[LegacyKey(c, q)]
    requires Provenance(c, r) !in x.already && Chargeable(c, x, r) ==> Provenance(c, r) !in y.already && Chargeable(c, y, r)
    ensures forall q :: q in known ==> Step(c, y, r).legacy[LegacyKey(c, q)] <= Step(c, x, r).legacy[LegacyKey(c, q)]
  {
  }

  lemma {:induction false} ChargedByBoth(c: Codec, w: Whole, need: seq<Route>, x: State, y: State, r: Route)
    requires Fits(c, w) && InStep(c, w, need, x, y) && !WouldStore(c, y, r)
    requires Provenance(c, r) !in x.already && Chargeable(c, x, r)
    requires forall q :: q in Step(c, x, r).charged ==> q in w.end.charged
    ensures Provenance(c, r) !in y.already && Chargeable(c, y, r)
  {
    ChargedIsNotStored(c, w, x, r);
    ProvsOfPart(w.end.stored, w.k);
    KnownToWhole(c, w, need, x, y);
  }

  lemma StepIsKnown(c: Codec, x: State, r: Route)
    ensures Provenance(c, r) in Step(c, x, r).already && x.already <= Step(c, x, r).already
  {
  }

  /** For a settled route the rerun stores nothing. */
  lemma {:induction false} SettledMatches(c: Codec, w: Whole, need: seq<Route>, x: State, y: State, r: Route)
    requires Fits(c, w) && Needs(c, w, need) && InStep(c, w, need, x, y) && r in w.known
    requires Provenance(c, r) !in Provs(Beyond(w.end.stored, w.k)) && Towards(c, w, x, r)
    ensures Matched(c, w, x, y, r)
    ensures Provenance(c, r) !in y.already && Chargeable(c, y, r) ==> r in need
  {
    QuietStep(c, w.later, w.known, need, y, r);
    if WouldStore(c, x, r) {
      NextIsStored(c, w, x, r);
    } else if Provenance(c, r) !in x.already {
      ChargedByBoth(c, w, need, x, y, r);
    }
  }

  lemma {:induction false} OwedIsNew(c: Codec, w: Whole, need: seq<Route>, x: State, y: State, r: Route)
    requires Fits(c, w) && Needs(c, w, need) && InStep(c, w, need, x, y) && r in w.known
    requires Provenance(c, r) in Provs(Beyond(w.end.stored, w.k)) && Provenance(c, r) !in x.already
    requires Towards(c, w, x, r)
    ensures WouldStore(c, x, r) && WouldStore(c, y, r) && |x.stored| >= w.k
  {
    ProvsOfPart(w.end.stored, w.k);
    StoredOnce(w.end.stored, w.k);
    if Chargeable(c, x, r) {
      ChargedIsNotStored(c, w, x, r);
    }
    NextIsStored(c, w, x, r);
    KnownToWhole(c, w, need, x, y);
  }

  lemma {:induction false} OwedIsKnown(c: Codec, w: Whole, need: seq<Route>, x: State, y: State, p: string)
    requires Fits(c, w) && InStep(c, w, need, x, y)
    requires p in Provs(Beyond(w.end.stored, w.k)) && p in x.already && p !in RouteProvs(c, x.charged)
    ensures p in y.already
  {
    ProvsOfPart(w.end.stored, w.k);
    assert p in Provs(x.stored);
    StoredBeyond(w.end.stored, x.stored, w.k, p);
  }

  lemma {:induction false} OwedIsNotCharged(c: Codec, w: Whole, need: seq<Route>, x: State, y: State, p: string)
    requires Fits(c, w) && InStep(c, w, need, x, y) && p in Provs(Beyond(w.end.stored, w.k))
    ensures p !in RouteProvs(c, x.charged)
  {
    ProvsOfPart(w.end.stored, w.k);
    forall q | q in x.charged ensures Provenance(c, q) != p {
      assert q in w.end.charged;
    }
  }

  /** A route still to be stored is stored by both runs now, or already was. */
  lemma {:induction false} OwedMatches(c: Codec, w: Whole, need: seq<Route>, x: State, y: State, r: Route)
    requires Fits(c, w) && Needs(c, w, need) && InStep(c, w, need, x, y) && r in w.known
    requires Provenance(c, r) in Provs(Beyond(w.end.stored, w.k)) && Towards(c, w, x, r)
    ensures Matched(c, w, x, y, r)
    ensures Provenance(c, r) !in y.already && Chargeable(c, y, r) ==> r in need
  {
    if Provenance(c, r) !in x.already {
      OwedIsNew(c, w, need, x, y, r);
    } else {
      OwedIsNotCharged(c, w, need, x, y, Provenance(c, r));
      OwedIsKnown(c, w, need, x, y, Provenance(c, r));
    }
  }

  lemma {:induction false} BothStep(c: Codec, w: Whole, need: seq<Route>, x: State, y: State, r: Route)
    requires Fits(c, w) && Needs(c, w, need) && InStep(c, w, need, x, y) && r in w.known && Towards(c, w, x, r)
    ensures Matched(c, w, x, y, r)
    ensures Provenance(c, r) !in y.already && Chargeable(c, y, r) ==> r in need
  {
    if Provenance(c, r) in Provs(Beyond(w.end.stored, w.k)) {
      OwedMatches(c, w, need, x, y, r);
    } else {
      SettledMatches(c, w, need, x, y, r);
    }
  }

  lemma {:induction false} QuietGoesOn(c: Codec, w: Whole, need: seq<Route>, y: State, r: Route)
    requires Quiet(c, w.later, w.known, need, y) && r in w.known
    requires Provenance(c, r) !in y.already && Chargeable(c, y, r) ==> r in need
    ensures Quiet(c, w.later, w.known, need, Step(c, y, r))
  {
    StepKeeps(c, w.later, w.known, y, r);
  }

  /** The two runs over the routes still to come. */
  ghost predicate Ahead(c: Codec, w: Whole, need: seq<Route>, x: State, y: State, routes: seq<Route>) {
    InStep(c, w, need, x, y) && (forall r :: r in routes ==> r in w.known) && Import(c, x, routes, None).st == w.end
  }

  lemma {:induction false} AheadStep(c: Codec, w: Whole, need: seq<Route>, x: State, y: State, routes: seq<Route>)
    requires Fits(c, w) && Needs(c, w, need) && Ahead(c, w, need, x, y, routes) && routes != []
    ensures Matched(c, w, x, y, routes[0]) && Ahead(c, w, need, Step(c, x, routes[0]), Step(c, y, routes[0]), routes[1..])
  {
    var r := routes[0];
    ImportAppends(c, Step(c, x, r), routes[1..], None);
    BothStep(c, w, need, x, y, r);
    MatchedStep(c, w, x, y, r);
    QuietGoesOn(c, w, need, y, r);
    StepKeeps(c, w.existing, w.known, x, r);
  }

  /** The relation between two runs that a step from related states preserves. */
  type Relation = (State, State, seq<Route>) -> bool

  ghost predicate Closes(c: Codec, k: nat, rel: Relation, x: State, y: State, routes: seq<Route>) {
    rel(x, y, routes) ==>
      && y.stored == Beyond(x.stored, k)
      && (routes != [] ==> StoredAlike(c, k, x, y, routes[0]) && rel(Step(c, x, routes[0]), Step(c, y, routes[0]), routes[1..]))
  }

  lemma {:induction false} Simulate(c: Codec, k: nat, rel: Relation, x: State, y: State, routes: seq<Route>, allowance: Option<nat>)
    requires rel(x, y, routes) && forall s, t, rs :: Closes(c, k, rel, s, t, rs)
    ensures var (whole, rerun) := (Import(c, x, routes, Shift(allowance, k)), Import(c, y, routes, allowance));
            whole.ok == rerun.ok && rerun.st.stored == Beyond(whole.st.stored, k)
    decreases |routes|
  {
    assert Closes(c, k, rel, x, y, routes);
    if routes != [] && !(WouldStore(c, y, routes[0]) && allowance == Some(|y.stored|)) {
      Simulate(c, k, rel, Step(c, x, routes[0]), Step(c, y, routes[0]), routes[1..], allowance);
    }
  }

  lemma {:induction false} RetryRun(c: Codec, w: Whole, need: seq<Route>, x: State, y: State, routes: seq<Route>, allowance: Option<nat>)
    requires Fits(c, w) && Needs(c, w, need) && Ahead(c, w, need, x, y, routes)
    ensures var (whole, rerun) := (Import(c, x, routes, Shift(allowance, w.k)), Import(c, y, routes, allowance));
            whole.ok == rerun.ok && rerun.st.stored == Beyond(whole.st.stored, w.k)
  {
    var rel: Relation := (s, t, rs) => Ahead(c, w, need, s, t, rs);
    forall s, t, rs ensures Closes(c, w.k, rel, s, t, rs) {
      if Ahead(c, w, need, s, t, rs) && rs != [] {
        AheadStep(c, w, need, s, t, rs);
      }
    }
    Simulate(c, w.k, rel, x, y, routes, allowance);
  }

  // ----- The theorem -----

  /** The failed run and the rerun together store what one run does, row by row, and the rerun ends as that run would. */
  ghost predicate Resumes(c: Codec, existing: seq<Row>, routes: seq<Route>, k: nat, later: seq<Row>, allowance: Option<nat>) {
    var (first, rerun) := (Import(c, Start(existing), routes, Some(k)), Import(c, Start(later), routes, allowance));
    var whole := Import(c, Start(existing), routes, Shift(allowance, k));
    rerun.ok == whole.ok && first.st.stored + rerun.st.stored == whole.st.stored
  }

  /** What the first run got done is the beginning of what there was to do. */
  lemma {:induction false} FirstPart(c: Codec, existing: seq<Row>, routes: seq<Route>, k: nat)
    requires !Import(c, Start(existing), routes, Some(k)).ok
    ensures var (first, stored) := (Import(c, Start(existing), routes, Some(k)), Import(c, Start(existing), routes, None).st.stored);
            && |first.st.stored| == k < |stored| && first.st.stored == stored[..k] && Owed(c, existing, routes, k) == stored[k..]
  {
    CompletedIsWhole(c, Start(existing), routes, Some(k));
  }

  lemma {:induction false} EndIsKept(c: Codec, existing: seq<Row>, routes: seq<Route>)
    ensures Kept(c, existing, Elements(routes), Import(c, Start(existing), routes, None).st)
  {
    StartKept(c, existing, Elements(routes));
    ImportKeeps(c, existing, Elements(routes), Start(existing), routes, None);
  }

  lemma {:induction false} LaterKeys(c: Codec, existing: seq<Row>, known: set<Route>, part: seq<Row>, later: seq<Row>, r: Route)
    requires Distinguishes(c, known) && Provs(part) <= KnownProvs(c, known) && multiset(later) <= multiset(existing + part) && r in known
    ensures multiset(Keys(later))[LegacyKey(c, r)] <= multiset(Keys(existing))[LegacyKey(c, r)]
  {
    KeysInclude(later, existing + part);
    assert Keys(existing + part) == Keys(existing) + Keys(part);
    StoredRowsAreUnmatchable(c, known, part, r);
    assert multiset(Keys(later))[LegacyKey(c, r)] <= multiset(Keys(existing + part))[LegacyKey(c, r)];
  }

  lemma {:induction false} LaterFits(c: Codec, w: Whole)
    requires Distinguishes(c, w.known) && w.k <= |w.end.stored| && Kept(c, w.existing, w.known, w.end)
    requires multiset(w.later) <= multiset(w.existing + w.end.stored[..w.k])
    ensures Fits(c, w)
  {
    var part := w.end.stored[..w.k];
    ProvsOfPart(w.end.stored, w.k);
    LaterProvs(w.existing, part, w.later);
    forall r | r in w.known ensures multiset(Keys(w.later))[LegacyKey(c, r)] <= multiset(Keys(w.existing))[LegacyKey(c, r)] {
      LaterKeys(c, w.existing, w.known, part, w.later, r);
    }
  }

  lemma LaterProvs(existing: seq<Row>, part: seq<Row>, later: seq<Row>)
    requires multiset(later) <= multiset(existing + part)
    ensures Provs(later) <= Provs(existing) + Provs(part)
  {
    forall row | row in later ensures row in existing || row in part {
      assert row in multiset(later) && row in multiset(existing + part);
    }
  }

  lemma {:induction false} StartsAhead(c: Codec, w: Whole, need: seq<Route>, routes: seq<Route>)
    requires Fits(c, w) && w.known == Elements(routes) && Import(c, Start(w.existing), routes, None).st == w.end
    ensures Ahead(c, w, need, Start(w.existing), Start(w.later), routes)
  {
    StartKept(c, w.existing, w.known);
    StartKept(c, w.later, w.known);
  }

  /** If the rows still in sight back every settled route, the rerun resumes where the first run stopped. */
  lemma {:induction false} BackedResumes(c: Codec, existing: seq<Row>, routes: seq<Route>, k: nat, later: seq<Row>, allowance: Option<nat>)
    requires Distinguishes(c, Elements(routes)) && !Import(c, Start(existing), routes, Some(k)).ok
    requires multiset(later) <= multiset(existing + Import(c, Start(existing), routes, Some(k)).st.stored)
    requires Backed(c, later, Settled(c, routes, Owed(c, existing, routes, k)))
    ensures Resumes(c, existing, routes, k, later, allowance)
  {
    var w := Whole(existing, later, Elements(routes), Import(c, Start(existing), routes, None).st, k);
    var need := Unseen(c, later, Settled(c, routes, Owed(c, existing, routes, k)));
    FirstPart(c, existing, routes, k);
    EndIsKept(c, existing, routes);
    LaterFits(c, w);
    SettledIsNeeded(c, w, routes, need);
    StartsAhead(c, w, need, routes);
    RetryRun(c, w, need, Start(existing), Start(later), routes, allowance);
    Reassemble(c, existing, routes, k, later, allowance);
  }

  lemma {:induction false} SettledIsNeeded(c: Codec, w: Whole, routes: seq<Route>, need: seq<Route>)
    requires w.known == Elements(routes) && need == Unseen(c, w.later, Settled(c, routes, Beyond(w.end.stored, w.k)))
    requires Affordable(c, w.later, need)
    ensures Needs(c, w, need)
  {
  }

  /** What the rerun stored beyond the first `k` rows completes them. */
  lemma {:induction false} Reassemble(c: Codec, existing: seq<Row>, routes: seq<Route>, k: nat, later: seq<Row>, allowance: Option<nat>)
    requires !Import(c, Start(existing), routes, Some(k)).ok
    requires var (whole, rerun) := (Import(c, Start(existing), routes, Shift(allowance, k)), Import(c, Start(later), routes, allowance));
             whole.ok == rerun.ok && rerun.st.stored == Beyond(whole.st.stored, k)
    ensures Resumes(c, existing, routes, k, later, allowance)
  {
    FirstPart(c, existing, routes, k);
    CompletedIsWhole(c, Start(existing), routes, Shift(allowance, k));
    var whole := Import(c, Start(existing), routes, Shift(allowance, k)).st.stored;
    assert whole == whole[..k] + Beyond(whole, k);
  }

  /** If a completed rerun resumes, the rows it saw did back every settled route. */
  lemma {:induction false} ResumedIsBacked(c: Codec, existing: seq<Row>, routes: seq<Route>, k: nat, later: seq<Row>)
    requires Distinguishes(c, Elements(routes)) && !Import(c, Start(existing), routes, Some(k)).ok
    requires Resumes(c, existing, routes, k, later, None)
    ensures Backed(c, later, Settled(c, routes, Owed(c, existing, routes, k)))
  {
    FirstPart(c, existing, routes, k);
    NeverFails(c, Start(later), routes);
    var (first, rerun) := (Import(c, Start(existing), routes, Some(k)).st.stored, Import(c, Start(later), routes, None).st.stored);
    assert rerun == (first + rerun)[k..];
    RestIsBacked(c, later, routes, Settled(c, routes, Owed(c, existing, routes, k)));
  }

  /**
   * Retry safety, exactly: after a failure at any store, a rerun over any part
   * of the rows that exist by then stores precisely what was still owed, in
   * order, if and only if those rows back every route that is not owed.
   */
  lemma {:induction false} ResumesIffBacked(c: Codec, existing: seq<Row>, routes: seq<Route>, k: nat, later: seq<Row>)
    requires Distinguishes(c, Elements(routes)) && !Import(c, Start(existing), routes, Some(k)).ok
    requires multiset(later) <= multiset(existing + Import(c, Start(existing), routes, Some(k)).st.stored)
    ensures Resumes(c, existing, routes, k, later, None) <==> Backed(c, later, Settled(c, routes, Owed(c, existing, routes, k)))
  {
    if Backed(c, later, Settled(c, routes, Owed(c, existing, routes, k))) {
      BackedResumes(c, existing, routes, k, later, None);
    }
    if Resumes(c, existing, routes, k, later, None) {
      ResumedIsBacked(c, existing, routes, k, later);
    }
  }

  /** With every row in sight the condition holds: failing after `k` stores and rerunning is one run, wherever the rerun itself fails. */
  lemma {:induction false} RetryContinues(c: Codec, existing: seq<Row>, routes: seq<Route>, k: nat, later: seq<Row>, allowance: Option<nat>)
    requires Distinguishes(c, Elements(routes)) && !Import(c, Start(existing), routes, Some(k)).ok
    requires multiset(later) == multiset(existing + Import(c, Start(existing), routes, Some(k)).st.stored)
    ensures Resumes(c, existing, routes, k, later, allowance)
  {
    var (end, owed) := (Import(c, Start(existing), routes, None).st, Owed(c, existing, routes, k));
    FirstPart(c, existing, routes, k);
    var part := end.stored[..k];
    EndIsKept(c, existing, routes);
    NeverFails(c, Start(existing), routes);
    SameRowsSameKeys(later, existing + part);
    KeysInclude(existing, existing + part);
    assert Provs(existing + part) == Provs(existing) + Provs(part);
    assert Provs(existing + end.stored) == Provs(existing) + Provs(end.stored);
    ProvsOfPart(end.stored, k);
    forall r | r in Settled(c, routes, owed) ensures Provenance(c, r) in Provs(later) || r in end.charged {
      ImportLosesNothing(c, existing, routes, None, r);
    }
    BackedBy(c, later, Settled(c, routes, owed), end.charged);
    BackedResumes(c, existing, routes, k, later, allowance);
  }
}
