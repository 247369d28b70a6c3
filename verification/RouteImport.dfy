/**
 * Promoting route records into activity memory: an append-only import that
 * recognises what it already stored by full-record provenance, and charges each
 * older, timestamp-only row to at most one identity.
 */
module RouteImport {
  import opened Basics

  datatype Route = Route(
    ts: string, cwd: string, persona: string, role: string, model: string, reason: string, confidence: real,
    tools: seq<string>, correlation: Option<string>, stage: Option<string>,
    alternate: Option<string>, fallback: Option<string>)

  /** A live memory row whose source type is `route`. */
  datatype Row = Row(provenance: string, summary: string, payload: string, confidence: real,
                     retention: string, tags: seq<string>)

  /** What the lossy, timestamp-only projection of a route or row retains. */
  datatype Key = Key(provenance: string, summary: string, payload: string, confidence: real)

  /** Parts not modelled: the record digest in hex, and two-decimal rendering. */
  datatype Codec = Codec(digest: Route -> string, decimals: real -> string)

  const LIMIT: nat := 10_000

  // ----- Projections -----

  function OrDash(s: Option<string>): string {
    if s.Some? then s.value else "-"
  }

  function Summary(r: Route): string {
    "route " + r.persona + "/" + r.role + " \U{2192} " + r.model
  }

  function Payload(c: Codec, r: Route): string {
    r.cwd + "\nreason=" + r.reason + "\nconfidence=" + c.decimals(r.confidence) +
    "\nalternate=" + OrDash(r.alternate) + "\nfallback=" + OrDash(r.fallback)
  }

  function LegacyProvenance(r: Route): string {
    "route.jsonl @ " + r.ts
  }

  function Provenance(c: Codec, r: Route): string {
    LegacyProvenance(r) + (" sha256:" + c.digest(r))
  }

  function LegacyKey(c: Codec, r: Route): Key {
    Key(LegacyProvenance(r), Summary(r), Payload(c, r), r.confidence)
  }

  function KeyOf(row: Row): Key {
    Key(row.provenance, row.summary, row.payload, row.confidence)
  }

  /** Carries nothing the legacy projection would have lost. */
  predicate Plain(r: Route) {
    r.tools == [] && r.correlation.None? && r.stage.None?
  }

  function NewRow(c: Codec, r: Route): Row {
    Row(Provenance(c, r), Summary(r), Payload(c, r), r.confidence, "activity", ["activity", "self-learn", r.role])
  }

  function Provs(rows: seq<Row>): set<string> {
    set row | row in rows :: row.provenance
  }

  function RouteProvs(c: Codec, rs: seq<Route>): set<string> {
    set r | r in rs :: Provenance(c, r)
  }

  function Keys(rows: seq<Row>): seq<Key> {
    seq(|rows|, i requires 0 <= i < |rows| => KeyOf(rows[i]))
  }

  function LegacyKeys(c: Codec, rs: seq<Route>): seq<Key> {
    seq(|rs|, i requires 0 <= i < |rs| => LegacyKey(c, rs[i]))
  }

  // ----- The import, step by step -----

  /** `legacy` counts rows not yet charged; `charged` lists the routes charged to one. */
  datatype State = State(already: set<string>, legacy: multiset<Key>, stored: seq<Row>, charged: seq<Route>)

  function Start(existing: seq<Row>): State {
    State(Provs(existing), multiset(Keys(existing)), [], [])
  }

  predicate Chargeable(c: Codec, st: State, r: Route) {
    Plain(r) && LegacyKey(c, r) in st.legacy
  }

  predicate WouldStore(c: Codec, st: State, r: Route) {
    Provenance(c, r) !in st.already && !Chargeable(c, st, r)
  }

  function Step(c: Codec, st: State, r: Route): State {
    if Provenance(c, r) in st.already then st
    else if Chargeable(c, st, r) then
      st.(already := st.already + {Provenance(c, r)}, legacy := st.legacy - multiset{LegacyKey(c, r)},
          charged := st.charged + [r])
    else st.(already := st.already + {Provenance(c, r)}, stored := st.stored + [NewRow(c, r)])
  }

  datatype Outcome = Outcome(st: State, ok: bool)

  /** `allowance`: how many stores succeed before one fails, if any does. */
  function Import(c: Codec, st: State, routes: seq<Route>, allowance: Option<nat>): Outcome
    decreases |routes|
  {
    if routes == [] then Outcome(st, true)
    else if WouldStore(c, st, routes[0]) && allowance == Some(|st.stored|) then Outcome(st, false)
    else Import(c, Step(c, st, routes[0]), routes[1..], allowance)
  }

  // ----- The store and the loop -----

  /** Newest rows first, at most `limit` of them. */
  function Visible(rows: seq<Row>, limit: nat): seq<Row> {
    var newest := Reverse(rows);
    if |newest| <= limit then newest else newest[..limit]
  }

  class Memory {
    var rows: seq<Row>
    var writes: nat
    const allowance: Option<nat>

    constructor (rows: seq<Row>, allowance: Option<nat>)
      ensures this.rows == rows && writes == 0 && this.allowance == allowance
    {
      this.rows, this.writes, this.allowance := rows, 0, allowance;
    }

    method Store(row: Row) returns (ok: bool)
      modifies this
      ensures ok == (allowance != Some(old(writes)))
      ensures ok ==> rows == old(rows) + [row] && writes == old(writes) + 1
      ensures !ok ==> rows == old(rows) && writes == old(writes)
    {
      ok := allowance != Some(writes);
      if ok {
        rows, writes := rows + [row], writes + 1;
      }
    }

    /** The newest rows first, until the limit is reached. */
    method FilterRoutes(limit: nat) returns (existing: seq<Row>)
      ensures |existing| == Min(limit, |rows|)
      ensures forall i :: 0 <= i < |existing| ==> existing[i] == rows[|rows| - 1 - i]
    {
      existing := [];
      if limit == 0 {
        return;
      }
      for n := 0 to |rows|
        invariant n < limit && |existing| == n
        invariant forall i :: 0 <= i < n ==> existing[i] == rows[|rows| - 1 - i]
      {
        existing := existing + [rows[|rows| - 1 - n]];
        if |existing| >= limit {
          return;
        }
      }
    }
  }

  lemma VisibleByIndex(rows: seq<Row>, limit: nat)
    ensures |Visible(rows, limit)| == Min(limit, |rows|)
    ensures forall i :: 0 <= i < |Visible(rows, limit)| ==> Visible(rows, limit)[i] == rows[|rows| - 1 - i]
  {
    ReverseElements(rows);
  }

  function SwapRemove<T>(s: seq<T>, i: nat): (r: seq<T>)
    requires i < |s|
    ensures multiset(r) == multiset(s) - multiset{s[i]}
  {
    var last := s[|s| - 1];
    assert s == s[..|s| - 1] + [last];
    if i == |s| - 1 then s[..i]
    else
      assert s == s[..i] + [s[i]] + s[i + 1..|s| - 1] + [last];
      s[..i] + [last] + s[i + 1..|s| - 1]
  }

  lemma KeysSwapRemove(rows: seq<Row>, i: nat)
    requires i < |rows|
    ensures multiset(Keys(SwapRemove(rows, i))) == multiset(Keys(rows)) - multiset{KeyOf(rows[i])}
  {
    assert Keys(SwapRemove(rows, i)) == SwapRemove(Keys(rows), i);
  }

  /** The first row this plain route's projection matches, or one past the end. */
  method FindLegacy(c: Codec, legacy: seq<Row>, r: Route) returns (i: nat)
    ensures i <= |legacy|
    ensures i < |legacy| ==> Plain(r) && KeyOf(legacy[i]) == LegacyKey(c, r)
    ensures i < |legacy| <==> Plain(r) && LegacyKey(c, r) in multiset(Keys(legacy))
  {
    i := 0;
    while i < |legacy| && !(Plain(r) && KeyOf(legacy[i]) == LegacyKey(c, r))
      invariant i <= |legacy|
      invariant forall j :: 0 <= j < i ==> !(Plain(r) && KeyOf(legacy[j]) == LegacyKey(c, r))
    {
      i := i + 1;
    }
    if i < |legacy| {
      assert Keys(legacy)[i] == LegacyKey(c, r);
    } else if LegacyKey(c, r) in multiset(Keys(legacy)) {
      var j :| 0 <= j < |legacy| && Keys(legacy)[j] == LegacyKey(c, r);
    }
  }

  /** The import loop over a store that may fail; what was stored before a failure stays. */
  method StoreRouteActivity(mem: Memory, c: Codec, routes: seq<Route>) returns (r: Result<nat, nat>, ghost final: State)
    requires mem.writes == 0
    modifies mem
    ensures Import(c, Start(Visible(old(mem.rows), LIMIT)), routes, mem.allowance) == Outcome(final, r.Ok?)
    ensures mem.rows == old(mem.rows) + final.stored
    ensures r == if r.Ok? then Ok(|final.stored|) else Err(|final.stored|)
  {
    var existing := mem.FilterRoutes(LIMIT);
    VisibleByIndex(mem.rows, LIMIT);
    assert existing == Visible(mem.rows, LIMIT);
    var already, legacy, stored := Provs(existing), existing, 0;
    final := Start(existing);
    ghost var goal := Import(c, final, routes, mem.allowance);
    for n := 0 to |routes|
      invariant already == final.already && multiset(Keys(legacy)) == final.legacy
      invariant stored == |final.stored| == mem.writes && mem.rows == old(mem.rows) + final.stored
      invariant goal == Import(c, final, routes[n..], mem.allowance)
    {
      var route := routes[n];
      assert routes[n..][1..] == routes[n + 1..];
      var provenance := Provenance(c, route);
      if provenance in already {
        continue;
      }
      var index := FindLegacy(c, legacy, route);
      if index < |legacy| {
        KeysSwapRemove(legacy, index);
        final := Step(c, final, route);
        legacy, already := SwapRemove(legacy, index), already + {provenance};
        continue;
      }
      var ok := mem.Store(NewRow(c, route));
      if !ok {
        return Err(stored), final;
      }
      final := Step(c, final, route);
      already, stored := already + {provenance}, stored + 1;
    }
    r := Ok(stored);
  }
}
