/** Searching a set of private documents: validated query, content-addressed hits, a bounded ordered answer. */
module KnowledgeSearch {
  import opened Basics
  import opened Text
  import opened Utf8
  import opened Pieces
  import opened Sorting
  import opened FoldSearch

  const MAX_QUERY_BYTES := 256

  datatype SearchError = BadQuery | BadLimit

  datatype Hit = Hit(id: seq<byte>, excerpt: string)

  /** Character data and the content digest, both from outside. */
  datatype World = World(casing: Casing, digest: string -> seq<byte>)

  /** "doc-" */
  const ID_PREFIX: seq<byte> := [100, 111, 99, 45]

  function IdOf(w: World, doc: string): seq<byte> {
    ID_PREFIX + w.digest(doc)
  }

  function ById(): Hit -> seq<byte> {
    (h: Hit) => h.id
  }

  predicate GoodQuery(query: string) {
    Trim(query) != [] && |Encode(query)| <= MAX_QUERY_BYTES && forall i :: 0 <= i < |query| ==> !IsControl(query[i])
  }

  predicate Matches(w: World, doc: string, query: string) {
    FindFrom(Fold(w.casing, doc), Fold(w.casing, query), 0).Some?
  }

  /** `text` is the document from the character that covers the match on, byte for byte. */
  ghost predicate StartsAtMatch(k: Casing, doc: string, offset: nat, text: string) {
    exists at: nat :: at < |doc| && Covers(Plains(k, doc), at, offset) && text == doc[at..] &&
      BytesTo(doc, at) <= |Encode(doc)| && Encode(text) == Encode(doc)[BytesTo(doc, at)..]
  }

  /** `h` shows as much as fits of the document from its first match on. */
  ghost predicate IsHit(w: World, doc: string, query: string, h: Hit) {
    && h.id == IdOf(w, doc) && Matches(w, doc, query)
    && var offset := FindFrom(Fold(w.casing, doc), Fold(w.casing, query), 0).value;
       exists text :: StartsAtMatch(w.casing, doc, offset, text) && IsExcerpt(text, h.excerpt)
  }

  /** A document has one hit: what it shows is determined. */
  lemma {:induction false} HitIsUnique(w: World, doc: string, query: string, g: Hit, h: Hit)
    requires IsHit(w, doc, query, g) && IsHit(w, doc, query, h)
    ensures g == h
  {
    var offset := FindFrom(Fold(w.casing, doc), Fold(w.casing, query), 0).value;
    var s :| StartsAtMatch(w.casing, doc, offset, s) && IsExcerpt(s, g.excerpt);
    var t :| StartsAtMatch(w.casing, doc, offset, t) && IsExcerpt(t, h.excerpt);
    OneStart(w.casing, doc, offset, s, t);
    ExcerptIsUnique(s, g.excerpt, h.excerpt);
  }

  lemma {:induction false} OneStart(k: Casing, doc: string, offset: nat, s: string, t: string)
    requires StartsAtMatch(k, doc, offset, s) && StartsAtMatch(k, doc, offset, t)
    ensures s == t
  {
    var i: nat :| i < |doc| && Covers(Plains(k, doc), i, offset) && s == doc[i..];
    var j: nat :| j < |doc| && Covers(Plains(k, doc), j, offset) && t == doc[j..];
    CoverIsUnique(Plains(k, doc), i, j, offset);
  }

  /** A document is answered by a hit exactly when it matches. */
  ghost predicate Answered(w: World, doc: string, query: string, r: Option<Hit>) {
    if Matches(w, doc, query) then r.Some? && IsHit(w, doc, query, r.value) else r.None?
  }

  method HitIn(w: World, doc: string, query: string) returns (r: Option<Hit>)
    requires Lawful(w.casing) && query != []
    ensures Answered(w, doc, query, r)
  {
    var found := FindFrom(Fold(w.casing, doc), Fold(w.casing, query), 0);
    if found.None? {
      return None;
    }
    var start, at := MapOffset(w.casing, doc, found.value);
    FallbackIffBothEmpty(w.casing, doc, query, found.value);
    CharsAreBoundaries(doc, at, 0);
    ghost var cut;
    var text;
    text, cut := SliceFrom(doc, start);
    SameIndex(doc, at, cut);
    assert StartsAtMatch(w.casing, doc, found.value, text);
    var excerpt := BoundedExcerpt(text);
    r := Some(Hit(IdOf(w, doc), excerpt));
  }

  lemma {:induction false} SameIndex(doc: string, i: nat, j: nat)
    requires i <= |doc| && j <= |doc| && BytesTo(doc, i) == BytesTo(doc, j)
    ensures i == j
  {
    if i < j {
      ByteIndexGrows(doc, i, j);
    } else if j < i {
      ByteIndexGrows(doc, j, i);
    }
  }

  /** The hits of the documents that have one, in document order. */
  ghost function Present(found: seq<Option<Hit>>): (hits: seq<Hit>) {
    if found == [] then []
    else
      var last := found[|found| - 1];
      Present(found[..|found| - 1]) + (if last.Some? then [last.value] else [])
  }

  lemma {:induction false} PresentIsExact(found: seq<Option<Hit>>, h: Hit)
    ensures h in Present(found) <==> Some(h) in found
  {
    if found != [] {
      var front := found[..|found| - 1];
      PresentIsExact(front, h);
      assert found == front + [found[|found| - 1]];
    }
  }

  /** The first documents have been answered. */
  ghost predicate AllAnswered(w: World, documents: seq<string>, query: string, found: seq<Option<Hit>>) {
    |found| <= |documents| && forall i :: 0 <= i < |found| ==> Answered(w, documents[i], query, found[i])
  }

  method Collect(w: World, documents: seq<string>, query: string) returns (hits: seq<Hit>, ghost found: seq<Option<Hit>>)
    requires Lawful(w.casing) && query != []
    ensures |found| == |documents| && AllAnswered(w, documents, query, found) && hits == Present(found)
  {
    hits, found := [], [];
    for i := 0 to |documents|
      invariant |found| == i && AllAnswered(w, documents, query, found) && hits == Present(found)
    {
      var hit := HitIn(w, documents[i], query);
      if hit.Some? {
        hits := hits + [hit.value];
      }
      PresentGrows(found, hit);
      AnsweredGrows(w, documents, query, found, hit);
      found := found + [hit];
    }
  }

  lemma PresentGrows(found: seq<Option<Hit>>, hit: Option<Hit>)
    ensures Present(found + [hit]) == Present(found) + (if hit.Some? then [hit.value] else [])
  {
    assert (found + [hit])[..|found|] == found;
  }

  lemma {:induction false} AnsweredGrows(w: World, documents: seq<string>, query: string, found: seq<Option<Hit>>, hit: Option<Hit>)
    requires |found| < |documents| && AllAnswered(w, documents, query, found) && Answered(w, documents[|found|], query, hit)
    ensures AllAnswered(w, documents, query, found + [hit])
  {
    var more := found + [hit];
    forall i | 0 <= i < |more| ensures Answered(w, documents[i], query, more[i]) {
      if i < |found| {
        assert Answered(w, documents[i], query, found[i]) && more[i] == found[i];
      } else {
        assert more[i] == hit;
      }
    }
  }

  // ----- Ordering and bounding the answer -----

  ghost predicate Listed(id: seq<byte>, hits: seq<Hit>) {
    exists i :: 0 <= i < |hits| && hits[i].id == id
  }

  /** Keep the first of each run of equal ids. */
  method DedupById(hits: seq<Hit>) returns (r: seq<Hit>)
    requires Sorted(ById(), hits)
    ensures StrictlySorted(ById(), r)
    ensures forall j :: 0 <= j < |r| ==> r[j] in hits
    ensures forall j :: 0 <= j < |hits| ==> Listed(hits[j].id, r)
  {
    r := [];
    for i := 0 to |hits|
      invariant StrictlySorted(ById(), r)
      invariant forall j :: 0 <= j < |r| ==> r[j] in hits
      invariant forall j :: 0 <= j < i ==> Listed(hits[j].id, r)
      invariant if i == 0 then r == [] else r != [] && r[|r| - 1].id == hits[i - 1].id
    {
      if r == [] || r[|r| - 1].id != hits[i].id {
        AppendKeepsOrder(hits, i, r);
        ListedGrows(hits, i, r, hits[i]);
        r := r + [hits[i]];
      }
    }
  }

  lemma ListedGrows(hits: seq<Hit>, n: nat, r: seq<Hit>, h: Hit)
    requires n <= |hits| && forall j :: 0 <= j < n ==> Listed(hits[j].id, r)
    ensures forall j :: 0 <= j < n ==> Listed(hits[j].id, r + [h])
    ensures Listed(h.id, r + [h])
  {
    assert (r + [h])[|r|] == h;
    forall j | 0 <= j < n ensures Listed(hits[j].id, r + [h]) {
      var i :| 0 <= i < |r| && r[i].id == hits[j].id;
      assert (r + [h])[i] == r[i];
    }
  }

  lemma AppendKeepsOrder(hits: seq<Hit>, i: nat, r: seq<Hit>)
    requires Sorted(ById(), hits) && StrictlySorted(ById(), r) && i < |hits|
    requires r != [] ==> i > 0 && r[|r| - 1].id == hits[i - 1].id && r[|r| - 1].id != hits[i].id
    ensures StrictlySorted(ById(), r + [hits[i]])
  {
    if r != [] {
      var last := r[|r| - 1];
      assert !Less(ById()(hits[i]), ById()(hits[i - 1]));
      LessIsTotal(last.id, hits[i].id);
      forall j | 0 <= j < |r| ensures Less(r[j].id, hits[i].id) {
        if j < |r| - 1 {
          assert Less(ById()(r[j]), ById()(last));
          LessIsTransitive(r[j].id, last.id, hits[i].id);
        }
      }
    }
  }

  /** The id is among the answers, or after all of them when there was no room. */
  ghost predicate Accounted(id: seq<byte>, hits: seq<Hit>, limit: nat) {
    Listed(id, hits) || (|hits| == limit && forall i :: 0 <= i < |hits| ==> Less(hits[i].id, id))
  }

  /** Sort, drop repeated ids and truncate: the `limit` least ids remain, each once, in order. */
  method Top(hits: seq<Hit>, limit: nat) returns (r: seq<Hit>)
    ensures |r| <= limit && StrictlySorted(ById(), r)
    ensures forall j :: 0 <= j < |r| ==> r[j] in hits
    ensures forall j :: 0 <= j < |hits| ==> Accounted(hits[j].id, r, limit)
  {
    var sorted := SortBy(ById(), hits);
    SortBySorts(ById(), hits);
    SameMembers(sorted, hits);
    var distinct := DedupById(sorted);
    r := distinct[..Min(limit, |distinct|)];
    forall j | 0 <= j < |hits| ensures Accounted(hits[j].id, r, limit) {
      assert hits[j] in sorted;
      TruncationAccounts(distinct, limit, hits[j].id);
    }
  }

  lemma SameMembers<T>(a: seq<T>, b: seq<T>)
    requires multiset(a) == multiset(b)
    ensures forall x :: x in a <==> x in b
  {
    assert forall x :: x in a <==> x in multiset(a);
    assert forall x :: x in b <==> x in multiset(b);
  }

  lemma TruncationAccounts(distinct: seq<Hit>, limit: nat, id: seq<byte>)
    requires StrictlySorted(ById(), distinct) && Listed(id, distinct)
    ensures Accounted(id, distinct[..Min(limit, |distinct|)], limit)
  {
    var top := distinct[..Min(limit, |distinct|)];
    var i :| 0 <= i < |distinct| && distinct[i].id == id;
    if i < |top| {
      assert top[i].id == id;
    } else {
      forall j | 0 <= j < |top| ensures Less(top[j].id, id) {
        assert Less(ById()(distinct[j]), ById()(distinct[i]));
      }
    }
  }

  // ----- The whole search -----

  ghost predicate HitFrom(w: World, documents: seq<string>, query: string, h: Hit) {
    exists i :: 0 <= i < |documents| && IsHit(w, documents[i], query, h)
  }

  /** The answer holds the `limit` least ids of matching documents, each once and in order, each showing its own document. */
  ghost predicate IsAnswer(w: World, documents: seq<string>, query: string, limit: nat, hits: seq<Hit>) {
    && |hits| <= limit && StrictlySorted(ById(), hits)
    && (forall j :: 0 <= j < |hits| ==> HitFrom(w, documents, query, hits[j]))
    && (forall i :: 0 <= i < |documents| && Matches(w, documents[i], query) ==> Accounted(IdOf(w, documents[i]), hits, limit))
  }

  method Search(w: World, documents: seq<string>, query: string, limit: nat) returns (r: Result<seq<Hit>, SearchError>)
    requires Lawful(w.casing)
    ensures match r
            case Err(e) => if e == BadQuery then !GoodQuery(query) else GoodQuery(query) && !(1 <= limit <= 10)
            case Ok(hits) => GoodQuery(query) && 1 <= limit <= 10 && IsAnswer(w, documents, query, limit, hits)
  {
    if !GoodQuery(query) {
      return Err(BadQuery);
    }
    if !(1 <= limit <= 10) {
      return Err(BadLimit);
    }
    EmptyTrims(query);
    ghost var found;
    var hits;
    hits, found := Collect(w, documents, query);
    var top := Top(hits, limit);
    TopAnswers(w, documents, query, limit, found, top);
    r := Ok(top);
  }

  lemma {:induction false} TopAnswers(w: World, documents: seq<string>, query: string, limit: nat, found: seq<Option<Hit>>, top: seq<Hit>)
    requires |found| == |documents| && AllAnswered(w, documents, query, found)
    requires |top| <= limit && StrictlySorted(ById(), top)
    requires forall j :: 0 <= j < |top| ==> top[j] in Present(found)
    requires forall j :: 0 <= j < |Present(found)| ==> Accounted(Present(found)[j].id, top, limit)
    ensures IsAnswer(w, documents, query, limit, top)
  {
    forall j | 0 <= j < |top| ensures HitFrom(w, documents, query, top[j]) {
      PresentIsExact(found, top[j]);
      ShownByDocument(w, documents, query, found, top[j]);
    }
    forall i | 0 <= i < |documents| && Matches(w, documents[i], query) ensures Accounted(IdOf(w, documents[i]), top, limit) {
      assert Answered(w, documents[i], query, found[i]);
      PresentIsExact(found, found[i].value);
      assert found[i].value in Present(found);
    }
  }

  lemma ShownByDocument(w: World, documents: seq<string>, query: string, found: seq<Option<Hit>>, h: Hit)
    requires AllAnswered(w, documents, query, found) && Some(h) in found
    ensures HitFrom(w, documents, query, h)
  {
    var i :| 0 <= i < |found| && found[i] == Some(h);
    assert Answered(w, documents[i], query, found[i]);
  }

  lemma EmptyTrims(query: string)
    requires Trim(query) != []
    ensures query != []
  {
    assert Trim([]) == [];
  }

  /** A query is good exactly when something in it shows, nothing in it is a control code and it takes at most 256 bytes. */
  lemma {:induction false} GoodQueryIff(query: string)
    ensures GoodQuery(query)
       <==> && (exists i :: 0 <= i < |query| && !IsSpace(query[i]))
            && (forall i :: 0 <= i < |query| ==> !IsControlCode(query[i] as int))
            && |Encode(query)| <= 256
  {
    TrimEmptyIff(query);
  }
}
