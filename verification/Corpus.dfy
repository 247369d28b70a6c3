/** Qualification of a contract corpus: the manifest's inventory against the files, then against its own digest. */
module Corpus {
  import opened Basics
  import opened Sorting
  import opened Preimage

  const MAX_CORPUS_BYTES := 16 * 1024 * 1024
  const MAX_U64 := 0xFFFF_FFFF_FFFF_FFFF
  const MANIFEST: seq<byte> := Ascii("manifest.json")

  datatype Row = Row(path: seq<byte>, size: nat, mediaType: seq<byte>, sha256: seq<byte>, schemaId: Option<seq<byte>>)

  datatype Manifest = Manifest(contractMajor: nat, contractRevision: nat, algorithm: seq<byte>, redactionProfile: seq<byte>,
                               artifacts: seq<Row>, aggregateDigest: seq<byte>)

  datatype Mismatch =
    | MetadataInvalid(path: seq<byte>)
    | InventoryMismatch(path: seq<byte>)
    | ArtifactUnreadable(path: seq<byte>)
    | ArtifactInvalid(path: seq<byte>)
    | ArtifactDigestMismatch(path: seq<byte>)
    | AggregateDigestMismatch(path: seq<byte>)

  /** The file system, the hash and the JSON printer, as far as this code sees them. */
  datatype World = World(
    read: seq<byte> -> Result<seq<byte>, Mismatch>,
    discovered: seq<seq<byte>>,
    sha256: seq<byte> -> seq<byte>,
    pretty: Manifest -> seq<byte>)

  predicate IsHexDigest(d: seq<byte>) {
    |d| == 64 && forall i :: 0 <= i < |d| ==> 48 <= d[i] <= 57 || 97 <= d[i] <= 102
  }

  /** File names hold no NUL, the walk leaves the manifest itself out, and the hash prints as lower-case hex. */
  ghost predicate Lawful(w: World) {
    && (forall i :: 0 <= i < |w.discovered| ==> 0 !in w.discovered[i])
    && MANIFEST !in w.discovered
    && (forall b :: IsHexDigest(w.sha256(b)))
  }

  // ----- Relative paths -----

  /** The parts between slashes. */
  function Segments(path: seq<byte>): (r: seq<seq<byte>>)
    ensures r != []
  {
    if path == [] then [[]]
    else if path[0] == 47 then [[]] + Segments(path[1..])
    else var rest := Segments(path[1..]); [[path[0]] + rest[0]] + rest[1..]
  }

  /** Relative, without backslash, and made of plain names: no parent step anywhere and no leading dot. */
  predicate ValidRelative(path: seq<byte>) {
    && path != [] && 92 !in path && path[0] != 47
    && Segments(path)[0] != [46] && [46, 46] !in Segments(path)
  }

  // ----- The inventory loop -----

  predicate ListedBefore(rows: seq<Row>, i: nat)
    requires i < |rows|
  {
    exists j :: 0 <= j < i && rows[j].path == rows[i].path
  }

  /** What is wrong with row `i`, given the rows before it. */
  function RowFault(w: World, rows: seq<Row>, i: nat): Option<Mismatch>
    requires i < |rows|
  {
    var row := rows[i];
    if !ValidRelative(row.path) then Some(MetadataInvalid(Ascii("manifest_entry")))
    else if ListedBefore(rows, i) then Some(InventoryMismatch(row.path))
    else match w.read(row.path)
      case Err(e) => Some(e)
      case Ok(bytes) =>
        if row.size != |bytes| || row.sha256 != w.sha256(bytes) then Some(ArtifactDigestMismatch(row.path)) else None
  }

  /** The first fault at or after row `i`. */
  function FirstFault(w: World, rows: seq<Row>, i: nat): (r: Option<Mismatch>)
    requires i <= |rows|
    ensures r.None? <==> forall j: nat :: i <= j < |rows| ==> RowFault(w, rows, j).None?
    decreases |rows| - i
  {
    if i == |rows| then None
    else if RowFault(w, rows, i).Some? then RowFault(w, rows, i)
    else FirstFault(w, rows, i + 1)
  }

  function SizeTo(rows: seq<Row>, n: nat): nat
    requires n <= |rows|
  {
    if n == 0 then 0 else SizeTo(rows, n - 1) + rows[n - 1].size
  }

  function Paths(rows: seq<Row>): set<seq<byte>> {
    set i | 0 <= i < |rows| :: rows[i].path
  }

  function Names(names: seq<seq<byte>>): set<seq<byte>> {
    set i | 0 <= i < |names| :: names[i]
  }

  // ----- The aggregate digest -----

  function Zeros(): seq<byte> {
    seq(64, i => 48)
  }

  function ManifestBytes(w: World, m: Manifest): seq<byte> {
    w.pretty(m.(aggregateDigest := Zeros())) + [10]
  }

  function RowEntry(row: Row): Entry {
    Entry(row.path, row.size, row.sha256)
  }

  /** One entry per artifact, and the manifest's own with its digest zeroed. */
  function Entries(w: World, m: Manifest): seq<Entry> {
    var own := ManifestBytes(w, m);
    seq(|m.artifacts|, i requires 0 <= i < |m.artifacts| => RowEntry(m.artifacts[i])) + [Entry(MANIFEST, |own|, w.sha256(own))]
  }

  method AggregateDigest(w: World, m: Manifest) returns (digest: seq<byte>)
    ensures digest == w.sha256(PreimageOf(Entries(w, m)))
  {
    var own := ManifestBytes(w, m);
    var entries := seq(|m.artifacts|, i requires 0 <= i < |m.artifacts| => RowEntry(m.artifacts[i]));
    entries := entries + [Entry(MANIFEST, |own|, w.sha256(own))];
    entries := SortBy(ByPath(), entries);
    var stream := CORPUS_DOMAIN;
    for i := 0 to |entries|
      invariant stream + Lines(entries[i..]) == CORPUS_DOMAIN + Lines(entries)
    {
      assert entries[i..][1..] == entries[i + 1..];
      stream := stream + Line(entries[i]);
    }
    assert stream + [] == stream;
    digest := w.sha256(stream);
  }

  /** Everything that has to hold for the corpus to be accepted. */
  ghost predicate Accepted(w: World, m: Manifest) {
    && FirstFault(w, m.artifacts, 0).None?
    && Paths(m.artifacts) == Names(w.discovered)
    && SizeTo(m.artifacts, |m.artifacts|) <= MAX_CORPUS_BYTES
    && w.sha256(PreimageOf(Entries(w, m))) == m.aggregateDigest
  }

  /** The checks in order; a saturating total cannot pass for a small one, so what is returned is the exact sum. */
  method Qualify(w: World, m: Manifest) returns (r: Result<nat, Mismatch>)
    ensures r.Ok? <==> Accepted(w, m)
    ensures r.Ok? ==> r.value == SizeTo(m.artifacts, |m.artifacts|) < MAX_U64
    ensures FirstFault(w, m.artifacts, 0).Some? ==> r == Err(FirstFault(w, m.artifacts, 0).value)
    ensures FirstFault(w, m.artifacts, 0).None? ==>
              (r == Err(InventoryMismatch(MANIFEST)) <==>
                 Paths(m.artifacts) != Names(w.discovered) || SizeTo(m.artifacts, |m.artifacts|) > MAX_CORPUS_BYTES)
    ensures FirstFault(w, m.artifacts, 0).None? && r.Err? ==> r.error in {InventoryMismatch(MANIFEST), AggregateDigestMismatch(MANIFEST)}
  {
    var rows := m.artifacts;
    var listed: set<seq<byte>> := {};
    var total := 0;
    for i := 0 to |rows|
      invariant FirstFault(w, rows, 0) == FirstFault(w, rows, i)
      invariant listed == Paths(rows[..i])
      invariant total == Min(SizeTo(rows, i), MAX_U64)
    {
      var row := rows[i];
      ListedIff(rows, i);
      if !ValidRelative(row.path) {
        return Err(MetadataInvalid(Ascii("manifest_entry")));
      }
      if row.path in listed {
        return Err(InventoryMismatch(row.path));
      }
      listed := listed + {row.path};
      var bytes := w.read(row.path);
      if bytes.Err? {
        return Err(bytes.error);
      }
      total := Min(total + |bytes.value|, MAX_U64);
      if row.size != |bytes.value| || row.sha256 != w.sha256(bytes.value) {
        return Err(ArtifactDigestMismatch(row.path));
      }
    }
    assert rows[..|rows|] == rows;
    if listed != Names(w.discovered) || total > MAX_CORPUS_BYTES {
      return Err(InventoryMismatch(MANIFEST));
    }
    var digest := AggregateDigest(w, m);
    if digest != m.aggregateDigest {
      return Err(AggregateDigestMismatch(MANIFEST));
    }
    r := Ok(total);
  }

  lemma ListedIff(rows: seq<Row>, i: nat)
    requires i < |rows|
    ensures rows[i].path in Paths(rows[..i]) <==> ListedBefore(rows, i)
    ensures Paths(rows[..i + 1]) == Paths(rows[..i]) + {rows[i].path}
  {
    var (a, b) := (rows[..i], rows[..i + 1]);
    assert forall j :: 0 <= j < i ==> a[j] == rows[j] && b[j] == rows[j];
    forall p ensures p in Paths(b) <==> p in Paths(a) + {rows[i].path} {
      if p in Paths(a) {
        var j :| 0 <= j < |a| && a[j].path == p;
        assert b[j].path == p;
      }
      assert b[i] == rows[i];
    }
    if ListedBefore(rows, i) {
      var j :| 0 <= j < i && rows[j].path == rows[i].path;
      assert a[j].path == rows[i].path;
    }
  }

  // ----- What acceptance guarantees -----

  lemma {:induction false} NoFaultMeans(w: World, rows: seq<Row>, i: nat)
    requires i < |rows| && FirstFault(w, rows, 0).None?
    ensures ValidRelative(rows[i].path) && !ListedBefore(rows, i)
    ensures w.read(rows[i].path).Ok? && rows[i].size == |w.read(rows[i].path).value| && rows[i].sha256 == w.sha256(w.read(rows[i].path).value)
  {
    assert RowFault(w, rows, i).None?;
  }

  lemma HexHasNoNewline(d: seq<byte>)
    requires IsHexDigest(d)
    ensures 10 !in d
  {
  }

  lemma {:induction false} RowIsSeparable(w: World, m: Manifest, i: nat)
    requires Lawful(w) && Accepted(w, m) && i < |m.artifacts|
    ensures Separable(RowEntry(m.artifacts[i])) && m.artifacts[i].path != MANIFEST
  {
    var row := m.artifacts[i];
    NoFaultMeans(w, m.artifacts, i);
    HexHasNoNewline(w.sha256(w.read(row.path).value));
    assert row.path in Names(w.discovered);
  }

  lemma ManifestIsSeparable(size: nat, digest: seq<byte>)
    requires IsHexDigest(digest)
    ensures Separable(Entry(MANIFEST, size, digest))
  {
    HexHasNoNewline(digest);
  }

  /** An accepted inventory meets every condition unique decoding needs, the manifest's own entry included. */
  lemma {:induction false} AcceptedIsDecodable(w: World, m: Manifest)
    requires Lawful(w) && Accepted(w, m)
    ensures AllSeparable(Entries(w, m)) && DistinctKeys(ByPath(), Entries(w, m))
  {
    var (es, n, own) := (Entries(w, m), |m.artifacts|, ManifestBytes(w, m));
    ManifestIsSeparable(|own|, w.sha256(own));
    forall i | 0 <= i < |es| ensures Separable(es[i]) {
      if i < n {
        RowIsSeparable(w, m, i);
      }
    }
    forall i, j | 0 <= i < j < |es| ensures ByPath()(es[i]) != ByPath()(es[j]) {
      RowIsSeparable(w, m, i);
      if j < n {
        NoFaultMeans(w, m.artifacts, j);
      }
    }
  }

  /** The files of an accepted corpus, by name. */
  ghost predicate SameFiles(v: World, w: World) {
    && Names(v.discovered) == Names(w.discovered)
    && forall p :: p in Names(v.discovered) ==> v.read(p).Ok? && v.read(p) == w.read(p)
  }

  /** No two of the byte strings in play share a digest. */
  ghost predicate NoCollision(sha256: seq<byte> -> seq<byte>, a: seq<byte>, b: seq<byte>) {
    sha256(a) == sha256(b) ==> a == b
  }

  lemma {:induction false} NameHasEntry(w: World, m: Manifest, p: seq<byte>)
    requires Lawful(w) && Accepted(w, m) && p in Names(w.discovered)
    ensures w.read(p).Ok? && Entry(p, |w.read(p).value|, w.sha256(w.read(p).value)) in Entries(w, m)
  {
    assert p in Paths(m.artifacts);
    var i :| 0 <= i < |m.artifacts| && m.artifacts[i].path == p;
    NoFaultMeans(w, m.artifacts, i);
    assert Entries(w, m)[i] == RowEntry(m.artifacts[i]);
  }

  lemma {:induction false} EntryHasName(w: World, m: Manifest, e: Entry)
    requires Lawful(w) && Accepted(w, m) && e in Entries(w, m) && e.path != MANIFEST
    ensures e.path in Names(w.discovered) && w.read(e.path).Ok? && e.digest == w.sha256(w.read(e.path).value)
  {
    var i :| 0 <= i < |Entries(w, m)| && Entries(w, m)[i] == e;
    assert e == RowEntry(m.artifacts[i]);
    assert e.path in Paths(m.artifacts);
    NoFaultMeans(w, m.artifacts, i);
  }

  lemma {:induction false} FileIsShared(v: World, l: Manifest, w: World, m: Manifest, p: seq<byte>)
    requires Lawful(v) && Lawful(w) && v.sha256 == w.sha256 && Accepted(v, l) && Accepted(w, m)
    requires forall e :: e in Entries(v, l) <==> e in Entries(w, m)
    requires forall q :: v.read(q).Ok? && w.read(q).Ok? ==> NoCollision(v.sha256, v.read(q).value, w.read(q).value)
    requires p in Names(v.discovered)
    ensures p in Names(w.discovered) && v.read(p).Ok? && v.read(p) == w.read(p)
  {
    NameHasEntry(v, l, p);
    NameIsNotManifest(v, p);
    EntryHasName(w, m, Entry(p, |v.read(p).value|, v.sha256(v.read(p).value)));
    assert NoCollision(v.sha256, v.read(p).value, w.read(p).value);
  }

  lemma NameIsNotManifest(w: World, p: seq<byte>)
    requires Lawful(w) && p in Names(w.discovered)
    ensures p != MANIFEST
  {
  }

  /**
   * The point of the digest: two accepted corpora that carry the same
   * aggregate digest hold the same files with the same contents, and equal
   * zeroed manifests, unless the hash itself collides on one of them.
   */
  lemma {:induction false} SameDigestSameCorpus(v: World, l: Manifest, w: World, m: Manifest)
    requires Lawful(v) && Lawful(w) && v.sha256 == w.sha256 && Accepted(v, l) && Accepted(w, m)
    requires l.aggregateDigest == m.aggregateDigest
    requires NoCollision(v.sha256, PreimageOf(Entries(v, l)), PreimageOf(Entries(w, m)))
    requires NoCollision(v.sha256, ManifestBytes(v, l), ManifestBytes(w, m))
    requires forall q :: v.read(q).Ok? && w.read(q).Ok? ==> NoCollision(v.sha256, v.read(q).value, w.read(q).value)
    ensures SameFiles(v, w) && ManifestBytes(v, l) == ManifestBytes(w, m)
  {
    AcceptedIsDecodable(v, l);
    AcceptedIsDecodable(w, m);
    PreimageIff(Entries(v, l), Entries(w, m));
    forall p | p in Names(v.discovered) ensures p in Names(w.discovered) && v.read(p).Ok? && v.read(p) == w.read(p) {
      FileIsShared(v, l, w, m, p);
    }
    forall p | p in Names(w.discovered) ensures p in Names(v.discovered) {
      FileIsShared(w, m, v, l, p);
    }
    ManifestIsShared(v, l, w, m);
  }

  lemma {:induction false} ManifestIsShared(v: World, l: Manifest, w: World, m: Manifest)
    requires Lawful(v) && Lawful(w) && v.sha256 == w.sha256 && Accepted(v, l) && Accepted(w, m)
    requires forall e :: e in Entries(v, l) <==> e in Entries(w, m)
    requires NoCollision(v.sha256, ManifestBytes(v, l), ManifestBytes(w, m))
    ensures ManifestBytes(v, l) == ManifestBytes(w, m)
  {
    var (es, own) := (Entries(v, l), ManifestBytes(v, l));
    var mine := Entry(MANIFEST, |own|, v.sha256(own));
    assert es[|l.artifacts|] == mine;
    assert mine in Entries(w, m);
    var i :| 0 <= i < |Entries(w, m)| && Entries(w, m)[i] == mine;
    if i < |m.artifacts| {
      RowIsSeparable(w, m, i);
      assert false;
    }
  }

  /** Nothing to list and a constant digest: the hypotheses can be met. */
  lemma {:induction false} EmptyCorpusIsAccepted(w: World, m: Manifest)
    requires w == World((p: seq<byte>) => Err(ArtifactUnreadable(p)), [], (b: seq<byte>) => Zeros(), (l: Manifest) => [])
    requires m == Manifest(2, 2, [], [], [], Zeros())
    ensures Lawful(w) && Accepted(w, m)
  {
    assert Paths([]) == {} && Names([]) == {};
    assert IsHexDigest(Zeros());
  }

  // ----- What the checks mean -----

  /** Up to the first slash, and the segments of what follows it. */
  lemma {:induction false} SegmentStep(path: seq<byte>) returns (j: nat)
    ensures j <= |path| && Segments(path)[0] == path[..j] && forall k :: 0 <= k < j ==> path[k] != 47
    ensures j == |path| ==> Segments(path) == [path]
    ensures j < |path| ==> path[j] == 47 && Segments(path) == [path[..j]] + Segments(path[j + 1..])
  {
    j := 0;
    if path != [] && path[0] != 47 {
      var rest := path[1..];
      var i := SegmentStep(rest);
      j := i + 1;
      assert path[..j] == [path[0]] + rest[..i] && path == [path[0]] + rest;
      if i < |rest| {
        assert rest[i + 1..] == path[j + 1..];
        assert Segments(rest)[1..] == Segments(rest[i + 1..]);
      }
    }
  }

  /** Two dots that make up a whole segment. */
  predicate ParentStepAt(path: seq<byte>, i: nat) {
    && i + 2 <= |path| && path[i] == 46 && path[i + 1] == 46
    && (i == 0 || path[i - 1] == 47)
    && (i + 2 == |path| || path[i + 2] == 47)
  }

  lemma {:induction false} ParentStepIff(path: seq<byte>)
    ensures [46, 46] in Segments(path) <==> exists i: nat :: ParentStepAt(path, i)
    decreases |path|
  {
    var j := SegmentStep(path);
    assert path[..j] == [46, 46] <==> ParentStepAt(path, 0);
    if j < |path| {
      var rest := path[j + 1..];
      ParentStepIff(rest);
      forall i: nat | ParentStepAt(rest, i) ensures ParentStepAt(path, i + j + 1) {
      }
      forall i: nat | ParentStepAt(path, i) && i > 0 ensures exists k: nat :: ParentStepAt(rest, k) {
        assert ParentStepAt(rest, i - j - 1);
      }
    } else {
    }
  }

  /** A path is relative exactly when, read byte by byte, it has no backslash, no leading slash, no leading dot segment and no parent step. */
  lemma {:induction false} ValidRelativeIff(path: seq<byte>)
    ensures ValidRelative(path)
       <==> && path != [] && path[0] != 47
            && (forall i :: 0 <= i < |path| ==> path[i] != 92)
            && !(path[0] == 46 && (|path| == 1 || path[1] == 47))
            && !exists i: nat :: ParentStepAt(path, i)
  {
    var j := SegmentStep(path);
    ParentStepIff(path);
    if path != [] {
      assert path[..j] == [46] <==> path[0] == 46 && (|path| == 1 || path[1] == 47);
    }
  }

  /** The file a row describes was read, and is as the row says. */
  predicate DescribesFile(w: World, row: Row) {
    match w.read(row.path)
    case Err(_) => false
    case Ok(bytes) => row.size == |bytes| && row.sha256 == w.sha256(bytes)
  }

  ghost predicate DistinctPaths(rows: seq<Row>) {
    forall i, j :: 0 <= i < j < |rows| ==> rows[i].path != rows[j].path
  }

  /** Acceptance without the loop: distinct relative paths, each describing its file, all files listed, 16 MiB at most, and the digest. */
  lemma {:induction false} AcceptedIff(w: World, m: Manifest)
    ensures Accepted(w, m)
       <==> && (forall i :: 0 <= i < |m.artifacts| ==> ValidRelative(m.artifacts[i].path) && DescribesFile(w, m.artifacts[i]))
            && DistinctPaths(m.artifacts)
            && (forall p :: p in w.discovered <==> exists i :: 0 <= i < |m.artifacts| && m.artifacts[i].path == p)
            && SizeTo(m.artifacts, |m.artifacts|) <= 16_777_216
            && w.sha256(PreimageOf(Entries(w, m))) == m.aggregateDigest
  {
    var rows := m.artifacts;
    NoFaultIff(w, rows);
    assert forall p :: p in Paths(rows) <==> exists i :: 0 <= i < |rows| && rows[i].path == p;
    assert forall p :: p in Names(w.discovered) <==> p in w.discovered;
  }

  lemma {:induction false} NoFaultIff(w: World, rows: seq<Row>)
    ensures FirstFault(w, rows, 0).None?
       <==> && (forall i :: 0 <= i < |rows| ==> ValidRelative(rows[i].path) && DescribesFile(w, rows[i]))
            && DistinctPaths(rows)
  {
    if FirstFault(w, rows, 0).None? {
      forall i | 0 <= i < |rows| ensures ValidRelative(rows[i].path) && DescribesFile(w, rows[i]) && !ListedBefore(rows, i) {
        NoFaultMeans(w, rows, i);
      }
    }
  }

  /** The error reported is that of the first bad row: a path that is not relative, else one listed before, else the read error, else a size or digest that is not the file's. */
  lemma {:induction false} FirstFaultIsFirst(w: World, rows: seq<Row>, i: nat) returns (j: nat)
    requires i <= |rows| && FirstFault(w, rows, i).Some?
    ensures i <= j < |rows| && FirstFault(w, rows, i) == RowFault(w, rows, j)
    ensures forall n: nat :: i <= n < j ==> RowFault(w, rows, n).None?
    ensures var (e, row) := (FirstFault(w, rows, i).value, rows[j]);
            || (e == MetadataInvalid(Ascii("manifest_entry")) && !ValidRelative(row.path))
            || (e == InventoryMismatch(row.path) && ValidRelative(row.path) && exists n :: 0 <= n < j && rows[n].path == row.path)
            || (w.read(row.path) == Err(e) && ValidRelative(row.path) && !ListedBefore(rows, j))
            || (e == ArtifactDigestMismatch(row.path) && ValidRelative(row.path) && !ListedBefore(rows, j) && w.read(row.path).Ok? && !DescribesFile(w, row))
    decreases |rows| - i
  {
    if RowFault(w, rows, i).Some? {
      j := i;
    } else {
      j := FirstFaultIsFirst(w, rows, i + 1);
    }
  }

  /** What is hashed: each row's path, size and digest, and the manifest printed with sixty-four zeros and a newline in place of its own digest. */
  lemma {:induction false} EntriesAre(w: World, m: Manifest, zeros: seq<byte>, own: seq<byte>, e: Entry)
    requires |zeros| == 64 && forall i :: 0 <= i < 64 ==> zeros[i] == 48
    requires own == w.pretty(Manifest(m.contractMajor, m.contractRevision, m.algorithm, m.redactionProfile, m.artifacts, zeros)) + [10]
    ensures e in Entries(w, m)
       <==> || (exists i :: 0 <= i < |m.artifacts| && e == Entry(m.artifacts[i].path, m.artifacts[i].size, m.artifacts[i].sha256))
            || e == Entry(Ascii("manifest.json"), |own|, w.sha256(own))
    ensures Entries(w, m.(aggregateDigest := e.digest)) == Entries(w, m)
  {
    assert zeros == Zeros();
    assert m.(aggregateDigest := e.digest).(aggregateDigest := Zeros()) == m.(aggregateDigest := Zeros());
    var (es, n) := (Entries(w, m), |m.artifacts|);
    assert forall i :: 0 <= i < n ==> es[i] == RowEntry(m.artifacts[i]);
    if e in es {
      var i :| 0 <= i < |es| && es[i] == e;
      assert i < n ==> e == RowEntry(m.artifacts[i]);
    }
    assert es[n] in es;
  }
}
