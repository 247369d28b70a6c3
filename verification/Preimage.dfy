/** The byte stream a corpus digest is taken over, and why it can be read back. */
module Preimage {
  import opened Basics
  import opened Decimals
  import opened Sorting

  function Ascii(s: string): seq<byte> {
    seq(|s|, i requires 0 <= i < |s| => if s[i] as int < 128 then s[i] as int else 63)
  }

  const CORPUS_DOMAIN: seq<byte> := Ascii("abbey-contract-corpus-v1\0")

  datatype Entry = Entry(path: seq<byte>, size: nat, digest: seq<byte>)

  function ByPath(): Entry -> seq<byte> {
    (e: Entry) => e.path
  }

  /** Path, NUL, decimal size, NUL, digest, newline. */
  function Line(e: Entry): (r: seq<byte>) {
    e.path + [0] + Ascii(Numeral(e.size)) + [0] + e.digest + [10]
  }

  function Lines(es: seq<Entry>): seq<byte> {
    if es == [] then [] else Line(es[0]) + Lines(es[1..])
  }

  /** What is hashed: the domain, then one line per entry in path order. */
  function PreimageOf(es: seq<Entry>): seq<byte> {
    CORPUS_DOMAIN + Lines(SortBy(ByPath(), es))
  }

  /** No path holds the separator and no digest the terminator. */
  predicate Separable(e: Entry) {
    0 !in e.path && 10 !in e.digest
  }

  ghost predicate AllSeparable(es: seq<Entry>) {
    forall i :: 0 <= i < |es| ==> Separable(es[i])
  }

  // ----- Reading it back -----

  /** Where the first separator is. */
  function FirstOf(sep: byte, s: seq<byte>): nat {
    if s == [] || s[0] == sep then 0 else 1 + FirstOf(sep, s[1..])
  }

  lemma {:induction false} FirstIsAfter(sep: byte, a: seq<byte>, s: seq<byte>)
    requires sep !in a
    ensures FirstOf(sep, a + ([sep] + s)) == |a|
    decreases |a|
  {
    if a != [] {
      FirstIsAfter(sep, a[1..], s);
      assert (a + ([sep] + s))[1..] == a[1..] + ([sep] + s);
    }
  }

  /** Two readings of one stream agree up to the first separator. */
  lemma {:induction false} FirstSeparatorSplits(sep: byte, a: seq<byte>, s: seq<byte>, b: seq<byte>, t: seq<byte>)
    requires sep !in a && sep !in b && a + ([sep] + s) == b + ([sep] + t)
    ensures a == b && s == t
  {
    var (x, y) := (a + ([sep] + s), b + ([sep] + t));
    FirstIsAfter(sep, a, s);
    FirstIsAfter(sep, b, t);
    assert a == x[..|a|] == y[..|b|] == b;
    assert s == x[|a| + 1..] == y[|b| + 1..] == t;
  }

  lemma {:induction false} NumeralBytes(n: nat)
    ensures 0 !in Ascii(Numeral(n))
  {
    var (d, r) := (Numeral(n), Ascii(Numeral(n)));
    forall i | 0 <= i < |r| ensures r[i] != 0 {
      assert IsDigit(d[i]);
    }
  }

  lemma {:induction false} AsciiOfDigitsIsInjective(a: string, b: string)
    requires (forall i :: 0 <= i < |a| ==> IsDigit(a[i])) && (forall i :: 0 <= i < |b| ==> IsDigit(b[i]))
    requires Ascii(a) == Ascii(b)
    ensures a == b
  {
    assert |a| == |Ascii(a)| == |Ascii(b)| == |b|;
    forall i | 0 <= i < |a| ensures a[i] == b[i] {
      assert Ascii(a)[i] == Ascii(b)[i];
      assert IsDigit(a[i]) && IsDigit(b[i]);
    }
  }

  lemma {:induction false} NumeralIsInjective(m: nat, n: nat)
    requires Ascii(Numeral(m)) == Ascii(Numeral(n))
    ensures m == n
  {
    AsciiOfDigitsIsInjective(Numeral(m), Numeral(n));
    NumeralIsRead(m);
    NumeralIsRead(n);
  }

  lemma LineParts(e: Entry, t: seq<byte>)
    ensures Line(e) + t == e.path + ([0] + (Ascii(Numeral(e.size)) + ([0] + (e.digest + ([10] + t)))))
  {
    var n := Ascii(Numeral(e.size));
    assert Line(e) + t == e.path + [0] + n + [0] + e.digest + [10] + t;
  }

  /** A line can be told from what follows it. */
  lemma {:induction false} LineIsDecodable(e: Entry, t: seq<byte>, f: Entry, u: seq<byte>)
    requires Separable(e) && Separable(f) && Line(e) + t == Line(f) + u
    ensures e == f && t == u
  {
    LineParts(e, t);
    LineParts(f, u);
    var (me, mf) := (Ascii(Numeral(e.size)), Ascii(Numeral(f.size)));
    var (de, df) := (e.digest + ([10] + t), f.digest + ([10] + u));
    FirstSeparatorSplits(0, e.path, me + ([0] + de), f.path, mf + ([0] + df));
    NumeralBytes(e.size);
    NumeralBytes(f.size);
    FirstSeparatorSplits(0, me, de, mf, df);
    NumeralIsInjective(e.size, f.size);
    FirstSeparatorSplits(10, e.digest, t, f.digest, u);
  }

  lemma LinesEmptyIff(es: seq<Entry>)
    ensures Lines(es) == [] <==> es == []
  {
  }

  lemma {:induction false} LinesAreDecodable(es: seq<Entry>, fs: seq<Entry>)
    requires AllSeparable(es) && AllSeparable(fs) && Lines(es) == Lines(fs)
    ensures es == fs
    decreases |es|
  {
    LinesEmptyIff(es);
    LinesEmptyIff(fs);
    if es != [] {
      LineIsDecodable(es[0], Lines(es[1..]), fs[0], Lines(fs[1..]));
      LinesAreDecodable(es[1..], fs[1..]);
      assert es == [es[0]] + es[1..] && fs == [fs[0]] + fs[1..];
    }
  }

  // ----- Up to order -----

  lemma SortedMembers(es: seq<Entry>)
    ensures forall e :: e in SortBy(ByPath(), es) <==> e in es
  {
    var sorted := SortBy(ByPath(), es);
    assert forall e :: e in sorted <==> e in multiset(sorted);
    assert forall e :: e in es <==> e in multiset(es);
  }

  /** Distinct paths stay distinct when sorted, so the order is strict. */
  lemma {:induction false} SortIsStrict(es: seq<Entry>)
    requires DistinctKeys(ByPath(), es)
    ensures StrictlySorted(ByPath(), SortBy(ByPath(), es))
  {
    if es != [] {
      var rest := SortBy(ByPath(), es[1..]);
      SortIsStrict(es[1..]);
      SortBySorts(ByPath(), es);
      SortedMembers(es[1..]);
      InsertKeepsDistinct(es[0], rest);
      SortedDistinctIsStrict(ByPath(), SortBy(ByPath(), es));
    }
  }

  lemma {:induction false} InsertKeepsDistinct(x: Entry, s: seq<Entry>)
    requires StrictlySorted(ByPath(), s) && forall e :: e in s ==> e.path != x.path
    ensures DistinctKeys(ByPath(), Insert(ByPath(), x, s))
  {
    if s == [] {
    } else {
      StrictIsDistinct(s);
      if Less(ByPath()(s[0]), ByPath()(x)) {
        InsertKeepsDistinct(x, s[1..]);
        var rest := Insert(ByPath(), x, s[1..]);
        forall j | 0 <= j < |rest| ensures rest[j].path != s[0].path {
          assert rest[j] in multiset(rest);
          assert rest[j] == x || rest[j] in s[1..];
        }
      }
    }
  }

  lemma StrictIsDistinct(s: seq<Entry>)
    requires StrictlySorted(ByPath(), s)
    ensures DistinctKeys(ByPath(), s)
  {
    forall i, j | 0 <= i < j < |s| ensures ByPath()(s[i]) != ByPath()(s[j]) {
      LessIsStrict(ByPath()(s[i]), ByPath()(s[j]));
    }
  }

  lemma SortKeepsSeparable(es: seq<Entry>)
    requires AllSeparable(es)
    ensures AllSeparable(SortBy(ByPath(), es))
  {
    SortedMembers(es);
    var sorted := SortBy(ByPath(), es);
    forall i | 0 <= i < |sorted| ensures Separable(sorted[i]) {
      assert sorted[i] in es;
    }
  }

  /**
   * Unique decodability: over distinct NUL-free paths and newline-free
   * digests, two inventories have the same preimage exactly when they hold the
   * same entries, in whatever order they were listed.
   */
  lemma {:induction false} PreimageIff(a: seq<Entry>, b: seq<Entry>)
    requires AllSeparable(a) && AllSeparable(b) && DistinctKeys(ByPath(), a) && DistinctKeys(ByPath(), b)
    ensures PreimageOf(a) == PreimageOf(b) <==> forall e :: e in a <==> e in b
  {
    var (sa, sb) := (SortBy(ByPath(), a), SortBy(ByPath(), b));
    SortedMembers(a);
    SortedMembers(b);
    if PreimageOf(a) == PreimageOf(b) {
      assert Lines(sa) == PreimageOf(a)[|CORPUS_DOMAIN|..] == PreimageOf(b)[|CORPUS_DOMAIN|..] == Lines(sb);
      SortKeepsSeparable(a);
      SortKeepsSeparable(b);
      LinesAreDecodable(sa, sb);
    }
    if forall e :: e in a <==> e in b {
      SortIsStrict(a);
      SortIsStrict(b);
      StrictlySortedIsUnique(ByPath(), sa, sb);
    }
  }

  /** Without the separators' guarantee the stream is ambiguous: a NUL in a path can move the boundary. */
  lemma NulPathsCollide(e: Entry, f: Entry)
    requires e == Entry([], 0, [97, 0, 48, 0]) && f == Entry([0, 48, 0, 97], 0, [])
    ensures e != f && Line(e) == Line(f)
  {
    assert Numeral(0) == ['0'];
    assert Ascii(Numeral(0)) == [48];
    assert Line(e) == [0, 48, 0, 97, 0, 48, 0, 10];
    assert Line(f) == [0, 48, 0, 97, 0, 48, 0, 10];
  }

  lemma TwoAreSwapped(e: Entry, f: Entry)
    requires Less(f.path, e.path) && !Less(e.path, f.path)
    ensures SortBy(ByPath(), [e, f]) == [f, e]
  {
    assert [e, f][1..] == [f] && [f][1..] == [];
    assert SortBy(ByPath(), [f]) == Insert(ByPath(), f, SortBy(ByPath(), [])) == [f];
    assert Insert(ByPath(), e, [f]) == [f] + Insert(ByPath(), e, []);
  }

  lemma ExampleLines(e: Entry, f: Entry)
    requires e == Entry([98], 12, [102]) && f == Entry([97], 3, [48])
    ensures Line(f) == [97, 0, 51, 0, 48, 10] && Line(e) == [98, 0, 49, 50, 0, 102, 10]
  {
    var (three, twelve) := (Numeral(f.size), Numeral(e.size));
    assert three == "3" && twelve == Numeral(1) + "2" && Numeral(1) == "1";
    assert Ascii(three) == [51] && Ascii(twelve) == [49, 50];
  }

  /** Two files, listed out of order, as the hash sees them. */
  lemma {:induction false} PreimageExample(e: Entry, f: Entry, domain: seq<byte>)
    requires e == Entry([98], 12, [102]) && f == Entry([97], 3, [48]) && domain == Ascii("abbey-contract-corpus-v1\0")
    ensures PreimageOf([e, f]) == domain + [97, 0, 51, 0, 48, 10, 98, 0, 49, 50, 0, 102, 10]
  {
    TwoAreSwapped(e, f);
    ExampleLines(e, f);
    TwoLines(f, e);
  }

  lemma TwoLines(e: Entry, f: Entry)
    ensures Lines([e, f]) == Line(e) + Line(f)
  {
    assert [e, f][1..] == [f] && [f][1..] == [];
    assert Lines([f]) == Line(f) + [];
  }
}
