/** Byte strings laid end to end: where each one starts, and which of them a position falls into. */
module Pieces {
  import opened Basics

  /** Bytes in the first `n` pieces. */
  function SumTo(ps: seq<seq<byte>>, n: nat): nat
    requires n <= |ps|
  {
    if n == 0 then 0 else SumTo(ps, n - 1) + |ps[n - 1]|
  }

  function Total(ps: seq<seq<byte>>): nat {
    SumTo(ps, |ps|)
  }

  /** The first `n` pieces as one string. */
  function Flat(ps: seq<seq<byte>>, n: nat): (r: seq<byte>)
    requires n <= |ps|
    ensures |r| == SumTo(ps, n)
  {
    if n == 0 then [] else Flat(ps, n - 1) + ps[n - 1]
  }

  function Joined(ps: seq<seq<byte>>): (r: seq<byte>)
    ensures |r| == Total(ps)
  {
    Flat(ps, |ps|)
  }

  ghost predicate SameSizes(a: seq<seq<byte>>, b: seq<seq<byte>>) {
    |a| == |b| && forall i :: 0 <= i < |a| ==> |a[i]| == |b[i]|
  }

  lemma {:induction false} SumOfPrefix(a: seq<seq<byte>>, b: seq<seq<byte>>, n: nat)
    requires n <= |a| && n <= |b| && forall i :: 0 <= i < n ==> |a[i]| == |b[i]|
    ensures SumTo(a, n) == SumTo(b, n)
  {
    if n > 0 {
      SumOfPrefix(a, b, n - 1);
    }
  }

  lemma {:induction false} SumNeverFalls(ps: seq<seq<byte>>, m: nat, n: nat)
    requires m <= n <= |ps|
    ensures SumTo(ps, m) <= SumTo(ps, n)
  {
    if m < n {
      SumNeverFalls(ps, m, n - 1);
    }
  }

  lemma {:induction false} SumIsZero(ps: seq<seq<byte>>, n: nat)
    requires n <= |ps|
    ensures SumTo(ps, n) == 0 <==> forall i :: 0 <= i < n ==> ps[i] == []
  {
    if n > 0 {
      SumIsZero(ps, n - 1);
    }
  }

  lemma {:induction false} SumOfRest(ps: seq<seq<byte>>, at: nat, n: nat)
    requires at + n <= |ps|
    ensures SumTo(ps[at..], n) == SumTo(ps, at + n) - SumTo(ps, at)
  {
    if n > 0 {
      SumOfRest(ps, at, n - 1);
    }
  }

  lemma {:induction false} FlatOfRest(ps: seq<seq<byte>>, at: nat, n: nat)
    requires at + n <= |ps|
    ensures Flat(ps, at + n) == Flat(ps, at) + Flat(ps[at..], n)
  {
    if n > 0 {
      FlatOfRest(ps, at, n - 1);
    }
  }

  /** Byte `t` of piece `j` sits where the sizes say. */
  lemma {:induction false} FlatByte(ps: seq<seq<byte>>, n: nat, j: nat, t: nat)
    requires j < n <= |ps| && t < |ps[j]|
    ensures SumTo(ps, j) + t < SumTo(ps, n) && Flat(ps, n)[SumTo(ps, j) + t] == ps[j][t]
  {
    if j < n - 1 {
      FlatByte(ps, n - 1, j, t);
    }
  }

  /** Piece `i` includes position `offset`. */
  predicate Covers(ps: seq<seq<byte>>, i: nat, offset: nat)
    requires i < |ps|
  {
    SumTo(ps, i) <= offset < SumTo(ps, i + 1)
  }

  lemma {:induction false} CoverIsUnique(ps: seq<seq<byte>>, i: nat, j: nat, offset: nat)
    requires i < |ps| && j < |ps| && Covers(ps, i, offset) && Covers(ps, j, offset)
    ensures i == j
  {
    if i < j {
      SumNeverFalls(ps, i + 1, j);
    } else if j < i {
      SumNeverFalls(ps, j + 1, i);
    }
  }

  lemma {:induction false} CoverExists(ps: seq<seq<byte>>, offset: nat, n: nat) returns (j: nat)
    requires n <= |ps| && offset < SumTo(ps, n)
    ensures j < n && Covers(ps, j, offset)
  {
    j := n - 1;
    if offset < SumTo(ps, n - 1) {
      j := CoverExists(ps, offset, n - 1);
    }
  }

  // ----- Occurrences -----

  predicate OccursAt(needle: seq<byte>, hay: seq<byte>, at: nat) {
    at + |needle| <= |hay| && hay[at..at + |needle|] == needle
  }

  lemma WindowByte(needle: seq<byte>, hay: seq<byte>, at: nat, b: nat)
    requires OccursAt(needle, hay, at) && b < |needle|
    ensures hay[at + b] == needle[b]
  {
    assert hay[at..at + |needle|][b] == needle[b];
  }

  lemma OccursInRest(needle: seq<byte>, front: seq<byte>, rest: seq<byte>, at: nat)
    requires OccursAt(needle, front + rest, at) && |front| <= at
    ensures OccursAt(needle, rest, at - |front|)
  {
    assert (front + rest)[at..at + |needle|] == rest[at - |front|..at - |front| + |needle|];
  }

  predicate SameByte(a: seq<seq<byte>>, b: seq<seq<byte>>, j: nat, t: nat)
    requires j < |a| && j < |b| && t < |a[j]| && t < |b[j]|
  {
    a[j][t] == b[j][t]
  }

  /** The two lists agree on every byte that falls in the window. */
  ghost predicate AgreeWithin(a: seq<seq<byte>>, b: seq<seq<byte>>, from: nat, to: nat)
    requires SameSizes(a, b)
  {
    forall j: nat, t: nat :: j < |a| && t < |a[j]| && from <= SumTo(a, j) + t < to ==> SameByte(a, b, j, t)
  }

  /** What occurs in one list of pieces occurs at the same place in another of the same sizes exactly when they agree there. */
  lemma {:induction false} OccursInBothIff(needle: seq<byte>, a: seq<seq<byte>>, b: seq<seq<byte>>, at: nat)
    requires SameSizes(a, b) && OccursAt(needle, Joined(a), at)
    ensures OccursAt(needle, Joined(b), at) <==> AgreeWithin(a, b, at, at + |needle|)
  {
    SumOfPrefix(a, b, |a|);
    if AgreeWithin(a, b, at, at + |needle|) {
      var other := Joined(b);
      forall x: nat | x < |needle| ensures other[at..at + |needle|][x] == needle[x] {
        BytesAgree(needle, a, b, at, x);
      }
    }
    if OccursAt(needle, Joined(b), at) {
      forall j: nat, t: nat | j < |a| && t < |a[j]| && at <= SumTo(a, j) + t < at + |needle| ensures SameByte(a, b, j, t) {
        ByteIsShared(needle, a, b, at, j, t);
      }
    }
  }

  lemma {:induction false} BytesAgree(needle: seq<byte>, a: seq<seq<byte>>, b: seq<seq<byte>>, at: nat, x: nat)
    requires SameSizes(a, b) && OccursAt(needle, Joined(a), at) && x < |needle| && AgreeWithin(a, b, at, at + |needle|)
    ensures at + x < |Joined(b)| && Joined(b)[at + x] == needle[x]
  {
    var j := CoverExists(a, at + x, |a|);
    var t := at + x - SumTo(a, j);
    assert SameByte(a, b, j, t);
    SumOfPrefix(a, b, j);
    FlatByte(a, |a|, j, t);
    FlatByte(b, |b|, j, t);
    WindowByte(needle, Joined(a), at, x);
  }

  lemma {:induction false} ByteIsShared(needle: seq<byte>, a: seq<seq<byte>>, b: seq<seq<byte>>, at: nat, j: nat, t: nat)
    requires SameSizes(a, b) && OccursAt(needle, Joined(a), at) && OccursAt(needle, Joined(b), at)
    requires j < |a| && t < |a[j]| && at <= SumTo(a, j) + t < at + |needle|
    ensures SameByte(a, b, j, t)
  {
    var x := SumTo(a, j) + t - at;
    SumOfPrefix(a, b, j);
    FlatByte(a, |a|, j, t);
    FlatByte(b, |b|, j, t);
    WindowByte(needle, Joined(a), at, x);
    WindowByte(needle, Joined(b), at, x);
  }

  /** An occurrence starts inside the piece that covers it, and is an occurrence in the pieces from there on. */
  lemma {:induction false} OccurrenceIsPinned(needle: seq<byte>, ps: seq<seq<byte>>, sizes: seq<seq<byte>>, at: nat, offset: nat)
    requires SameSizes(ps, sizes) && needle != [] && OccursAt(needle, Joined(ps), offset)
    requires at < |ps| && Covers(sizes, at, offset)
    ensures var residual := offset - SumTo(sizes, at);
            && residual < |ps[at]| && ps[at][residual] == needle[0]
            && OccursAt(needle, Joined(ps[at..]), residual)
  {
    SumOfPrefix(ps, sizes, at);
    FlatByte(ps, |ps|, at, offset - SumTo(ps, at));
    WindowByte(needle, Joined(ps), offset, 0);
    FlatOfRest(ps, at, |ps| - at);
    OccursInRest(needle, Flat(ps, at), Flat(ps[at..], |ps| - at), offset);
  }

  /** The lists differ exactly in the second byte of the flagged pieces. */
  ghost predicate DifferInSecond(a: seq<seq<byte>>, b: seq<seq<byte>>, flags: seq<bool>) {
    && SameSizes(a, b) && |flags| == |a|
    && (forall j: nat {:trigger flags[j]} :: j < |a| && flags[j] ==> |a[j]| == 2)
    && (forall j: nat, t: nat :: j < |a| && t < |a[j]| ==> (SameByte(a, b, j, t) <==> !(flags[j] && t == 1)))
  }

  lemma {:induction false} AgreeIffNoFlag(a: seq<seq<byte>>, b: seq<seq<byte>>, flags: seq<bool>, from: nat, to: nat)
    requires DifferInSecond(a, b, flags)
    ensures AgreeWithin(a, b, from, to) <==> forall j: nat :: j < |a| && flags[j] ==> !(from <= SumTo(a, j) + 1 < to)
  {
    if AgreeWithin(a, b, from, to) {
      forall j: nat | j < |a| && flags[j] ensures !(from <= SumTo(a, j) + 1 < to) {
        assert !SameByte(a, b, j, 1);
      }
    }
  }

  /** No flagged piece from `at` on has its second byte in the window. */
  ghost predicate AvoidsFlags(sizes: seq<seq<byte>>, at: nat, flags: seq<bool>, from: nat, to: nat)
    requires at + |flags| <= |sizes|
  {
    forall j: nat :: j < |flags| && flags[j] ==> !(from <= SumTo(sizes, at + j) + 1 < to)
  }

  /** Replacing the pieces from `at` on by others that differ in the flagged places keeps an occurrence exactly when it avoids those places. */
  lemma {:induction false} ReplacedContainsIff(needle: seq<byte>, ps: seq<seq<byte>>, sizes: seq<seq<byte>>, at: nat, offset: nat,
                                               others: seq<seq<byte>>, flags: seq<bool>)
    requires SameSizes(ps, sizes) && needle != [] && OccursAt(needle, Joined(ps), offset)
    requires at < |ps| && Covers(sizes, at, offset) && DifferInSecond(ps[at..], others, flags)
    ensures OccursAt(needle, Joined(others), offset - SumTo(sizes, at)) <==> AvoidsFlags(sizes, at, flags, offset, offset + |needle|)
  {
    var (rest, base) := (ps[at..], SumTo(sizes, at));
    OccurrenceIsPinned(needle, ps, sizes, at, offset);
    OccursInBothIff(needle, rest, others, offset - base);
    AgreeIffNoFlag(rest, others, flags, offset - base, offset - base + |needle|);
    SumOfPrefix(ps, sizes, at);
    forall j: nat | j < |flags| ensures SumTo(rest, j) == SumTo(sizes, at + j) - base {
      SumOfRest(ps, at, j);
      SumOfPrefix(ps, sizes, at + j);
    }
  }
}
