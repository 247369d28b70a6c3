/** UTF-8 as in sections 3 and 4 of RFC 3629, and the string slicing rule built on it. */
module Utf8 {
  import opened Basics

  predicate IsTail(b: byte) {
    0x80 <= b <= 0xBF
  }

  /** The octets of one scalar value. */
  function EncodeChar(c: char): (r: seq<byte>)
    ensures 1 <= |r| <= 4
    ensures !IsTail(r[0]) && forall i :: 1 <= i < |r| ==> IsTail(r[i])
  {
    var n := c as int;
    if n < 0x80 then [n]
    else if n < 0x800 then [0xC0 + n / 64, 0x80 + n % 64]
    else if n < 0x1_0000 then [0xE0 + n / 4096, 0x80 + n / 64 % 64, 0x80 + n % 64]
    else [0xF0 + n / 262144, 0x80 + n / 4096 % 64, 0x80 + n / 64 % 64, 0x80 + n % 64]
  }

  function Encode(s: string): (r: seq<byte>) {
    if s == [] then [] else EncodeChar(s[0]) + Encode(s[1..])
  }

  /** Length of the well-formed octet sequence `s` starts with, 0 when there is none. */
  function CharLen(s: seq<byte>): (n: nat)
    ensures n <= |s| && n <= 4
    ensures n > 0 ==> !IsTail(s[0]) && forall i :: 1 <= i < n ==> IsTail(s[i])
  {
    if s == [] then 0
    else if s[0] <= 0x7F then 1
    else if 0xC2 <= s[0] <= 0xDF then if |s| >= 2 && IsTail(s[1]) then 2 else 0
    else if 0xE0 <= s[0] <= 0xEF then
      if |s| >= 3 && IsTail(s[1]) && IsTail(s[2]) && (s[0] == 0xE0 ==> 0xA0 <= s[1]) && (s[0] == 0xED ==> s[1] <= 0x9F) then 3 else 0
    else if 0xF0 <= s[0] <= 0xF4 then
      if |s| >= 4 && IsTail(s[1]) && IsTail(s[2]) && IsTail(s[3]) && (s[0] == 0xF0 ==> 0x90 <= s[1]) && (s[0] == 0xF4 ==> s[1] <= 0x8F) then 4 else 0
    else 0
  }

  predicate Valid(s: seq<byte>)
    decreases |s|
  {
    s == [] || (CharLen(s) > 0 && Valid(s[CharLen(s)..]))
  }

  // ----- The grammar accepts exactly the encodings -----

  /** The bits an octet adds beside its marker bits. */
  function Payload(b: byte, marker: int): int {
    var n: int := b;
    n - marker
  }

  /** The scalar value of a leading well-formed sequence. */
  function DecodeChar(s: seq<byte>): (c: char)
    requires CharLen(s) > 0
  {
    if CharLen(s) == 1 then s[0] as char
    else if CharLen(s) == 2 then (64 * Payload(s[0], 0xC0) + Payload(s[1], 0x80)) as char
    else if CharLen(s) == 3 then (4096 * Payload(s[0], 0xE0) + 64 * Payload(s[1], 0x80) + Payload(s[2], 0x80)) as char
    else (262144 * Payload(s[0], 0xF0) + 4096 * Payload(s[1], 0x80) + 64 * Payload(s[2], 0x80) + Payload(s[3], 0x80)) as char
  }

  lemma DigitsBase64(q: int, r: int)
    requires 0 <= r < 64
    ensures (64 * q + r) / 64 == q && (64 * q + r) % 64 == r
  {
  }

  lemma TwoIsReencoded(s: seq<byte>)
    requires CharLen(s) == 2
    ensures [s[0], s[1]] == EncodeChar(DecodeChar(s))
  {
    DigitsBase64(Payload(s[0], 0xC0), Payload(s[1], 0x80));
  }

  lemma ThreeIsReencoded(s: seq<byte>)
    requires CharLen(s) == 3
    ensures [s[0], s[1], s[2]] == EncodeChar(DecodeChar(s))
  {
    var high := 64 * Payload(s[0], 0xE0) + Payload(s[1], 0x80);
    DigitsBase64(Payload(s[0], 0xE0), Payload(s[1], 0x80));
    DigitsBase64(high, Payload(s[2], 0x80));
  }

  lemma FourIsReencoded(s: seq<byte>)
    requires CharLen(s) == 4
    ensures [s[0], s[1], s[2], s[3]] == EncodeChar(DecodeChar(s))
  {
    var top := 64 * Payload(s[0], 0xF0) + Payload(s[1], 0x80);
    var high := 64 * top + Payload(s[2], 0x80);
    DigitsBase64(Payload(s[0], 0xF0), Payload(s[1], 0x80));
    DigitsBase64(top, Payload(s[2], 0x80));
    DigitsBase64(high, Payload(s[3], 0x80));
  }

  lemma {:induction false} CharIsReencoded(s: seq<byte>)
    requires CharLen(s) > 0
    ensures s[..CharLen(s)] == EncodeChar(DecodeChar(s))
  {
    var n := CharLen(s);
    if n == 1 {
      assert s[..n] == [s[0]];
    } else if n == 2 {
      TwoIsReencoded(s);
      assert s[..n] == [s[0], s[1]];
    } else if n == 3 {
      ThreeIsReencoded(s);
      assert s[..n] == [s[0], s[1], s[2]];
    } else {
      FourIsReencoded(s);
      assert s[..n] == [s[0], s[1], s[2], s[3]];
    }
  }

  lemma {:induction false} EncodedCharLeads(c: char, t: seq<byte>)
    ensures CharLen(EncodeChar(c) + t) == |EncodeChar(c)|
  {
  }

  lemma {:induction false} EncodedIsValid(text: string)
    ensures Valid(Encode(text))
  {
    if text != [] {
      var rest := Encode(text[1..]);
      EncodedCharLeads(text[0], rest);
      assert Encode(text)[|EncodeChar(text[0])|..] == rest;
      EncodedIsValid(text[1..]);
    }
  }

  lemma EncodeFirst(c: char, text: string, head: seq<byte>, rest: seq<byte>)
    requires EncodeChar(c) == head && Encode(text) == rest
    ensures Encode([c] + text) == head + rest
  {
    assert ([c] + text)[1..] == text;
  }

  lemma {:induction false} FirstIsEncoded(s: seq<byte>) returns (c: char)
    requires CharLen(s) > 0
    ensures s[..CharLen(s)] == EncodeChar(c)
  {
    CharIsReencoded(s);
    c := DecodeChar(s);
  }

  /** With EncodedIsValid: well-formed octets are exactly the encodings of texts. */
  lemma {:induction false} ValidIsEncoded(s: seq<byte>) returns (text: string)
    requires Valid(s)
    ensures Encode(text) == s
    decreases |s|
  {
    text := [];
    if s != [] {
      text := ValidIsEncoded(s[CharLen(s)..]);
      text := PrependFirst(s, text);
    }
  }

  lemma {:induction false} PrependFirst(s: seq<byte>, rest: string) returns (text: string)
    requires CharLen(s) > 0 && Encode(rest) == s[CharLen(s)..]
    ensures Encode(text) == s
  {
    var c := FirstIsEncoded(s);
    EncodeFirst(c, rest, s[..CharLen(s)], s[CharLen(s)..]);
    text := [c] + rest;
    assert s == s[..CharLen(s)] + s[CharLen(s)..];
  }

  lemma AppendIsAssociative<T>(a: seq<T>, b: seq<T>, c: seq<T>)
    ensures a + (b + c) == a + b + c
  {
  }

  lemma {:induction false} EncodeConcat(a: string, b: string)
    ensures Encode(a + b) == Encode(a) + Encode(b)
    decreases |a|
  {
    if a == [] {
      assert a + b == b;
    } else {
      EncodeConcat(a[1..], b);
      EncodeFirst(a[0], a[1..] + b, EncodeChar(a[0]), Encode(a[1..]) + Encode(b));
      assert a + b == [a[0]] + (a[1..] + b);
      AppendIsAssociative(EncodeChar(a[0]), Encode(a[1..]), Encode(b));
    }
  }

  // ----- Boundaries -----

  /** The rule by which a string slice may be cut at `k`: either end, or the first octet of a character. */
  predicate IsBoundary(s: seq<byte>, k: nat)
    requires k <= |s|
  {
    k == 0 || k == |s| || !IsTail(s[k])
  }

  lemma {:induction false} CutInsideChar(s: seq<byte>, k: nat)
    requires 0 < k < CharLen(s)
    ensures CharLen(s[..k]) == 0
  {
  }

  lemma {:induction false} CutAfterChar(s: seq<byte>, k: nat)
    requires 0 < CharLen(s) <= k <= |s|
    ensures CharLen(s[..k]) == CharLen(s)
  {
  }

  lemma {:induction false} BoundaryShifts(s: seq<byte>, n: nat, k: nat)
    requires 0 < n <= k <= |s| && Valid(s[n..])
    ensures IsBoundary(s, k) <==> IsBoundary(s[n..], k - n)
  {
    var rest := s[n..];
    if k < |s| {
      assert rest[k - n] == s[k];
      if k == n {
        assert CharLen(rest) > 0;
      }
    }
  }

  lemma {:induction false} PrefixShifts(s: seq<byte>, k: nat)
    requires 0 < CharLen(s) <= k <= |s|
    ensures Valid(s[..k]) <==> Valid(s[CharLen(s)..][..k - CharLen(s)])
  {
    CutAfterChar(s, k);
    assert s[..k][CharLen(s)..] == s[CharLen(s)..][..k - CharLen(s)];
  }

  /** In a well-formed string the octet test finds exactly the cuts that leave a well-formed prefix. */
  lemma {:induction false} BoundaryIffValidPrefix(s: seq<byte>, k: nat)
    requires Valid(s) && k <= |s|
    ensures IsBoundary(s, k) <==> Valid(s[..k])
    decreases |s|
  {
    var n := CharLen(s);
    if k == 0 {
    } else if k < n {
      CutInsideChar(s, k);
    } else {
      BoundaryShifts(s, n, k);
      PrefixShifts(s, k);
      BoundaryIffValidPrefix(s[n..], k - n);
    }
  }

  lemma {:induction false} ValidConcat(a: seq<byte>, b: seq<byte>)
    requires Valid(a) && Valid(b)
    ensures Valid(a + b)
    decreases |a|
  {
    if a == [] {
      assert a + b == b;
    } else {
      var n := CharLen(a);
      assert (a + b)[..|a|] == a;
      CharLenOfPrefix(a + b, |a|);
      assert (a + b)[n..] == a[n..] + b;
      ValidConcat(a[n..], b);
    }
  }

  lemma {:induction false} CharLenOfPrefix(s: seq<byte>, k: nat)
    requires k <= |s| && CharLen(s[..k]) > 0
    ensures CharLen(s) == CharLen(s[..k])
  {
  }

  /** No four octets in a row are without a boundary. */
  lemma {:induction false} BoundaryIsNear(s: seq<byte>, k: nat) returns (b: nat)
    requires Valid(s) && k <= |s|
    ensures b <= k < b + 4 && IsBoundary(s, b)
    decreases |s|
  {
    if k < 4 {
      b := 0;
    } else {
      var n := CharLen(s);
      b := BoundaryIsNear(s[n..], k - n);
      b := b + n;
    }
  }

  /** `p` is the longest well-formed prefix of `s` within `limit` octets. */
  ghost predicate LongestWithin(s: seq<byte>, limit: nat, p: seq<byte>) {
    && p <= s && |p| <= limit && Valid(p)
    && forall k: nat :: |p| < k <= Min(limit, |s|) ==> !Valid(s[..k])
  }

  /** A boundary with none between it and the limit cuts off the longest well-formed prefix, within three octets of the limit. */
  lemma {:induction false} LastBoundaryIsLongest(s: seq<byte>, limit: nat, k: nat)
    requires Valid(s) && k <= limit <= |s| && IsBoundary(s, k)
    requires forall j: nat :: k < j <= limit ==> !IsBoundary(s, j)
    ensures LongestWithin(s, limit, s[..k]) && limit < k + 4
  {
    BoundaryIffValidPrefix(s, k);
    var b := BoundaryIsNear(s, limit);
    forall j: nat | k < j <= limit ensures !Valid(s[..j]) {
      BoundaryIffValidPrefix(s, j);
    }
  }

  /** The cut is determined by what it leaves. */
  lemma LongestIsUnique(s: seq<byte>, limit: nat, p: seq<byte>, q: seq<byte>)
    requires LongestWithin(s, limit, p) && LongestWithin(s, limit, q)
    ensures p == q
  {
    assert p == s[..|p|] && q == s[..|q|];
  }

  lemma {:induction false} CharIsRead(c: char, t: seq<byte>)
    ensures CharLen(EncodeChar(c) + t) > 0 && DecodeChar(EncodeChar(c) + t) == c
  {
    EncodedCharLeads(c, t);
    var (n, e) := (c as int, EncodeChar(c));
    assert forall i :: 0 <= i < |e| ==> (e + t)[i] == e[i];
    if 0x800 <= n < 0x1_0000 {
      assert n / 64 / 64 == n / 4096;
    } else if n >= 0x1_0000 {
      assert n / 64 / 64 == n / 4096 && n / 4096 / 64 == n / 262144;
    }
  }

  /** An encoding can be read back, so no two texts share one. */
  lemma {:induction false} EncodingIsInjective(a: string, b: string)
    requires Encode(a) == Encode(b)
    ensures a == b
  {
    if a != [] && b != [] {
      var (s, t) := (Encode(a[1..]), Encode(b[1..]));
      CharIsRead(a[0], s);
      CharIsRead(b[0], t);
      assert s == Encode(a)[|EncodeChar(a[0])|..] && t == Encode(b)[|EncodeChar(b[0])|..];
      EncodingIsInjective(a[1..], b[1..]);
      assert a == [a[0]] + a[1..] && b == [b[0]] + b[1..];
    }
  }

  /** One character of each length. */
  lemma EncodingExamples()
    ensures EncodeChar('A') == [0x41] && EncodeChar('\U{00E9}') == [0xC3, 0xA9]
    ensures EncodeChar('\U{20AC}') == [0xE2, 0x82, 0xAC] && EncodeChar('\U{10348}') == [0xF0, 0x90, 0x8D, 0x88]
  {
  }
}
