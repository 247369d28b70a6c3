/** Records ordered by a byte-string key. */
module Sorting {
  import opened Basics

  /** Byte-wise lexicographic order; a proper prefix comes first. */
  predicate Less(a: seq<byte>, b: seq<byte>)
    decreases |a|
  {
    b != [] && (a == [] || a[0] < b[0] || (a[0] == b[0] && Less(a[1..], b[1..])))
  }

  lemma {:induction false} LessIsTotal(a: seq<byte>, b: seq<byte>)
    ensures Less(a, b) || a == b || Less(b, a)
    decreases |a|
  {
    if a != [] && b != [] && a[0] == b[0] {
      LessIsTotal(a[1..], b[1..]);
      assert a == [a[0]] + a[1..] && b == [b[0]] + b[1..];
    }
  }

  lemma {:induction false} LessIsStrict(a: seq<byte>, b: seq<byte>)
    requires Less(a, b)
    ensures !Less(b, a) && a != b
    decreases |a|
  {
    if a != [] && a[0] == b[0] {
      LessIsStrict(a[1..], b[1..]);
    }
  }

  lemma {:induction false} LessIsTransitive(a: seq<byte>, b: seq<byte>, c: seq<byte>)
    requires Less(a, b) && Less(b, c)
    ensures Less(a, c)
    decreases |a|
  {
    if a != [] && a[0] == b[0] == c[0] {
      LessIsTransitive(a[1..], b[1..], c[1..]);
    }
  }

  /** The strings agree up to `k`, where the first one ends or has the smaller byte. */
  predicate SmallerAt(a: seq<byte>, b: seq<byte>, k: nat) {
    k <= |a| && k < |b| && a[..k] == b[..k] && (k == |a| || a[k] < b[k])
  }

  /** The order is decided at the first byte where the strings part. */
  lemma {:induction false} LessIff(a: seq<byte>, b: seq<byte>)
    ensures Less(a, b) <==> exists k: nat :: SmallerAt(a, b, k)
    decreases |a|
  {
    if a == [] || b == [] {
      assert b != [] ==> SmallerAt(a, b, 0);
    } else {
      LessIff(a[1..], b[1..]);
      if Less(a, b) {
        if a[0] == b[0] {
          var k: nat :| SmallerAt(a[1..], b[1..], k);
          assert a[..k + 1] == [a[0]] + a[1..][..k] && b[..k + 1] == [b[0]] + b[1..][..k];
          assert SmallerAt(a, b, k + 1);
        } else {
          assert SmallerAt(a, b, 0);
        }
      }
      forall k: nat | SmallerAt(a, b, k) ensures Less(a, b) {
        if k > 0 {
          assert a[0] == a[..k][0] == b[..k][0] == b[0];
          assert a[1..][..k - 1] == a[..k][1..] && b[1..][..k - 1] == b[..k][1..];
          assert SmallerAt(a[1..], b[1..], k - 1);
        }
      }
    }
  }

  /** No record is followed by one with a smaller key. */
  ghost predicate Sorted<T(!new)>(key: T -> seq<byte>, s: seq<T>) {
    forall i, j :: 0 <= i < j < |s| ==> !Less(key(s[j]), key(s[i]))
  }

  ghost predicate StrictlySorted<T(!new)>(key: T -> seq<byte>, s: seq<T>) {
    forall i, j :: 0 <= i < j < |s| ==> Less(key(s[i]), key(s[j]))
  }

  /** Before the first record whose key is not smaller. */
  function Insert<T(!new)>(key: T -> seq<byte>, x: T, s: seq<T>): (r: seq<T>)
    ensures multiset(r) == multiset(s) + multiset{x}
  {
    if s == [] || !Less(key(s[0]), key(x)) then
      [x] + s
    else
      assert s == [s[0]] + s[1..];
      [s[0]] + Insert(key, x, s[1..])
  }

  /** A stable sort: later records are inserted first, so equal keys keep their order. */
  function SortBy<T(!new)>(key: T -> seq<byte>, s: seq<T>): (r: seq<T>)
    ensures multiset(r) == multiset(s)
  {
    if s == [] then [] else
      assert s == [s[0]] + s[1..];
      Insert(key, s[0], SortBy(key, s[1..]))
  }

  lemma NotLessIsTransitive(a: seq<byte>, b: seq<byte>, c: seq<byte>)
    requires !Less(b, a) && !Less(c, b)
    ensures !Less(c, a)
  {
    if Less(c, a) {
      LessIsTotal(a, b);
      if a != b {
        LessIsTransitive(c, a, b);
      }
    }
  }

  lemma {:induction false} InsertSorts<T(!new)>(key: T -> seq<byte>, x: T, s: seq<T>)
    requires Sorted(key, s)
    ensures Sorted(key, Insert(key, x, s))
  {
    var r := Insert(key, x, s);
    if s == [] {
    } else if !Less(key(s[0]), key(x)) {
      forall i, j | 0 <= i < j < |r| ensures !Less(key(r[j]), key(r[i])) {
        if i == 0 && j > 1 {
          NotLessIsTransitive(key(x), key(s[0]), key(s[j - 1]));
        }
      }
    } else {
      InsertSorts(key, x, s[1..]);
      var rest := Insert(key, x, s[1..]);
      LessIsStrict(key(s[0]), key(x));
      forall j | 0 <= j < |rest| ensures !Less(key(rest[j]), key(s[0])) {
        assert rest[j] in multiset(rest);
        assert rest[j] == x || rest[j] in s[1..];
      }
    }
  }

  lemma {:induction false} SortBySorts<T(!new)>(key: T -> seq<byte>, s: seq<T>)
    ensures Sorted(key, SortBy(key, s))
  {
    if s != [] {
      SortBySorts(key, s[1..]);
      InsertSorts(key, s[0], SortBy(key, s[1..]));
    }
  }

  ghost predicate DistinctKeys<T(!new)>(key: T -> seq<byte>, s: seq<T>) {
    forall i, j :: 0 <= i < j < |s| ==> key(s[i]) != key(s[j])
  }

  lemma SortedDistinctIsStrict<T(!new)>(key: T -> seq<byte>, s: seq<T>)
    requires Sorted(key, s) && DistinctKeys(key, s)
    ensures StrictlySorted(key, s)
  {
    forall i, j | 0 <= i < j < |s| ensures Less(key(s[i]), key(s[j])) {
      LessIsTotal(key(s[i]), key(s[j]));
    }
  }

  /** Order leaves no choice: one strictly increasing list per set of records. */
  lemma {:induction false} StrictlySortedIsUnique<T(!new)>(key: T -> seq<byte>, a: seq<T>, b: seq<T>)
    requires StrictlySorted(key, a) && StrictlySorted(key, b)
    requires forall x :: x in a <==> x in b
    ensures a == b
    decreases |a|
  {
    assert b != [] ==> b[0] in a;
    if a != [] {
      assert a[0] in b;
      var (i, j) := (IndexIn(a[0], b), IndexIn(b[0], a));
      if i != 0 || j != 0 {
        LessIsStrict(key(b[0]), key(b[i]));
        assert false;
      }
      RestsAgree(key, a, b);
      StrictlySortedIsUnique(key, a[1..], b[1..]);
      assert a == [a[0]] + a[1..] && b == [b[0]] + b[1..];
    }
  }

  ghost function IndexIn<T>(x: T, s: seq<T>): (i: nat)
    requires x in s
    ensures i < |s| && s[i] == x
  {
    var i :| 0 <= i < |s| && s[i] == x;
    i
  }

  lemma RestsAgree<T(!new)>(key: T -> seq<byte>, a: seq<T>, b: seq<T>)
    requires StrictlySorted(key, a) && StrictlySorted(key, b) && a != [] && b != [] && a[0] == b[0]
    requires forall x :: x in a <==> x in b
    ensures forall x :: x in a[1..] <==> x in b[1..]
  {
    RestIsLater(key, a);
    RestIsLater(key, b);
  }

  lemma RestIsLater<T(!new)>(key: T -> seq<byte>, a: seq<T>)
    requires StrictlySorted(key, a) && a != []
    ensures a[0] !in a[1..] && forall x :: x in a <==> x == a[0] || x in a[1..]
  {
    forall i | 0 <= i < |a[1..]| ensures a[1..][i] != a[0] {
      LessIsStrict(key(a[0]), key(a[i + 1]));
    }
    assert a == [a[0]] + a[1..];
  }
}
