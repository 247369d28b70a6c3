/**
 * The routing audit log: a JSONL byte file that grows by appending and is read
 * back either whole and forwards, or as a bounded tail scanned backwards block
 * by block. JSON decoding is a parameter `parse`; the file behind the reader
 * may answer every read short, or fail it.
 */
module RouteLog {
  import opened Basics

  const NEWLINE: byte := 10
  const READ_BYTES: nat := 8 * 1024
  const MAX_READS: nat := 32
  const MAX_BYTES: nat := 8 * 1024 * 32  // READ_BYTES * MAX_READS
  const MAX_LINES: nat := 2048
  const MAX_RECORD: nat := 32 * 1024

  // ----- The forward view: what a log says, line by line -----

  /** Pieces between newlines, in file order; one more piece than newlines. */
  function Split(s: seq<byte>): (r: seq<seq<byte>>)
    ensures |r| >= 1
  {
    if s == [] then [[]]
    else
      var rest := Split(s[1..]);
      if s[0] == NEWLINE then [[]] + rest else Push(s[0], rest)
  }

  function Join(pieces: seq<seq<byte>>): seq<byte>
    requires |pieces| >= 1
  {
    if |pieces| == 1 then pieces[0] else pieces[0] + [NEWLINE] + Join(pieces[1..])
  }

  function RecordOf<R>(parse: seq<byte> -> Option<R>, line: seq<byte>): seq<R> {
    if 0 < |line| <= MAX_RECORD && parse(line).Some? then [parse(line).value] else []
  }

  function Records<R>(parse: seq<byte> -> Option<R>, lines: seq<seq<byte>>): (r: seq<R>) {
    if lines == [] then [] else RecordOf(parse, lines[0]) + Records(parse, lines[1..])
  }

  /** Whole lines of a window: its first piece counts only at the beginning of the file. */
  function WholeLines(window: seq<byte>, atStart: bool): seq<seq<byte>> {
    if atStart then Split(window) else Split(window)[1..]
  }

  function Newest<R>(parse: seq<byte> -> Option<R>, lines: seq<seq<byte>>, n: nat): seq<R> {
    LastN(Records(parse, LastN(lines, MAX_LINES)), n)
  }

  /** The last `n` records the final `bytes` bytes of a log can show. */
  function TailView<R>(parse: seq<byte> -> Option<R>, log: seq<byte>, bytes: nat, n: nat): seq<R> {
    Newest(parse, WholeLines(LastN(log, bytes), |log| <= bytes), n)
  }

  function RecentRoutes<R>(parse: seq<byte> -> Option<R>, log: seq<byte>, n: nat): seq<R> {
    TailView(parse, log, MAX_BYTES, n)
  }

  /** Splitting loses nothing and leaves no newline inside a piece. */
  lemma {:induction false} SplitIsExact(s: seq<byte>)
    ensures Join(Split(s)) == s
    ensures forall i :: 0 <= i < |Split(s)| ==> NEWLINE !in Split(s)[i]
  {
    if s != [] {
      SplitIsExact(s[1..]);
      var rest := Split(s[1..]);
      if s[0] == NEWLINE {
        assert ([[]] + rest)[1..] == rest;
      } else {
        var all := [[s[0]] + rest[0]] + rest[1..];
        if |rest| > 1 {
          assert all[1..] == rest[1..];
        }
        assert Join(all) == [s[0]] + Join(rest);
        forall i | 0 <= i < |all| ensures NEWLINE !in all[i] {
          assert i > 0 ==> all[i] == rest[i];
        }
      }
    }
  }

  /** Pieces of a concatenation: the last piece of `x` runs on into the first of `y`. */
  function Glue(x: seq<seq<byte>>, y: seq<seq<byte>>): (r: seq<seq<byte>>)
    requires |x| >= 1 && |y| >= 1
    ensures |r| == |x| + |y| - 1
  {
    if |x| == 1 then [x[0] + y[0]] + y[1..] else [x[0]] + Glue(x[1..], y)
  }

  lemma {:induction false} GlueKeepsLines(x: seq<seq<byte>>, y: seq<seq<byte>>)
    requires |x| >= 1 && |y| >= 1
    ensures Glue(x, y)[|x|..] == y[1..]
  {
    if |x| > 1 {
      GlueKeepsLines(x[1..], y);
    }
  }

  function Push(c: byte, x: seq<seq<byte>>): seq<seq<byte>>
    requires |x| >= 1
  {
    [[c] + x[0]] + x[1..]
  }

  lemma {:induction false} PushGlue(c: byte, x: seq<seq<byte>>, y: seq<seq<byte>>)
    requires |x| >= 1 && |y| >= 1
    ensures Push(c, Glue(x, y)) == Glue(Push(c, x), y)
  {
    assert [c] + (x[0] + y[0]) == [c] + x[0] + y[0];
    assert Push(c, x)[1..] == x[1..];
  }

  lemma BreakGlue(x: seq<seq<byte>>, y: seq<seq<byte>>)
    requires |x| >= 1 && |y| >= 1
    ensures [[]] + Glue(x, y) == Glue([[]] + x, y)
  {
    assert ([[]] + x)[1..] == x;
  }

  lemma {:induction false} SplitConcat(a: seq<byte>, b: seq<byte>)
    ensures Split(a + b) == Glue(Split(a), Split(b))
  {
    if a == [] {
      assert a + b == b;
      assert [] + Split(b)[0] == Split(b)[0];
    } else {
      SplitConcat(a[1..], b);
      var c, x, y := a[0], Split(a[1..]), Split(b);
      assert (a + b)[1..] == a[1..] + b && (a + b)[0] == c;
      if c == NEWLINE {
        BreakGlue(x, y);
      } else {
        PushGlue(c, x, y);
      }
    }
  }

  /** Reading further back only adds whole lines in front of those already found. */
  lemma {:induction false} LinesOfSuffix(a: seq<byte>, b: seq<byte>, atStart: bool)
    ensures IsSuffix(Split(b)[1..], WholeLines(a + b, atStart))
  {
    SplitConcat(a, b);
    GlueKeepsLines(Split(a), Split(b));
    DropIsSuffix(Split(a + b), Split(b)[1..], |Split(a)|);
  }

  lemma DropIsSuffix<T>(s: seq<T>, t: seq<T>, k: nat)
    requires 1 <= k <= |s| && s[k..] == t
    ensures IsSuffix(t, s) && IsSuffix(t, s[1..])
  {
  }

  lemma {:induction false} RecordsConcat<R>(parse: seq<byte> -> Option<R>, a: seq<seq<byte>>, b: seq<seq<byte>>)
    ensures Records(parse, a + b) == Records(parse, a) + Records(parse, b)
  {
    if a == [] {
      assert a + b == b;
    } else {
      assert (a + b)[1..] == a[1..] + b;
      RecordsConcat(parse, a[1..], b);
    }
  }

  lemma {:induction false} RecordsOfSuffix<R>(parse: seq<byte> -> Option<R>, few: seq<seq<byte>>, many: seq<seq<byte>>)
    requires IsSuffix(few, many)
    ensures IsSuffix(Records(parse, few), Records(parse, many))
  {
    var cut := |many| - |few|;
    assert many == many[..cut] + few;
    RecordsConcat(parse, many[..cut], few);
  }

  lemma {:induction false} SuffixOfSuffix<T>(a: seq<T>, b: seq<T>, n: nat)
    requires IsSuffix(a, b)
    ensures IsSuffix(LastN(a, n), LastN(b, n))
    ensures |a| >= n ==> LastN(a, n) == LastN(b, n)
  {
  }

  /** More lines can only show older records, never other newer ones. */
  lemma {:induction false} NewestOfSuffix<R>(parse: seq<byte> -> Option<R>, few: seq<seq<byte>>, many: seq<seq<byte>>, n: nat)
    requires IsSuffix(few, many)
    ensures IsSuffix(Newest(parse, few, n), Newest(parse, many, n))
    ensures |few| >= MAX_LINES || |Records(parse, LastN(few, MAX_LINES))| >= n
            ==> Newest(parse, few, n) == Newest(parse, many, n)
  {
    SuffixOfSuffix(few, many, MAX_LINES);
    RecordsOfSuffix(parse, LastN(few, MAX_LINES), LastN(many, MAX_LINES));
    SuffixOfSuffix(Records(parse, LastN(few, MAX_LINES)), Records(parse, LastN(many, MAX_LINES)), n);
  }

  /** A smaller window shows a suffix of what a larger one shows. */
  lemma {:induction false} SmallerWindow<R>(parse: seq<byte> -> Option<R>, log: seq<byte>, less: nat, more: nat, n: nat)
    requires less <= more
    ensures IsSuffix(TailView(parse, log, less, n), TailView(parse, log, more, n))
  {
    if |log| <= less {
      var view := TailView(parse, log, less, n);
      assert view[0..] == view;
    } else {
      var small, large := LastN(log, less), LastN(log, more);
      var front := large[..|large| - |small|];
      assert large == front + small;
      LinesOfSuffix(front, small, |log| <= more);
      NewestOfSuffix(parse, Split(small)[1..], WholeLines(large, |log| <= more), n);
    }
  }

  // ----- The full history and appending -----

  function Parsed<R>(parse: seq<byte> -> Option<R>, line: seq<byte>): seq<R> {
    if parse(line).Some? then [parse(line).value] else []
  }

  /** Every parseable line, oldest first: the unbounded forward read. */
  function History<R>(parse: seq<byte> -> Option<R>, lines: seq<seq<byte>>): seq<R> {
    if lines == [] then [] else Parsed(parse, lines[0]) + History(parse, lines[1..])
  }

  function Keep<R>(wanted: R -> bool, records: seq<R>): seq<R> {
    if records == [] then []
    else (if wanted(records[0]) then [records[0]] else []) + Keep(wanted, records[1..])
  }

  lemma {:induction false} KeepConcat<R>(wanted: R -> bool, a: seq<R>, b: seq<R>)
    ensures Keep(wanted, a + b) == Keep(wanted, a) + Keep(wanted, b)
  {
    if a == [] {
      assert a + b == b;
    } else {
      assert (a + b)[1..] == a[1..] + b && (a + b)[0] == a[0];
      KeepConcat(wanted, a[1..], b);
      var first := if wanted(a[0]) then [a[0]] else [];
      assert first + (Keep(wanted, a[1..]) + Keep(wanted, b)) == first + Keep(wanted, a[1..]) + Keep(wanted, b);
    }
  }

  lemma KeepOne<R>(wanted: R -> bool, records: seq<R>)
    requires |records| <= 1
    ensures Keep(wanted, records) == if records != [] && wanted(records[0]) then records else []
  {
  }

  lemma {:induction false} HistoryConcat<R>(parse: seq<byte> -> Option<R>, a: seq<seq<byte>>, b: seq<seq<byte>>)
    ensures History(parse, a + b) == History(parse, a) + History(parse, b)
  {
    if a == [] {
      assert a + b == b;
    } else {
      assert (a + b)[1..] == a[1..] + b;
      HistoryConcat(parse, a[1..], b);
    }
  }

  lemma OneLine<R>(parse: seq<byte> -> Option<R>, line: seq<byte>)
    ensures History(parse, [line]) == Parsed(parse, line)
    ensures Records(parse, [line]) == RecordOf(parse, line)
  {
    var lines := [line];
    assert lines[1..] == [];
  }

  /** All records of one run, oldest first, from the whole log. */
  method CorrelatedRoutes<R>(log: seq<byte>, parse: seq<byte> -> Option<R>, wanted: R -> bool) returns (out: seq<R>)
    ensures out == Keep(wanted, History(parse, Split(log)))
  {
    var lines := Split(log);
    out := [];
    for i := 0 to |lines|
      invariant out == Keep(wanted, History(parse, lines[..i]))
    {
      assert lines[..i + 1] == lines[..i] + [lines[i]];
      OneLine(parse, lines[i]);
      HistoryConcat(parse, lines[..i], [lines[i]]);
      KeepConcat(wanted, History(parse, lines[..i]), History(parse, [lines[i]]));
      KeepOne(wanted, History(parse, [lines[i]]));
      var record := parse(lines[i]);
      if record.Some? && wanted(record.value) {
        out := out + [record.value];
      }
    }
    assert lines[..|lines|] == lines;
  }

  /** The lines the tail reader is willing to parse. */
  function InBounds(lines: seq<seq<byte>>): seq<seq<byte>> {
    if lines == [] then []
    else (if |lines[0]| <= MAX_RECORD then [lines[0]] else []) + InBounds(lines[1..])
  }

  lemma {:induction false} HistoryIsRecords<R>(parse: seq<byte> -> Option<R>, lines: seq<seq<byte>>)
    requires parse([]).None?
    ensures History(parse, InBounds(lines)) == Records(parse, lines)
  {
    if lines != [] {
      var rest := InBounds(lines[1..]);
      HistoryIsRecords(parse, lines[1..]);
      assert ([lines[0]] + rest)[1..] == rest && [] + rest == rest;
      assert lines[0] == [] || |lines[0]| > 0;
    }
  }

  lemma {:induction false} InBoundsIsAll(lines: seq<seq<byte>>)
    requires forall i :: 0 <= i < |lines| ==> |lines[i]| <= MAX_RECORD
    ensures InBounds(lines) == lines
  {
    if lines != [] {
      InBoundsIsAll(lines[1..]);
      assert lines == [lines[0]] + lines[1..];
    }
  }

  lemma {:induction false} TailIsEndOfRecords<R>(parse: seq<byte> -> Option<R>, log: seq<byte>, n: nat)
    ensures IsSuffix(RecentRoutes(parse, log, n), Records(parse, Split(log)))
    ensures |log| <= MAX_BYTES && |Split(log)| <= MAX_LINES ==> RecentRoutes(parse, log, n) == LastN(Records(parse, Split(log)), n)
  {
    assert LastN(log, |log| + MAX_BYTES) == log;
    SmallerWindow(parse, log, MAX_BYTES, |log| + MAX_BYTES, n);
    RecordsOfSuffix(parse, LastN(Split(log), MAX_LINES), Split(log));
    SuffixTransitive(LastN(Records(parse, LastN(Split(log), MAX_LINES)), n),
                     Records(parse, LastN(Split(log), MAX_LINES)), Records(parse, Split(log)));
    SuffixTransitive(RecentRoutes(parse, log, n),
                     TailView(parse, log, |log| + MAX_BYTES, n), Records(parse, Split(log)));
  }

  /** The bounded tail never shows anything but the end of the full history, oversized lines left out. */
  lemma {:induction false} TailIsEndOfHistory<R>(parse: seq<byte> -> Option<R>, log: seq<byte>, n: nat)
    requires parse([]).None?
    ensures IsSuffix(RecentRoutes(parse, log, n), History(parse, InBounds(Split(log))))
    ensures |log| <= MAX_BYTES && |Split(log)| <= MAX_LINES
            ==> RecentRoutes(parse, log, n) == LastN(History(parse, InBounds(Split(log))), n)
    ensures (forall i :: 0 <= i < |Split(log)| ==> |Split(log)[i]| <= MAX_RECORD) ==> InBounds(Split(log)) == Split(log)
  {
    HistoryIsRecords(parse, Split(log));
    TailIsEndOfRecords(parse, log, n);
    if forall i :: 0 <= i < |Split(log)| ==> |Split(log)[i]| <= MAX_RECORD {
      InBoundsIsAll(Split(log));
    }
  }

  /** The records of one run that a tail shows are the last of all its records. */
  lemma {:induction false} TailOfRun<R>(parse: seq<byte> -> Option<R>, wanted: R -> bool, log: seq<byte>, n: nat)
    requires parse([]).None?
    ensures IsSuffix(Keep(wanted, RecentRoutes(parse, log, n)), Keep(wanted, History(parse, InBounds(Split(log)))))
  {
    TailIsEndOfHistory(parse, log, n);
    var (tail, all) := (RecentRoutes(parse, log, n), History(parse, InBounds(Split(log))));
    var front := all[..|all| - |tail|];
    assert all == front + tail;
    KeepConcat(wanted, front, tail);
  }

  lemma SuffixTransitive<T>(a: seq<T>, b: seq<T>, c: seq<T>)
    requires IsSuffix(a, b) && IsSuffix(b, c)
    ensures IsSuffix(a, c)
  {
  }

  function Append(log: seq<byte>, encoded: seq<byte>): seq<byte> {
    log + (encoded + [NEWLINE])
  }

  lemma {:induction false} SplitPlain(line: seq<byte>)
    requires NEWLINE !in line
    ensures Split(line) == [line]
    ensures Split(line + [NEWLINE]) == [line, []]
  {
    if line != [] {
      SplitPlain(line[1..]);
      assert (line + [NEWLINE])[1..] == line[1..] + [NEWLINE];
      assert [line[0]] + line[1..] == line;
      assert Push(line[0], [line[1..], []]) == [line, []];
    } else {
      assert line + [NEWLINE] == [NEWLINE];
      assert [NEWLINE][1..] == [];
    }
  }

  /** Appending turns the log's unterminated last piece plus the new bytes into one line. */
  lemma {:induction false} AppendExtendsLastPiece(log: seq<byte>, encoded: seq<byte>)
    requires NEWLINE !in encoded
    ensures var before := Split(log);
            Split(Append(log, encoded)) == before[..|before| - 1] + [before[|before| - 1] + encoded, []]
  {
    SplitPlain(encoded);
    SplitConcat(log, encoded + [NEWLINE]);
    GlueTwo(Split(log), encoded, []);
  }

  lemma {:induction false} GlueTwo(x: seq<seq<byte>>, p: seq<byte>, q: seq<byte>)
    requires |x| >= 1
    ensures Glue(x, [p, q]) == x[..|x| - 1] + [x[|x| - 1] + p, q]
  {
    if |x| > 1 {
      GlueTwo(x[1..], p, q);
      assert x[..|x| - 1] == [x[0]] + x[1..][..|x| - 2];
    }
  }

  lemma {:induction false} LinesAfterBreak(encoded: seq<byte>, atStart: bool)
    requires NEWLINE !in encoded
    ensures WholeLines([NEWLINE] + (encoded + [NEWLINE]), atStart) == if atStart then [[], encoded, []] else [encoded, []]
  {
    var line := encoded + [NEWLINE];
    SplitPlain(encoded);
    assert ([NEWLINE] + line)[1..] == line;
    assert Split([NEWLINE] + line) == [[], encoded, []];
    assert [[], encoded, []][1..] == [encoded, []];
  }

  lemma {:induction false} NewestOfOne<R>(parse: seq<byte> -> Option<R>, lines: seq<seq<byte>>, encoded: seq<byte>, n: nat)
    requires lines == [encoded, []] || lines == [[], encoded, []]
    requires 0 < |encoded| <= MAX_RECORD && parse(encoded).Some? && n > 0
    ensures Newest(parse, lines, n) == [parse(encoded).value]
  {
    RecordsOfLast(parse, encoded);
    assert LastN(lines, MAX_LINES) == lines;
  }

  /** A window over the last line and the break before it shows that line's record. */
  lemma {:induction false} LastLineView<R>(parse: seq<byte> -> Option<R>, log: seq<byte>, encoded: seq<byte>, n: nat)
    requires NEWLINE !in encoded && 0 < |encoded| <= MAX_RECORD && parse(encoded).Some? && n > 0
    requires log != [] && log[|log| - 1] == NEWLINE
    ensures TailView(parse, Append(log, encoded), |encoded| + 2, n) == [parse(encoded).value]
  {
    var after, line := Append(log, encoded), encoded + [NEWLINE];
    var atStart := |after| <= |encoded| + 2;
    assert LastN(after, |encoded| + 2) == [NEWLINE] + line;
    LinesAfterBreak(encoded, atStart);
    NewestOfOne(parse, WholeLines([NEWLINE] + line, atStart), encoded, n);
  }

  lemma {:induction false} OnlyLineView<R>(parse: seq<byte> -> Option<R>, encoded: seq<byte>, n: nat)
    requires NEWLINE !in encoded && 0 < |encoded| <= MAX_RECORD && parse(encoded).Some? && n > 0
    ensures TailView(parse, Append([], encoded), |encoded| + 1, n) == [parse(encoded).value]
  {
    var after, line := Append([], encoded), encoded + [NEWLINE];
    SplitPlain(encoded);
    assert LastN(after, |line|) == line;
    NewestOfOne(parse, [encoded, []], encoded, n);
  }

  lemma {:induction false} CleanAppendIsNewest<R>(parse: seq<byte> -> Option<R>, log: seq<byte>, encoded: seq<byte>, n: nat)
    requires NEWLINE !in encoded && 0 < |encoded| <= MAX_RECORD && parse(encoded).Some? && n > 0
    requires Terminated(log)
    ensures var recent := RecentRoutes(parse, Append(log, encoded), n);
            recent != [] && recent[|recent| - 1] == parse(encoded).value
  {
    if log == [] {
      OnlyLineView(parse, encoded, n);
      SmallerWindow(parse, Append(log, encoded), |encoded| + 1, MAX_BYTES, n);
    } else {
      LastLineView(parse, log, encoded, n);
      SmallerWindow(parse, Append(log, encoded), |encoded| + 2, MAX_BYTES, n);
    }
  }

  /** Nothing is left open at the end of the log. */
  predicate Terminated(log: seq<byte>) {
    log == [] || log[|log| - 1] == NEWLINE
  }

  /** What follows the last newline. */
  function Fragment(log: seq<byte>): (p: seq<byte>) {
    Split(log)[|Split(log)| - 1]
  }

  /** Just behind the last newline. */
  function CutPoint(log: seq<byte>): (k: nat)
    ensures k <= |log| && Terminated(log[..k]) && NEWLINE !in log[k..]
  {
    if Terminated(log) then
      assert log[..|log|] == log;
      |log|
    else
      var front := log[..|log| - 1];
      var k := CutPoint(front);
      assert log[..k] == front[..k] && log[k..] == front[k..] + [log[|log| - 1]];
      k
  }

  lemma {:induction false} TerminatedEndsEmpty(log: seq<byte>)
    requires Terminated(log)
    ensures Fragment(log) == []
  {
    if log != [] {
      var front := log[..|log| - 1];
      assert log == front + ([] + [NEWLINE]);
      SplitPlain([]);
      SplitConcat(front, [] + [NEWLINE]);
      GlueTwo(Split(front), [], []);
    }
  }

  lemma {:induction false} GlueOne(x: seq<seq<byte>>, p: seq<byte>)
    requires |x| >= 1
    ensures Glue(x, [p]) == x[..|x| - 1] + [x[|x| - 1] + p]
  {
    if |x| > 1 {
      GlueOne(x[1..], p);
      assert x[..|x| - 1] == [x[0]] + x[1..][..|x| - 2];
    }
  }

  /** The log up to its last newline, and the fragment after it. */
  lemma {:induction false} FragmentIsLast(log: seq<byte>) returns (front: seq<byte>)
    ensures log == front + Fragment(log) && Terminated(front) && NEWLINE !in Fragment(log)
    ensures Fragment(log) == [] <==> Terminated(log)
  {
    front := log[..CutPoint(log)];
    var p := log[CutPoint(log)..];
    assert log == front + p;
    SplitConcat(front, p);
    SplitPlain(p);
    GlueOne(Split(front), p);
    TerminatedEndsEmpty(front);
    assert [] + p == p;
  }

  /**
   * Whatever the log ends in, the newest line after an append is its open
   * fragment followed by the new bytes, and if that parses it is the newest
   * record of every later tail read. After a terminated log it is the record.
   */
  lemma {:induction false} AppendIsNewest<R>(parse: seq<byte> -> Option<R>, log: seq<byte>, encoded: seq<byte>, n: nat)
    requires NEWLINE !in encoded && n > 0
    requires 0 < |Fragment(log) + encoded| <= MAX_RECORD && parse(Fragment(log) + encoded).Some?
    ensures var recent := RecentRoutes(parse, Append(log, encoded), n);
            recent != [] && recent[|recent| - 1] == parse(Fragment(log) + encoded).value
    ensures Terminated(log) ==> Fragment(log) + encoded == encoded
  {
    var front := AppendRegroups(log, encoded);
    CleanAppendIsNewest(parse, front, Fragment(log) + encoded, n);
  }

  lemma {:induction false} AppendRegroups(log: seq<byte>, encoded: seq<byte>) returns (front: seq<byte>)
    requires NEWLINE !in encoded
    ensures Terminated(front) && Append(log, encoded) == Append(front, Fragment(log) + encoded) && NEWLINE !in Fragment(log) + encoded
    ensures Terminated(log) ==> Fragment(log) + encoded == encoded
  {
    front := FragmentIsLast(log);
  }

  /** The readable records gain exactly the appended one, whatever counts as a record. */
  ghost predicate RecordIsKept(log: seq<byte>, encoded: seq<byte>) {
    forall parse: seq<byte> -> Option<bool> ::
      Records(parse, Split(Append(log, encoded))) == Records(parse, Split(log)) + RecordOf(parse, encoded)
  }

  lemma {:induction false} RecordsAfterAppend<R>(parse: seq<byte> -> Option<R>, log: seq<byte>, encoded: seq<byte>)
    requires NEWLINE !in encoded
    ensures var before := Split(log)[..|Split(log)| - 1];
            && Records(parse, Split(log)) == Records(parse, before) + RecordOf(parse, Fragment(log))
            && Records(parse, Split(Append(log, encoded))) == Records(parse, before) + RecordOf(parse, Fragment(log) + encoded)
  {
    var (pieces, p) := (Split(log), Fragment(log));
    var before := pieces[..|pieces| - 1];
    AppendExtendsLastPiece(log, encoded);
    assert pieces == before + [p];
    OneLine(parse, p);
    RecordsConcat(parse, before, [p]);
    RecordsConcat(parse, before, [p + encoded, []]);
    RecordsOfLast(parse, p + encoded);
  }

  /** For one parser, exactly: the appended record is gained iff gluing it to the open fragment reads as both would on their own. */
  lemma {:induction false} RecordIsGainedIff<R>(parse: seq<byte> -> Option<R>, log: seq<byte>, encoded: seq<byte>)
    requires NEWLINE !in encoded
    ensures Records(parse, Split(Append(log, encoded))) == Records(parse, Split(log)) + RecordOf(parse, encoded)
       <==> RecordOf(parse, Fragment(log) + encoded) == RecordOf(parse, Fragment(log)) + RecordOf(parse, encoded)
  {
    RecordsAfterAppend(parse, log, encoded);
    var before := Records(parse, Split(log)[..|Split(log)| - 1]);
    var (glued, own, added) := (RecordOf(parse, Fragment(log) + encoded), RecordOf(parse, Fragment(log)), RecordOf(parse, encoded));
    assert before + own + added == before + (own + added);
    assert before + glued == before + (own + added) ==> (before + glued)[|before|..] == (before + (own + added))[|before|..];
  }

  /** To a parser that accepts just this record, appending it behind a fragment adds nothing. */
  lemma {:induction false} LostBehindFragment(parse: seq<byte> -> Option<bool>, log: seq<byte>, encoded: seq<byte>)
    requires NEWLINE !in encoded && 0 < |encoded| <= MAX_RECORD && Fragment(log) != []
    requires forall line :: parse(line) == if line == encoded then Some(true) else None
    ensures |Records(parse, Split(Append(log, encoded)))| < |Records(parse, Split(log)) + RecordOf(parse, encoded)|
  {
    RecordsAfterAppend(parse, log, encoded);
    assert |Fragment(log) + encoded| > |encoded|;
  }

  /** An append can be relied on exactly when the log ends in a newline or is empty. */
  lemma {:induction false} RecordIsKeptIffTerminated(log: seq<byte>, encoded: seq<byte>)
    requires NEWLINE !in encoded && 0 < |encoded| <= MAX_RECORD
    ensures RecordIsKept(log, encoded) <==> Terminated(log)
  {
    var front := FragmentIsLast(log);
    if Terminated(log) {
      forall parse: seq<byte> -> Option<bool>
        ensures Records(parse, Split(Append(log, encoded))) == Records(parse, Split(log)) + RecordOf(parse, encoded)
      {
        RecordsAfterAppend(parse, log, encoded);
        assert Fragment(log) + encoded == encoded;
      }
    } else {
      LostBehindFragment(line => if line == encoded then Some(true) else None, log, encoded);
    }
  }

  /** For any one parser: behind a fragment with which it does not parse, the record is lost, and the fragment's own line with it. */
  lemma {:induction false} TornAppendIsLost<R>(parse: seq<byte> -> Option<R>, log: seq<byte>, encoded: seq<byte>)
    requires NEWLINE !in encoded && RecordOf(parse, Fragment(log) + encoded) == []
    ensures Records(parse, Split(Append(log, encoded))) <= Records(parse, Split(log))
  {
    RecordsAfterAppend(parse, log, encoded);
  }

  /** A crash left `{` behind; the record `1` appended after it is never seen again, in the tail or in the history. */
  lemma {:induction false} TornLogExample(log: seq<byte>, encoded: seq<byte>, n: nat)
    requires log == [123] && encoded == [49]
    ensures var parse: seq<byte> -> Option<bool> := line => if line == [49] then Some(true) else None;
            && parse(encoded) == Some(true) && RecentRoutes(parse, Append(log, encoded), n) == []
            && History(parse, Split(Append(log, encoded))) == []
  {
    var parse: seq<byte> -> Option<bool> := line => if line == [49] then Some(true) else None;
    var after := Append(log, encoded);
    SplitPlain([123, 49]);
    assert after == [123, 49] + [NEWLINE];
    assert Split(after) == [[123, 49], []];
    HistoryIsRecords(parse, Split(after));
    RecordsOfLast(parse, [123, 49]);
    assert LastN(after, MAX_BYTES) == after && LastN(Split(after), MAX_LINES) == Split(after);
  }

  lemma RecordsOfLast<R>(parse: seq<byte> -> Option<R>, line: seq<byte>)
    ensures Records(parse, [line, []]) == RecordOf(parse, line)
    ensures Records(parse, [[], line, []]) == RecordOf(parse, line)
  {
    var empty: seq<byte> := [];
    assert Records(parse, [empty]) == [] by {
      assert [empty][1..] == [];
    }
    assert [line, empty][1..] == [empty];
    assert [empty, line, empty][1..] == [line, empty];
  }

  // ----- The reverse scanner -----

  /** The scanner's registers; `line` and `out` grow backwards. */
  datatype Scan<R> = Scan(line: seq<byte>, oversized: bool, lines: nat, out: seq<R>)

  function ParseReverseRecord<R>(parse: seq<byte> -> Option<R>, line: seq<byte>, oversized: bool, out: seq<R>): seq<R> {
    if !oversized && line != [] && parse(Reverse(line)).Some?
    then out + [parse(Reverse(line)).value]
    else out
  }

  function ScanByte<R>(parse: seq<byte> -> Option<R>, st: Scan<R>, b: byte): Scan<R> {
    if b == NEWLINE then
      Scan([], false, st.lines + 1, ParseReverseRecord(parse, st.line, st.oversized, st.out))
    else if st.oversized then st
    else if |st.line| == MAX_RECORD then st.(line := [], oversized := true)
    else st.(line := st.line + [b])
  }

  /** What the registers mean once exactly `seen`, a tail of the log, was scanned. */
  ghost predicate Scanned<R>(parse: seq<byte> -> Option<R>, seen: seq<byte>, st: Scan<R>) {
    var pieces := Split(seen);
    && st.lines == |pieces| - 1
    && st.out == Reverse(Records(parse, pieces[1..]))
    && st.oversized == (|pieces[0]| > MAX_RECORD)
    && st.line == if st.oversized then [] else Reverse(pieces[0])
  }

  lemma {:induction false} ParseReverseIsForward<R>(parse: seq<byte> -> Option<R>, piece: seq<byte>, later: seq<seq<byte>>, st: Scan<R>)
    requires st.oversized == (|piece| > MAX_RECORD)
    requires st.line == if st.oversized then [] else Reverse(piece)
    requires st.out == Reverse(Records(parse, later))
    ensures ParseReverseRecord(parse, st.line, st.oversized, st.out) == Reverse(Records(parse, [piece] + later))
  {
    ReverseTwice(piece);
    assert ([piece] + later)[1..] == later;
    var all := Records(parse, [piece] + later);
    if RecordOf(parse, piece) == [] {
      assert all == Records(parse, later);
    } else {
      assert all[1..] == Records(parse, later);
    }
  }

  /** The registers after scanning `seen` backwards, byte by byte. */
  function ScanAll<R>(parse: seq<byte> -> Option<R>, seen: seq<byte>): Scan<R> {
    if seen == [] then Scan([], false, 0, []) else ScanByte(parse, ScanAll(parse, seen[1..]), seen[0])
  }

  /** The backward scan computes the forward view of every tail. */
  lemma {:induction false} ScanAllIsForward<R>(parse: seq<byte> -> Option<R>, seen: seq<byte>)
    ensures Scanned(parse, seen, ScanAll(parse, seen))
  {
    if seen != [] {
      ScanAllIsForward(parse, seen[1..]);
      ScanByteExtends(parse, seen[0], seen[1..], ScanAll(parse, seen[1..]));
      assert [seen[0]] + seen[1..] == seen;
    }
  }

  lemma {:induction false} ScanByteExtends<R>(parse: seq<byte> -> Option<R>, b: byte, seen: seq<byte>, st: Scan<R>)
    requires Scanned(parse, seen, st)
    ensures Scanned(parse, [b] + seen, ScanByte(parse, st, b))
  {
    var pieces := Split(seen);
    assert ([b] + seen)[1..] == seen;
    if b == NEWLINE {
      ParseReverseIsForward(parse, pieces[0], pieces[1..], st);
      assert [pieces[0]] + pieces[1..] == pieces;
    } else {
      var all := Split([b] + seen);
      assert all == Push(b, pieces) && all[1..] == pieces[1..];
      assert all[0][1..] == pieces[0];
    }
  }

  ghost predicate Within<R>(st: Scan<R>, n: nat) {
    |st.out| < n && st.lines < MAX_LINES
  }

  /** Stopping on either quota already yields the answer for the whole window. */
  lemma {:induction false} QuotaIsEnough<R>(parse: seq<byte> -> Option<R>, log: seq<byte>, p: nat, st: Scan<R>, n: nat)
    requires |log| - Min(|log|, MAX_BYTES) <= p <= |log|
    requires st == ScanAll(parse, log[p..])
    requires |st.out| <= n && st.lines <= MAX_LINES && !Within(st, n)
    ensures Reverse(st.out) == RecentRoutes(parse, log, n)
  {
    ScanAllIsForward(parse, log[p..]);
    var window, lines := LastN(log, MAX_BYTES), Split(log[p..])[1..];
    var cut := p - (|log| - |window|);
    assert window[cut..] == log[p..] && window == window[..cut] + log[p..];
    LinesOfSuffix(window[..cut], log[p..], |log| <= MAX_BYTES);
    NewestOfSuffix(parse, lines, WholeLines(window, |log| <= MAX_BYTES), n);
    assert LastN(lines, MAX_LINES) == lines;
    ReverseTwice(Records(parse, lines));
  }

  /** Exhausting the byte window within both quotas yields the window's answer. */
  lemma {:induction false} WindowIsEnough<R>(parse: seq<byte> -> Option<R>, log: seq<byte>, bytes: nat, st: Scan<R>, n: nat)
    requires st == ScanAll(parse, LastN(log, bytes)) && Within(st, n)
    ensures TailView(parse, log, bytes, n) ==
            Reverse(if |log| > bytes then st.out else ParseReverseRecord(parse, st.line, st.oversized, st.out))
  {
    ScanAllIsForward(parse, LastN(log, bytes));
    var pieces := Split(LastN(log, bytes));
    var lines := WholeLines(LastN(log, bytes), |log| <= bytes);
    assert LastN(lines, MAX_LINES) == lines;
    assert [pieces[0]] + pieces[1..] == pieces;
    ReverseTwice(Records(parse, lines));
    ParseReverseIsForward(parse, pieces[0], pieces[1..], st);
    assert |RecordOf(parse, pieces[0])| <= 1;
  }

  // ----- The file and the reader -----

  datatype ReadAnswer = Deliver(count: nat) | Fault

  predicate NoBytes(answer: ReadAnswer) {
    answer.Fault? || answer.count == 0
  }

  datatype ReadError = UnexpectedEof | IoFault

  /** A seekable byte source that meters its use; read `k` delivers at most `answer(k)` bytes, seek `k` fails if it `refuses(k)`. */
  class LogReader {
    const data: seq<byte>
    const answer: nat -> ReadAnswer
    const refuses: nat -> bool
    var cursor: nat
    var calls: nat
    var bytes: nat
    var seeks: nat

    constructor (data: seq<byte>, answer: nat -> ReadAnswer, refuses: nat -> bool)
      ensures this.data == data && this.answer == answer && this.refuses == refuses
      ensures cursor == calls == bytes == seeks == 0
    {
      this.data, this.answer, this.refuses := data, answer, refuses;
      cursor, calls, bytes, seeks := 0, 0, 0, 0;
    }

    /** Every seek succeeds and every read delivers all that was asked for. */
    ghost predicate Reliable() {
      forall k :: answer(k).Deliver? && answer(k).count >= READ_BYTES && !refuses(k)
    }

    /** The latest read brought nothing, or the latest seek failed. */
    ghost predicate Failing()
      reads this
    {
      (calls > 0 && NoBytes(answer(calls - 1))) || (seeks > 0 && refuses(seeks - 1))
    }

    method SeekEnd() returns (r: Result<nat, ReadError>)
      modifies this
      ensures seeks == old(seeks) + 1 && calls == old(calls) && bytes == old(bytes)
      ensures r == if refuses(old(seeks)) then Err(IoFault) else Ok(|data|)
      ensures cursor == if r.Ok? then |data| else old(cursor)
    {
      seeks := seeks + 1;
      if refuses(seeks - 1) {
        return Err(IoFault);
      }
      cursor := |data|;
      r := Ok(cursor);
    }

    method SeekStart(position: nat) returns (ok: bool)
      modifies this
      ensures seeks == old(seeks) + 1 && calls == old(calls) && bytes == old(bytes)
      ensures ok == !refuses(old(seeks)) && cursor == if ok then position else old(cursor)
    {
      seeks := seeks + 1;
      ok := !refuses(seeks - 1);
      if ok {
        cursor := position;
      }
    }

    method Read(block: array<byte>, lo: nat, hi: nat) returns (r: Result<nat, ReadError>)
      requires lo <= hi <= block.Length && cursor <= |data|
      modifies this, block
      ensures calls == old(calls) + 1 && seeks == old(seeks)
      ensures r.Err? == answer(old(calls)).Fault?
      ensures r.Err? ==> cursor == old(cursor) && bytes == old(bytes)
      ensures r.Ok? ==>
                && r.value == Min(answer(old(calls)).count, Min(hi - lo, |data| - old(cursor)))
                && cursor == old(cursor) + r.value && bytes == old(bytes) + r.value
                && forall i :: lo <= i < lo + r.value ==> block[i] == data[old(cursor) + (i - lo)]
      ensures forall i :: 0 <= i < lo ==> block[i] == old(block[i])
    {
      calls := calls + 1;
      match answer(calls - 1) {
        case Fault => r := Err(IoFault);
        case Deliver(count) =>
          var k := Min(count, Min(hi - lo, |data| - cursor));
          forall i | lo <= i < lo + k {
            block[i] := data[cursor + (i - lo)];
          }
          cursor, bytes, r := cursor + k, bytes + k, Ok(k);
      }
    }
  }

  datatype Fill = Filled | OutOfReads | Broken(error: ReadError)

  /** Fill `block[..size]` from the reader's cursor; short reads share one call budget. */
  method FillBlock(reader: LogReader, block: array<byte>, size: nat, spent: nat) returns (fill: Fill, spent': nat)
    requires 0 < size <= block.Length == READ_BYTES && reader.cursor + size <= |reader.data|
    requires spent <= MAX_READS
    modifies reader, block
    ensures reader.seeks == old(reader.seeks) && spent <= spent' <= MAX_READS
    ensures reader.calls - old(reader.calls) == spent' - spent
    ensures old(reader.bytes) <= reader.bytes <= old(reader.bytes) + size
    ensures fill.Filled? ==> forall i :: 0 <= i < size ==> block[i] == reader.data[old(reader.cursor) + i]
    ensures fill.OutOfReads? ==> spent' == MAX_READS
    ensures fill.Broken? ==>
              reader.calls > 0 && NoBytes(reader.answer(reader.calls - 1))
    ensures reader.Reliable() && spent < MAX_READS ==> fill.Filled? && spent' == spent + 1
  {
    var filled := 0;
    spent' := spent;
    ghost var start := reader.cursor;
    while filled < size
      invariant 0 <= filled <= size
      invariant spent <= spent' <= MAX_READS
      invariant reader.calls - old(reader.calls) == spent' - spent
      invariant reader.bytes == old(reader.bytes) + filled && reader.seeks == old(reader.seeks)
      invariant reader.cursor == start + filled
      invariant forall i :: 0 <= i < filled ==> block[i] == reader.data[start + i]
      invariant reader.Reliable() && spent < MAX_READS ==>
                  (filled == 0 && spent' == spent) || (filled == size && spent' == spent + 1)
      decreases size - filled
    {
      if spent' == MAX_READS {
        return OutOfReads, spent';
      }
      spent' := spent' + 1;
      var received := reader.Read(block, filled, size);
      match received {
        case Err(e) => return Broken(e), spent';
        case Ok(k) =>
          if k == 0 {
            return Broken(UnexpectedEof), spent';
          }
          filled := filled + k;
      }
    }
    fill := Filled;
  }

  /** Scan one block from its end; stop as soon as a newline meets a quota. */
  method ScanBlock<R>(parse: seq<byte> -> Option<R>, log: seq<byte>, position: nat, block: array<byte>, size: nat,
                      before: Scan<R>, n: nat)
    returns (st: Scan<R>, stopped: bool, ghost at: nat)
    requires size <= block.Length && position + size <= |log|
    requires forall i :: 0 <= i < size ==> block[i] == log[position + i]
    requires before == ScanAll(parse, log[position + size..]) && Within(before, n)
    ensures position <= at <= position + size && st == ScanAll(parse, log[at..])
    ensures stopped ==> !Within(st, n) && |st.out| <= n && st.lines <= MAX_LINES
    ensures !stopped ==> at == position && Within(st, n)
  {
    st, stopped, at := before, false, position + size;
    var i := size;
    while i > 0
      invariant 0 <= i <= size && at == position + i && !stopped
      invariant st == ScanAll(parse, log[at..]) && Within(st, n)
    {
      i := i - 1;
      var b := block[i];
      assert log[position + i..][1..] == log[at..];
      st, at := ScanByte(parse, st, b), position + i;
      if b == NEWLINE && (|st.out| == n || st.lines == MAX_LINES) {
        stopped := true;
        return;
      }
    }
  }

  datatype Step = More | Stopped | Starved | Failed(error: ReadError)

  ghost predicate QuotaMet<R>(st: Scan<R>, n: nat) {
    !Within(st, n) && |st.out| <= n && st.lines <= MAX_LINES
  }

  /** What is known after a step: the scan of everything from `at` on, and why it went no further. */
  ghost predicate ScannedTo<R>(parse: seq<byte> -> Option<R>, data: seq<byte>, step: Step, st: Scan<R>, position: nat, at: nat, n: nat) {
    && position <= at <= |data| && st == ScanAll(parse, data[at..])
    && (step.More? ==> Within(st, n) && at == position)
    && (step.Stopped? ==> QuotaMet(st, n))
    && (step.Starved? ==> Within(st, n) && at > 0)
  }

  /** Fetch the block of `size` bytes that ends at `top` and scan it down to `at`. */
  method ReadBlock<R>(reader: LogReader, block: array<byte>, parse: seq<byte> -> Option<R>, top: nat, size: nat,
                      before: Scan<R>, n: nat, spent: nat)
    returns (step: Step, st: Scan<R>, ghost at: nat, spent': nat)
    requires 0 < size <= block.Length == READ_BYTES && spent <= MAX_READS && size <= top <= |reader.data|
    requires before == ScanAll(parse, reader.data[top..]) && Within(before, n)
    modifies reader, block
    ensures spent <= spent' <= MAX_READS && reader.calls - old(reader.calls) == spent' - spent
    ensures reader.bytes <= old(reader.bytes) + size && reader.seeks == old(reader.seeks) + 1
    ensures ScannedTo(parse, reader.data, step, st, top - size, at, n)
    ensures at <= top && (step.Starved? ==> spent' == MAX_READS)
    ensures step.Failed? ==> reader.Failing()
    ensures reader.Reliable() && spent < MAX_READS ==> (step.More? || step.Stopped?) && spent' == spent + 1
  {
    var position := top - size;
    st, at, spent' := before, top, spent;
    var ok := reader.SeekStart(position);
    if !ok {
      step := Failed(IoFault);
      return;
    }
    var fill;
    fill, spent' := FillBlock(reader, block, size, spent);
    match fill {
      case OutOfReads => step := Starved;
      case Broken(e) => step := Failed(e);
      case Filled =>
        var stopped;
        st, stopped, at := ScanBlock(parse, reader.data, position, block, size, before, n);
        step := if stopped then Stopped else More;
    }
  }

  /** Bytes still allowed after `k` full blocks. */
  ghost function Ceiling(k: nat): (r: int)
    ensures k == 0 ==> r == MAX_BYTES
    ensures k == MAX_READS ==> r == 0
    ensures k > 0 ==> r == Ceiling(k - 1) - READ_BYTES
  {
    MAX_BYTES - k * 8192
  }

  /** The window below `position` is what `bytesLeft` still allows, and only the first block of the file is short. */
  ghost predicate Budgeted(len: nat, position: int, bytesLeft: int, k: nat) {
    && 0 <= position <= len && 0 <= bytesLeft == MAX_BYTES - (len - position)
    && (position == 0 || bytesLeft == Ceiling(k))
  }

  lemma BudgetFalls(len: nat, position: nat, bytesLeft: nat, k: nat)
    requires Budgeted(len, position, bytesLeft, k) && position > 0 && bytesLeft > 0 && k < MAX_READS
    ensures var size := Min(Min(position, bytesLeft), READ_BYTES);
            0 < size && Budgeted(len, position - size, bytesLeft - size, k + 1)
  {
    CeilingIsWhole(k, MAX_READS);
  }

  lemma {:induction false} CeilingIsWhole(k: nat, m: nat)
    requires k < m <= MAX_READS
    ensures Ceiling(k) >= Ceiling(m) + READ_BYTES
  {
    if k < m - 1 {
      CeilingIsWhole(k, m - 1);
    }
  }

  /** The block loop, from the end of the file down, until a quota, a budget or the window stops it. */
  method ScanBlocks<R>(reader: LogReader, block: array<byte>, parse: seq<byte> -> Option<R>, n: nat)
    returns (step: Step, st: Scan<R>, position: nat, ghost at: nat, spent: nat)
    requires n > 0 && block.Length == READ_BYTES
    modifies reader, block
    ensures reader.calls == old(reader.calls) + spent && spent <= MAX_READS
    ensures reader.bytes <= old(reader.bytes) + MAX_BYTES && reader.seeks <= old(reader.seeks) + MAX_READS
    ensures ScannedTo(parse, reader.data, step, st, position, at, n) && |reader.data| - at <= MAX_BYTES
    ensures step.More? ==> position == 0 || |reader.data| - position == MAX_BYTES
    ensures step.Starved? ==> spent == MAX_READS
    ensures step.Failed? ==> reader.Failing()
    ensures reader.Reliable() ==> step.More? || step.Stopped?
  {
    var bytesLeft, k := MAX_BYTES, 0;
    step, st, position, at, spent := More, Scan([], false, 0, []), |reader.data|, |reader.data|, 0;
    while k < MAX_READS && step.More? && position > 0 && bytesLeft > 0
      invariant 0 <= k <= MAX_READS && 0 <= spent <= MAX_READS
      invariant Budgeted(|reader.data|, position, bytesLeft, k)
      invariant reader.calls == old(reader.calls) + spent
      invariant reader.bytes <= old(reader.bytes) + MAX_BYTES - bytesLeft && reader.seeks <= old(reader.seeks) + k
      invariant ScannedTo(parse, reader.data, step, st, position, at, n)
      invariant step.Starved? ==> spent == MAX_READS
      invariant step.Failed? ==> reader.Failing()
      invariant reader.Reliable() ==> spent <= k && (step.More? || step.Stopped?)
    {
      var size := Min(Min(position, bytesLeft), READ_BYTES);
      BudgetFalls(|reader.data|, position, bytesLeft, k);
      step, st, at, spent := ReadBlock(reader, block, parse, position, size, st, n, spent);
      position, bytesLeft, k := position - size, bytesLeft - size, k + 1;
    }
  }

  /** Find the end of the file and scan backwards from it. */
  method ScanWindow<R>(reader: LogReader, parse: seq<byte> -> Option<R>, n: nat)
    returns (step: Step, st: Scan<R>, position: nat, ghost at: nat, spent: nat)
    requires n > 0
    modifies reader
    ensures reader.calls == old(reader.calls) + spent && spent <= MAX_READS
    ensures reader.bytes <= old(reader.bytes) + MAX_BYTES && reader.seeks <= old(reader.seeks) + MAX_READS + 1
    ensures ScannedTo(parse, reader.data, step, st, position, at, n) && |reader.data| - at <= MAX_BYTES
    ensures step.More? ==> position == 0 || |reader.data| - position == MAX_BYTES
    ensures step.Starved? ==> spent == MAX_READS
    ensures step.Failed? ==> reader.Failing()
    ensures reader.Reliable() ==> step.More? || step.Stopped?
  {
    var end := reader.SeekEnd();
    if end.Err? {
      return Failed(end.error), Scan([], false, 0, []), |reader.data|, |reader.data|, 0;
    }
    var block := new byte[READ_BYTES];
    step, st, position, at, spent := ScanBlocks(reader, block, parse, n);
  }

  /**
   * The bounded reverse tail read. Whatever the reads deliver, a successful
   * result is the newest part of the specified answer: the answer for the last
   * `shown` bytes. It is the whole answer unless the call budget ran out, and
   * no budget is ever exceeded.
   */
  method ReadRecentRoutes<R>(reader: LogReader, parse: seq<byte> -> Option<R>, n: nat)
    returns (r: Result<seq<R>, ReadError>, ghost shown: nat)
    modifies reader
    ensures n == 0 ==> r == Ok([]) && unchanged(reader)
    ensures r.Ok? ==> shown <= MAX_BYTES && r.value == TailView(parse, reader.data, shown, n)
    ensures r.Ok? && reader.calls - old(reader.calls) < MAX_READS ==> shown == MAX_BYTES
    ensures reader.Reliable() ==> r.Ok? && shown == MAX_BYTES
    ensures r.Err? ==> reader.Failing()
    ensures 0 <= reader.calls - old(reader.calls) <= MAX_READS
    ensures reader.bytes - old(reader.bytes) <= MAX_BYTES
    ensures reader.seeks - old(reader.seeks) <= MAX_READS + 1
  {
    shown := MAX_BYTES;
    if n == 0 {
      return Ok([]), shown;
    }
    var step, st, position, at, spent := ScanWindow(reader, parse, n);
    match step {
      case Failed(e) => r := Err(e);
      case Stopped =>
        QuotaIsEnough(parse, reader.data, at, st, n);
        r := Ok(Reverse(st.out));
      case Starved =>
        shown := |reader.data| - at;
        WindowIsEnough(parse, reader.data, shown, st, n);
        r := Ok(Reverse(st.out));
      case More =>
        assert reader.data[position..] == LastN(reader.data, MAX_BYTES);
        WindowIsEnough(parse, reader.data, MAX_BYTES, st, n);
        var out := if position == 0 then ParseReverseRecord(parse, st.line, st.oversized, st.out) else st.out;
        r := Ok(Reverse(out));
    }
  }

  /** The public tail: a missing log reads as empty. */
  method RecentFrom<R>(file: LogReader?, parse: seq<byte> -> Option<R>, n: nat) returns (r: Result<seq<R>, ReadError>)
    modifies file
    ensures file == null ==> r == Ok([])
    ensures file != null && file.Reliable() ==> r == Ok(RecentRoutes(parse, file.data, n))
    ensures file != null && r.Ok? ==> IsSuffix(r.value, RecentRoutes(parse, file.data, n))
    ensures file != null && r.Ok? && file.calls - old(file.calls) < MAX_READS
            ==> r.value == RecentRoutes(parse, file.data, n)
  {
    if n == 0 || file == null {
      return Ok([]);
    }
    ghost var shown;
    r, shown := ReadRecentRoutes(file, parse, n);
    if r.Ok? {
      SmallerWindow(parse, file.data, shown, MAX_BYTES, n);
    }
  }
}
