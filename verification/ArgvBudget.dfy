/** Prompt strings on a command line: cut on character boundaries, inside a shared byte budget. */
module ArgvBudget {
  import opened Basics
  import opened Utf8
  import opened Decimals
  import opened Pieces

  const MAX_PROCESS_ARG_BYTES := 32 * 1024
  const MAX_PROCESS_TOTAL_ARG_BYTES := 64 * 1024
  const MAX_USIZE := 0xFFFF_FFFF_FFFF_FFFF

  function MaxPromptBytes(windows: bool): nat {
    if windows then 24 * 1024 else MAX_PROCESS_ARG_BYTES
  }

  function SaturatingSub(a: nat, b: nat): nat {
    if a <= b then 0 else a - b
  }

  function MarkerText(max: nat, len: nat): string {
    "\n\n\U{2026} [truncated for OS argv limit; kept " + Numeral(max) + " of " + Numeral(len) + " bytes]"
  }

  function Marker(max: nat, len: nat): (r: seq<byte>) {
    Encode(MarkerText(max, len))
  }

  lemma MarkerIsValid(max: nat, len: nat)
    ensures var m := Marker(max, len); Valid(m) && m != [] && Valid(m[..1])
  {
    EncodedIsValid(MarkerText(max, len));
    assert MarkerText(max, len)[0] == '\n';
    assert Marker(max, len)[0] == 10;
    assert Marker(max, len)[..1] == [10];
    assert CharLen([10]) == 1 && [10][1..] == [];
  }

  /**
   * What truncation promises: a fitting string is untouched; otherwise the
   * longest well-formed prefix that leaves room for the whole marker, then the
   * marker; and where even the marker has no room, as much of it as fits.
   */
  ghost predicate IsTruncation(s: seq<byte>, max: nat, r: seq<byte>) {
    var marker := Marker(max, |s|);
    if |s| <= max then r == s
    else if |marker| <= max then
      |r| >= |marker| && r[|r| - |marker|..] == marker && LongestWithin(s, max - |marker|, r[..|r| - |marker|])
    else LongestWithin(marker, max, r)
  }

  /** Walk back from `limit` to the nearest character boundary. */
  method FloorBoundary(s: seq<byte>, limit: nat) returns (end: nat)
    requires Valid(s) && limit <= |s|
    ensures end <= limit < end + 4 && LongestWithin(s, limit, s[..end])
  {
    end := limit;
    while end > 0 && !IsBoundary(s, end)
      invariant end <= limit
      invariant forall j: nat :: end < j <= limit ==> !IsBoundary(s, j)
    {
      end := end - 1;
    }
    LastBoundaryIsLongest(s, limit, end);
  }

  /** The marker is appended first and cut afterwards; when it has no room nothing of `s` is left before it. */
  method TruncateUtf8Bytes(s: seq<byte>, max: nat) returns (out: seq<byte>)
    requires Valid(s)
    ensures IsTruncation(s, max, out)
    ensures Valid(out) && |out| <= max
    ensures |s| > max ==> max < |out| + 4
  {
    if |s| <= max {
      return s;
    }
    var marker := Marker(max, |s|);
    MarkerIsValid(max, |s|);
    var budget := SaturatingSub(max, |marker|);
    var end := FloorBoundary(s, Min(budget, |s|));
    out := s[..end] + marker;
    ValidConcat(s[..end], marker);
    assert out[|out| - |marker|..] == marker && out[..|out| - |marker|] == s[..end];
    if |out| > max {
      assert out == marker;
      var e := FloorBoundary(out, max);
      out := out[..e];
    }
  }

  lemma {:induction false} PrefixThenMarker(r: seq<byte>, marker: seq<byte>)
    requires |marker| <= |r| && r[|r| - |marker|..] == marker && Valid(marker) && Valid(r[..|r| - |marker|])
    ensures Valid(r)
  {
    var p := r[..|r| - |marker|];
    assert r == p + marker;
    ValidConcat(p, marker);
  }

  /** Whatever is passed on is well formed and within the limit; it is empty, or unchanged, only when it has to be. */
  lemma {:induction false} TruncationBounds(s: seq<byte>, max: nat, r: seq<byte>)
    requires Valid(s) && IsTruncation(s, max, r)
    ensures Valid(r) && |r| <= max
    ensures r == [] <==> max == 0 || s == []
    ensures r == s <==> |s| <= max
  {
    if |s| > max {
      var marker := Marker(max, |s|);
      MarkerIsValid(max, |s|);
      if |marker| <= max {
        PrefixThenMarker(r, marker);
      } else if max > 0 {
        assert Valid(marker[..1]);
      }
    }
  }

  lemma TruncationIsUnique(s: seq<byte>, max: nat, r: seq<byte>, q: seq<byte>)
    requires IsTruncation(s, max, r) && IsTruncation(s, max, q)
    ensures r == q
  {
    var marker := Marker(max, |s|);
    if |s| <= max {
    } else if |marker| <= max {
      var (pr, pq) := (r[..|r| - |marker|], q[..|q| - |marker|]);
      LongestIsUnique(s, max - |marker|, pr, pq);
      assert r == pr + marker && q == pq + marker;
    } else {
      LongestIsUnique(marker, max, r, q);
    }
  }

  lemma {:induction false} EncodedSize(text: string)
    ensures |Encode(text)| <= 4 * |text|
  {
    if text != [] {
      EncodedSize(text[1..]);
    }
  }

  lemma {:induction false} PowerAdds(a: nat, b: nat)
    ensures Power10(a + b) == Power10(a) * Power10(b)
  {
    if a > 0 {
      PowerAdds(a - 1, b);
    }
  }

  /** Any real prompt limit has room for the whole marker, so a cut prompt always says that it was cut. */
  lemma {:induction false} MarkerHasRoom(max: nat, len: nat)
    requires 400 <= max < len <= MAX_USIZE
    ensures |Marker(max, len)| <= max
  {
    PowerAdds(5, 5);
    PowerAdds(10, 10);
    assert Power10(5) == 100_000;
    NumeralIsShort(max, 20);
    NumeralIsShort(len, 20);
    EncodedSize(MarkerText(max, len));
  }

  // ----- A list of prompts -----

  ghost predicate AllValid(args: seq<seq<byte>>) {
    forall i :: 0 <= i < |args| ==> Valid(args[i])
  }

  /** What is left for the prompt at `i` once the arguments before it are counted. */
  function Room(cap: nat, spent: nat, outs: seq<seq<byte>>, i: nat): nat
    requires i <= |outs|
  {
    Min(cap, SaturatingSub(MAX_PROCESS_TOTAL_ARG_BYTES, spent + SumTo(outs, i)))
  }

  /** The prompt at `i` was truncated to the room there was for it. */
  ghost predicate CutAt(cap: nat, spent: nat, prompts: seq<seq<byte>>, outs: seq<seq<byte>>, i: nat)
    requires i < |prompts| && i < |outs|
  {
    IsTruncation(prompts[i], Room(cap, spent, outs, i), outs[i])
  }

  /** Each prompt in turn is truncated to what the fixed arguments and the prompts before it leave. */
  ghost predicate Budgeted(cap: nat, spent: nat, prompts: seq<seq<byte>>, outs: seq<seq<byte>>) {
    && |outs| == |prompts|
    && forall i: nat :: i < |outs| ==> CutAt(cap, spent, prompts, outs, i)
  }

  lemma {:induction false} BudgetedExtends(cap: nat, spent: nat, prompts: seq<seq<byte>>, outs: seq<seq<byte>>, p: seq<byte>, r: seq<byte>)
    requires Budgeted(cap, spent, prompts, outs)
    requires IsTruncation(p, Room(cap, spent, outs, |outs|), r)
    ensures Budgeted(cap, spent, prompts + [p], outs + [r])
  {
    var (asked, more) := (prompts + [p], outs + [r]);
    forall i: nat | i < |more| ensures CutAt(cap, spent, asked, more, i) {
      assert i < |outs| ==> CutAt(cap, spent, prompts, outs, i);
      SumOfPrefix(outs, more, i);
    }
  }

  lemma {:induction false} RemainingFalls(spent: nat, outs: seq<seq<byte>>, text: seq<byte>)
    ensures var left := SaturatingSub(MAX_PROCESS_TOTAL_ARG_BYTES, spent + Total(outs));
            SaturatingSub(left, |text|) == SaturatingSub(MAX_PROCESS_TOTAL_ARG_BYTES, spent + Total(outs + [text]))
  {
    SumOfPrefix(outs, outs + [text], |outs|);
  }

  /** The first `n` prompts are placed and `remaining` is what they left. */
  ghost predicate BudgetedSoFar(cap: nat, spent: nat, prompts: seq<seq<byte>>, n: nat, outs: seq<seq<byte>>, remaining: nat) {
    && n <= |prompts| && Budgeted(cap, spent, prompts[..n], outs)
    && remaining == SaturatingSub(MAX_PROCESS_TOTAL_ARG_BYTES, spent + Total(outs))
  }

  lemma {:induction false} BudgetStep(cap: nat, spent: nat, prompts: seq<seq<byte>>, n: nat, outs: seq<seq<byte>>, remaining: nat, text: seq<byte>)
    requires n < |prompts| && BudgetedSoFar(cap, spent, prompts, n, outs, remaining) && IsTruncation(prompts[n], Min(cap, remaining), text)
    ensures BudgetedSoFar(cap, spent, prompts, n + 1, outs + [text], SaturatingSub(remaining, |text|))
  {
    assert prompts[..n + 1] == prompts[..n] + [prompts[n]];
    BudgetedExtends(cap, spent, prompts[..n], outs, prompts[n], text);
    RemainingFalls(spent, outs, text);
  }

  /** The argument vector a process is started with. */
  class ArgVec {
    var args: seq<seq<byte>>

    constructor (args: seq<seq<byte>>)
      ensures this.args == args
    {
      this.args := args;
    }

    method FixedBytes() returns (sum: nat)
      ensures sum == Min(Total(args), MAX_USIZE)
    {
      sum := 0;
      for i := 0 to |args|
        invariant sum == Min(SumTo(args, i), MAX_USIZE)
      {
        sum := Min(sum + |args[i]|, MAX_USIZE);
      }
    }

    method AppendPromptArgs(prompts: seq<seq<byte>>, windows: bool)
      requires AllValid(prompts)
      modifies this
      ensures |args| == |old(args)| + |prompts| && args[..|old(args)|] == old(args)
      ensures Budgeted(MaxPromptBytes(windows), Total(old(args)), prompts, args[|old(args)|..])
    {
      ghost var fixed := args;
      ghost var outs: seq<seq<byte>> := [];
      ghost var cap := MaxPromptBytes(windows);
      var sum := FixedBytes();
      var remaining := SaturatingSub(MAX_PROCESS_TOTAL_ARG_BYTES, sum);
      for i := 0 to |prompts|
        invariant args == fixed + outs
        invariant BudgetedSoFar(cap, Total(fixed), prompts, i, outs, remaining)
      {
        var text := TruncateUtf8Bytes(prompts[i], Min(MaxPromptBytes(windows), remaining));
        BudgetStep(cap, Total(fixed), prompts, i, outs, remaining, text);
        remaining := SaturatingSub(remaining, |text|);
        args := args + [text];
        outs := outs + [text];
      }
      assert prompts[..|prompts|] == prompts && args[|fixed|..] == outs;
    }
  }

  lemma {:induction false} SpendingIsBounded(cap: nat, spent: nat, prompts: seq<seq<byte>>, outs: seq<seq<byte>>, n: nat)
    requires Budgeted(cap, spent, prompts, outs) && AllValid(prompts) && n <= |outs|
    ensures SumTo(outs, n) <= SaturatingSub(MAX_PROCESS_TOTAL_ARG_BYTES, spent)
  {
    if n > 0 {
      SpendingIsBounded(cap, spent, prompts, outs, n - 1);
      assert CutAt(cap, spent, prompts, outs, n - 1);
      TruncationBounds(prompts[n - 1], Room(cap, spent, outs, n - 1), outs[n - 1]);
    }
  }

  /** Every appended argument is well formed and within the cap, and together they never exceed what the fixed part left. */
  lemma {:induction false} BudgetIsKept(cap: nat, spent: nat, prompts: seq<seq<byte>>, outs: seq<seq<byte>>)
    requires Budgeted(cap, spent, prompts, outs) && AllValid(prompts)
    ensures AllValid(outs) && forall i :: 0 <= i < |outs| ==> |outs[i]| <= cap
    ensures spent <= MAX_PROCESS_TOTAL_ARG_BYTES ==> spent + Total(outs) <= MAX_PROCESS_TOTAL_ARG_BYTES
    ensures spent >= MAX_PROCESS_TOTAL_ARG_BYTES ==> Total(outs) == 0
  {
    forall i | 0 <= i < |outs| ensures Valid(outs[i]) && |outs[i]| <= cap {
      assert CutAt(cap, spent, prompts, outs, i);
      TruncationBounds(prompts[i], Room(cap, spent, outs, i), outs[i]);
    }
    SpendingIsBounded(cap, spent, prompts, outs, |outs|);
  }

  /** Nothing at all is appended exactly when there was nothing to append or no room for any of it. */
  lemma {:induction false} AllEmptyIff(cap: nat, spent: nat, prompts: seq<seq<byte>>, outs: seq<seq<byte>>)
    requires Budgeted(cap, spent, prompts, outs) && AllValid(prompts) && cap > 0
    ensures Total(outs) == 0 <==> spent >= MAX_PROCESS_TOTAL_ARG_BYTES || Total(prompts) == 0
  {
    SumIsZero(outs, |outs|);
    SumIsZero(prompts, |prompts|);
    BudgetIsKept(cap, spent, prompts, outs);
    forall i | 0 <= i < |outs|
      ensures prompts[i] == [] ==> outs[i] == []
      ensures spent < MAX_PROCESS_TOTAL_ARG_BYTES && Total(outs) == 0 && prompts[i] != [] ==> outs[i] != []
    {
      SumIsZero(outs, i);
      assert CutAt(cap, spent, prompts, outs, i);
      TruncationBounds(prompts[i], Room(cap, spent, outs, i), outs[i]);
    }
  }

  lemma {:induction false} PrefixUntouched(cap: nat, spent: nat, prompts: seq<seq<byte>>, outs: seq<seq<byte>>, n: nat)
    requires Budgeted(cap, spent, prompts, outs) && AllValid(prompts) && n <= |outs|
    requires forall i :: 0 <= i < n ==> |prompts[i]| <= cap
    requires spent + SumTo(prompts, n) <= MAX_PROCESS_TOTAL_ARG_BYTES
    ensures forall i :: 0 <= i < n ==> outs[i] == prompts[i]
  {
    if n > 0 {
      PrefixUntouched(cap, spent, prompts, outs, n - 1);
      SumOfPrefix(prompts, outs, n - 1);
      assert CutAt(cap, spent, prompts, outs, n - 1);
      TruncationBounds(prompts[n - 1], Room(cap, spent, outs, n - 1), outs[n - 1]);
    }
  }

  /** Prompts pass through unchanged exactly when each is within the cap and all fit together (or there is nothing in them). */
  lemma {:induction false} UntouchedIff(cap: nat, spent: nat, prompts: seq<seq<byte>>, outs: seq<seq<byte>>)
    requires Budgeted(cap, spent, prompts, outs) && AllValid(prompts)
    ensures outs == prompts
       <==> && (forall i :: 0 <= i < |prompts| ==> |prompts[i]| <= cap)
            && (spent + Total(prompts) <= MAX_PROCESS_TOTAL_ARG_BYTES || Total(prompts) == 0)
  {
    BudgetIsKept(cap, spent, prompts, outs);
    if spent + Total(prompts) <= MAX_PROCESS_TOTAL_ARG_BYTES && forall i :: 0 <= i < |prompts| ==> |prompts[i]| <= cap {
      PrefixUntouched(cap, spent, prompts, outs, |prompts|);
    } else if Total(prompts) == 0 {
      SumIsZero(prompts, |prompts|);
      forall i | 0 <= i < |outs| ensures outs[i] == prompts[i] {
        assert CutAt(cap, spent, prompts, outs, i);
        TruncationBounds(prompts[i], Room(cap, spent, outs, i), outs[i]);
      }
    }
  }

  /** The budget rule leaves no choice: the same arguments and prompts always give the same command line. */
  lemma {:induction false} BudgetedIsUnique(cap: nat, spent: nat, prompts: seq<seq<byte>>, a: seq<seq<byte>>, b: seq<seq<byte>>, n: nat)
    requires Budgeted(cap, spent, prompts, a) && Budgeted(cap, spent, prompts, b) && n <= |prompts|
    ensures forall i :: 0 <= i < n ==> a[i] == b[i]
  {
    if n > 0 {
      BudgetedIsUnique(cap, spent, prompts, a, b, n - 1);
      SumOfPrefix(a, b, n - 1);
      assert CutAt(cap, spent, prompts, a, n - 1) && CutAt(cap, spent, prompts, b, n - 1);
      TruncationIsUnique(prompts[n - 1], Room(cap, spent, a, n - 1), a[n - 1], b[n - 1]);
    }
  }

  /** The marker is one sentence: the limit that was kept to, then the length there was, both in decimal. */
  lemma {:induction false} MarkerSays(max: nat, len: nat) returns (kept: string, all: string)
    ensures (forall i :: 0 <= i < |kept| ==> IsDigit(kept[i])) && NumeralValue(kept) == max
    ensures (forall i :: 0 <= i < |all| ==> IsDigit(all[i])) && NumeralValue(all) == len
    ensures Marker(max, len) == Encode("\n\n\U{2026} [truncated for OS argv limit; kept " + kept + " of " + all + " bytes]")
  {
    kept, all := Numeral(max), Numeral(len);
    NumeralIsRead(max);
    NumeralIsRead(len);
  }

  /** In numbers: no prompt over 32 KiB (24 KiB on Windows), and 64 KiB for all arguments whenever the fixed ones leave any room. */
  lemma {:induction false} CommandLineFits(windows: bool, spent: nat, prompts: seq<seq<byte>>, outs: seq<seq<byte>>)
    requires Budgeted(MaxPromptBytes(windows), spent, prompts, outs) && AllValid(prompts)
    ensures forall i :: 0 <= i < |outs| ==> |outs[i]| <= if windows then 24_576 else 32_768
    ensures spent + Total(outs) <= Max(spent, 65_536)
  {
    BudgetIsKept(MaxPromptBytes(windows), spent, prompts, outs);
  }

  /** A long enough limit leaves room for the marker, which then ends what is passed on. */
  lemma {:induction false} CutEndsInMarker(s: seq<byte>, max: nat, r: seq<byte>) returns (keep: seq<byte>)
    requires IsTruncation(s, max, r) && 400 <= max < |s| <= MAX_USIZE
    ensures |Marker(max, |s|)| <= max
    ensures LongestWithin(s, max - |Marker(max, |s|)|, keep) && r == keep + Marker(max, |s|)
  {
    MarkerHasRoom(max, |s|);
    var marker := Marker(max, |s|);
    keep := r[..|r| - |marker|];
  }

  /** A single prompt: the limit it meets, and that it goes through as it is exactly when it is within that. */
  lemma {:induction false} LonePrompt(windows: bool, spent: nat, prompt: seq<byte>, out: seq<byte>, limit: nat)
    requires Valid(prompt) && Budgeted(MaxPromptBytes(windows), spent, [prompt], [out])
    requires limit == if spent > 65_536 then 0 else Min(if windows then 24_576 else 32_768, 65_536 - spent)
    ensures IsTruncation(prompt, limit, out) && (out == prompt <==> |prompt| <= limit)
  {
    var (cap, ps, outs) := (MaxPromptBytes(windows), [prompt], [out]);
    assert CutAt(cap, spent, ps, outs, 0);
    assert SumTo(outs, 0) == 0;
    assert Room(cap, spent, outs, 0) == limit;
    TruncationBounds(prompt, limit, out);
  }
}
