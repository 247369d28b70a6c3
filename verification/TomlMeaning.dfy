/** What a written document comes to hold, said of its entries alone: last assignment wins, with two exceptions spelled out. */
module TomlMeaning {
  import opened Basics
  import opened Text
  import opened TomlLite
  import opened TomlStrings
  import opened TomlDocuments
  import opened Decimals

  // ----- Names and values -----

  /** The keys each table knows. */
  lemma KnownKeys(section: Section, key: string)
    ensures Known(section, key) <==> (section, key) in {
              (Root, "persona_policy"), (Root, "default_role"), (Root, "memory_backend"), (Root, "abi_bin"), (Root, "backend"),
              (Roles, "max"), (Roles, "gemma"),
              (Embeddings, "provider"), (Embeddings, "endpoint"), (Embeddings, "model"), (Embeddings, "dimension"), (Embeddings, "language"),
              (Knowledge, "source"), (Knowledge, "folder")}
  {
  }

  function TablePrefix(section: Section): string {
    if section == Roles then "roles." else if section == Embeddings then "embeddings." else if section == Knowledge then "knowledge." else ""
  }

  function FullName(section: Section, key: string): string {
    TablePrefix(section) + key
  }

  lemma FullNameIs(section: Section, key: string)
    ensures FullName(section, key) == Qualified(section, key)
  {
    assert [] + key == key;
  }

  /** Letter by letter, ASCII capitals become small and everything else stays. */
  ghost predicate IsLowered(written: string, kept: string) {
    && |kept| == |written|
    && forall i :: 0 <= i < |written| ==>
         if 'A' <= written[i] <= 'Z' then kept[i] as int == written[i] as int + 32 else kept[i] == written[i]
  }

  /** The two names of backends are folded, everything else is kept as written. */
  ghost predicate KeptAs(section: Section, key: string, written: string, kept: string) {
    if (section == Root && key == "backend") || (section == Embeddings && key == "provider") then IsLowered(written, kept) else kept == written
  }

  /** `more` is `values` with this name set and nothing else changed. */
  ghost predicate Updates(values: map<string, string>, more: map<string, string>, name: string) {
    more.Keys == values.Keys + {name} && forall q :: q in values && q != name ==> more[q] == values[q]
  }

  /** The outcome of assigning a string to a known key. */
  ghost predicate Sets(st: Config, key: string, v: string, r: Result<Config, TomlError>) {
    var name := FullName(st.section, key);
    if st.section == Knowledge && name in st.values then r == Err(DuplicateKey)
    else if st.section == Embeddings && key == "dimension" && !IsCount(v) then r == Err(BadDimension)
    else
      && r.Ok? && r.value.section == st.section && Updates(st.values, r.value.values, name)
      && KeptAs(st.section, key, v, r.value.values[name])
  }

  lemma {:induction false} SetValueSets(st: Config, key: string, v: string)
    ensures Sets(st, key, v, SetValue(st, key, v))
  {
    FullNameIs(st.section, key);
  }

  // ----- Counts -----

  predicate AllZeros(s: string) {
    forall i :: 0 <= i < |s| ==> s[i] == '0'
  }

  lemma {:induction false} PaddedIsRead(zeros: string, n: nat)
    requires AllZeros(zeros)
    ensures NumeralValue(zeros + Numeral(n)) == n
  {
    var s := zeros + Numeral(n);
    if n >= 10 {
      PaddedIsRead(zeros, n / 10);
      assert s[..|s| - 1] == zeros + Numeral(n / 10);
    } else {
      assert s[..|s| - 1] == zeros;
      ZerosAreZero(zeros);
    }
  }

  lemma {:induction false} ZerosAreZero(zeros: string)
    requires AllZeros(zeros)
    ensures NumeralValue(zeros) == 0
  {
    if zeros != [] {
      ZerosAreZero(zeros[..|zeros| - 1]);
    }
  }

  lemma {:induction false} NumeralSnoc(n: nat, c: char)
    requires IsDigit(c)
    ensures n > 0 ==> Numeral(10 * n + DigitValue(c)) == Numeral(n) + [c]
    ensures Numeral(DigitValue(c)) == [c]
  {
    var (m, d) := (10 * n + DigitValue(c), DigitValue(c));
    assert m / 10 == n && m % 10 == d;
    assert ('0' as int + d) as char == c;
  }

  /** Digits are zeros and then the numeral of their value. */
  lemma {:induction false} DigitsArePadded(s: string) returns (zeros: string)
    requires AllDigits(s)
    ensures AllZeros(zeros) && s == zeros + Numeral(NumeralValue(s))
  {
    var (front, last) := (s[..|s| - 1], s[|s| - 1]);
    var n := NumeralValue(front);
    NumeralSnoc(n, last);
    zeros := front;
    if front != [] {
      var padding := DigitsArePadded(front);
      if n > 0 {
        zeros := padding;
        assert s == padding + Numeral(n) + [last];
      } else {
        NumeralSnoc(n, '0');
      }
    }
  }

  /** An optional plus sign, any zeros, and the numeral of a machine word. */
  ghost predicate IsWord(s: string, sign: string, zeros: string, n: nat) {
    (sign == "" || sign == "+") && AllZeros(zeros) && n < 0x1_0000_0000_0000_0000 && s == sign + (zeros + Numeral(n))
  }

  /** A dimension is exactly such a word. */
  lemma {:induction false} CountIff(s: string)
    ensures IsCount(s) <==> exists sign, zeros, n: nat :: IsWord(s, sign, zeros, n)
  {
    if IsCount(s) {
      var sign := if s[0] == '+' then "+" else "";
      var digits := WithoutPlus(s);
      assert s == sign + digits;
      var zeros := DigitsArePadded(digits);
      assert IsWord(s, sign, zeros, NumeralValue(digits));
    }
    forall sign, zeros, n: nat | IsWord(s, sign, zeros, n) ensures IsCount(s) {
      WordIsCount(s, sign, zeros, n);
    }
  }

  lemma {:induction false} WordIsCount(s: string, sign: string, zeros: string, n: nat)
    requires IsWord(s, sign, zeros, n)
    ensures IsCount(s)
  {
    var digits := zeros + Numeral(n);
    PaddedIsRead(zeros, n);
    assert IsDigit(digits[0]);
    assert s[|sign|..] == digits && WithoutPlus(s) == digits;
  }

  // ----- Lines -----

  /** An assignment line, with any spacing and any comment or none, sets its key to its string and touches no other. */
  lemma {:induction false} AssignmentLineSets(st: Config, indent: string, key: string, g1: string, g2: string, lit: string, v: string,
                                              g3: string, comment: Option<string>)
    requires Known(st.section, key) && Quoted(lit, v)
    requires AllSpace(indent) && AllSpace(g1) && AllSpace(g2) && AllSpace(g3)
    ensures Sets(st, key, v, ParseLine(st, indent + (key + g1 + ['='] + g2) + lit + g3 + Remark(comment)))
  {
    LineIsRead(st, indent, key, g1, g2, lit, v, g3, comment);
    SetValueSets(st, key, v);
  }

  lemma {:induction false} CommasDropped(s: string) returns (commas: string)
    ensures s == TrimCommas(s) + commas && (forall i :: 0 <= i < |commas| ==> commas[i] == ',')
    ensures TrimCommas(s) == [] || TrimCommas(s)[|TrimCommas(s)| - 1] != ','
  {
    commas := [];
    if s != [] && s[|s| - 1] == ',' {
      commas := CommasDropped(s[..|s| - 1]);
      assert s == s[..|s| - 1] + [','];
      commas := commas + [','];
    }
  }

  lemma KeyLeads(key: string, g1: string, g2: string, value: string)
    requires PlainKey(key)
    ensures (key + g1 + ['='] + g2 + value)[0] != '['
  {
    KeyCharIsOrdinary(key[0]);
  }

  /** A value without quotes is taken as it stands, its trailing commas dropped. */
  lemma {:induction false} BareValueSets(st: Config, key: string, g1: string, g2: string, value: string, v: string, commas: string)
    requires Known(st.section, key) && AllSpace(g1) && AllSpace(g2)
    requires Tight(value) && Transparent(value) && value == v + commas && (v == [] || v[|v| - 1] != ',')
    requires forall i :: 0 <= i < |commas| ==> commas[i] == ','
    ensures Sets(st, key, v, ParseBare(st, key + g1 + ['='] + g2 + value))
  {
    KnownKeysArePlain(st.section, key);
    BareIsStripped(value, v, commas);
    AssignmentIsRead(st, key, g1, g2, value, v);
    KeyLeads(key, g1, g2, value);
    BareIsAssignment(st, key + g1 + ['='] + g2 + value);
    SetValueSets(st, key, v);
  }

  lemma {:induction false} BareIsStripped(value: string, v: string, commas: string)
    requires value != [] && Transparent(value) && value == v + commas && (v == [] || v[|v| - 1] != ',')
    requires forall i :: 0 <= i < |commas| ==> commas[i] == ','
    ensures StripTomlStr(value) == Ok(v)
  {
    TrimCommasIs(v, commas);
  }

  lemma {:induction false} TrimCommasIs(v: string, commas: string)
    requires (v == [] || v[|v| - 1] != ',') && forall i :: 0 <= i < |commas| ==> commas[i] == ','
    ensures TrimCommas(v + commas) == v
    decreases |commas|
  {
    if commas == [] {
      assert v + commas == v;
    } else {
      assert (v + commas)[..|v + commas| - 1] == v + commas[..|commas| - 1];
      TrimCommasIs(v, commas[..|commas| - 1]);
    }
  }

  /** A key the table does not know is refused in the knowledge table and ignored elsewhere, whatever its value. */
  lemma {:induction false} UnknownKeyLine(st: Config, key: string, gap: string, value: string)
    requires Tight(key) && key[0] != '[' && '=' !in key && AllSpace(gap) && !Known(st.section, key)
    ensures ParseBare(st, key + gap + ['='] + value) == if st.section == Knowledge then Err(UnknownKey) else Ok(st)
  {
    var (line, left) := (key + gap + ['='] + value, key + gap);
    SpaceIsTransparent(gap);
    IndexOfIs('=', line, |left|);
    assert line[..|left|] == [] + key + gap && line[0] == key[0];
    TrimPadded([], key, gap);
    HeadersBegin(line);
  }

  lemma HeadersBegin(line: string)
    requires line != [] && line[0] != '['
    ensures line != "[roles]" && line != "[embeddings]" && line != "[knowledge]"
  {
  }

  /** A line that assigns nothing is refused in the knowledge table and ignored elsewhere. */
  lemma {:induction false} LineWithoutEquals(st: Config, line: string)
    requires line != [] && line[0] != '[' && '=' !in line
    ensures ParseBare(st, line) == if st.section == Knowledge then Err(BadAssignment) else Ok(st)
  {
    HeadersBegin(line);
  }

  // ----- Documents -----

  /** The table the entry at `i` stands in. */
  function SectionAt(es: seq<Entry>, i: nat): Section
    requires i <= |es|
  {
    if i == 0 then Root else if es[i - 1].Header? then es[i - 1].section else SectionAt(es, i - 1)
  }

  /** The entry at `i` assigns to this name. */
  predicate Assigns(es: seq<Entry>, i: nat, name: string)
    requires i < |es|
  {
    es[i].Assign? && name == FullName(SectionAt(es, i), es[i].key)
  }

  ghost predicate IsLast(es: seq<Entry>, n: nat, i: nat, name: string)
    requires i < n <= |es|
  {
    Assigns(es, i, name) && forall j: nat :: i < j < n ==> !Assigns(es, j, name)
  }

  /** Exactly the assigned names are present, each with its last assigned string. */
  ghost predicate Holds(values: map<string, string>, es: seq<Entry>, n: nat)
    requires n <= |es|
  {
    && (forall name :: name in values <==> exists i: nat :: i < n && Assigns(es, i, name))
    && forall i: nat, name :: i < n && IsLast(es, n, i, name) ==>
         name in values && KeptAs(SectionAt(es, i), es[i].key, es[i].value, values[name])
  }

  /** A knowledge key assigned again, or a dimension that is no count. */
  ghost predicate Offends(es: seq<Entry>, i: nat)
    requires i < |es|
  {
    es[i].Assign? &&
    ((SectionAt(es, i) == Knowledge && exists j: nat :: j < i && Assigns(es, j, FullName(Knowledge, es[i].key))) ||
     (SectionAt(es, i) == Embeddings && es[i].key == "dimension" && !IsCount(es[i].value)))
  }

  lemma {:induction false} EffectsSnoc(st: Config, es: seq<Entry>, e: Entry)
    ensures Effects(st, es + [e]) == (match Effects(st, es) case Err(x) => Err(x) case Ok(next) => Effect(next, e))
    decreases |es|
  {
    if es == [] {
      var one := [e];
      assert es + [e] == one && one[1..] == [];
    } else {
      assert (es + [e])[0] == es[0] && (es + [e])[1..] == es[1..] + [e];
      if Effect(st, es[0]).Ok? {
        EffectsSnoc(Effect(st, es[0]).value, es[1..], e);
      }
    }
  }

  lemma {:induction false} HoldsWithoutAssign(values: map<string, string>, es: seq<Entry>, n: nat)
    requires n < |es| && Holds(values, es, n) && !es[n].Assign?
    ensures Holds(values, es, n + 1)
  {
    forall i: nat, name | i < n + 1 && IsLast(es, n + 1, i, name)
      ensures name in values && KeptAs(SectionAt(es, i), es[i].key, es[i].value, values[name])
    {
      assert i < n && IsLast(es, n, i, name);
    }
    forall name ensures name in values <==> exists i: nat :: i < n + 1 && Assigns(es, i, name) {
    }
  }

  lemma {:induction false} NamesAfterAssign(values: map<string, string>, more: map<string, string>, es: seq<Entry>, n: nat, added: string, name: string)
    requires n < |es| && Holds(values, es, n) && Assigns(es, n, added) && Updates(values, more, added)
    ensures name in more <==> exists i: nat :: i < n + 1 && Assigns(es, i, name)
  {
    if name in values {
      var i: nat :| i < n && Assigns(es, i, name);
      assert i < n + 1;
    }
  }

  lemma {:induction false} HoldsAfterAssign(values: map<string, string>, more: map<string, string>, es: seq<Entry>, n: nat)
    requires n < |es| && Holds(values, es, n) && es[n].Assign? && Updates(values, more, FullName(SectionAt(es, n), es[n].key))
    requires KeptAs(SectionAt(es, n), es[n].key, es[n].value, more[FullName(SectionAt(es, n), es[n].key)])
    ensures Holds(more, es, n + 1)
  {
    var added := FullName(SectionAt(es, n), es[n].key);
    assert Assigns(es, n, added);
    forall i: nat, name | i < n + 1 && IsLast(es, n + 1, i, name)
      ensures name in more && KeptAs(SectionAt(es, i), es[i].key, es[i].value, more[name])
    {
      if i < n {
        assert name != added && IsLast(es, n, i, name);
      }
    }
    forall name ensures name in more <==> exists i: nat :: i < n + 1 && Assigns(es, i, name) {
      NamesAfterAssign(values, more, es, n, added, name);
    }
  }

  /** After the first `n` entries: refused iff one of them offends, else at the right table with the right values. */
  ghost predicate ReadSoFar(es: seq<Entry>, n: nat, r: Result<Config, TomlError>)
    requires n <= |es|
  {
    && (r.Err? <==> exists i: nat :: i < n && Offends(es, i))
    && (r.Ok? ==> r.value.section == SectionAt(es, n) && Holds(r.value.values, es, n))
  }

  lemma {:induction false} StepIsRead(es: seq<Entry>, n: nat, st: Config)
    requires n < |es| && ReadSoFar(es, n, Ok(st))
    ensures ReadSoFar(es, n + 1, Effect(st, es[n]))
  {
    var r := Effect(st, es[n]);
    match es[n] {
      case Header(_, _) => HoldsWithoutAssign(st.values, es, n);
      case Blank(_) => HoldsWithoutAssign(st.values, es, n);
      case Assign(key, v, _) =>
        SetValueSets(st, key, v);
        AssignIsRead(es, n, st, r);
    }
  }

  lemma {:induction false} AssignIsRead(es: seq<Entry>, n: nat, st: Config, r: Result<Config, TomlError>)
    requires n < |es| && ReadSoFar(es, n, Ok(st)) && es[n].Assign? && Sets(st, es[n].key, es[n].value, r)
    ensures ReadSoFar(es, n + 1, r)
  {
    OffendsIff(es, n, st);
    if r.Ok? {
      HoldsAfterAssign(st.values, r.value.values, es, n);
    } else {
      assert Offends(es, n);
    }
  }

  lemma {:induction false} OffendsIff(es: seq<Entry>, n: nat, st: Config)
    requires n < |es| && ReadSoFar(es, n, Ok(st)) && es[n].Assign?
    ensures Offends(es, n) <==>
            || (st.section == Knowledge && FullName(st.section, es[n].key) in st.values)
            || (st.section == Embeddings && es[n].key == "dimension" && !IsCount(es[n].value))
  {
  }

  lemma {:induction false} PrefixIsRead(es: seq<Entry>, n: nat)
    requires n <= |es|
    ensures ReadSoFar(es, n, Effects(START, es[..n]))
  {
    if n == 0 {
      assert es[..0] == [];
    } else {
      PrefixIsRead(es, n - 1);
      assert es[..n] == es[..n - 1] + [es[n - 1]];
      EffectsSnoc(START, es[..n - 1], es[n - 1]);
      var before := Effects(START, es[..n - 1]);
      if before.Ok? {
        StepIsRead(es, n - 1, before.value);
      } else {
        var i: nat :| i < n - 1 && Offends(es, i);
        assert i < n && Offends(es, i);
      }
    }
  }

  /**
   * A written document is refused if and only if it assigns a knowledge key
   * twice or a dimension that is no count; otherwise it holds exactly the names
   * assigned, each with its last string, verbatim except for folded backends.
   */
  lemma {:induction false} DocumentMeans(es: seq<Entry>)
    requires Writable(Root, es)
    ensures var r := ParseLines(START, Lines(Unlines(WriteAll(es))));
            && (r.Err? <==> exists i: nat :: i < |es| && Offends(es, i))
            && (r.Ok? ==> Holds(r.value.values, es, |es|))
  {
    DocumentRoundTrips(START, es);
    PrefixIsRead(es, |es|);
    assert es[..|es|] == es;
  }
}
