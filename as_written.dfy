/**
 * Parts of src/semver.c exactly as written, where they depart from what the library's
 * comments and header promise, each with the input that shows the difference and, where
 * the code is right on a range of inputs, the lemma that says so. The rest of the model
 * uses the corrected definitions in Versions, Precedence and SemverApi.
 */
module AsWritten {
  import opened Wrappers
  import opened Text
  import opened Grammar
  import opened Scanner
  import opened Versions
  import opened Precedence
  import opened SemverApi

  /** An integer converted to a 32-bit C int: its value modulo 2^32, two's complement. */
  function Int32Of(x: int): (r: int)
    ensures -0x8000_0000 <= r < 0x8000_0000
    ensures (r - x) % U32Limit == 0
    ensures -0x8000_0000 <= x < 0x8000_0000 ==> r == x
  {
    var m := x % U32Limit;
    if m < 0x8000_0000 then m else m - U32Limit
  }

  // ---------------------------------------------------------------------------
  // semver_compare: the numbers (src/semver.c:488-505)
  // ---------------------------------------------------------------------------

  /** major_cmp = p_sva->major - p_svb->major: unsigned subtraction stored in an int. */
  function FieldDiff(a: u32, b: u32): int
  {
    Int32Of((a - b) % U32Limit)
  }

  /** cmp_result: the first non-zero field difference, not reduced to -1 or 1. */
  function ReleaseDiff(v: Version, w: Version): int
  {
    var ma := FieldDiff(v.major, w.major);
    var mi := FieldDiff(v.minor, w.minor);
    var pa := FieldDiff(v.patch, w.patch);
    if ma != 0 then ma else if mi != 0 then mi else pa
  }

  predicate Below2To31(v: Version) {
    v.major < 0x8000_0000 && v.minor < 0x8000_0000 && v.patch < 0x8000_0000
  }

  /** Below 2^31 the difference is exact, so its sign is the intended comparison. */
  lemma ReleaseDiffSign(v: Version, w: Version)
    requires Below2To31(v) && Below2To31(w)
    ensures Sign(ReleaseDiff(v, w)) == ReleaseCmp(v, w)
  {
    assert FieldDiff(v.major, w.major) == v.major - w.major;
    assert FieldDiff(v.minor, w.minor) == v.minor - w.minor;
    assert FieldDiff(v.patch, w.patch) == v.patch - w.patch;
  }

  /** 3000000000.0.0 against 0.0.0: the wrapped difference is negative, so it seems to precede. */
  lemma ReleaseDiffWrongSign()
    ensures var v := Version(3000000000, 0, 0, [], None);
            var w := Version(0, 0, 0, [], None);
            ReleaseDiff(v, w) < 0 && Cmp(v, w) == 1
  {
  }

  /** 5.0.0 against 3.0.0 writes 2, where the header promises 1. */
  lemma ReleaseDiffNotNormalised()
    ensures ReleaseDiff(Version(5, 0, 0, [], None), Version(3, 0, 0, [], None)) == 2
  {
  }

  /** 5.4.3 against 4.5.6 (test_semver_compare_basic): both forms answer 1. */
  lemma CompareBasicVector()
    ensures var v := Version(5, 4, 3, [], None);
            var w := Version(4, 5, 6, [], None);
            ReleaseDiff(v, w) == 1 && Cmp(v, w) == 1
  {
  }

  // ---------------------------------------------------------------------------
  // is_numeric, cmp_numeric (src/semver.c:663-679)
  // ---------------------------------------------------------------------------

  /** isspace in the C locale. */
  predicate IsSpace(c: char) {
    c == ' ' || c == '\t' || c == '\n' || c == '\U{B}' || c == '\U{C}' || c == '\r'
  }

  /** Number of leading digits. */
  function LeadingDigits(s: string): (n: nat)
    ensures n <= |s| && AllDigits(s[..n])
    ensures n < |s| ==> !IsDigit(s[n])
  {
    if s == [] || !IsDigit(s[0]) then 0
    else
      var n := 1 + LeadingDigits(s[1..]);
      assert s[..n] == [s[0]] + s[1..][..n - 1];
      n
  }

  /** The white space strtol skips: the rest of s from its first character that is not a space. */
  function SkipSpace(s: string): (t: string)
    ensures |t| <= |s|
    ensures t == [] || !IsSpace(t[0])
    ensures s == [] || !IsSpace(s[0]) ==> t == s
  {
    if s != [] && IsSpace(s[0]) then SkipSpace(s[1..]) else s
  }

  /** What strtol skips is a run of spaces at the front: the rest is a suffix of s. */
  lemma {:induction false} SkipSpaceSuffix(s: string)
    ensures s[|s| - |SkipSpace(s)|..] == SkipSpace(s)
    ensures forall i | 0 <= i < |s| - |SkipSpace(s)| :: IsSpace(s[i])
    decreases |s|
  {
    if s != [] && IsSpace(s[0]) {
      var t := SkipSpace(s[1..]);
      SkipSpaceSuffix(s[1..]);
      assert SkipSpace(s) == t;
      assert s[1..][|s| - 1 - |t|..] == s[|s| - |t|..];
    }
  }

  /** strtol(s, NULL, 10): optional white space and sign, then the decimal digits, saturated at LONG_MAX. */
  function Strtol(s: string): (r: int)
    ensures IsNumeric(s) ==> r == if DecimalValue(s) > LongMax then LongMax else DecimalValue(s)
  {
    if IsNumeric(s) then StrtolDigits(s); StrtolSigned(s) else StrtolSigned(s)
  }

  function StrtolSigned(s: string): int
  {
    var t := SkipSpace(s);
    var neg := t != [] && t[0] == '-';
    var u := if t != [] && (t[0] == '-' || t[0] == '+') then t[1..] else t;
    var n: int := DecimalValue(u[..LeadingDigits(u)]);
    if neg then (if n > LongMax + 1 then -(LongMax + 1) else -n)
    else (if n > LongMax then LongMax else n)
  }

  /** A run of digits has no white space or sign before it and is read to its end. */
  lemma StrtolDigits(s: string)
    requires IsNumeric(s)
    ensures var n := DecimalValue(s); StrtolSigned(s) == if n > LongMax then LongMax else n
  {
    assert SkipSpace(s) == s;
    assert s[..LeadingDigits(s)] == s;
  }

  /** (int)x is 0 exactly for the multiples of 2^32. */
  lemma Int32OfZero(x: int)
    ensures Int32Of(x) == 0 <==> x % U32Limit == 0
  {
  }

  /**
   * is_numeric as written: (int)strtol is non-zero, or the text starts with '0'. The empty
   * identifier is not numeric; a run of digits that does not start with '0' is numeric
   * exactly when its value, saturated at LONG_MAX, is not a multiple of 2^32.
   */
  predicate IsNumericAsWritten(s: string)
    ensures s == [] ==> !IsNumericAsWritten(s)
    ensures IsNumeric(s) && s[0] != '0' ==>
              (IsNumericAsWritten(s) <==> Strtol(s) % U32Limit != 0)
  {
    Int32OfZero(Strtol(s));
    !(Int32Of(Strtol(s)) == 0 && !(s != [] && s[0] == '0'))
  }

  /**
   * cmp_numeric as written: the difference of the two (int)strtol values, so two runs of
   * digits compare by their values cut to a 32-bit int.
   */
  function CmpNumericAsWritten(a: string, b: string): (r: int)
    ensures IsNumeric(a) && IsNumeric(b) && DecimalValue(a) <= LongMax && DecimalValue(b) <= LongMax ==>
              r == Int32Of(DecimalValue(a)) - Int32Of(DecimalValue(b))
  {
    Int32Of(Strtol(a)) - Int32Of(Strtol(b))
  }

  /**
   * The loop body of pre_release_cmp as written. C leaves strcmp's magnitude unspecified, so
   * the lexical case is taken by its sign, while cmp_numeric's difference is kept whole. Equal
   * identifiers tie, and two identifiers that are not numeric as written tie only when equal.
   */
  function IdCmpAsWritten(a: string, b: string): (r: int)
    ensures a == b ==> r == 0
    ensures !IsNumericAsWritten(a) && !IsNumericAsWritten(b) ==> (r == 0 <==> a == b)
  {
    if !IsNumericAsWritten(a) && IsNumericAsWritten(b) then 1
    else if IsNumericAsWritten(a) && !IsNumericAsWritten(b) then -1
    else if !IsNumericAsWritten(a) && !IsNumericAsWritten(b) then LexCmp(a, b)
    else CmpNumericAsWritten(a, b)
  }

  lemma {:induction false} ZeroValueLeadingZero(s: string)
    requires |s| > 0 && AllDigits(s) && DecimalValue(s) == 0
    ensures s[0] == '0'
  {
    if s[0] != '0' {
      PositiveValue(s);
    }
  }

  /** A run of digits worth less than 2^31 is numeric both ways, with the same value. */
  lemma IsNumericAgrees(s: string)
    requires IsNumeric(s) && DecimalValue(s) < 0x8000_0000
    ensures IsNumericAsWritten(s)
    ensures Int32Of(Strtol(s)) == DecimalValue(s)
  {
    assert SkipSpace(s) == s;
    assert s[..LeadingDigits(s)] == s;
    if DecimalValue(s) == 0 {
      ZeroValueLeadingZero(s);
    }
  }

  /** Two numbers below 2^31 compare the same way both ways. */
  lemma IdCmpAgreesOnNumbers(a: string, b: string)
    requires IsNumeric(a) && DecimalValue(a) < 0x8000_0000
    requires IsNumeric(b) && DecimalValue(b) < 0x8000_0000
    ensures Sign(IdCmpAsWritten(a, b)) == IdCmp(a, b)
  {
    IsNumericAgrees(a);
    IsNumericAgrees(b);
  }

  lemma StrtolDigitsThenLetter()
    ensures Strtol("1a") == 1 && Strtol("2") == 2
  {
    assert SkipSpace("1a") == "1a";
    assert LeadingDigits("1a") == 1;
    assert "1a"[..1] == "1";
    assert "1"[..0] == [] && "2"[..0] == [];
    assert SkipSpace("2") == "2";
    assert LeadingDigits("2") == 1;
    assert "2"[..1] == "2";
  }

  /** "4294967296" is all digits, yet (int)strtol gives 0, so as written it is not numeric. */
  lemma WideNumberNotNumeric()
    ensures IsNumeric("4294967296") && !IsNumericAsWritten("4294967296")
  {
    assert "4294967296"[..9] == "429496729";
    WideNumberValue("4294967296");
  }

  /** A ten-digit text that starts "429496729": 2^32 plus its last digit less six. */
  lemma WideNumberValue(s: string)
    requires |s| == 10 && s[..9] == "429496729" && IsDigit(s[9])
    ensures IsNumeric(s) && DecimalValue(s) == 4294967290 + DigitValue(s[9])
  {
    assert DecimalValue("4") == 4 by { assert "4"[..0] == []; }
    assert DecimalValue("42") == 42 by { assert "42"[..1] == "4"; }
    assert DecimalValue("429") == 429 by { assert "429"[..2] == "42"; }
    assert DecimalValue("4294") == 4294 by { assert "4294"[..3] == "429"; }
    assert DecimalValue("42949") == 42949 by { assert "42949"[..4] == "4294"; }
    assert DecimalValue("429496") == 429496 by { assert "429496"[..5] == "42949"; }
    assert DecimalValue("4294967") == 4294967 by { assert "4294967"[..6] == "429496"; }
    assert DecimalValue("42949672") == 42949672 by { assert "42949672"[..7] == "4294967"; }
    assert DecimalValue("429496729") == 429496729 by { assert "429496729"[..8] == "42949672"; }
    assert forall i | 0 <= i < 9 :: s[i] == s[..9][i];
  }

  /** "4294967297" reads as (int) 1, so as written it ranks below "2" instead of above it. */
  lemma WideNumberRanksLow(a: string, b: string)
    requires a == "4294967297" && b == "2"
    ensures IdCmpAsWritten(a, b) < 0 && IdCmp(a, b) == 1
  {
    assert a[..9] == "429496729";
    WideNumberValue(a);
    assert DecimalValue(b) == 2 by { assert b[..0] == []; }
    assert IsNumeric(b);
    NumbersAsWritten(a, b);
    assert Int32Of(DecimalValue(a)) == 1;
  }

  /**
   * Two runs of digits that do not start with '0', below LONG_MAX and not multiples of 2^32:
   * both are numeric as written, and they compare by their values cut to int.
   */
  lemma NumbersAsWritten(a: string, b: string)
    requires IsNumeric(a) && a[0] != '0' && DecimalValue(a) <= LongMax && DecimalValue(a) % U32Limit != 0
    requires IsNumeric(b) && b[0] != '0' && DecimalValue(b) <= LongMax && DecimalValue(b) % U32Limit != 0
    ensures IdCmpAsWritten(a, b) == Int32Of(DecimalValue(a)) - Int32Of(DecimalValue(b))
    ensures IdCmp(a, b) == NumCmp(a, b)
  {
  }

  /** "1a" counts as numeric, so it is ranked below "2" instead of above it. */
  lemma NumericPrefixCounts()
    ensures IsNumericAsWritten("1a") && !IsNumeric("1a")
    ensures IdCmpAsWritten("1a", "2") < 0 && IdCmp("1a", "2") == 1
  {
    StrtolDigitsThenLetter();
    assert !IsDigit("1a"[1]);
    assert IsNumeric("2");
  }

  // ---------------------------------------------------------------------------
  // pre_release_cmp and its use (src/semver.c:510-513, 593-631)
  // ---------------------------------------------------------------------------

  /**
   * The identifier loop as written, for at most fuel rounds: curr_identifier stays 0, so
   * the first pair is compared again and again; None when no round returns.
   */
  function PreLoopAsWritten(a: seq<string>, b: seq<string>, fuel: nat): (r: Option<int>)
    requires a != [] && b != []
    ensures r.Some? ==> r.value != 0 && r.value == IdCmpAsWritten(a[0], b[0])
  {
    if fuel == 0 then None
    else
      var r := IdCmpAsWritten(a[0], b[0]);
      if r != 0 then Some(r) else PreLoopAsWritten(a, b, fuel - 1)
  }

  /**
   * pre_release_cmp as written, within fuel rounds of its loop. When either version has no
   * identifiers it answers as intended; otherwise any answer it gives comes from the first pair.
   */
  function PreReleaseCmpAsWritten(a: seq<string>, b: seq<string>, fuel: nat): (r: Option<int>)
    ensures a == [] || b == [] ==> r == Some(PreCmp(a, b))
    ensures a != [] && b != [] && r.Some? ==> r.value == IdCmpAsWritten(a[0], b[0])
  {
    if a == [] && b == [] then Some(0)
    else if a != [] && b == [] then Some(-1)
    else if a == [] && b != [] then Some(1)
    else PreLoopAsWritten(a, b, fuel)
  }

  /** When the first identifiers tie, no number of rounds ever returns. */
  lemma {:induction false} PreLoopStalls(a: seq<string>, b: seq<string>, fuel: nat)
    requires a != [] && b != [] && IdCmpAsWritten(a[0], b[0]) == 0
    ensures PreLoopAsWritten(a, b, fuel) == None
  {
    if fuel > 0 {
      PreLoopStalls(a, b, fuel - 1);
    }
  }

  /** When the first identifiers differ, the first round returns their comparison. */
  lemma PreLoopFirstRound(a: seq<string>, b: seq<string>, fuel: nat)
    requires a != [] && b != [] && IdCmpAsWritten(a[0], b[0]) != 0
    ensures PreLoopAsWritten(a, b, fuel + 1) == Some(IdCmpAsWritten(a[0], b[0]))
  {
  }

  /** 1.0.0-alpha against 1.0.0-alpha.1 never finishes; it should answer -1. */
  lemma AlphaAgainstAlpha1(fuel: nat)
    ensures PreReleaseCmpAsWritten(["alpha"], ["alpha", "1"], fuel) == None
    ensures PreCmp(["alpha"], ["alpha", "1"]) == -1
  {
    assert IdCmpAsWritten("alpha", "alpha") == 0 by {
      assert LexCmp("alpha", "alpha") == 0;
    }
    PreLoopStalls(["alpha"], ["alpha", "1"], fuel);
    ListCmpPrefix(["alpha"], ["alpha", "1"]);
  }

  /** The status and the value written to *po_result. */
  datatype Outcome = Outcome(rc: int, result: int)

  /**
   * semver_compare as written, given the value *po_result held before the call: the
   * pre-release comparison is returned as the status and the result is left alone.
   */
  function CompareAsWritten(v: Version, w: Version, resultBefore: int, fuel: nat): (r: Option<Outcome>)
    ensures v.prIds == [] && w.prIds == [] ==> r.Some? && r.value.rc == 0
    ensures r.Some? && r.value.rc != 0 ==> r.value.result == resultBefore
    ensures r.Some? && ReleaseDiff(v, w) == 0 && (v.prIds != [] || w.prIds != []) ==>
              r.value.result == resultBefore
  {
    var d := ReleaseDiff(v, w);
    if d != 0 then Some(Outcome(0, d))
    else if v.prIds != [] || w.prIds != [] then
      match PreReleaseCmpAsWritten(v.prIds, w.prIds, fuel)
      case None => None
      case Some(r) => Some(Outcome(r, resultBefore))
    else Some(Outcome(0, 0))
  }

  /** Without pre-release identifiers and below 2^31 the call succeeds with the right sign. */
  lemma CompareAsWrittenReleases(v: Version, w: Version, resultBefore: int, fuel: nat)
    requires Below2To31(v) && Below2To31(w) && v.prIds == [] && w.prIds == []
    ensures CompareAsWritten(v, w, resultBefore, fuel).Some?
    ensures var o := CompareAsWritten(v, w, resultBefore, fuel).value;
            o.rc == 0 && Sign(o.result) == Cmp(v, w)
  {
    ReleaseDiffSign(v, w);
  }

  /** 1.0.0-alpha against 1.0.0: status -1 (a failure) and the result never written. */
  lemma PreReleaseAsStatus(resultBefore: int, fuel: nat)
    ensures var v := Version(1, 0, 0, ["alpha"], None);
            var w := Version(1, 0, 0, [], None);
            CompareAsWritten(v, w, resultBefore, fuel) == Some(Outcome(-1, resultBefore))
            && Cmp(v, w) == -1
  {
  }

  // ---------------------------------------------------------------------------
  // semver_get_pr_str: the reported length (src/semver.c:126-133, 142)
  // ---------------------------------------------------------------------------

  /**
   * *po_str_len as written: the dots are counted only for more than two identifiers, so the
   * length is that of the joined text except for two identifiers, where it is one short.
   */
  function PrStrLengthAsWritten(ids: seq<string>): (n: nat)
    ensures |ids| != 2 ==> n == |Join(ids, '.')|
    ensures |ids| == 2 ==> n + 1 == |Join(ids, '.')|
  {
    if ids != [] then JoinLength(ids, '.'); TotalLen(ids) + (if |ids| > 2 then |ids| - 1 else 0)
    else TotalLen(ids) + (if |ids| > 2 then |ids| - 1 else 0)
  }

  /**
   * With identifiers of at most 20 characters the length is right except for exactly two
   * identifiers, where it is one short (and the buffer one byte too small).
   */
  lemma PrStrLengthAsWrittenOff(ids: seq<string>)
    requires forall k | 0 <= k < |ids| :: |ids[k]| <= MaxIdLen
    ensures |ids| != 2 ==> PrStrLengthAsWritten(ids) == |Join(Clipped(ids), '.')|
    ensures |ids| == 2 ==> PrStrLengthAsWritten(ids) + 1 == |Join(Clipped(ids), '.')|
  {
    assert Clipped(ids) == ids;
    if ids != [] {
      JoinLength(ids, '.');
    }
  }

  /** "rc.1": reported as 3 characters long. */
  lemma PrStrLengthTwoIds()
    ensures PrStrLengthAsWritten(["rc", "1"]) == 3
    ensures Join(Clipped(["rc", "1"]), '.') == "rc.1"
  {
    PrStrLengthAsWrittenOff(["rc", "1"]);
    assert Clipped(["rc", "1"]) == ["rc", "1"];
  }

  // ---------------------------------------------------------------------------
  // semver_str_to_semver: locating the pre-release (src/semver.c:436-457)
  // ---------------------------------------------------------------------------

  /** strrchr: the index of the last c in s. */
  function LastIndex(s: string, c: char): (r: Option<nat>)
    ensures r.None? ==> c !in s
    ensures r.Some? ==> r.value < |s| && s[r.value] == c && c !in s[r.value + 1..]
  {
    if s == [] then None
    else if s[|s| - 1] == c then Some(|s| - 1)
    else
      var r := LastIndex(s[..|s| - 1], c);
      assert r.Some? ==> s[r.value + 1..] == s[..|s| - 1][r.value + 1..] + [s[|s| - 1]];
      r
  }

  /**
   * The identifiers as written: the text between the last '-' and the last '+', cut at
   * '.'. None where the code has no defined result: no '+' at all (end is NULL), the
   * last '-' after the last '+', or the last '-' right before the last '+' (a count of
   * zero identifiers, followed by a write into the zero-size array).
   */
  function PreIdsAsWritten(s: string): (r: Option<seq<string>>)
    ensures '+' !in s || '-' !in s ==> r.None?
    ensures r.Some? ==> Join(r.value, '.') != [] && '-' !in Join(r.value, '.')
  {
    match (LastIndex(s, '-'), LastIndex(s, '+'))
    case (Some(d), Some(p)) =>
      if d + 1 < p then
        var t := s[d + 1..p];
        assert forall i | 0 <= i < |t| :: t[i] == s[d + 1..][i];
        JoinSplit(t, '.');
        Some(Split(t, '.'))
      else None
    case _ => None
  }

  lemma {:induction false} LastIndexAt(s: string, c: char, i: nat)
    requires i < |s| && s[i] == c && c !in s[i + 1..]
    ensures LastIndex(s, c) == Some(i)
    decreases |s|
  {
    if i < |s| - 1 {
      assert s[|s| - 1] in s[i + 1..];
      assert s[..|s| - 1][i + 1..] == s[i + 1..|s| - 1];
      LastIndexAt(s[..|s| - 1], c, i);
    }
  }

  /**
   * With a non-empty pre-release, a build section and no '-' inside the identifiers, the last marks are the section
   * marks and the identifiers come out right.
   */
  lemma PreIdsAsWrittenAgrees(l: Layout)
    requires l.pre.Some? && l.pre.value != [] && l.build.Some?
    requires '-' !in l.pre.value && '+' !in l.pre.value
    requires '-' !in l.build.value && '+' !in l.build.value
    ensures PreIdsAsWritten(Compose(l)) == Some(Split(l.pre.value, '.'))
  {
    var s := Compose(l);
    var p, r, b := l.primary, l.pre.value, l.build.value;
    assert s == p + ['-'] + r + ['+'] + b;
    var d, q := |p|, |p| + 1 + |r|;
    assert s[d + 1..] == r + ['+'] + b;
    assert s[q + 1..] == b;
    LastIndexAt(s, '-', d);
    LastIndexAt(s, '+', q);
    assert s[d + 1..q] == r;
  }

  /** A layout whose text is a version string reads back as that layout. */
  lemma ReadsBack(l: Layout, s: string)
    requires WellFormed(l) && Compose(l) == s
    ensures WellFormed(Parse(s)) && Parse(s) == l
  {
    ParseCompose(l);
  }

  /** The identifiers read back from a version string are its pre-release text cut at '.'. */
  lemma ReadsBackIds(l: Layout, s: string)
    requires WellFormed(l) && Compose(l) == s && l.pre.Some?
    ensures WellFormed(Parse(s)) && Extract(s).prIds == Split(l.pre.value, '.')
  {
    ReadsBack(l, s);
  }

  lemma PrimaryOneZeroZero()
    ensures Primary("1.0.0")
  {
    var f := ["1", "0", "0"];
    OneZeroZeroJoin();
    forall k | 0 <= k < 3 ensures '.' !in f[k] && DigitRun(f[k]) {
      assert IsDigit(f[k][0]);
    }
    SplitJoin(f, '.');
  }

  lemma OneZeroZeroJoin()
    ensures Join(["1", "0", "0"], '.') == "1.0.0"
  {
    assert Join(["0", "0"], '.') == "0.0";
  }

  /** "1.0.0-a-1+b": the last '-' sits inside the identifier, which comes out as "1". */
  lemma HyphenInIdentifier()
    ensures PreIdsAsWritten("1.0.0-a-1+b") == Some(["1"])
    ensures WellFormed(Parse("1.0.0-a-1+b")) && Extract("1.0.0-a-1+b").prIds == ["a-1"]
  {
    HyphenMarks();
    HyphenReadsBack();
  }

  lemma HyphenMarks()
    ensures PreIdsAsWritten("1.0.0-a-1+b") == Some(["1"])
  {
    var s := "1.0.0-a-1+b";
    LastIndexAt(s, '-', 7);
    LastIndexAt(s, '+', 9);
    assert s[8..9] == "1";
    SplitNoSep("1", '.');
  }

  lemma HyphenReadsBack()
    ensures WellFormed(Parse("1.0.0-a-1+b")) && Extract("1.0.0-a-1+b").prIds == ["a-1"]
  {
    var l := Layout("1.0.0", Some("a-1"), Some("b"));
    HyphenLayout(l);
    ReadsBackIds(l, "1.0.0-a-1+b");
  }

  lemma HyphenLayout(l: Layout)
    requires l == Layout("1.0.0", Some("a-1"), Some("b"))
    ensures WellFormed(l) && Compose(l) == "1.0.0-a-1+b" && Split(l.pre.value, '.') == ["a-1"]
  {
    PrimaryOneZeroZero();
    var r, b := "a-1", "b";
    assert Identifier(r) && '.' !in r by {
      forall i | 0 <= i < 3 ensures IsIdChar(r[i]) && r[i] != '.' { }
    }
    assert Identifier(b) && '.' !in b by {
      assert IsIdChar(b[0]) && b[0] != '.';
    }
    SingleIdLayout("1.0.0", r, Some(b));
  }

  /** A primary version with one identifier in each present section is well formed. */
  lemma SingleIdLayout(p: string, r: string, b: Option<string>)
    requires Primary(p) && Identifier(r) && '.' !in r
    requires b.Some? ==> Identifier(b.value) && '.' !in b.value
    ensures WellFormed(Layout(p, Some(r), b)) && Split(r, '.') == [r]
  {
    SplitNoSep(r, '.');
    if b.Some? {
      SplitNoSep(b.value, '.');
    }
  }

  /**
   * "1.0.0-rc.1+build.1-b" (a valid string of the unit tests): the last '-' lies inside the
   * build, after the last '+', so the as-written extraction has no defined result.
   */
  lemma HyphenInBuild()
    ensures PreIdsAsWritten("1.0.0-rc.1+build.1-b") == None
    ensures WellFormed(Parse("1.0.0-rc.1+build.1-b")) && Extract("1.0.0-rc.1+build.1-b").prIds == ["rc", "1"]
  {
    HyphenInBuildMarks();
    HyphenInBuildReadsBack();
  }

  lemma HyphenInBuildMarks()
    ensures PreIdsAsWritten("1.0.0-rc.1+build.1-b") == None
  {
    var s := "1.0.0-rc.1+build.1-b";
    LastIndexAt(s, '-', 18);
    assert s[11..] == "build.1-b";
    LastIndexAt(s, '+', 10);
  }

  lemma HyphenInBuildReadsBack()
    ensures WellFormed(Parse("1.0.0-rc.1+build.1-b")) && Extract("1.0.0-rc.1+build.1-b").prIds == ["rc", "1"]
  {
    var l := Layout("1.0.0", Some("rc.1"), Some("build.1-b"));
    HyphenInBuildLayout(l);
    ReadsBackIds(l, "1.0.0-rc.1+build.1-b");
  }

  lemma HyphenInBuildLayout(l: Layout)
    requires l == Layout("1.0.0", Some("rc.1"), Some("build.1-b"))
    ensures WellFormed(l) && Compose(l) == "1.0.0-rc.1+build.1-b" && Split(l.pre.value, '.') == ["rc", "1"]
  {
    HyphenInBuildWellFormed(l);
    HyphenInBuildCompose(l);
  }

  lemma HyphenInBuildCompose(l: Layout)
    requires l == Layout("1.0.0", Some("rc.1"), Some("build.1-b"))
    ensures Compose(l) == "1.0.0-rc.1+build.1-b"
  {
  }

  lemma HyphenInBuildWellFormed(l: Layout)
    requires l == Layout("1.0.0", Some("rc.1"), Some("build.1-b"))
    ensures WellFormed(l) && Split(l.pre.value, '.') == ["rc", "1"]
  {
    PrimaryOneZeroZero();
    HyphenInBuildIds();
    TwoIdList("rc", "1");
    TwoIdList("build", "1-b");
  }

  lemma HyphenInBuildIds()
    ensures Identifier("rc") && Identifier("1") && Identifier("build") && Identifier("1-b")
    ensures "rc" + ['.'] + "1" == "rc.1" && "build" + ['.'] + "1-b" == "build.1-b"
  {
    forall i | 0 <= i < 2 ensures IsIdChar("rc"[i]) { }
    assert IsIdChar("1"[0]);
    forall i | 0 <= i < 5 ensures IsIdChar("build"[i]) { }
    forall i | 0 <= i < 3 ensures IsIdChar("1-b"[i]) { }
  }

  /** Two identifiers joined by '.' form a list that splits back into them. */
  lemma TwoIdList(a: string, b: string)
    requires Identifier(a) && Identifier(b)
    ensures DotList(a + ['.'] + b) && Split(a + ['.'] + b, '.') == [a, b]
  {
    assert Join([a, b], '.') == a + ['.'] + b;
    DotListOfIdentifiers([a, b]);
  }

  /** "1.0.0-alpha": with no '+' the end pointer is NULL. */
  lemma NoBuildSection()
    ensures PreIdsAsWritten("1.0.0-alpha") == None
    ensures WellFormed(Parse("1.0.0-alpha")) && Extract("1.0.0-alpha").prIds == ["alpha"]
  {
    NoPlusInAlpha();
    AlphaReadsBack();
  }

  lemma NoPlusInAlpha()
    ensures LastIndex("1.0.0-alpha", '+') == None
  {
    var s := "1.0.0-alpha";
    assert forall i | 0 <= i < |s| :: s[i] != '+';
  }

  lemma AlphaReadsBack()
    ensures WellFormed(Parse("1.0.0-alpha")) && Extract("1.0.0-alpha").prIds == ["alpha"]
  {
    var l := Layout("1.0.0", Some("alpha"), None);
    AlphaLayout(l);
    ReadsBackIds(l, "1.0.0-alpha");
  }

  lemma AlphaLayout(l: Layout)
    requires l == Layout("1.0.0", Some("alpha"), None)
    ensures WellFormed(l) && Compose(l) == "1.0.0-alpha" && Split(l.pre.value, '.') == ["alpha"]
  {
    PrimaryOneZeroZero();
    var r := "alpha";
    assert Identifier(r) && '.' !in r by {
      forall i | 0 <= i < 5 ensures IsIdChar(r[i]) && r[i] != '.' { }
    }
    SingleIdLayout("1.0.0", r, None);
  }



  // ---------------------------------------------------------------------------
  // semver_to_str: "%d.%d.%d" (src/semver.c:352-357)
  // ---------------------------------------------------------------------------

  /** "%d" of an int. */
  function SignedDecimal(x: int): string
  {
    if x < 0 then ['-'] + Decimal(-x) else Decimal(x)
  }

  /** The numbers as snprintf writes them: signed, cut to the buffer size less its NUL. */
  function PrimaryTextAsWritten(v: Version): string
  {
    Truncate(
      Join([SignedDecimal(ToCInt(v.major)), SignedDecimal(ToCInt(v.minor)), SignedDecimal(ToCInt(v.patch))], '.'),
      Capacity(v) - 1)
  }

  /** The text as written starts with a minus sign exactly when the major number is 2^31 or more. */
  function RenderAsWritten(v: Version): (t: string)
    ensures |t| > 0 && (t[0] == '-' <==> v.major >= 0x8000_0000)
  {
    PrimaryTextAsWrittenSign(v);
    Compose(LayoutOf(v).(primary := PrimaryTextAsWritten(v)))
  }

  lemma PrimaryTextAsWrittenSign(v: Version)
    ensures var p := PrimaryTextAsWritten(v); |p| > 0 && (p[0] == '-' <==> v.major >= 0x8000_0000)
  {
    var a := SignedDecimal(ToCInt(v.major));
    var j := Join([a, SignedDecimal(ToCInt(v.minor)), SignedDecimal(ToCInt(v.patch))], '.');
    assert |a| > 0 && j[0] == a[0];
    assert Capacity(v) - 1 > 0;
    assert a[0] == '-' <==> ToCInt(v.major) < 0 by {
      if ToCInt(v.major) >= 0 {
        assert IsDigit(Decimal(ToCInt(v.major))[0]);
      }
    }
  }

  /** Below 2^31 "%d" prints what "%u" would, so the text is the intended one. */
  lemma RenderAsWrittenAgrees(v: Version)
    requires Below2To31(v)
    ensures RenderAsWritten(v) == Render(v)
  {
    RenderFits(v);
    RenderSections(v);
  }

  /** 2147483648.0.0 is written "-2147483648.0.0", which the validator rejects. */
  lemma NegativeMajor()
    ensures var v := Version(0x8000_0000, 0, 0, [], None);
            RenderAsWritten(v)[0] == '-' && Scan(RenderAsWritten(v)) == Rejected
            && Render(v)[0] == '2'
  {
    var v := Version(0x8000_0000, 0, 0, [], None);
    NegativeMajorText(v);
    LeadingMinusRejected(RenderAsWritten(v));
    FirstDigitOf2To31();
    assert Render(v)[0] == PrimaryText(v)[0] == Decimal(v.major)[0];
  }

  lemma NegativeMajorText(v: Version)
    requires v == Version(0x8000_0000, 0, 0, [], None)
    ensures |RenderAsWritten(v)| > 0 && RenderAsWritten(v)[0] == '-'
  {
    assert ToCInt(v.major) == -0x8000_0000;
    var j := Join([SignedDecimal(ToCInt(v.major)), SignedDecimal(ToCInt(v.minor)), SignedDecimal(ToCInt(v.patch))], '.');
    assert j[0] == '-';
    assert Capacity(v) - 1 == 33;
  }

  /** No version string starts with '-'. */
  lemma LeadingMinusRejected(t: string)
    requires |t| > 0 && t[0] == '-'
    ensures Scan(t) == Rejected
  {
    assert t == [t[0]] + t[1..];
    assert Run(Start, [t[0]]) == Fail;
    ScanRejectsAfter([t[0]], t[1..]);
  }

  lemma DecimalHead(n: nat)
    requires n >= 10
    ensures Decimal(n)[0] == Decimal(n / 10)[0]
  {
  }

  lemma FirstDigitOf2To31()
    ensures Decimal(0x8000_0000)[0] == '2'
  {
    DecimalHead(2147483648);
    DecimalHead(214748364);
    DecimalHead(21474836);
    DecimalHead(2147483);
    DecimalHead(214748);
    DecimalHead(21474);
    DecimalHead(2147);
    DecimalHead(214);
    DecimalHead(21);
  }

  // ---------------------------------------------------------------------------
  // semver_set_pr_str and semver_set_bmd_str: no validity check (src/semver.c:231, 292)
  // ---------------------------------------------------------------------------

  lemma PrimaryZeros()
    ensures Primary("0.0.0")
  {
    var f := ["0", "0", "0"];
    assert Join(["0", "0"], '.') == "0.0";
    assert Join(f, '.') == "0.0.0";
    forall k | 0 <= k < 3 ensures '.' !in f[k] && DigitRun(f[k]) {
      assert IsDigit(f[k][0]);
    }
    SplitJoin(f, '.');
  }

  /** A valid primary version followed by one section that is not a list of identifiers is rejected. */
  lemma BadSectionRejected(l: Layout)
    requires Primary(l.primary)
    requires || (l.pre.Some? && l.build.None? && '+' !in l.pre.value && !DotList(l.pre.value))
             || (l.pre.None? && l.build.Some? && !DotList(l.build.value))
    ensures Scan(Compose(l)) == Rejected
  {
    PrimaryHasNoMark(l.primary);
    ScanCompose(l);
  }

  /** A single field that holds a character outside [0-9A-Za-z-] is not a list of identifiers. */
  lemma NotAList(t: string, i: nat)
    requires i < |t| && !IsIdChar(t[i]) && '.' !in t
    ensures !DotList(t)
  {
    SplitNoSep(t, '.');
    assert !AllIdChars(Split(t, '.')[0]);
  }

  lemma ZeroText(v: Version)
    requires v.major == 0 && v.minor == 0 && v.patch == 0
    ensures PrimaryText(v) == "0.0.0"
  {
    assert Decimal(0) == "0";
    assert Join(["0", "0"], '.') == "0.0";
  }

  lemma BadBuildText()
    ensures Render(Version(0, 0, 0, [], Some("!@#"))) == "0.0.0+!@#"
  {
    var v := Version(0, 0, 0, [], Some("!@#"));
    ZeroText(v);
    assert LayoutOf(v) == Layout("0.0.0", None, Some("!@#"));
  }

  lemma BadBuildScan()
    ensures Scan("0.0.0+!@#") == Rejected
  {
    var l := Layout("0.0.0", None, Some("!@#"));
    PrimaryZeros();
    NotAList("!@#", 0);
    BadSectionRejected(l);
    assert Compose(l) == "0.0.0+!@#";
  }

  lemma BadPreText()
    ensures Render(Version(0, 0, 0, ["a!b"], None)) == "0.0.0-a!b"
  {
    var v := Version(0, 0, 0, ["a!b"], None);
    ZeroText(v);
    assert LayoutOf(v) == Layout("0.0.0", Some("a!b"), None);
  }

  lemma BadPreScan()
    ensures Scan("0.0.0-a!b") == Rejected
  {
    var l := Layout("0.0.0", Some("a!b"), None);
    PrimaryZeros();
    NotAList("a!b", 1);
    BadSectionRejected(l);
    assert Compose(l) == "0.0.0-a!b";
  }

  /** strndup keeps all of "!@#". */
  lemma BadBuildStored()
    ensures Truncate(CString("!@#"), 3) == "!@#"
  {
    IndexOfAt("!@#", '\0', 3);
  }

  /** strtok and the dot count both see the single field "a!b". */
  lemma BadPreTokens()
    ensures CString("a!b") == "a!b"
    ensures Tokens("a!b") == ["a!b"] && NumIdentifiers("a!b") == 1
    ensures PrIdsFrom("a!b") == ["a!b"]
  {
    IndexOfAt("a!b", '\0', 3);
    IndexOfAt("a!b", '.', 3);
    SplitNoSep("a!b", '.');
    assert Clip("a!b") == "a!b";
  }

  /**
   * semver_set_bmd_str takes "!@#" without complaint, and semver_to_str then writes
   * "0.0.0+!@#", which the validator rejects.
   */
  method InvalidBuildStored() returns (rc: int, s: string)
    ensures rc == 0 && s == "0.0.0+!@#" && Scan(s) == Rejected
  {
    var v := new Semver();
    BadBuildStored();
    rc := v.SetBmdStr(Some("!@#"), 3);
    var status, len;
    status, s, len := v.ToStr();
    BadBuildText();
    BadBuildScan();
  }

  /**
   * semver_set_pr_str takes "a!b" without complaint, and semver_to_str then writes
   * "0.0.0-a!b", which the validator rejects.
   */
  method InvalidPreReleaseStored() returns (rc: int, s: string)
    ensures rc == 0 && s == "0.0.0-a!b" && Scan(s) == Rejected
  {
    var v := new Semver();
    BadPreTokens();
    assert "a!b"[..3] == "a!b";
    rc := v.SetPrStr(Some("a!b"), 3);
    var status, len;
    status, s, len := v.ToStr();
    BadPreText();
    BadPreScan();
  }
}
