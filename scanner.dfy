/**
 * The re2c-generated scanner `semver_str_validator`: a deterministic automaton that reads
 * a NUL-terminated string one character per step. Each state below is one of its goto
 * labels; the reject labels yy3, yy4 and yy6 are the single state Fail, and the accept
 * labels yy16, yy21, yy29 and yy34 are the verdicts AtEnd gives on the NUL edge. The
 * dispatch labels yy19, yy26 and yy32 are folded into the states that enter them.
 *
 * The main theorem, ScanAgrees, says that the automaton accepts exactly the language of
 * the grammar module and reports the sections that the grammar finds.
 */
module Scanner {
  import opened Wrappers
  import opened Text
  import opened Grammar

  datatype State =
    | Start
    | Y2 | Y5 | Y7 | Y9 | Y11 | Y12
    | Y14 | Y25 | Y27 | Y38
    | Y15 | Y18 | Y20 | Y23
    | Y28 | Y31 | Y33 | Y36
    | Fail

  /** The three out-flags: has_primary, has_pre_release, has_bmd. */
  datatype Flags = Flags(primary: bool, pre: bool, bmd: bool)

  datatype Verdict = Rejected | Accepted(flags: Flags)

  /** One transition: the switch under each label, for a character that is not NUL. */
  function Step(q: State, c: char): State
  {
    match q
    case Start => if IsDigit(c) then Y2 else Fail
    case Y2 => if c == '.' then Y5 else if IsDigit(c) then Y7 else Fail
    case Y7 => if c == '.' then Y5 else if IsDigit(c) then Y7 else Fail
    case Y5 => if IsDigit(c) then Y9 else Fail
    case Y9 => if c == '.' then Y11 else if IsDigit(c) then Y9 else Fail
    case Y11 => if IsDigit(c) then Y12 else Fail
    case Y12 =>
      if c == '+' then Y15 else if c == '-' then Y14 else if IsDigit(c) then Y12 else Fail
    // pre-release: yy14 (after '-'), yy25/yy26 (first identifier), yy27 ('.'), yy38
    case Y14 => if IsIdChar(c) then Y25 else Fail
    case Y25 => if c == '+' then Y28 else if c == '.' then Y27 else if IsIdChar(c) then Y25 else Fail
    case Y27 => if IsIdChar(c) then Y38 else Fail
    case Y38 => if c == '+' then Y28 else if c == '.' then Y27 else if IsIdChar(c) then Y38 else Fail
    // build metadata without a pre-release: yy15, yy18/yy19, yy20, yy23
    case Y15 => if IsIdChar(c) then Y18 else Fail
    case Y18 => if c == '.' then Y20 else if IsIdChar(c) then Y18 else Fail
    case Y20 => if IsIdChar(c) then Y23 else Fail
    case Y23 => if c == '.' then Y20 else if IsIdChar(c) then Y23 else Fail
    // build metadata after a pre-release: yy28, yy31/yy32, yy33, yy36
    case Y28 => if IsIdChar(c) then Y31 else Fail
    case Y31 => if c == '.' then Y33 else if IsIdChar(c) then Y31 else Fail
    case Y33 => if IsIdChar(c) then Y36 else Fail
    case Y36 => if c == '.' then Y33 else if IsIdChar(c) then Y36 else Fail
    case Fail => Fail
  }

  /** The 0x00 edge: which accept label, if any, the state reaches at the end of the string. */
  function AtEnd(q: State): Verdict
  {
    match q
    case Y12 => Accepted(Flags(true, false, false))
    case Y18 | Y23 => Accepted(Flags(true, false, true))
    case Y25 | Y38 => Accepted(Flags(true, true, false))
    case Y31 | Y36 => Accepted(Flags(true, true, true))
    case _ => Rejected
  }

  /** The state reached from q after reading all of s. */
  function Run(q: State, s: string): State
    decreases |s|
  {
    if s == [] then q else Run(Step(q, s[0]), s[1..])
  }

  /** The scanner's answer for the contents s of a C string. */
  function Scan(s: string): Verdict
  {
    AtEnd(Run(Start, s))
  }

  /** What the grammar says the answer should be: reject, or accept with the sections found. */
  function Expected(s: string): Verdict
  {
    var l := Parse(s);
    if WellFormed(l) then Accepted(Flags(true, l.pre.Some?, l.build.Some?)) else Rejected
  }

  // ---------------------------------------------------------------------------
  // Runs
  // ---------------------------------------------------------------------------

  lemma {:induction false} RunAppend(q: State, a: string, b: string)
    ensures Run(q, a + b) == Run(Run(q, a), b)
    decreases |a|
  {
    if a == [] {
      assert a + b == b;
    } else {
      assert (a + b)[0] == a[0] && (a + b)[1..] == a[1..] + b;
      RunAppend(Step(q, a[0]), a[1..], b);
    }
  }

  lemma {:induction false} RunFail(s: string)
    ensures Run(Fail, s) == Fail
    decreases |s|
  {
    if s != [] {
      RunFail(s[1..]);
    }
  }

  /** Reading a mark c after s. */
  lemma RunMark(q: State, s: string, c: char, t: string)
    ensures Run(q, s + [c] + t) == Run(Step(Run(q, s), c), t)
  {
    RunAppend(q, s, [c] + t);
    assert s + [c] + t == s + ([c] + t);
    assert ([c] + t)[1..] == t;
  }

  // ---------------------------------------------------------------------------
  // The primary version: states Start, Y2, Y5, Y7, Y9, Y11, Y12
  // ---------------------------------------------------------------------------

  /** A state that waits for the first digit of a field. */
  predicate FieldOpen(q: State) { q == Start || q == Y5 || q == Y11 }

  /** A state that has read at least one digit of the current field. */
  predicate InField(q: State) { q == Y2 || q == Y7 || q == Y9 || q == Y12 }

  /** Number of primary fields not yet finished, the current one included. */
  function FieldsLeft(q: State): nat
  {
    if q == Start || q == Y2 || q == Y7 then 3 else if q == Y5 || q == Y9 then 2 else 1
  }

  /** Exactly n '.'-separated fields: the first all digits (maybe empty), the others digit runs. */
  predicate DigitTail(t: string, n: nat) {
    var parts := Split(t, '.');
    |parts| == n && AllDigits(parts[0]) && forall k | 1 <= k < |parts| :: DigitRun(parts[k])
  }

  /** What the rest of the primary version must be, read from state q. */
  predicate FieldsGoal(q: State, t: string) {
    if FieldOpen(q) then DigitFields(t, FieldsLeft(q)) else DigitTail(t, FieldsLeft(q))
  }

  lemma DigitFieldsCons(c: char, t: string, n: nat)
    ensures DigitFields([c] + t, n) <==> IsDigit(c) && DigitTail(t, n)
  {
    var parts := Split(t, '.');
    var all := Split([c] + t, '.');
    assert ([c] + t)[1..] == t;
    if c != '.' {
      assert all == [[c] + parts[0]] + parts[1..];
      assert forall k | 1 <= k < |all| :: all[k] == parts[k];
      if IsDigit(c) && DigitTail(t, n) {
        assert DigitRun(all[0]) by {
          assert forall i | 1 <= i < |all[0]| :: all[0][i] == parts[0][i - 1];
        }
      }
      if DigitFields([c] + t, n) {
        assert all[0][0] == c;
        assert forall i | 0 <= i < |parts[0]| :: parts[0][i] == all[0][i + 1];
      }
    } else {
      assert all[0] == [];
    }
  }

  lemma DigitTailCons(c: char, t: string, n: nat)
    ensures DigitTail([c] + t, n) <==>
      (c == '.' && n > 1 && DigitFields(t, n - 1)) || (c != '.' && IsDigit(c) && DigitTail(t, n))
  {
    var parts := Split(t, '.');
    var all := Split([c] + t, '.');
    assert ([c] + t)[1..] == t;
    if c == '.' {
      assert all == [[]] + parts;
      assert all[0] == [] && AllDigits(all[0]);
      assert forall k | 1 <= k < |all| :: all[k] == parts[k - 1];
      if DigitTail([c] + t, n) {
        assert |parts| == n - 1 && n > 1;
        forall k | 0 <= k < |parts| ensures DigitRun(parts[k]) {
          assert parts[k] == all[k + 1];
        }
      }
    } else {
      assert all == [[c] + parts[0]] + parts[1..];
      assert forall k | 1 <= k < |all| :: all[k] == parts[k];
      if IsDigit(c) && DigitTail(t, n) {
        assert forall i | 1 <= i < |all[0]| :: all[0][i] == parts[0][i - 1];
      }
      if DigitTail([c] + t, n) {
        assert all[0][0] == c;
        assert forall i | 0 <= i < |parts[0]| :: parts[0][i] == all[0][i + 1];
      }
    }
  }

  /** One step inside the primary version, for a character that is not a section mark. */
  lemma FieldsStep(q: State, c: char, u: string)
    requires FieldOpen(q) || InField(q)
    requires c != '-' && c != '+'
    ensures var q' := Step(q, c); q' == Fail || FieldOpen(q') || InField(q')
    ensures FieldsGoal(q, [c] + u) <==> Step(q, c) != Fail && FieldsGoal(Step(q, c), u)
  {
    if FieldOpen(q) {
      FieldsStepOpen(q, c, u);
    } else {
      FieldsStepIn(q, c, u);
    }
  }

  /** The first digit of a field. */
  lemma FieldsStepOpen(q: State, c: char, u: string)
    requires FieldOpen(q)
    requires c != '-' && c != '+'
    ensures var q' := Step(q, c); q' == Fail || FieldOpen(q') || InField(q')
    ensures DigitFields([c] + u, FieldsLeft(q)) <==> Step(q, c) != Fail && FieldsGoal(Step(q, c), u)
  {
    DigitFieldsCons(c, u, FieldsLeft(q));
  }

  /** A character after the first digit of a field: another digit, or '.'. */
  lemma FieldsStepIn(q: State, c: char, u: string)
    requires InField(q)
    requires c != '-' && c != '+'
    ensures var q' := Step(q, c); q' == Fail || FieldOpen(q') || InField(q')
    ensures DigitTail([c] + u, FieldsLeft(q)) <==> Step(q, c) != Fail && FieldsGoal(Step(q, c), u)
  {
    DigitTailCons(c, u, FieldsLeft(q));
  }

  /**
   * From a primary state, a text without marks leads to Y12 (the primary version is
   * complete) exactly when it supplies the remaining fields; otherwise the scanner stays in
   * the primary states or fails.
   */
  lemma {:induction false} PrimaryRun(q: State, t: string)
    requires FieldOpen(q) || InField(q)
    requires '-' !in t && '+' !in t
    ensures var r := Run(q, t); r == Fail || FieldOpen(r) || InField(r)
    ensures Run(q, t) == Y12 <==> FieldsGoal(q, t)
    decreases |t|
  {
    if t == [] {
      var parts := Split(t, '.');
      assert parts == [[]] && |parts| == 1 && !DigitRun(parts[0]) && AllDigits(parts[0]);
    } else {
      var c, u := t[0], t[1..];
      assert t == [c] + u;
      FieldsStep(q, c, u);
      if Step(q, c) == Fail {
        RunFail(u);
      } else {
        PrimaryRun(Step(q, c), u);
      }
    }
  }

  // ---------------------------------------------------------------------------
  // The dotted lists: pre-release (Y14, Y25, Y27, Y38), build alone (Y15, Y18, Y20, Y23)
  // and build after a pre-release (Y28, Y31, Y33, Y36)
  // ---------------------------------------------------------------------------

  datatype List = PreList | BuildList | PreBuildList

  /** A state that waits for the first character of an identifier (after '-', '+' or '.'). */
  predicate IdOpen(q: State, m: List) {
    match m
    case PreList => q == Y14 || q == Y27
    case BuildList => q == Y15 || q == Y20
    case PreBuildList => q == Y28 || q == Y33
  }

  /** A state that has read at least one character of the current identifier. */
  predicate InId(q: State, m: List) {
    match m
    case PreList => q == Y25 || q == Y38
    case BuildList => q == Y18 || q == Y23
    case PreBuildList => q == Y31 || q == Y36
  }

  /** '.'-separated fields: the first all identifier characters (maybe empty), the rest identifiers. */
  predicate TailList(t: string) {
    var parts := Split(t, '.');
    AllIdChars(parts[0]) && forall k | 1 <= k < |parts| :: Identifier(parts[k])
  }

  /** What the rest of the list must be, read from state q. */
  predicate ListGoal(m: List, q: State, t: string) {
    if IdOpen(q, m) then DotList(t) else TailList(t)
  }

  lemma DotListCons(c: char, t: string)
    ensures DotList([c] + t) <==> IsIdChar(c) && TailList(t)
  {
    var parts := Split(t, '.');
    var all := Split([c] + t, '.');
    assert ([c] + t)[1..] == t;
    if c != '.' {
      assert all == [[c] + parts[0]] + parts[1..];
      assert forall k | 1 <= k < |all| :: all[k] == parts[k];
      if IsIdChar(c) && TailList(t) {
        assert Identifier(all[0]) by {
          assert forall i | 1 <= i < |all[0]| :: all[0][i] == parts[0][i - 1];
        }
      }
      if DotList([c] + t) {
        assert all[0][0] == c;
        assert forall i | 0 <= i < |parts[0]| :: parts[0][i] == all[0][i + 1];
      }
    } else {
      assert all[0] == [];
    }
  }

  lemma TailListCons(c: char, t: string)
    ensures TailList([c] + t) <==>
      (c == '.' && DotList(t)) || (c != '.' && IsIdChar(c) && TailList(t))
  {
    var parts := Split(t, '.');
    var all := Split([c] + t, '.');
    assert ([c] + t)[1..] == t;
    if c == '.' {
      assert all == [[]] + parts;
      assert all[0] == [] && AllIdChars(all[0]);
      assert forall k | 1 <= k < |all| :: all[k] == parts[k - 1];
      if TailList([c] + t) {
        forall k | 0 <= k < |parts| ensures Identifier(parts[k]) {
          assert parts[k] == all[k + 1];
        }
      }
    } else {
      assert all == [[c] + parts[0]] + parts[1..];
      assert forall k | 1 <= k < |all| :: all[k] == parts[k];
      if IsIdChar(c) && TailList(t) {
        assert forall i | 1 <= i < |all[0]| :: all[0][i] == parts[0][i - 1];
      }
      if TailList([c] + t) {
        assert all[0][0] == c;
        assert forall i | 0 <= i < |parts[0]| :: parts[0][i] == all[0][i + 1];
      }
    }
  }

  /** One step inside a list; '+' may only occur in the lists of the build section. */
  lemma ListStep(m: List, q: State, c: char, u: string)
    requires IdOpen(q, m) || InId(q, m)
    requires m == PreList ==> c != '+'
    ensures var q' := Step(q, c); q' == Fail || IdOpen(q', m) || InId(q', m)
    ensures ListGoal(m, q, [c] + u) <==> Step(q, c) != Fail && ListGoal(m, Step(q, c), u)
  {
    if IdOpen(q, m) {
      ListStepOpen(m, q, c, u);
    } else {
      ListStepIn(m, q, c, u);
    }
  }

  /** The first character of an identifier. */
  lemma ListStepOpen(m: List, q: State, c: char, u: string)
    requires IdOpen(q, m)
    requires m == PreList ==> c != '+'
    ensures var q' := Step(q, c); q' == Fail || IdOpen(q', m) || InId(q', m)
    ensures DotList([c] + u) <==> Step(q, c) != Fail && ListGoal(m, Step(q, c), u)
  {
    DotListCons(c, u);
  }

  /** A character after the first of an identifier: another one, or '.'. */
  lemma ListStepIn(m: List, q: State, c: char, u: string)
    requires InId(q, m)
    requires m == PreList ==> c != '+'
    ensures var q' := Step(q, c); q' == Fail || IdOpen(q', m) || InId(q', m)
    ensures TailList([c] + u) <==> Step(q, c) != Fail && ListGoal(m, Step(q, c), u)
  {
    TailListCons(c, u);
  }

  /**
   * Inside a list, a text (without '+' in the pre-release list, where '+' starts the build)
   * leaves the scanner inside an identifier exactly when it completes a dotted list;
   * otherwise the scanner waits for an identifier of the same list or fails.
   */
  lemma {:induction false} ListRun(m: List, q: State, t: string)
    requires IdOpen(q, m) || InId(q, m)
    requires m == PreList ==> '+' !in t
    ensures var r := Run(q, t); r == Fail || IdOpen(r, m) || InId(r, m)
    ensures InId(Run(q, t), m) <==> ListGoal(m, q, t)
    decreases |t|
  {
    if t == [] {
      var parts := Split(t, '.');
      assert parts == [[]] && !Identifier(parts[0]) && AllIdChars(parts[0]);
    } else {
      var c, u := t[0], t[1..];
      assert t == [c] + u;
      ListStep(m, q, c, u);
      if Step(q, c) == Fail {
        RunFail(u);
      } else {
        ListRun(m, Step(q, c), u);
      }
    }
  }

  /** After '+' with no pre-release (yy15), the build section decides the verdict. */
  lemma BuildListVerdict(t: string)
    ensures AtEnd(Run(Y15, t)) == if DotList(t) then Accepted(Flags(true, false, true)) else Rejected
  {
    ListRun(BuildList, Y15, t);
    AtEndList(BuildList, Run(Y15, t));
  }

  /** After '+' that ends a pre-release (yy28), the build section decides the verdict. */
  lemma PreBuildListVerdict(t: string)
    ensures AtEnd(Run(Y28, t)) == if DotList(t) then Accepted(Flags(true, true, true)) else Rejected
  {
    ListRun(PreBuildList, Y28, t);
    AtEndList(PreBuildList, Run(Y28, t));
  }

  /** After '-' (yy14), a pre-release with no '+' decides the verdict at the end. */
  lemma PreListVerdict(t: string)
    requires '+' !in t
    ensures AtEnd(Run(Y14, t)) == if DotList(t) then Accepted(Flags(true, true, false)) else Rejected
  {
    ListRun(PreList, Y14, t);
    AtEndList(PreList, Run(Y14, t));
  }

  /** After '-' (yy14), a pre-release followed by '+' moves to yy28 exactly when it is a dotted list. */
  lemma PreListThenPlus(t: string)
    requires '+' !in t
    ensures Step(Run(Y14, t), '+') == if DotList(t) then Y28 else Fail
  {
    ListRun(PreList, Y14, t);
  }

  // ---------------------------------------------------------------------------
  // The scanner agrees with the grammar
  // ---------------------------------------------------------------------------

  lemma NoMarkBefore(s: string, i: nat)
    requires i == SectionStart(s)
    ensures '-' !in s[..i] && '+' !in s[..i]
  {
    assert forall j | 0 <= j < i :: s[..i][j] == s[j];
  }

  /** The flags reported at the end of each list. */
  function ListFlags(m: List): Flags
  {
    match m
    case PreList => Flags(true, true, false)
    case BuildList => Flags(true, false, true)
    case PreBuildList => Flags(true, true, true)
  }

  lemma AtEndPrimary(r: State)
    requires r == Fail || FieldOpen(r) || InField(r)
    ensures AtEnd(r) == if r == Y12 then Accepted(Flags(true, false, false)) else Rejected
  {
  }

  lemma AtEndList(m: List, r: State)
    requires r == Fail || IdOpen(r, m) || InId(r, m)
    ensures AtEnd(r) == if InId(r, m) then Accepted(ListFlags(m)) else Rejected
  {
  }

  lemma ParseNoMark(s: string)
    requires SectionStart(s) == |s|
    ensures Parse(s) == Layout(s, None, None)
    ensures '-' !in s && '+' !in s
  {
    NoMarkBefore(s, |s|);
    assert s[..|s|] == s;
  }

  /** Primary version only: no '-' and no '+' in s. */
  lemma ScanPrimaryOnly(s: string)
    requires SectionStart(s) == |s|
    ensures Scan(s) == Expected(s)
  {
    ParseNoMark(s);
    PrimaryRun(Start, s);
    AtEndPrimary(Run(Start, s));
  }

  lemma ParseBuildOnly(s: string, i: nat)
    requires i == SectionStart(s) && i < |s| && s[i] == '+'
    ensures Parse(s) == Layout(s[..i], None, Some(s[i + 1..]))
    ensures '-' !in s[..i] && '+' !in s[..i]
    ensures s == s[..i] + ['+'] + s[i + 1..]
  {
    CutAt(s, i);
    NoMarkBefore(s, i);
  }

  /** The primary part ends in Y12 exactly when it is MAJOR.MINOR.PATCH; the mark after it moves on. */
  lemma PrimaryThenMark(p: string, c: char)
    requires '-' !in p && '+' !in p && IsMark(c)
    ensures Run(Start, p) == Y12 <==> Primary(p)
    ensures Run(Start, p) == Y12 ==> Step(Run(Start, p), c) == if c == '+' then Y15 else Y14
    ensures Run(Start, p) != Y12 ==> Step(Run(Start, p), c) == Fail
  {
    PrimaryRun(Start, p);
  }

  /** The first mark is '+': a build section directly after the primary version. */
  lemma ScanBuildOnly(s: string, i: nat)
    requires i == SectionStart(s) && i < |s| && s[i] == '+'
    ensures Scan(s) == Expected(s)
  {
    var p, b := s[..i], s[i + 1..];
    ParseBuildOnly(s, i);
    ScanMarked(p, '+', b);
    BuildListVerdict(b);
  }

  /** The first mark is '-': a pre-release section, maybe followed by a build section. */
  lemma ScanPre(s: string, i: nat)
    requires i == SectionStart(s) && i < |s| && s[i] == '-'
    ensures Scan(s) == Expected(s)
  {
    ScanAfterMinus(s, i);
    ExpectedAfterMinus(s, i);
    ScanPreList(s[i + 1..]);
  }

  /** The verdict the grammar gives to the text after the '-' that ends the primary part. */
  function PreVerdict(rest: string): Verdict
  {
    var j := IndexOf(rest, '+');
    if DotList(rest[..j]) && (j < |rest| ==> DotList(rest[j + 1..]))
    then Accepted(Flags(true, true, j < |rest|))
    else Rejected
  }

  lemma ScanAfterMinus(s: string, i: nat)
    requires i == SectionStart(s) && i < |s| && s[i] == '-'
    ensures Scan(s) == if Primary(s[..i]) then AtEnd(Run(Y14, s[i + 1..])) else Rejected
  {
    NoMarkBefore(s, i);
    CutAt(s, i);
    ScanMarked(s[..i], '-', s[i + 1..]);
  }

  /** A text cut at its first mark: the primary part must reach Y12, then the mark's section decides. */
  lemma ScanMarked(p: string, c: char, t: string)
    requires '-' !in p && '+' !in p && IsMark(c)
    ensures Scan(p + [c] + t) == if Primary(p) then AtEnd(Run(if c == '+' then Y15 else Y14, t)) else Rejected
  {
    PrimaryThenMark(p, c);
    RunMark(Start, p, c, t);
    if !Primary(p) {
      RunFail(t);
    }
  }

  lemma ExpectedAfterMinus(s: string, i: nat)
    requires i == SectionStart(s) && i < |s| && s[i] == '-'
    ensures Expected(s) == if Primary(s[..i]) then PreVerdict(s[i + 1..]) else Rejected
  {
    ParsePre(s, i);
  }

  /** From Y14 (just after '-'), the rest of the string is read as the grammar says. */
  lemma ScanPreList(rest: string)
    ensures AtEnd(Run(Y14, rest)) == PreVerdict(rest)
  {
    var j := IndexOf(rest, '+');
    if j == |rest| {
      assert rest[..j] == rest;
      PreListVerdict(rest);
    } else {
      ScanPreBuild(rest, j);
    }
  }

  /** A '+' at index j of the pre-release part starts the build section. */
  lemma ScanPreBuild(rest: string, j: nat)
    requires j == IndexOf(rest, '+') && j < |rest|
    ensures AtEnd(Run(Y14, rest)) ==
      if DotList(rest[..j]) && DotList(rest[j + 1..]) then Accepted(Flags(true, true, true)) else Rejected
  {
    CutAt(rest, j);
    ScanPreThenBuild(rest[..j], rest[j + 1..]);
  }

  /** After '-': a pre-release list, '+', then a build list. */
  lemma ScanPreThenBuild(r: string, b: string)
    requires '+' !in r
    ensures AtEnd(Run(Y14, r + ['+'] + b)) ==
      if DotList(r) && DotList(b) then Accepted(Flags(true, true, true)) else Rejected
  {
    RunMark(Y14, r, '+', b);
    PreListThenPlus(r);
    if DotList(r) {
      PreBuildListVerdict(b);
    } else {
      RunFail(b);
    }
  }

  /** The scanner accepts exactly the grammar's versions and reports the sections present. */
  lemma ScanAgrees(s: string)
    ensures Scan(s) == Expected(s)
  {
    var i := SectionStart(s);
    if i == |s| {
      ScanPrimaryOnly(s);
    } else if s[i] == '+' {
      ScanBuildOnly(s, i);
    } else {
      ScanPre(s, i);
    }
  }

  /** Acceptance is membership in the language of the grammar. */
  lemma ScanAcceptsIff(s: string)
    ensures Scan(s).Accepted? <==> IsSemVer(s)
    ensures Scan(s).Accepted? ==> Scan(s).flags.primary
  {
    ScanAgrees(s);
    IsSemVerIff(s);
  }

  /**
   * The text of a separable layout is accepted, with flags for exactly the sections it has,
   * when the layout is well formed, and rejected otherwise.
   */
  lemma ScanCompose(l: Layout)
    requires Separable(l)
    ensures Scan(Compose(l)) ==
      if WellFormed(l) then Accepted(Flags(true, l.pre.Some?, l.build.Some?)) else Rejected
  {
    ScanAgrees(Compose(l));
    ParseSeparable(l);
  }

  /** Once the scanner has failed on a prefix, the string is rejected whatever follows. */
  lemma ScanRejectsAfter(p: string, t: string)
    requires Run(Start, p) == Fail
    ensures Scan(p + t) == Rejected
  {
    RunAppend(Start, p, t);
    RunFail(t);
  }

  // ---------------------------------------------------------------------------
  // The C entry points
  // ---------------------------------------------------------------------------

  /**
   * semver_str_validator: scans the C string input (None is a NULL pointer) up to its NUL
   * terminator and returns 0 on accept, 1 on reject and -1 for NULL. The out-flags are
   * written only on accept. The length argument is not modelled: the scanner never reads it.
   */
  method Validate(input: Option<string>, flags: Flags) returns (rc: int, flagsOut: Flags)
    ensures input.None? ==> rc == -1
    ensures input.Some? ==> (rc == 0 || rc == 1)
    ensures input.Some? ==> (rc == 0 <==> IsSemVer(CString(input.value)))
    ensures rc == 0 ==>
      var l := Parse(CString(input.value));
      flagsOut == Flags(true, l.pre.Some?, l.build.Some?)
    ensures rc != 0 ==> flagsOut == flags
  {
    flagsOut := flags;
    if input.None? {
      return -1, flagsOut;
    }
    var buf := input.value;
    var q := Start;
    var i := 0;
    while i < |buf| && buf[i] != '\0' && q != Fail
      invariant 0 <= i <= |buf|
      invariant '\0' !in buf[..i]
      invariant q == Run(Start, buf[..i])
    {
      RunAppend(Start, buf[..i], [buf[i]]);
      assert buf[..i + 1] == buf[..i] + [buf[i]];
      q := Step(q, buf[i]);
      i := i + 1;
    }
    ghost var s := CString(buf);
    if q == Fail {
      ghost var n := IndexOf(buf, '\0');
      assert i <= n;
      RunAppend(Start, buf[..i], s[i..]);
      assert s == buf[..i] + s[i..];
      RunFail(s[i..]);
    } else {
      IndexOfAt(buf, '\0', i);
    }
    ScanAgrees(s);
    IsSemVerIff(s);
    var v := AtEnd(q);
    if v.Accepted? {
      rc, flagsOut := 0, v.flags;
    } else {
      rc := 1;
    }
  }

  /** semver_str_is_valid: 0 for a valid version string, 1 for NULL or an invalid one. */
  method StrIsValid(input: Option<string>) returns (rc: int)
    ensures rc == 0 || rc == 1
    ensures rc == 0 <==> input.Some? && IsSemVer(CString(input.value))
  {
    if input.None? {
      return 1;
    }
    var flags;
    rc, flags := Validate(input, Flags(false, false, false));
  }
}
