/**
 * The language the validator recognises, stated as a grammar rather than as a scanner:
 *
 *   version     = primary [ "-" dotted-list ] [ "+" dotted-list ]
 *   primary     = [0-9]+ "." [0-9]+ "." [0-9]+
 *   dotted-list = identifier ( "." identifier )*
 *   identifier  = [0-9A-Za-z-]+
 *
 * A candidate string is cut into its three sections by a Layout; the string is a version
 * when some well-formed layout composes to it. Unlike the text of SemVer 2.0.0, no
 * leading-zero rule is imposed on digit runs: the library's scanner does not impose one.
 */
module Grammar {
  import opened Wrappers
  import opened Text

  /** One field of the primary version: a non-empty run of decimal digits. */
  predicate DigitRun(t: string) { |t| > 0 && AllDigits(t) }

  /** One pre-release or build identifier: [0-9A-Za-z-]+. */
  predicate Identifier(t: string) { |t| > 0 && AllIdChars(t) }

  /** identifier ("." identifier)*: every '.'-separated field is an identifier. */
  predicate DotList(t: string) {
    var parts := Split(t, '.');
    forall k | 0 <= k < |parts| :: Identifier(parts[k])
  }

  /** Exactly n '.'-separated fields, each a digit run. */
  predicate DigitFields(t: string, n: nat) {
    var parts := Split(t, '.');
    |parts| == n && forall k | 0 <= k < |parts| :: DigitRun(parts[k])
  }

  /** MAJOR.MINOR.PATCH */
  predicate Primary(t: string) { DigitFields(t, 3) }

  /** A candidate division of a version string into its sections (text only, marks omitted). */
  datatype Layout = Layout(primary: string, pre: Option<string>, build: Option<string>)

  function Section(mark: char, part: Option<string>): string
  {
    match part
    case None => []
    case Some(p) => [mark] + p
  }

  /** The text a layout stands for: primary, then "-" pre-release, then "+" build. */
  function Compose(l: Layout): string
  {
    l.primary + Section('-', l.pre) + Section('+', l.build)
  }

  predicate WellFormed(l: Layout) {
    && Primary(l.primary)
    && (l.pre.Some? ==> DotList(l.pre.value))
    && (l.build.Some? ==> DotList(l.build.value))
  }

  /** s is a version string: some well-formed layout composes to exactly s. */
  ghost predicate IsSemVer(s: string) {
    exists l: Layout :: WellFormed(l) && Compose(l) == s
  }

  predicate IsMark(c: char) { c == '-' || c == '+' }

  /** Index of the first '-' or '+' in s, or |s|: where the primary version ends. */
  function SectionStart(s: string): (i: nat)
    ensures i <= |s|
    ensures forall j | 0 <= j < i :: !IsMark(s[j])
    ensures i < |s| ==> IsMark(s[i])
  {
    if s == [] || IsMark(s[0]) then 0 else 1 + SectionStart(s[1..])
  }

  /**
   * The layout of s read left to right: the primary version runs to the first '-' or '+';
   * after a '-' the pre-release runs to the next '+'; the build is the rest.
   */
  function Parse(s: string): Layout
  {
    var i := SectionStart(s);
    if i == |s| then
      Layout(s, None, None)
    else if s[i] == '+' then
      Layout(s[..i], None, Some(s[i + 1..]))
    else
      var rest := s[i + 1..];
      var j := IndexOf(rest, '+');
      Layout(s[..i], Some(rest[..j]), if j == |rest| then None else Some(rest[j + 1..]))
  }

  /** Parse only cuts: the sections of any string compose back to it. */
  lemma ComposeParse(s: string)
    ensures Compose(Parse(s)) == s
  {
    var i := SectionStart(s);
    if i < |s| {
      if s[i] == '+' {
        ComposeParseBuild(s, i);
      } else {
        ComposeParsePre(s, i);
      }
    }
  }

  lemma ComposeParseBuild(s: string, i: nat)
    requires i == SectionStart(s) && i < |s| && s[i] == '+'
    ensures Compose(Parse(s)) == s
  {
    var p, b := s[..i], s[i + 1..];
    assert Parse(s) == Layout(p, None, Some(b));
    CutAt(s, i);
    ComposeBuildOnly(p, b);
  }

  lemma ComposeBuildOnly(p: string, b: string)
    ensures Compose(Layout(p, None, Some(b))) == p + ['+'] + b
  {
    assert Section('-', None) == [];
    assert Section('+', Some(b)) == ['+'] + b;
  }

  lemma ComposeParsePre(s: string, i: nat)
    requires i == SectionStart(s) && i < |s| && s[i] == '-'
    ensures Compose(Parse(s)) == s
  {
    ParsePre(s, i);
    CutAt(s, i);
    var rest := s[i + 1..];
    var j := IndexOf(rest, '+');
    if j < |rest| {
      ComposeThree(s[..i], rest, j);
    } else {
      ComposeTwo(s[..i], rest, j);
    }
  }

  lemma CutAt(s: string, i: nat)
    requires i < |s|
    ensures s == s[..i] + [s[i]] + s[i + 1..]
  {
  }

  lemma ParsePre(s: string, i: nat)
    requires i == SectionStart(s) && i < |s| && s[i] == '-'
    ensures var rest := s[i + 1..]; var j := IndexOf(rest, '+');
      Parse(s) == Layout(s[..i], Some(rest[..j]), if j == |rest| then None else Some(rest[j + 1..]))
  {
  }

  lemma ComposeTwo(p: string, rest: string, j: nat)
    requires j == |rest|
    ensures Compose(Layout(p, Some(rest[..j]), None)) == p + ['-'] + rest
  {
    assert rest[..j] == rest;
  }

  lemma ComposeThree(p: string, rest: string, j: nat)
    requires j < |rest| && rest[j] == '+'
    ensures Compose(Layout(p, Some(rest[..j]), Some(rest[j + 1..]))) == p + ['-'] + rest
  {
    var r, b := rest[..j], rest[j + 1..];
    assert rest == r + ['+'] + b;
    calc {
      Compose(Layout(p, Some(r), Some(b)));
      p + (['-'] + r) + (['+'] + b);
      p + ['-'] + (r + ['+'] + b);
    }
  }

  /** The section start is the one index before which there is no mark and at which one is. */
  lemma SectionStartAt(s: string, k: nat)
    requires k <= |s|
    requires forall j | 0 <= j < k :: !IsMark(s[j])
    requires k < |s| ==> IsMark(s[k])
    ensures SectionStart(s) == k
  {
  }

  // ---------------------------------------------------------------------------
  // The layout of a version string is unique
  // ---------------------------------------------------------------------------

  /** Digits and dots only: a primary version holds no '-', '+' or NUL. */
  lemma PrimaryHasNoMark(t: string)
    requires Primary(t)
    ensures '-' !in t && '+' !in t && '\0' !in t
  {
    NotInSplit(t, '.', '-');
    NotInSplit(t, '.', '+');
    NotInSplit(t, '.', '\0');
  }

  /** A dotted list holds no '+' and no NUL. */
  lemma DotListHasNoPlus(t: string)
    requires DotList(t)
    ensures '+' !in t && '\0' !in t
  {
    NotInSplit(t, '.', '+');
    NotInSplit(t, '.', '\0');
  }

  /** The primary version of a composed text ends where its first section mark is. */
  lemma SectionStartCompose(l: Layout)
    requires '-' !in l.primary && '+' !in l.primary
    ensures SectionStart(Compose(l)) == |l.primary|
    ensures Compose(l)[..|l.primary|] == l.primary
    ensures Compose(l)[|l.primary|..] == Section('-', l.pre) + Section('+', l.build)
  {
    var s := Compose(l);
    var p := l.primary;
    var tail := Section('-', l.pre) + Section('+', l.build);
    assert s == p + tail;
    assert forall j | 0 <= j < |p| :: s[j] == p[j];
    assert |tail| > 0 ==> IsMark(s[|p|]);
    SectionStartAt(s, |p|);
  }

  /**
   * A layout whose text can be cut back into it: no mark in the primary version and no '+'
   * in the pre-release (the build may hold anything).
   */
  predicate Separable(l: Layout) {
    '-' !in l.primary && '+' !in l.primary && (l.pre.Some? ==> '+' !in l.pre.value)
  }

  /** Reading a well-formed layout's text back gives the same layout. */
  lemma ParseCompose(l: Layout)
    requires WellFormed(l)
    ensures Parse(Compose(l)) == l
  {
    PrimaryHasNoMark(l.primary);
    if l.pre.Some? {
      DotListHasNoPlus(l.pre.value);
    }
    ParseSeparable(l);
  }

  /** Parse cuts the text of a separable layout back into that layout. */
  lemma ParseSeparable(l: Layout)
    requires Separable(l)
    ensures Parse(Compose(l)) == l
  {
    if l.pre.Some? {
      ParseSeparablePre(l);
    } else if l.build.Some? {
      ParseSeparableBuild(l);
    } else {
      SectionStartCompose(l);
    }
  }

  lemma ParseSeparablePre(l: Layout)
    requires Separable(l) && l.pre.Some?
    ensures Parse(Compose(l)) == l
  {
    var s := Compose(l);
    var p, r := l.primary, l.pre.value;
    SectionStartCompose(l);
    var rest := r + Section('+', l.build);
    assert s[|p|..] == ['-'] + rest;
    assert s[|p|] == '-' && s[|p| + 1..] == rest;
    ParseCutPre(s, p, r, l.build);
  }

  /** A text cut at '-' after its primary part, whose pre-release holds no '+', parses into those sections. */
  lemma ParseCutPre(s: string, p: string, r: string, build: Option<string>)
    requires '+' !in r
    requires SectionStart(s) == |p| < |s| && s[..|p|] == p && s[|p|] == '-'
    requires s[|p| + 1..] == r + Section('+', build)
    ensures Parse(s) == Layout(p, Some(r), build)
  {
    ParsePre(s, |p|);
    PreThenBuildCut(r, build);
  }

  /** The text after '-': the pre-release text, then (perhaps) '+' and the build text. */
  lemma PreThenBuildCut(r: string, build: Option<string>)
    requires '+' !in r
    ensures var rest := r + Section('+', build);
            && IndexOf(rest, '+') == |r| && rest[..|r|] == r
            && (IndexOf(rest, '+') == |rest| <==> build.None?)
            && (build.Some? ==> rest[|r| + 1..] == build.value)
  {
    var rest := r + Section('+', build);
    assert rest[..|r|] == r;
    if build.Some? {
      assert rest[|r|] == '+';
      assert rest[|r| + 1..] == build.value;
    }
    IndexOfAt(rest, '+', |r|);
  }

  lemma ParseSeparableBuild(l: Layout)
    requires Separable(l) && l.pre.None? && l.build.Some?
    ensures Parse(Compose(l)) == l
  {
    var s := Compose(l);
    var p := l.primary;
    SectionStartCompose(l);
    assert s == p + ['+'] + l.build.value;
    assert s[|p| + 1..] == l.build.value;
  }

  /** A string is a version exactly when its own left-to-right layout is well formed. */
  lemma IsSemVerIff(s: string)
    ensures IsSemVer(s) <==> WellFormed(Parse(s))
  {
    ComposeParse(s);
    if IsSemVer(s) {
      var l :| WellFormed(l) && Compose(l) == s;
      ParseCompose(l);
    }
  }
}
