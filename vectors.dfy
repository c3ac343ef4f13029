/**
 * The literal version strings of the library's unit tests (test/test/test_semver.c), as
 * properties of the scanner. Long strings are written as their identifier lists, joined
 * with '.' and composed with '-' and '+' exactly as the string reads.
 */
module Vectors {
  import opened Wrappers
  import opened Text
  import opened Grammar
  import opened Scanner

  /** The string primary[0].primary[1].primary[2][-pre joined by '.'][+build joined by '.']. */
  function VersionText(primary: seq<string>, pre: seq<string>, build: seq<string>): string
  {
    Compose(Layout(
      Join(primary, '.'),
      if pre == [] then None else Some(Join(pre, '.')),
      if build == [] then None else Some(Join(build, '.'))))
  }

  /** Identifiers joined with '.' form a dotted list. */
  lemma DotListJoin(ids: seq<string>)
    requires |ids| >= 1
    requires forall k | 0 <= k < |ids| :: Identifier(ids[k])
    ensures DotList(Join(ids, '.'))
  {
    forall k | 0 <= k < |ids| ensures '.' !in ids[k] {
    }
    SplitJoin(ids, '.');
  }

  /** Three digit runs joined with '.' form a primary version. */
  lemma PrimaryJoin(fields: seq<string>)
    requires |fields| == 3
    requires forall k | 0 <= k < 3 :: DigitRun(fields[k])
    ensures Primary(Join(fields, '.'))
  {
    forall k | 0 <= k < 3 ensures '.' !in fields[k] {
    }
    SplitJoin(fields, '.');
  }

  /** Digit runs and identifiers put together are accepted, with the matching flags. */
  lemma AcceptsVersionText(primary: seq<string>, pre: seq<string>, build: seq<string>)
    requires |primary| == 3 && forall k | 0 <= k < 3 :: DigitRun(primary[k])
    requires forall k | 0 <= k < |pre| :: Identifier(pre[k])
    requires forall k | 0 <= k < |build| :: Identifier(build[k])
    ensures Scan(VersionText(primary, pre, build)) == Accepted(Flags(true, pre != [], build != []))
  {
    PrimaryJoin(primary);
    PrimaryHasNoMark(Join(primary, '.'));
    if pre != [] {
      DotListJoin(pre);
      DotListHasNoPlus(Join(pre, '.'));
    }
    if build != [] {
      DotListJoin(build);
    }
    ScanCompose(Layout(
      Join(primary, '.'),
      if pre == [] then None else Some(Join(pre, '.')),
      if build == [] then None else Some(Join(build, '.'))));
  }

  /** A build list with a field that is not an identifier is rejected. */
  lemma RejectsBadBuild(primary: seq<string>, build: seq<string>, k: nat)
    requires |primary| == 3 && forall i | 0 <= i < 3 :: DigitRun(primary[i])
    requires forall i, j | 0 <= i < |build| && 0 <= j < |build[i]| :: build[i][j] != '.'
    requires k < |build| && !Identifier(build[k])
    ensures Scan(VersionText(primary, [], build)) == Rejected
  {
    assert forall i | 0 <= i < |build| :: '.' !in build[i];
    PrimaryJoin(primary);
    PrimaryHasNoMark(Join(primary, '.'));
    SplitJoin(build, '.');
    ScanCompose(Layout(Join(primary, '.'), None, Some(Join(build, '.'))));
  }

  /** Accepted (g_valid_semver_strings): "1.0.8". */
  lemma ValidString1()
    ensures Scan(VersionText(["1", "0", "8"], [], [])) == Accepted(Flags(true, false, false))
  {
    AcceptsVersionText(["1", "0", "8"], [], []);
  }

  /** Accepted (g_valid_semver_strings): "1.23.7". */
  lemma ValidString2()
    ensures Scan(VersionText(["1", "23", "7"], [], [])) == Accepted(Flags(true, false, false))
  {
    AcceptsVersionText(["1", "23", "7"], [], []);
  }

  /** Accepted (g_valid_semver_strings): "2.0.0-alpha.123.abc". */
  lemma ValidString3()
    ensures Scan(VersionText(["2", "0", "0"], ["alpha", "123", "abc"], [])) == Accepted(Flags(true, true, false))
  {
    AcceptsVersionText(["2", "0", "0"], ["alpha", "123", "abc"], []);
  }

  /** Accepted (g_valid_semver_strings): "2.0.0-alpha.123.abc+build.acebfde1284". */
  lemma ValidString4()
    ensures Scan(VersionText(["2", "0", "0"], ["alpha", "123", "abc"], ["build", "acebfde1284"])) == Accepted(Flags(true, true, true))
  {
    AcceptsVersionText(["2", "0", "0"], ["alpha", "123", "abc"], ["build", "acebfde1284"]);
  }

  /** Accepted (g_valid_semver_strings): "1.0.0-alpha", listed twice (entries 5 and 9). */
  lemma ValidString5()
    ensures Scan(VersionText(["1", "0", "0"], ["alpha"], [])) == Accepted(Flags(true, true, false))
  {
    AcceptsVersionText(["1", "0", "0"], ["alpha"], []);
  }

  /** Accepted (g_valid_semver_strings): "1.0.0-alpha.1", listed twice (entries 6 and 10). */
  lemma ValidString6()
    ensures Scan(VersionText(["1", "0", "0"], ["alpha", "1"], [])) == Accepted(Flags(true, true, false))
  {
    AcceptsVersionText(["1", "0", "0"], ["alpha", "1"], []);
  }

  /** Accepted (g_valid_semver_strings): "1.0.0-0.3.7". */
  lemma ValidString7()
    ensures Scan(VersionText(["1", "0", "0"], ["0", "3", "7"], [])) == Accepted(Flags(true, true, false))
  {
    AcceptsVersionText(["1", "0", "0"], ["0", "3", "7"], []);
  }

  /** Accepted (g_valid_semver_strings): "1.0.0-x.7.z.92". */
  lemma ValidString8()
    ensures Scan(VersionText(["1", "0", "0"], ["x", "7", "z", "92"], [])) == Accepted(Flags(true, true, false))
  {
    AcceptsVersionText(["1", "0", "0"], ["x", "7", "z", "92"], []);
  }

  /** Accepted (g_valid_semver_strings): "1.0.0-beta.2". */
  lemma ValidString11()
    ensures Scan(VersionText(["1", "0", "0"], ["beta", "2"], [])) == Accepted(Flags(true, true, false))
  {
    AcceptsVersionText(["1", "0", "0"], ["beta", "2"], []);
  }

  /** Accepted (g_valid_semver_strings): "1.0.0-beta.11". */
  lemma ValidString12()
    ensures Scan(VersionText(["1", "0", "0"], ["beta", "11"], [])) == Accepted(Flags(true, true, false))
  {
    AcceptsVersionText(["1", "0", "0"], ["beta", "11"], []);
  }

  /** Accepted (g_valid_semver_strings): "1.0.0-rc.1". */
  lemma ValidString13()
    ensures Scan(VersionText(["1", "0", "0"], ["rc", "1"], [])) == Accepted(Flags(true, true, false))
  {
    AcceptsVersionText(["1", "0", "0"], ["rc", "1"], []);
  }

  /** Accepted (g_valid_semver_strings): "1.0.0-rc.1+build.1". */
  lemma ValidString14()
    ensures Scan(VersionText(["1", "0", "0"], ["rc", "1"], ["build", "1"])) == Accepted(Flags(true, true, true))
  {
    AcceptsVersionText(["1", "0", "0"], ["rc", "1"], ["build", "1"]);
  }

  /** Accepted (g_valid_semver_strings): "1.0.0-rc.1+build.1-b". */
  lemma ValidString15()
    ensures Scan(VersionText(["1", "0", "0"], ["rc", "1"], ["build", "1-b"])) == Accepted(Flags(true, true, true))
  {
    AcceptsVersionText(["1", "0", "0"], ["rc", "1"], ["build", "1-b"]);
  }

  /** Accepted (g_valid_semver_strings): "1.0.0". */
  lemma ValidString16()
    ensures Scan(VersionText(["1", "0", "0"], [], [])) == Accepted(Flags(true, false, false))
  {
    AcceptsVersionText(["1", "0", "0"], [], []);
  }

  /** Accepted (g_valid_semver_strings): "1.0.0+0.3.7". */
  lemma ValidString17()
    ensures Scan(VersionText(["1", "0", "0"], [], ["0", "3", "7"])) == Accepted(Flags(true, false, true))
  {
    AcceptsVersionText(["1", "0", "0"], [], ["0", "3", "7"]);
  }

  /** Accepted (g_valid_semver_strings): "1.3.7+build". */
  lemma ValidString18()
    ensures Scan(VersionText(["1", "3", "7"], [], ["build"])) == Accepted(Flags(true, false, true))
  {
    AcceptsVersionText(["1", "3", "7"], [], ["build"]);
  }

  /** Accepted (g_valid_semver_strings): "1.3.7+build.2.b8f12d7". */
  lemma ValidString19()
    ensures Scan(VersionText(["1", "3", "7"], [], ["build", "2", "b8f12d7"])) == Accepted(Flags(true, false, true))
  {
    AcceptsVersionText(["1", "3", "7"], [], ["build", "2", "b8f12d7"]);
  }

  /** Accepted (g_valid_semver_strings): "1.3.7+build.11.e0f985a". */
  lemma ValidString20()
    ensures Scan(VersionText(["1", "3", "7"], [], ["build", "11", "e0f985a"])) == Accepted(Flags(true, false, true))
  {
    AcceptsVersionText(["1", "3", "7"], [], ["build", "11", "e0f985a"]);
  }

  /** Accepted (g_valid_semver_strings): "1.3.7+build.11.e0f9-85a". */
  lemma ValidString21()
    ensures Scan(VersionText(["1", "3", "7"], [], ["build", "11", "e0f9-85a"])) == Accepted(Flags(true, false, true))
  {
    AcceptsVersionText(["1", "3", "7"], [], ["build", "11", "e0f9-85a"]);
  }

  /** Accepted (g_valid_semver_strings): "1.0.0+build-acbe". */
  lemma ValidString22()
    ensures Scan(VersionText(["1", "0", "0"], [], ["build-acbe"])) == Accepted(Flags(true, false, true))
  {
    AcceptsVersionText(["1", "0", "0"], [], ["build-acbe"]);
  }

  /** Accepted (g_valid_semver_strings): "2.0.0+build.acebfde1284-alpha.123.abc". */
  lemma ValidString23()
    ensures Scan(VersionText(["2", "0", "0"], [], ["build", "acebfde1284-alpha", "123", "abc"])) == Accepted(Flags(true, false, true))
  {
    AcceptsVersionText(["2", "0", "0"], [], ["build", "acebfde1284-alpha", "123", "abc"]);
  }

  /** Rejected (g_invalid_semver_strings): "a.b.c", "1", "1.0.0b", "1.0". */
  lemma InvalidShortStrings()
    ensures Scan("a.b.c") == Rejected
    ensures Scan("1") == Rejected
    ensures Scan("1.0.0b") == Rejected
    ensures Scan("1.0") == Rejected
  {
  }

  /** Rejected (g_invalid_semver_strings): "1.0.0+b[\\]^_`uild", whose build holds '[' and '\\'. */
  lemma InvalidBracketString()
    ensures Scan(VersionText(["1", "0", "0"], [], ["b[\\]^_`uild"])) == Rejected
  {
    assert !IsIdChar("b[\\]^_`uild"[1]);
    RejectsBadBuild(["1", "0", "0"], ["b[\\]^_`uild"], 0);
  }

  /** Rejected (g_invalid_semver_strings): "1.0.0+build-acbe.", a trailing '.' (an empty identifier). */
  lemma InvalidTrailingDotString()
    ensures Scan(VersionText(["1", "0", "0"], [], ["build-acbe", ""])) == Rejected
  {
    RejectsBadBuild(["1", "0", "0"], ["build-acbe", ""], 1);
  }

  /** Rejected (g_invalid_semver_strings): "1.0.0+build.!@#$%". */
  lemma InvalidPunctuationString()
    ensures Scan(VersionText(["1", "0", "0"], [], ["build", "!@#$%"])) == Rejected
  {
    assert !IsIdChar("!@#$%"[0]);
    RejectsBadBuild(["1", "0", "0"], ["build", "!@#$%"], 1);
  }

  /** No leading-zero rule: the scanner accepts "01.0.0" and "1.0.0-01", unlike SemVer 2.0.0. */
  lemma LeadingZerosAccepted()
    ensures Scan("01.0.0") == Accepted(Flags(true, false, false))
    ensures Scan("1.0.0-01") == Accepted(Flags(true, true, false))
  {
  }
}
