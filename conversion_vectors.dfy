/**
 * The literal conversions and comparisons of the library's unit tests
 * (test/test/test_semver.c), and the precedence example of section 11 of SemVer 2.0.0,
 * as properties of the model.
 */
module ConversionVectors {
  import opened Wrappers
  import opened Text
  import opened Grammar
  import opened Scanner
  import opened Versions
  import opened Precedence
  import opened SemverApi

  /** 5.4.3 with pre-release rc.3.2.1 and build sha.5114f85, as test_semver_to_str sets it. */
  function Sample(): Version
  {
    Version(5, 4, 3, ["rc", "3", "2", "1"], Some("sha.5114f85"))
  }

  /** semver_to_str writes "5.4.3-rc.3.2.1+sha.5114f85" (test_semver_to_str). */
  lemma ToStrVector()
    ensures Render(Sample()) == "5.4.3-rc.3.2.1+sha.5114f85"
    ensures |Render(Sample())| + 1 <= Capacity(Sample())
  {
    SampleLayout();
    SampleCompose();
    RenderFits(Sample());
  }

  lemma SampleLayout()
    ensures LayoutOf(Sample()) == Layout("5.4.3", Some("rc.3.2.1"), Some("sha.5114f85"))
  {
    SamplePrimary();
    SamplePreText();
  }

  lemma SampleCompose()
    ensures Compose(Layout("5.4.3", Some("rc.3.2.1"), Some("sha.5114f85"))) == "5.4.3-rc.3.2.1+sha.5114f85"
  {
  }

  lemma SamplePrimary()
    ensures PrimaryText(Sample()) == "5.4.3"
  {
    assert Decimal(5) == "5" && Decimal(4) == "4" && Decimal(3) == "3";
    assert Join(["4", "3"], '.') == "4.3";
  }

  lemma SamplePreText()
    ensures Join(["rc", "3", "2", "1"], '.') == "rc.3.2.1"
  {
    assert Join(["2", "1"], '.') == "2.1";
    assert Join(["3", "2", "1"], '.') == "3.2.1";
  }

  lemma SampleBuildIds()
    ensures Identifier("sha") && Identifier("5114f85")
  {
    forall i | 0 <= i < 3 ensures IsIdChar("sha"[i]) { }
    forall i | 0 <= i < 7 ensures IsIdChar("5114f85"[i]) { }
  }

  lemma SampleBuild()
    ensures DotList("sha.5114f85")
  {
    var ids := ["sha", "5114f85"];
    SampleBuildIds();
    assert Join(ids, '.') == "sha.5114f85";
    DotListOfIdentifiers(ids);
  }

  lemma SamplePreIds()
    ensures forall k | 0 <= k < 4 :: Identifier(Sample().prIds[k])
  {
    var pre := Sample().prIds;
    forall k | 0 <= k < 4 ensures Identifier(pre[k]) {
      forall i | 0 <= i < |pre[k]| ensures IsIdChar(pre[k][i]) { }
    }
  }

  lemma SampleRepresentable()
    ensures Representable(Sample())
  {
    SampleBuild();
    SamplePreIds();
  }

  /**
   * semver_str_to_semver reads "5.4.3-rc.3.2.1+sha.5114f85" into the sample, which the
   * validator accepts and semver_to_str writes back unchanged (test_semver_str_to_semver).
   */
  lemma StrToSemverVector()
    ensures WellFormed(Parse("5.4.3-rc.3.2.1+sha.5114f85"))
    ensures Extract("5.4.3-rc.3.2.1+sha.5114f85") == Sample()
    ensures Render(Extract("5.4.3-rc.3.2.1+sha.5114f85")) == "5.4.3-rc.3.2.1+sha.5114f85"
    ensures Scan("5.4.3-rc.3.2.1+sha.5114f85") == Accepted(Flags(true, true, true))
  {
    ToStrVector();
    SampleRepresentable();
    ExtractRender(Sample());
    ToStrIsValid(Sample());
  }

  /** semver_set_pr_str("rc.3.2.1", sizeof) keeps the four identifiers. */
  lemma SetPrStrVector()
    ensures NumIdentifiers("rc.3.2.1\0") == |Tokens(CString("rc.3.2.1\0"))|
    ensures PrIdsFrom("rc.3.2.1\0") == ["rc", "3", "2", "1"]
  {
    SamplePreList();
    SetPrIdentifiers("rc.3.2.1", "rc.3.2.1\0");
  }

  lemma SamplePreList()
    ensures DotList("rc.3.2.1") && '\0' !in "rc.3.2.1"
    ensures Split("rc.3.2.1", '.') == ["rc", "3", "2", "1"]
  {
    SamplePreSplit();
    forall i | 0 <= i < 8 ensures "rc.3.2.1"[i] != '\0' { }
  }

  lemma SamplePreSplit()
    ensures DotList("rc.3.2.1")
    ensures Split("rc.3.2.1", '.') == ["rc", "3", "2", "1"]
  {
    var ids := ["rc", "3", "2", "1"];
    SamplePreIds();
    assert ids == Sample().prIds;
    SamplePreText();
    DotListOfIdentifiers(ids);
  }

  /** semver_set_pr_str("1.1.2", strlen) then semver_get_pr_str: "1.1.2" of length 5 (test_set_get_pr_str). */
  lemma SetGetPrStrVector()
    ensures NumIdentifiers("1.1.2") == |Tokens(CString("1.1.2"))|
    ensures PrIdsFrom("1.1.2") == ["1", "1", "2"]
    ensures Join(Clipped(PrIdsFrom("1.1.2")), '.') == "1.1.2"
    ensures TotalLen(["1", "1", "2"]) + 2 == 5
  {
    NumericList();
    SetPrIdentifiers("1.1.2", "1.1.2");
    assert Clipped(["1", "1", "2"]) == ["1", "1", "2"];
    JoinLength(["1", "1", "2"], '.');
  }

  lemma NumericList()
    ensures DotList("1.1.2") && '\0' !in "1.1.2"
    ensures Split("1.1.2", '.') == ["1", "1", "2"]
  {
    var ids := ["1", "1", "2"];
    assert Join(["1", "2"], '.') == "1.2";
    assert Join(ids, '.') == "1.1.2";
    forall k | 0 <= k < 3 ensures Identifier(ids[k]) {
      assert IsIdChar(ids[k][0]);
    }
    DotListOfIdentifiers(ids);
  }

  /**
   * The example of section 11 of SemVer 2.0.0: 1.0.0-alpha < 1.0.0-alpha.1 <
   * 1.0.0-alpha.beta < 1.0.0-beta < 1.0.0-beta.2 < 1.0.0-beta.11 < 1.0.0-rc.1 < 1.0.0.
   */
  lemma SpecificationExample()
    ensures Cmp(Version(1, 0, 0, ["alpha"], None), Version(1, 0, 0, ["alpha", "1"], None)) == -1
    ensures Cmp(Version(1, 0, 0, ["alpha", "1"], None), Version(1, 0, 0, ["alpha", "beta"], None)) == -1
    ensures Cmp(Version(1, 0, 0, ["alpha", "beta"], None), Version(1, 0, 0, ["beta"], None)) == -1
    ensures Cmp(Version(1, 0, 0, ["beta"], None), Version(1, 0, 0, ["beta", "2"], None)) == -1
    ensures Cmp(Version(1, 0, 0, ["beta", "2"], None), Version(1, 0, 0, ["beta", "11"], None)) == -1
    ensures Cmp(Version(1, 0, 0, ["beta", "11"], None), Version(1, 0, 0, ["rc", "1"], None)) == -1
    ensures Cmp(Version(1, 0, 0, ["rc", "1"], None), Version(1, 0, 0, [], None)) == -1
  {
    AlphaBeforeAlphaOne();
    AlphaOneBeforeAlphaBeta();
    AlphaBetaBeforeBeta();
    BetaBeforeBetaTwo();
    BetaTwoBeforeBetaEleven();
    BetaElevenBeforeRcOne();
    RcOneBeforeRelease();
  }

  /** A shorter list of equal identifiers ranks lower. */
  lemma AlphaBeforeAlphaOne()
    ensures Cmp(Version(1, 0, 0, ["alpha"], None), Version(1, 0, 0, ["alpha", "1"], None)) == -1
  {
    assert LexCmp("alpha", "alpha") == 0;
  }

  /** A numeric identifier ranks below an alphanumeric one. */
  lemma AlphaOneBeforeAlphaBeta()
    ensures Cmp(Version(1, 0, 0, ["alpha", "1"], None), Version(1, 0, 0, ["alpha", "beta"], None)) == -1
  {
    assert LexCmp("alpha", "alpha") == 0;
    assert IsNumeric("1") by { assert IsDigit("1"[0]); }
    assert !IsNumeric("beta") by { assert "beta"[0] == 'b'; }
  }

  /** Alphanumeric identifiers compare in ASCII order. */
  lemma AlphaBetaBeforeBeta()
    ensures Cmp(Version(1, 0, 0, ["alpha", "beta"], None), Version(1, 0, 0, ["beta"], None)) == -1
  {
    assert !IsNumeric("alpha") by { assert "alpha"[0] == 'a'; }
    assert !IsNumeric("beta") by { assert "beta"[0] == 'b'; }
    assert LexCmp("alpha", "beta") == -1 by { assert "alpha"[0] == 'a' && "beta"[0] == 'b'; }
  }

  lemma BetaBeforeBetaTwo()
    ensures Cmp(Version(1, 0, 0, ["beta"], None), Version(1, 0, 0, ["beta", "2"], None)) == -1
  {
    assert LexCmp("beta", "beta") == 0;
  }

  /** Numeric identifiers compare by value, not as text. */
  lemma BetaTwoBeforeBetaEleven()
    ensures Cmp(Version(1, 0, 0, ["beta", "2"], None), Version(1, 0, 0, ["beta", "11"], None)) == -1
  {
    assert LexCmp("beta", "beta") == 0;
    assert IsNumeric("2") by { assert IsDigit("2"[0]); }
    assert IsNumeric("11") by { assert IsDigit("11"[0]) && IsDigit("11"[1]); }
    assert DecimalValue("2") == 2 by { assert "2"[..0] == []; }
    assert DecimalValue("11") == 11 by { assert "11"[..1] == "1" && "1"[..0] == []; }
  }

  lemma BetaElevenBeforeRcOne()
    ensures Cmp(Version(1, 0, 0, ["beta", "11"], None), Version(1, 0, 0, ["rc", "1"], None)) == -1
  {
    assert !IsNumeric("beta") by { assert "beta"[0] == 'b'; }
    assert !IsNumeric("rc") by { assert "rc"[0] == 'r'; }
    assert LexCmp("beta", "rc") == -1 by { assert "beta"[0] == 'b' && "rc"[0] == 'r'; }
  }

  /** A pre-release ranks below the release. */
  lemma RcOneBeforeRelease()
    ensures Cmp(Version(1, 0, 0, ["rc", "1"], None), Version(1, 0, 0, [], None)) == -1
  {
  }

  /** Build meta-data does not count: 1.0.0+a and 1.0.0+b rank equal. */
  lemma BuildIgnoredVector()
    ensures Cmp(Version(1, 0, 0, [], Some("a")), Version(1, 0, 0, [], Some("b"))) == 0
  {
  }
}
