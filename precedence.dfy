/**
 * Precedence of versions as semver_compare and pre_release_cmp intend it (the ordering of
 * section 11 of SemVer 2.0.0, quoted in the comments of pre_release_cmp): the numbers
 * first, then a release ranks above any pre-release, then the pre-release identifiers left
 * to right (numeric below non-numeric, numbers by value, the rest in ASCII order), and a
 * longer list above a shorter one that it extends. Build meta-data is ignored. Every
 * comparison answers -1, 0 or 1, as the header promises.
 */
module Precedence {
  import opened Wrappers
  import opened Text
  import opened Versions

  function Sign(x: int): (r: int)
    ensures r == -1 || r == 0 || r == 1
    ensures (r < 0 <==> x < 0) && (r == 0 <==> x == 0)
  {
    if x < 0 then -1 else if x == 0 then 0 else 1
  }

  /** is_numeric as its comment means it: an identifier of digits only. */
  predicate IsNumeric(id: string) { |id| > 0 && AllDigits(id) }

  /** cmp_numeric: the identifiers' values compared. */
  function NumCmp(a: string, b: string): (r: int)
    ensures r == -1 || r == 0 || r == 1
    ensures r < 0 <==> DecimalValue(a) < DecimalValue(b)
    ensures r == 0 <==> DecimalValue(a) == DecimalValue(b)
  {
    Sign(DecimalValue(a) - DecimalValue(b))
  }

  /** cmp_lexical (strcmp): the first differing character decides; a proper prefix is smaller. */
  function LexCmp(a: string, b: string): (r: int)
    ensures r == -1 || r == 0 || r == 1
    ensures r == 0 <==> a == b
  {
    if a == [] then (if b == [] then 0 else -1)
    else if b == [] then 1
    else if a[0] < b[0] then -1
    else if a[0] > b[0] then 1
    else
      var r := LexCmp(a[1..], b[1..]);
      assert r == 0 ==> a == [a[0]] + a[1..] == [b[0]] + b[1..] == b;
      r
  }

  /** Identifiers the comparison cannot tell apart: equal, or numbers of equal value ("1", "01"). */
  predicate SameRank(a: string, b: string) {
    a == b || (IsNumeric(a) && IsNumeric(b) && DecimalValue(a) == DecimalValue(b))
  }

  /** One pair of pre-release identifiers, as the body of pre_release_cmp's loop compares it. */
  function IdCmp(a: string, b: string): (r: int)
    ensures r == -1 || r == 0 || r == 1
    ensures r == 0 <==> SameRank(a, b)
    ensures !IsNumeric(a) && IsNumeric(b) ==> r == 1
  {
    if !IsNumeric(a) && IsNumeric(b) then 1
    else if IsNumeric(a) && !IsNumeric(b) then -1
    else if !IsNumeric(a) && !IsNumeric(b) then LexCmp(a, b)
    else NumCmp(a, b)
  }

  /**
   * Two identifier lists compared left to right: the first position that differs decides,
   * and when one list runs out first it ranks lower.
   */
  function ListCmp(a: seq<string>, b: seq<string>): (r: int)
    ensures r == -1 || r == 0 || r == 1
    ensures r == 0 <==> |a| == |b| && forall k | 0 <= k < |a| :: SameRank(a[k], b[k])
  {
    if a == [] then (if b == [] then 0 else -1)
    else if b == [] then 1
    else
      var c := IdCmp(a[0], b[0]);
      if c != 0 then c
      else
        var r := ListCmp(a[1..], b[1..]);
        assert (|a| == |b| && forall k | 0 <= k < |a| :: SameRank(a[k], b[k])) <==>
               (|a| == |b| && forall k | 0 <= k < |a| - 1 :: SameRank(a[1..][k], b[1..][k])) by {
          if |a| == |b| && forall k | 0 <= k < |a| - 1 :: SameRank(a[1..][k], b[1..][k]) {
            forall k | 1 <= k < |a| ensures SameRank(a[k], b[k]) {
              assert a[k] == a[1..][k - 1] && b[k] == b[1..][k - 1];
            }
          }
        }
        r
  }

  /** pre_release_cmp: no identifiers (a release) ranks above any pre-release. */
  function PreCmp(a: seq<string>, b: seq<string>): (r: int)
  {
    if a == [] && b == [] then 0
    else if b == [] then -1
    else if a == [] then 1
    else ListCmp(a, b)
  }

  /** The major, minor and patch numbers; the first that differs decides. */
  function ReleaseCmp(v: Version, w: Version): (r: int)
    ensures r == -1 || r == 0 || r == 1
    ensures r == 0 <==> v.major == w.major && v.minor == w.minor && v.patch == w.patch
  {
    if v.major != w.major then Sign(v.major - w.major)
    else if v.minor != w.minor then Sign(v.minor - w.minor)
    else Sign(v.patch - w.patch)
  }

  /** semver_compare: -1 when v precedes w, 1 when w precedes v, 0 when they rank equal. */
  function Cmp(v: Version, w: Version): (r: int)
    ensures r == -1 || r == 0 || r == 1
  {
    var c := ReleaseCmp(v, w);
    if c != 0 then c else PreCmp(v.prIds, w.prIds)
  }

  // ---------------------------------------------------------------------------
  // Properties of the order
  // ---------------------------------------------------------------------------

  lemma {:induction false} LexCmpAntisym(a: string, b: string)
    ensures LexCmp(a, b) == -LexCmp(b, a)
    decreases |a|
  {
    if a != [] && b != [] && a[0] == b[0] {
      LexCmpAntisym(a[1..], b[1..]);
    }
  }

  lemma {:induction false} LexCmpTrans(a: string, b: string, c: string)
    requires LexCmp(a, b) <= 0 && LexCmp(b, c) <= 0
    ensures LexCmp(a, c) <= 0
    decreases |a|
  {
    if a != [] && b != [] && c != [] && a[0] == b[0] == c[0] {
      LexCmpTrans(a[1..], b[1..], c[1..]);
    }
  }

  lemma IdCmpAntisym(a: string, b: string)
    ensures IdCmp(a, b) == -IdCmp(b, a)
  {
    LexCmpAntisym(a, b);
  }

  lemma IdCmpTrans(a: string, b: string, c: string)
    requires IdCmp(a, b) <= 0 && IdCmp(b, c) <= 0
    ensures IdCmp(a, c) <= 0
  {
    if !IsNumeric(a) && !IsNumeric(b) && !IsNumeric(c) {
      LexCmpTrans(a, b, c);
    }
  }

  /** Identifiers that rank the same compare the same way with every other identifier. */
  lemma IdCmpCongruent(a: string, b: string, c: string)
    requires SameRank(a, b)
    ensures IdCmp(a, c) == IdCmp(b, c)
  {
  }

  lemma {:induction false} ListCmpAntisym(a: seq<string>, b: seq<string>)
    ensures ListCmp(a, b) == -ListCmp(b, a)
    decreases |a|
  {
    if a != [] && b != [] {
      IdCmpAntisym(a[0], b[0]);
      ListCmpAntisym(a[1..], b[1..]);
    }
  }

  lemma {:induction false} ListCmpTrans(a: seq<string>, b: seq<string>, c: seq<string>)
    requires ListCmp(a, b) <= 0 && ListCmp(b, c) <= 0
    ensures ListCmp(a, c) <= 0
    decreases |a|
  {
    if a != [] && b != [] && c != [] {
      IdCmpTrans(a[0], b[0], c[0]);
      if IdCmp(a[0], c[0]) == 0 {
        IdCmpCongruent(a[0], c[0], b[0]);
        IdCmpAntisym(c[0], b[0]);
        ListCmpTrans(a[1..], b[1..], c[1..]);
      }
    }
  }

  /** Comparing the other way round gives the opposite answer. */
  lemma CmpAntisym(v: Version, w: Version)
    ensures Cmp(v, w) == -Cmp(w, v)
  {
    ListCmpAntisym(v.prIds, w.prIds);
  }

  /** Precedence is transitive: v at or below w at or below u puts v at or below u. */
  lemma CmpTrans(v: Version, w: Version, u: Version)
    requires Cmp(v, w) <= 0 && Cmp(w, u) <= 0
    ensures Cmp(v, u) <= 0
  {
    if ReleaseCmp(v, w) == 0 && ReleaseCmp(w, u) == 0 {
      if v.prIds != [] && w.prIds != [] && u.prIds != [] {
        ListCmpTrans(v.prIds, w.prIds, u.prIds);
      }
    }
  }

  /** Every version ranks equal to itself. */
  lemma CmpRefl(v: Version)
    ensures Cmp(v, v) == 0
  {
    CmpAntisym(v, v);
  }

  /** Two versions rank equal exactly when their numbers agree and their identifiers pair up. */
  lemma CmpZero(v: Version, w: Version)
    ensures Cmp(v, w) == 0 <==>
      && v.major == w.major && v.minor == w.minor && v.patch == w.patch
      && |v.prIds| == |w.prIds|
      && forall k | 0 <= k < |v.prIds| :: SameRank(v.prIds[k], w.prIds[k])
  {
  }

  /** Build meta-data never changes the outcome. */
  lemma CmpIgnoresBuild(v: Version, w: Version, b1: Option<string>, b2: Option<string>)
    ensures Cmp(v.(bmd := b1), w.(bmd := b2)) == Cmp(v, w)
  {
  }

  /** With equal numbers, a pre-release ranks below the release. */
  lemma PreReleaseBelowRelease(v: Version, w: Version)
    requires v.major == w.major && v.minor == w.minor && v.patch == w.patch
    requires v.prIds != [] && w.prIds == []
    ensures Cmp(v, w) == -1 && Cmp(w, v) == 1
  {
  }

  /** The first position at which the identifiers differ decides. */
  lemma {:induction false} ListCmpFirstDifference(a: seq<string>, b: seq<string>, k: nat)
    requires k < |a| && k < |b|
    requires forall j | 0 <= j < k :: IdCmp(a[j], b[j]) == 0
    requires IdCmp(a[k], b[k]) != 0
    ensures ListCmp(a, b) == IdCmp(a[k], b[k])
    decreases k
  {
    if k > 0 {
      assert IdCmp(a[0], b[0]) == 0;
      ListCmpFirstDifference(a[1..], b[1..], k - 1);
    }
  }

  /** When every shared position ties, the longer list ranks higher. */
  lemma {:induction false} ListCmpPrefix(a: seq<string>, b: seq<string>)
    requires |a| < |b|
    requires forall j | 0 <= j < |a| :: IdCmp(a[j], b[j]) == 0
    ensures ListCmp(a, b) == -1
    decreases |a|
  {
    if a != [] {
      assert IdCmp(a[0], b[0]) == 0;
      ListCmpPrefix(a[1..], b[1..]);
    }
  }

  // ---------------------------------------------------------------------------
  // pre_release_cmp's loop
  // ---------------------------------------------------------------------------

  lemma ListCmpStep(a: seq<string>, b: seq<string>, i: nat)
    requires i < |a| && i < |b| && IdCmp(a[i], b[i]) == 0
    ensures ListCmp(a[i..], b[i..]) == ListCmp(a[i + 1..], b[i + 1..])
  {
    assert a[i..][1..] == a[i + 1..] && b[i..][1..] == b[i + 1..];
  }

  /**
   * pre_release_cmp with its loop completed: identifiers are compared pairwise until one
   * differs, the index advancing each round, and a tie on every shared position is broken
   * by the number of identifiers.
   */
  method PreReleaseCompare(a: seq<string>, b: seq<string>) returns (r: int)
    ensures r == PreCmp(a, b)
  {
    if a == [] && b == [] {
      return 0;
    } else if a != [] && b == [] {
      return -1;
    } else if a == [] && b != [] {
      return 1;
    }
    var n := if |a| < |b| then |a| else |b|;
    var i := 0;
    while i != n
      invariant 0 <= i <= n
      invariant ListCmp(a, b) == ListCmp(a[i..], b[i..])
    {
      r := IdCmp(a[i], b[i]);
      if r != 0 {
        assert ListCmp(a[i..], b[i..]) == r by {
          assert a[i..][0] == a[i] && b[i..][0] == b[i];
        }
        return r;
      }
      ListCmpStep(a, b, i);
      i := i + 1;
    }
    if |a| < |b| {
      r := -1;
    } else if |a| > |b| {
      r := 1;
    } else {
      r := 0;
    }
  }
}
