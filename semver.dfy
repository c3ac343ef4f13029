/**
 * The semver_t object and the library calls that read and update it (src/semver.c).
 * A semver_t is a Semver object whose fields the setters assign; a NULL string argument is
 * None, and the calls that allocate a result hand back a fresh object or a string value.
 */
module SemverApi {
  import opened Wrappers
  import opened Text
  import opened Grammar
  import opened Scanner
  import opened Versions
  import opened Precedence

  /**
   * get_num_identifiers: counts the identifiers of the first len bytes of raw, one more
   * than the dots among them, or none when len is 0.
   */
  method CountIdentifiers(raw: string, len: nat) returns (n: nat)
    requires len <= |raw|
    ensures n == NumIdentifiers(raw[..len])
  {
    if len == 0 {
      return 0;
    }
    n := 1;
    for i := 0 to len
      invariant n == 1 + Count(raw[..i], '.')
    {
      CountSnoc(raw[..i], '.', raw[i]);
      assert raw[..i + 1] == raw[..i] + [raw[i]];
      if raw[i] == '.' {
        n := n + 1;
      }
    }
  }

  /**
   * The strtok loop of semver_set_pr_str: n times, skip the separators, take the token up
   * to the next '.', and keep it clipped to 20 characters.
   */
  method Tokenise(text: string, n: nat) returns (ids: seq<string>)
    requires |Tokens(text)| == n
    ensures ids == Clipped(Tokens(text))
  {
    ids := [];
    var rest := text;
    ghost var toks: seq<string> := [];
    var i := 0;
    while i < n
      invariant 0 <= i <= n
      invariant |toks| == i
      invariant Tokens(text) == toks + Tokens(rest)
      invariant ids == Clipped(toks)
    {
      // strtok: skip the separators before the token
      while rest != [] && rest[0] == '.'
        invariant Tokens(text) == toks + Tokens(rest)
      {
        TokensSkip(rest);
        rest := rest[1..];
      }
      assert |Tokens(rest)| == n - i;
      // the token runs to the next separator, which strtok overwrites and steps past
      var j := IndexOf(rest, '.');
      var token := rest[..j];
      var after := if j == |rest| then [] else rest[j + 1..];
      TokensTake(rest, j, after);
      Regroup(toks, token, Tokens(after), Tokens(text));
      ClippedSnoc(toks, token);
      toks := toks + [token];
      ids := ids + [Clip(token)];
      rest := after;
      i := i + 1;
    }
    assert toks == Tokens(text);
  }

  lemma TokensSkip(t: string)
    requires t != [] && t[0] == '.'
    ensures Tokens(t) == Tokens(t[1..])
  {
  }

  /** strtok's next token: t up to its first '.', and the tokens after that '.'. */
  lemma TokensTake(t: string, j: nat, after: string)
    requires t != [] && t[0] != '.'
    requires j == IndexOf(t, '.')
    requires after == if j == |t| then [] else t[j + 1..]
    ensures Tokens(t) == [t[..j]] + Tokens(after)
  {
    if j == |t| {
      assert Tokens(after) == [];
    }
  }

  lemma ClippedSnoc(xs: seq<string>, x: string)
    ensures Clipped(xs + [x]) == Clipped(xs) + [Clip(x)]
  {
  }

  /**
   * The identifier walk of semver_str_to_semver: tup_end runs over the pre-release text and
   * every '.' and the end close the identifier that began at curr_tup_start.
   */
  method SplitFields(t: string) returns (ids: seq<string>)
    ensures ids == Split(t, '.')
  {
    ids := [];
    var start := 0;
    var k := 0;
    while k <= |t|
      invariant 0 <= k <= |t| + 1
      invariant k <= |t| ==> start <= k && '.' !in t[start..k]
      invariant k <= |t| ==> ids + Split(t[start..], '.') == Split(t, '.')
      invariant k == |t| + 1 ==> ids == Split(t, '.')
    {
      if k == |t| {
        FieldCloseAtEnd(ids, t, start);
        ids := ids + [t[start..k]];
        start := k + 1;
      } else if t[k] == '.' {
        FieldCloseAtDot(ids, t, start, k);
        ids := ids + [t[start..k]];
        start := k + 1;
      } else {
        FieldGrow(t, start, k);
      }
      k := k + 1;
    }
  }

  /** A character other than '.' extends the open field. */
  lemma FieldGrow(t: string, start: nat, k: nat)
    requires start <= k < |t| && '.' !in t[start..k] && t[k] != '.'
    ensures '.' !in t[start..k + 1]
  {
    assert t[start..k + 1] == t[start..k] + [t[k]];
  }

  /** A '.' closes the open field, which is the next field of the split. */
  lemma FieldCloseAtDot(ids: seq<string>, t: string, start: nat, k: nat)
    requires start <= k < |t| && '.' !in t[start..k] && t[k] == '.'
    requires ids + Split(t[start..], '.') == Split(t, '.')
    ensures (ids + [t[start..k]]) + Split(t[k + 1..], '.') == Split(t, '.')
  {
    FieldFrom(t, start, k);
    Regroup(ids, t[start..k], Split(t[k + 1..], '.'), Split(t, '.'));
  }

  /** The split of t from start, when its first '.' is at k. */
  lemma FieldFrom(t: string, start: nat, k: nat)
    requires start <= k < |t| && '.' !in t[start..k] && t[k] == '.'
    ensures Split(t[start..], '.') == [t[start..k]] + Split(t[k + 1..], '.')
  {
    SliceOfSlice(t, start, k);
    FieldAtDot(t[start..], k - start);
  }

  lemma SliceOfSlice(t: string, start: nat, k: nat)
    requires start <= k < |t|
    ensures t[start..][..k - start] == t[start..k]
    ensures t[start..][k - start + 1..] == t[k + 1..]
  {
  }

  lemma Regroup(ids: seq<string>, f: string, x: seq<string>, all: seq<string>)
    requires ids + ([f] + x) == all
    ensures (ids + [f]) + x == all
  {
  }

  /** The end closes the last field. */
  lemma FieldCloseAtEnd(ids: seq<string>, t: string, start: nat)
    requires start <= |t| && '.' !in t[start..|t|]
    requires ids + Split(t[start..], '.') == Split(t, '.')
    ensures ids + [t[start..|t|]] == Split(t, '.')
  {
    assert t[start..] == t[start..|t|];
    SplitNoSep(t[start..], '.');
  }

  /** The split of u at its first '.', index d: the field before it, then the rest. */
  lemma FieldAtDot(u: string, d: nat)
    requires d < |u| && u[d] == '.' && '.' !in u[..d]
    ensures Split(u, '.') == [u[..d]] + Split(u[d + 1..], '.')
  {
    var field, rest := u[..d], u[d + 1..];
    assert u == field + ['.'] + rest;
    SplitCons(field, '.', rest);
  }

  /**
   * The strncat loop of semver_to_str: each identifier in turn, followed by a '.' unless it
   * is the last.
   */
  method JoinIdentifiers(ids: seq<string>) returns (pre: string)
    ensures pre == Join(ids, '.')
  {
    var n := |ids|;
    pre := [];
    for i := 0 to n
      invariant i == 0 ==> pre == []
      invariant 0 < i ==> pre == Join(ids[..i], '.') + (if i < n then ['.'] else [])
    {
      JoinPrefixStep(ids, i, '.');
      pre := pre + ids[i];
      if i < n - 1 {
        pre := pre + ['.'];
      }
    }
    assert ids[..n] == ids;
  }

  /** Joining the first i + 1 fields adds a separator and field i to the first i. */
  lemma JoinPrefixStep(xs: seq<string>, i: nat, sep: char)
    requires i < |xs|
    ensures i == 0 ==> Join(xs[..i + 1], sep) == xs[0]
    ensures i > 0 ==> Join(xs[..i + 1], sep) == Join(xs[..i], sep) + [sep] + xs[i]
  {
    if i > 0 {
      assert xs[..i + 1] == xs[..i] + [xs[i]];
      JoinSnoc(xs[..i], xs[i], sep);
    } else {
      assert xs[..1] == [xs[0]];
    }
  }

  lemma TotalLenStep(xs: seq<string>, i: nat)
    requires i < |xs|
    ensures TotalLen(xs[..i + 1]) == TotalLen(xs[..i]) + |xs[i]|
  {
    assert xs[..i + 1][..i] == xs[..i];
  }

  class Semver {
    var major: u32
    var minor: u32
    var patch: u32
    /** pr_identifiers and num_pr_identifiers */
    var prIds: seq<string>
    /** bmd_str, NULL when None; bmd_str_len is its length */
    var bmd: Option<string>

    function Value(): Version
      reads this
    {
      Version(major, minor, patch, prIds, bmd)
    }

    /** semver_create: 0.0.0, no pre-release identifiers and no build meta-data. */
    constructor ()
      ensures Value() == Version(0, 0, 0, [], None)
    {
      major, minor, patch := 0, 0, 0;
      prIds := [];
      bmd := None;
    }

    /** semver_get_major: the field as a C int. */
    method GetMajor() returns (r: int)
      ensures r == ToCInt(major)
      ensures major < 0x8000_0000 ==> r == major
    {
      r := ToCInt(major);
    }

    /** semver_get_minor */
    method GetMinor() returns (r: int)
      ensures r == ToCInt(minor)
      ensures minor < 0x8000_0000 ==> r == minor
    {
      r := ToCInt(minor);
    }

    /** semver_get_patch */
    method GetPatch() returns (r: int)
      ensures r == ToCInt(patch)
      ensures patch < 0x8000_0000 ==> r == patch
    {
      r := ToCInt(patch);
    }

    /** semver_set_major */
    method SetMajor(m: u32) returns (rc: int)
      modifies this
      ensures rc == 0 && Value() == old(Value()).(major := m)
    {
      major := m;
      rc := 0;
    }

    /** semver_set_minor */
    method SetMinor(m: u32) returns (rc: int)
      modifies this
      ensures rc == 0 && Value() == old(Value()).(minor := m)
    {
      minor := m;
      rc := 0;
    }

    /** semver_set_patch */
    method SetPatch(p: u32) returns (rc: int)
      modifies this
      ensures rc == 0 && Value() == old(Value()).(patch := p)
    {
      patch := p;
      rc := 0;
    }

    /**
     * semver_set_pr_str: drops the old identifiers, counts the dots of the first len bytes,
     * fails with 1 (and no identifiers) when len is 0, and otherwise stores the strtok
     * tokens of the text before any NUL, each clipped to 20 characters. The caller must
     * supply len readable bytes, and the count must match the tokens: a token strtok does
     * not find would leave its slot of the array unset.
     */
    method SetPrStr(input: Option<string>, len: nat) returns (rc: int)
      requires input.Some? ==> len <= |input.value| && len < 0x1_0000
      requires input.Some? && len > 0 ==>
        |Tokens(CString(input.value[..len]))| == NumIdentifiers(input.value[..len])
      modifies this
      ensures rc == 0 || rc == 1
      ensures rc == 0 <==> input.Some? && len > 0
      ensures input.None? ==> Value() == old(Value())
      ensures input.Some? ==>
        Value() == old(Value()).(prIds := if len == 0 then [] else PrIdsFrom(input.value[..len]))
    {
      if input.None? {
        return 1;
      }
      var raw := input.value;
      var text := CString(raw[..len]);
      prIds := [];
      var n := CountIdentifiers(raw, len);
      if n == 0 {
        return 1;
      }
      var ids := Tokenise(text, n);
      prIds := ids;
      rc := 0;
    }

    /** semver_set_bmd_str: keeps the text before any NUL, at most len characters. */
    method SetBmdStr(input: Option<string>, len: nat) returns (rc: int)
      modifies this
      ensures rc == 0 || rc == 1
      ensures rc == 0 <==> input.Some?
      ensures input.None? ==> Value() == old(Value())
      ensures input.Some? ==> Value() == old(Value()).(bmd := Some(Truncate(CString(input.value), len)))
    {
      if input.None? {
        return 1;
      }
      bmd := Some(Truncate(CString(input.value), len));
      rc := 0;
    }

    /**
     * semver_get_pr_str with the dot count corrected: the identifiers, each clipped to 20
     * characters, joined with '.', and the length the sizing loop computes, which is the
     * string's length whenever no identifier is longer than 20 characters.
     */
    method GetPrStr() returns (rc: int, s: string, len: nat)
      ensures rc == 0
      ensures s == Join(Clipped(prIds), '.')
      ensures len == TotalLen(prIds) + (if |prIds| > 1 then |prIds| - 1 else 0)
      ensures (forall k | 0 <= k < |prIds| :: |prIds[k]| <= MaxIdLen) ==> len == |s|
    {
      var n := |prIds|;
      len := 0;
      for i := 0 to n
        invariant len == TotalLen(prIds[..i])
      {
        TotalLenStep(prIds, i);
        len := len + |prIds[i]|;
      }
      assert prIds[..n] == prIds;
      if n > 1 {
        len := len + (n - 1);
      }
      ghost var cs := Clipped(prIds);
      s := [];
      for i := 0 to n
        invariant i == 0 ==> s == []
        invariant 0 < i ==> s == Join(cs[..i], '.') + (if i < n then ['.'] else [])
      {
        JoinPrefixStep(cs, i, '.');
        s := s + Clip(prIds[i]);
        if n > 1 && i < n - 1 {
          s := s + ['.'];
        }
      }
      assert cs[..n] == cs;
      if forall k | 0 <= k < n :: |prIds[k]| <= MaxIdLen {
        assert cs == prIds;
        if n > 0 {
          JoinLength(prIds, '.');
        }
      }
      rc := 0;
    }

    /**
     * semver_get_bmd_str: the build meta-data and its length, or None with the length
     * argument left as it was.
     */
    method GetBmdStr(lenIn: nat) returns (rc: int, s: Option<string>, len: nat)
      ensures rc == 0 && s == bmd
      ensures len == if bmd.Some? then |bmd.value| else lenIn
    {
      rc, s, len := 0, bmd, lenIn;
      if bmd.Some? {
        len := |bmd.value|;
      }
    }

    /**
     * semver_to_str with the numbers printed unsigned: the text of the version and, in the
     * length out-parameter, the size of the buffer reserved for it, which always holds the
     * text and its NUL.
     */
    method ToStr() returns (rc: int, s: string, len: int)
      ensures rc == 0
      ensures s == Render(Value())
      ensures len == Capacity(Value())
      ensures |s| + 1 <= len
    {
      len := BufferSize();
      var v := Value();
      // snprintf "%u.%u.%u", then "-" and the identifiers, then "+" and the build text
      var primary := Join([Decimal(v.major), Decimal(v.minor), Decimal(v.patch)], '.');
      var prePart: string := [];
      if v.prIds != [] {
        var pre := JoinIdentifiers(v.prIds);
        prePart := ['-'] + pre;
      }
      var bmdPart: string := [];
      if v.bmd.Some? {
        bmdPart := ['+'] + v.bmd.value;
      }
      s := primary + prePart + bmdPart;
      RenderSections(v);
      RenderFits(v);
      rc := 0;
    }

    /** The buffer size semver_to_str computes before it writes anything. */
    method BufferSize() returns (len: int)
      ensures len == Capacity(Value())
    {
      var n := |prIds|;
      len := 3 * 10 + 3;
      for i := 0 to n
        invariant len == 33 + TotalLen(prIds[..i])
      {
        TotalLenStep(prIds, i);
        len := len + |prIds[i]|;
      }
      assert prIds[..n] == prIds;
      if n > 0 {
        len := len + 1;
      }
      if n > 1 {
        len := len + (n - 1);
      }
      if bmd.Some? {
        len := len + 1 + |bmd.value|;
      }
      len := len + 1;
    }

    /**
     * semver_compare with its intended behaviour: the numbers first, then the pre-release
     * identifiers, the result written as -1, 0 or 1 and the status 0.
     */
    method Compare(other: Semver) returns (rc: int, result: int)
      ensures rc == 0
      ensures result == Cmp(Value(), other.Value())
    {
      var majorCmp := Sign(major - other.major);
      var minorCmp := Sign(minor - other.minor);
      var patchCmp := Sign(patch - other.patch);
      result := if majorCmp != 0 then majorCmp
        else if minorCmp != 0 then minorCmp
        else if patchCmp != 0 then patchCmp
        else 0;
      if result != 0 {
        return 0, result;
      }
      if prIds != [] || other.prIds != [] {
        result := PreReleaseCompare(prIds, other.prIds);
      } else {
        result := 0;
      }
      rc := 0;
    }

    /**
     * semver_str_to_semver: 1 for NULL or a string the validator rejects; otherwise a new
     * object holding the numbers, the pre-release identifiers and the clipped build text.
     */
    static method StrToSemver(input: Option<string>) returns (rc: int, sv: Semver?)
      ensures rc == 0 || rc == 1
      ensures rc == 0 <==> input.Some? && IsSemVer(CString(input.value))
      ensures rc == 0 ==>
        && WellFormed(Parse(CString(input.value)))
        && sv != null && fresh(sv)
        && sv.Value() == Extract(CString(input.value))
      ensures rc == 1 ==> sv == null
    {
      if input.None? {
        return 1, null;
      }
      var valid, flags := Validate(input, Flags(false, false, false));
      if valid != 0 {
        return 1, null;
      }
      var s := CString(input.value);
      IsSemVerIff(s);
      var l := Parse(s);
      sv := new Semver();
      var f := Split(l.primary, '.');
      sv.major, sv.minor, sv.patch := ScanNumber(f[0]), ScanNumber(f[1]), ScanNumber(f[2]);
      if flags.pre {
        var ids := SplitFields(l.pre.value);
        sv.prIds := ids;
      }
      if flags.bmd {
        sv.bmd := Some(Truncate(l.build.value, MaxIdLen));
      }
      rc := 0;
    }
  }

  /** The validator accepts every text semver_to_str writes for a representable version. */
  lemma ToStrIsValid(v: Version)
    requires Representable(v)
    ensures Scan(Render(v)) == Accepted(Flags(true, v.prIds != [], v.bmd.Some?))
  {
    ExtractRender(v);
    ScanAgrees(Render(v));
    var l := LayoutOf(v);
    if v.prIds != [] {
      DotListOfIdentifiers(v.prIds);
    }
    PrimaryTextFields(v);
    ParseCompose(l);
  }
}
