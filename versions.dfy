/**
 * The contents of a semver_t (include/semver.h:282-293) as a value: three 32-bit unsigned
 * numbers, the list of pre-release identifiers and the optional build meta-data string.
 * Here are the text forms the library converts it to and from: the string semver_to_str
 * writes and the buffer size it reserves, the fields semver_str_to_semver takes out of a
 * validated string, and the identifier lists semver_set_pr_str and semver_get_pr_str
 * read and write.
 */
module Versions {
  import opened Wrappers
  import opened Text
  import opened Grammar

  /** MAX_ID_STR_LEN: the library keeps at most this many characters of an identifier. */
  const MaxIdLen: nat := 20

  const U32Limit: int := 0x1_0000_0000

  /** LONG_MAX of an LP64 C library: where strtol and sscanf saturate. */
  const LongMax: int := 0x7FFF_FFFF_FFFF_FFFF

  type u32 = x: int | 0 <= x < 0x1_0000_0000

  /**
   * A uint32_t returned as a C int (the getters): values from 2^31 up come back negative,
   * two's complement, which the header's "negative on error" cannot tell from an error.
   */
  function ToCInt(x: u32): (r: int)
    ensures -0x8000_0000 <= r < 0x8000_0000
    ensures (r - x) % U32Limit == 0
    ensures 0 <= r <==> x < 0x8000_0000
  {
    if x < 0x8000_0000 then x else x - U32Limit
  }

  datatype Version = Version(
    major: u32,
    minor: u32,
    patch: u32,
    prIds: seq<string>,
    bmd: Option<string>)

  // ---------------------------------------------------------------------------
  // Identifier lists
  // ---------------------------------------------------------------------------

  /** strndup(id, MAX_ID_STR_LEN), strncat(.., id, MAX_ID_STR_LEN): the first 20 characters. */
  function Clip(id: string): (t: string)
    ensures t <= id && |t| <= MaxIdLen
    ensures |id| <= MaxIdLen ==> t == id
  {
    Truncate(id, MaxIdLen)
  }

  function Clipped(ids: seq<string>): (r: seq<string>)
    ensures |r| == |ids|
    ensures forall k | 0 <= k < |ids| :: r[k] == Clip(ids[k])
  {
    seq(|ids|, k requires 0 <= k < |ids| => Clip(ids[k]))
  }

  /** Sum of the lengths of the identifiers (the strlen loops of get_pr_str and to_str). */
  function TotalLen(ids: seq<string>): nat
  {
    if ids == [] then 0 else TotalLen(ids[..|ids| - 1]) + |ids[|ids| - 1]|
  }

  lemma {:induction false} TotalLenAppend(a: seq<string>, b: seq<string>)
    ensures TotalLen(a + b) == TotalLen(a) + TotalLen(b)
    decreases |b|
  {
    if b == [] {
      assert a + b == a;
    } else {
      var c := b[..|b| - 1];
      assert (a + b)[..|a + b| - 1] == a + c;
      TotalLenAppend(a, c);
    }
  }

  /** The joined text is the identifiers plus one dot between each pair of neighbours. */
  lemma {:induction false} JoinLength(ids: seq<string>, sep: char)
    requires |ids| >= 1
    ensures |Join(ids, sep)| == TotalLen(ids) + |ids| - 1
    decreases |ids|
  {
    if |ids| > 1 {
      JoinLength(ids[1..], sep);
      TotalLenAppend([ids[0]], ids[1..]);
      assert [ids[0]] + ids[1..] == ids;
      assert TotalLen([ids[0]]) == |ids[0]| by {
        assert [ids[0]][..0] == [];
      }
    }
  }

  /** Appending one field to a non-empty list appends a separator and the field. */
  lemma {:induction false} JoinSnoc(ids: seq<string>, x: string, sep: char)
    requires |ids| >= 1
    ensures Join(ids + [x], sep) == Join(ids, sep) + [sep] + x
    decreases |ids|
  {
    if |ids| > 1 {
      assert (ids + [x])[1..] == ids[1..] + [x];
      JoinSnoc(ids[1..], x, sep);
    } else {
      assert ids + [x] == [ids[0], x];
    }
  }

  /**
   * The identifiers strtok hands out when it cuts t at '.': the fields between dots,
   * with the empty ones (from leading, doubled or trailing dots) skipped.
   */
  function Tokens(t: string): (r: seq<string>)
    ensures forall k | 0 <= k < |r| :: r[k] != [] && '.' !in r[k]
    decreases |t|
  {
    if t == [] then []
    else if t[0] == '.' then Tokens(t[1..])
    else
      var j := IndexOf(t, '.');
      [t[..j]] + (if j == |t| then [] else Tokens(t[j + 1..]))
  }

  /** On a dotted list (no empty field) strtok yields exactly the fields. */
  lemma {:induction false} TokensOfDotList(t: string)
    requires DotList(t)
    ensures Tokens(t) == Split(t, '.')
    decreases |t|
  {
    var j := IndexOf(t, '.');
    var a := t[..j];
    var parts := Split(t, '.');
    if j == |t| {
      assert a == t;
      SplitNoSep(t, '.');
      assert Identifier(parts[0]);
    } else {
      var b := t[j + 1..];
      assert t == a + ['.'] + b;
      SplitCons(a, '.', b);
      assert Identifier(parts[0]);
      assert forall k | 0 <= k < |Split(b, '.')| :: Split(b, '.')[k] == parts[k + 1];
      TokensOfDotList(b);
    }
  }

  /** get_num_identifiers: 0 for an empty range, otherwise one more than its dots. */
  function NumIdentifiers(raw: string): (n: nat)
    ensures raw != [] ==> n == |Split(raw, '.')|
    ensures n == 0 <==> raw == []
  {
    if raw == [] then 0 else 1 + Count(raw, '.')
  }

  /**
   * The identifiers semver_set_pr_str keeps for the first len bytes raw of its argument:
   * strndup stops at a NUL, strtok cuts at '.', and each token is clipped to 20 characters.
   */
  function PrIdsFrom(raw: string): seq<string>
  {
    Clipped(Tokens(CString(raw)))
  }

  /**
   * Setting a dotted list of identifiers of at most 20 characters keeps exactly its fields,
   * and the dot count matches the strtok count, whether the length passed is strlen or
   * sizeof (the text and its NUL).
   */
  lemma SetPrIdentifiers(t: string, raw: string)
    requires DotList(t) && '\0' !in t
    requires raw == t || raw == t + ['\0']
    requires forall k | 0 <= k < |Split(t, '.')| :: |Split(t, '.')[k]| <= MaxIdLen
    ensures PrIdsFrom(raw) == Split(t, '.')
    ensures Join(PrIdsFrom(raw), '.') == t
    ensures NumIdentifiers(raw) == |Tokens(CString(raw))|
  {
    if raw == t {
      IndexOfAt(raw, '\0', |t|);
    } else {
      IndexOfAt(raw, '\0', |t|);
      assert raw[..|t|] == t;
      CountSnoc(t, '.', '\0');
    }
    assert CString(raw) == t;
    TokensOfDotList(t);
    var parts := Split(t, '.');
    assert Clipped(parts) == parts;
    JoinSplit(t, '.');
  }

  // ---------------------------------------------------------------------------
  // semver_to_str
  // ---------------------------------------------------------------------------

  /** "%u.%u.%u" of the three numbers. */
  function PrimaryText(v: Version): string
  {
    Join([Decimal(v.major), Decimal(v.minor), Decimal(v.patch)], '.')
  }

  /** The layout of the version's text: the pre-release section only when it has identifiers. */
  function LayoutOf(v: Version): Layout
  {
    Layout(PrimaryText(v), if v.prIds == [] then None else Some(Join(v.prIds, '.')), v.bmd)
  }

  /** MAJOR.MINOR.PATCH[-id.id...][+bmd], the text semver_to_str writes. */
  function Render(v: Version): string
  {
    Compose(LayoutOf(v))
  }

  /** The text piece by piece, in the order semver_to_str appends it. */
  lemma RenderSections(v: Version)
    ensures Render(v) ==
      PrimaryText(v)
      + (if v.prIds == [] then [] else ['-'] + Join(v.prIds, '.'))
      + (match v.bmd case None => [] case Some(b) => ['+'] + b)
  {
  }

  /**
   * The buffer size semver_to_str reserves: ten digits for each number, three dots, the
   * identifiers, a hyphen, a dot between identifiers, the '+' and build text, and the NUL.
   */
  function Capacity(v: Version): nat
  {
    var n := |v.prIds|;
    3 * 10 + 3 + TotalLen(v.prIds)
      + (if n > 0 then 1 else 0)
      + (if n > 1 then n - 1 else 0)
      + (match v.bmd case None => 0 case Some(b) => 1 + |b|)
      + 1
  }

  /** The reserved buffer always holds the text and its NUL. */
  lemma RenderFits(v: Version)
    ensures |Render(v)| + 1 <= Capacity(v)
  {
    DecimalWidth(v.major);
    DecimalWidth(v.minor);
    DecimalWidth(v.patch);
    var p := [Decimal(v.major), Decimal(v.minor), Decimal(v.patch)];
    JoinLength(p, '.');
    assert [p[0]][..0] == [];
    assert TotalLen([p[0]]) == |p[0]|;
    assert [p[0], p[1]][..1] == [p[0]];
    assert TotalLen([p[0], p[1]]) == |p[0]| + |p[1]|;
    assert p[..2] == [p[0], p[1]];
    assert TotalLen(p) == |p[0]| + |p[1]| + |p[2]|;
    if v.prIds != [] {
      JoinLength(v.prIds, '.');
    }
  }

  // ---------------------------------------------------------------------------
  // semver_str_to_semver
  // ---------------------------------------------------------------------------

  /**
   * sscanf "%d" into a uint32_t field: the digit run's value, saturated at LONG_MAX as
   * strtol does, then cut to 32 bits.
   */
  function ScanNumber(d: string): (n: u32)
    ensures DecimalValue(d) < U32Limit ==> n == DecimalValue(d)
  {
    var x := DecimalValue(d);
    if x <= LongMax then x % U32Limit else (LongMax % U32Limit)
  }

  /**
   * The value semver_str_to_semver builds from a validated string: the three numbers, the
   * pre-release text cut at every '.', and the build text clipped to 20 characters.
   */
  function Extract(s: string): Version
    requires WellFormed(Parse(s))
  {
    var l := Parse(s);
    var f := Split(l.primary, '.');
    Version(
      ScanNumber(f[0]), ScanNumber(f[1]), ScanNumber(f[2]),
      match l.pre case None => [] case Some(p) => Split(p, '.'),
      match l.build case None => None case Some(b) => Some(Truncate(b, MaxIdLen)))
  }

  /** Every number fits in 32 bits and is written without superfluous leading zeros. */
  predicate CanonicalNumbers(primary: string) {
    var f := Split(primary, '.');
    forall k | 0 <= k < |f| :: Canonical(f[k]) && DecimalValue(f[k]) < U32Limit
  }

  /** A string semver_to_str can give back exactly once it has been read in. */
  predicate Reproducible(s: string) {
    var l := Parse(s);
    && WellFormed(l)
    && CanonicalNumbers(l.primary)
    && (l.build.Some? ==> |l.build.value| <= MaxIdLen)
  }

  lemma Join3(a: string, b: string, c: string, sep: char)
    ensures Join([a, b, c], sep) == a + [sep] + b + [sep] + c
  {
    assert [a, b, c][1..] == [b, c];
    assert [b, c][1..] == [c];
    assert Join([b, c], sep) == b + [sep] + c;
    assert Join([a, b, c], sep) == a + [sep] + (b + [sep] + c);
  }

  /** Reading a reproducible string in and writing it out gives the same string back. */
  lemma RenderExtract(s: string)
    requires Reproducible(s)
    ensures Render(Extract(s)) == s
  {
    var l := Parse(s);
    var f := Split(l.primary, '.');
    var v := Extract(s);
    CanonicalRoundTrip(f[0]);
    CanonicalRoundTrip(f[1]);
    CanonicalRoundTrip(f[2]);
    assert [Decimal(v.major), Decimal(v.minor), Decimal(v.patch)] == f;
    JoinSplit(l.primary, '.');
    if l.pre.Some? {
      JoinSplit(l.pre.value, '.');
    }
    assert LayoutOf(v) == l;
    ComposeParse(s);
  }

  /** What a version must hold to survive being written out and read back in. */
  predicate Representable(v: Version) {
    && (forall k | 0 <= k < |v.prIds| :: Identifier(v.prIds[k]))
    && (v.bmd.Some? ==> DotList(v.bmd.value) && |v.bmd.value| <= MaxIdLen)
  }

  lemma PrimaryTextFields(v: Version)
    ensures Split(PrimaryText(v), '.') == [Decimal(v.major), Decimal(v.minor), Decimal(v.patch)]
    ensures Primary(PrimaryText(v))
  {
    var p := [Decimal(v.major), Decimal(v.minor), Decimal(v.patch)];
    forall k | 0 <= k < 3 ensures '.' !in p[k] {
      assert AllDigits(p[k]);
    }
    SplitJoin(p, '.');
  }

  lemma DotListOfIdentifiers(ids: seq<string>)
    requires |ids| >= 1
    requires forall k | 0 <= k < |ids| :: Identifier(ids[k])
    ensures Split(Join(ids, '.'), '.') == ids
    ensures DotList(Join(ids, '.'))
  {
    forall k | 0 <= k < |ids| ensures '.' !in ids[k] {
      assert AllIdChars(ids[k]);
    }
    SplitJoin(ids, '.');
  }

  /** A representable version's text is a version string that reads back as the same value. */
  lemma ExtractRender(v: Version)
    requires Representable(v)
    ensures WellFormed(Parse(Render(v)))
    ensures Extract(Render(v)) == v
  {
    var l := LayoutOf(v);
    PrimaryTextFields(v);
    if v.prIds != [] {
      DotListOfIdentifiers(v.prIds);
    }
    assert WellFormed(l);
    ParseCompose(l);
    DecimalRoundTrip(v.major);
    DecimalRoundTrip(v.minor);
    DecimalRoundTrip(v.patch);
  }
}
