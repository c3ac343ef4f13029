/**
 * Character classes and the string helpers that stand in for the C library calls the
 * semver library relies on: splitting and joining on a separator (strtok, strncat),
 * decimal printing and parsing (snprintf "%u", sscanf "%d"), strndup-style truncation and
 * the NUL terminator of a C string.
 */
module Text {

  predicate IsDigit(c: char) { '0' <= c <= '9' }

  /** The identifier alphabet [0-9A-Za-z-] of SemVer 2.0.0 (the scanner's 63-case lists). */
  predicate IsIdChar(c: char) {
    IsDigit(c) || 'A' <= c <= 'Z' || 'a' <= c <= 'z' || c == '-'
  }

  predicate AllDigits(s: string) { forall i | 0 <= i < |s| :: IsDigit(s[i]) }

  predicate AllIdChars(s: string) { forall i | 0 <= i < |s| :: IsIdChar(s[i]) }

  /** Number of occurrences of c in s. */
  function Count(s: string, c: char): (n: nat)
    ensures n <= |s|
    ensures n == |s| ==> forall i | 0 <= i < |s| :: s[i] == c
  {
    if s == [] then 0 else (if s[0] == c then 1 else 0) + Count(s[1..], c)
  }

  lemma {:induction false} CountSnoc(t: string, c: char, d: char)
    ensures Count(t + [d], c) == Count(t, c) + (if d == c then 1 else 0)
    decreases |t|
  {
    if t == [] {
      assert [d][1..] == [];
    } else {
      assert (t + [d])[1..] == t[1..] + [d];
      CountSnoc(t[1..], c, d);
    }
  }

  // ---------------------------------------------------------------------------
  // Splitting and joining
  // ---------------------------------------------------------------------------

  /**
   * The fields of s between occurrences of sep, empty fields included, left to right.
   * There is always one field more than there are separators.
   */
  function Split(s: string, sep: char): (parts: seq<string>)
    ensures |parts| == 1 + Count(s, sep)
    ensures forall k | 0 <= k < |parts| :: sep !in parts[k]
    decreases |s|
  {
    if s == [] then [[]]
    else
      var rest := Split(s[1..], sep);
      if s[0] == sep then [[]] + rest
      else [[s[0]] + rest[0]] + rest[1..]
  }

  /** The fields of parts with one sep between neighbours; the empty list joins to "". */
  function Join(parts: seq<string>, sep: char): string
  {
    if |parts| == 0 then []
    else if |parts| == 1 then parts[0]
    else parts[0] + [sep] + Join(parts[1..], sep)
  }

  lemma {:induction false} SplitNoSep(s: string, sep: char)
    requires sep !in s
    ensures Split(s, sep) == [s]
    decreases |s|
  {
    if s != [] {
      SplitNoSep(s[1..], sep);
      assert [s[0]] + s[1..] == s;
    }
  }

  /** A field followed by a separator splits off as the first field. */
  lemma {:induction false} SplitCons(a: string, sep: char, b: string)
    requires sep !in a
    ensures Split(a + [sep] + b, sep) == [a] + Split(b, sep)
    decreases |a|
  {
    var s := a + [sep] + b;
    if a == [] {
      assert s[0] == sep && s[1..] == b;
    } else {
      assert s[0] == a[0] && s[1..] == a[1..] + [sep] + b;
      SplitCons(a[1..], sep, b);
      assert [a[0]] + a[1..] == a;
    }
  }

  /** Joining the fields of s gives back s. */
  lemma {:induction false} JoinSplit(s: string, sep: char)
    ensures Join(Split(s, sep), sep) == s
    decreases |s|
  {
    if s != [] {
      var rest := Split(s[1..], sep);
      JoinSplit(s[1..], sep);
      if s[0] == sep {
        assert ([[]] + rest)[1..] == rest;
        assert s == [sep] + s[1..];
      } else {
        var parts := [[s[0]] + rest[0]] + rest[1..];
        if |rest| == 1 {
          assert s == [s[0]] + s[1..];
        } else {
          assert parts[1..] == rest[1..];
          assert Join(rest, sep) == rest[0] + [sep] + Join(rest[1..], sep);
          assert s == [s[0]] + s[1..];
        }
      }
    }
  }

  /** Splitting a join of separator-free fields gives back the fields. */
  lemma {:induction false} SplitJoin(parts: seq<string>, sep: char)
    requires |parts| >= 1
    requires forall k | 0 <= k < |parts| :: sep !in parts[k]
    ensures Split(Join(parts, sep), sep) == parts
    decreases |parts|
  {
    if |parts| == 1 {
      SplitNoSep(parts[0], sep);
    } else {
      SplitJoin(parts[1..], sep);
      SplitCons(parts[0], sep, Join(parts[1..], sep));
      assert [parts[0]] + parts[1..] == parts;
    }
  }

  /** A character other than the separator that no field holds is not in the string. */
  lemma {:induction false} NotInSplit(s: string, sep: char, c: char)
    requires c != sep
    requires forall k | 0 <= k < |Split(s, sep)| :: c !in Split(s, sep)[k]
    ensures c !in s
    decreases |s|
  {
    if s != [] {
      var rest := Split(s[1..], sep);
      if s[0] == sep {
        assert forall k | 0 <= k < |rest| :: rest[k] == Split(s, sep)[k + 1];
      } else {
        assert Split(s, sep)[0] == [s[0]] + rest[0];
        assert forall k | 1 <= k < |rest| :: rest[k] == Split(s, sep)[k];
      }
      NotInSplit(s[1..], sep, c);
      assert s == [s[0]] + s[1..];
    }
  }

  /** The first field is empty exactly when s is empty or starts with the separator. */
  lemma FirstFieldEmpty(s: string, sep: char)
    ensures Split(s, sep)[0] == [] <==> (s == [] || s[0] == sep)
  {
  }

  /** When no field is empty, there are no more fields than characters. */
  lemma {:induction false} NonEmptyFieldsBound(s: string, sep: char)
    requires s != []
    requires forall k | 0 <= k < |Split(s, sep)| :: Split(s, sep)[k] != []
    ensures |Split(s, sep)| <= |s|
  {
    FirstFieldEmpty(s, sep);
  }

  // ---------------------------------------------------------------------------
  // Search
  // ---------------------------------------------------------------------------

  /** Index of the first c in s, or |s| when there is none (strchr). */
  function IndexOf(s: string, c: char): (i: nat)
    ensures i <= |s|
    ensures c !in s[..i]
    ensures i < |s| ==> s[i] == c
  {
    if s == [] then 0
    else if s[0] == c then 0
    else
      var j := IndexOf(s[1..], c);
      assert s[..j + 1] == [s[0]] + s[1..][..j];
      1 + j
  }

  /** The first occurrence is the one index before which there is no c and at which there is. */
  lemma IndexOfAt(s: string, c: char, k: nat)
    requires k <= |s|
    requires c !in s[..k]
    requires k < |s| ==> s[k] == c
    ensures IndexOf(s, c) == k
  {
  }

  /** The contents of a NUL-terminated buffer: everything before the first NUL. */
  function CString(buf: string): (s: string)
    ensures '\0' !in s
    ensures s <= buf
  {
    buf[..IndexOf(buf, '\0')]
  }

  /** The first n characters of s, or s when it is shorter (strndup / strnlen). */
  function Truncate(s: string, n: nat): (t: string)
    ensures t <= s
    ensures |t| == if |s| <= n then |s| else n
  {
    if |s| <= n then s else s[..n]
  }

  // ---------------------------------------------------------------------------
  // Decimal numbers
  // ---------------------------------------------------------------------------

  function DigitChar(d: nat): (c: char)
    requires d < 10
    ensures IsDigit(c)
  {
    ('0' as int + d) as char
  }

  function DigitValue(c: char): (d: nat)
    ensures d < 10
  {
    if IsDigit(c) then c as int - '0' as int else 0
  }

  /** Unsigned decimal text of n, without leading zeros ("%u"). */
  function Decimal(n: nat): (s: string)
    ensures |s| >= 1 && AllDigits(s)
  {
    if n < 10 then [DigitChar(n)] else Decimal(n / 10) + [DigitChar(n % 10)]
  }

  /** Value of a run of decimal digits. */
  function DecimalValue(s: string): nat
  {
    if s == [] then 0 else 10 * DecimalValue(s[..|s| - 1]) + DigitValue(s[|s| - 1])
  }

  /** Digits with no superfluous leading zero: "0" or a run starting with 1-9. */
  predicate Canonical(d: string) {
    |d| >= 1 && AllDigits(d) && (d[0] == '0' ==> |d| == 1)
  }

  lemma {:induction false} DecimalRoundTrip(n: nat)
    ensures DecimalValue(Decimal(n)) == n
    ensures Canonical(Decimal(n))
  {
    if n >= 10 {
      DecimalRoundTrip(n / 10);
      var s := Decimal(n);
      assert s[..|s| - 1] == Decimal(n / 10);
      assert DigitValue(DigitChar(n % 10)) == n % 10;
    }
  }

  lemma {:induction false} PositiveValue(d: string)
    requires |d| >= 1 && AllDigits(d) && d[0] != '0'
    ensures DecimalValue(d) >= 1
    decreases |d|
  {
    if |d| > 1 {
      PositiveValue(d[..|d| - 1]);
    }
  }

  /** Canonical digits are the decimal text of their value. */
  lemma {:induction false} CanonicalRoundTrip(d: string)
    requires Canonical(d)
    ensures Decimal(DecimalValue(d)) == d
    decreases |d|
  {
    var c := d[|d| - 1];
    var x := DigitValue(c);
    assert DigitChar(x) == c;
    if |d| > 1 {
      var init := d[..|d| - 1];
      PositiveValue(init);
      CanonicalRoundTrip(init);
      var v := DecimalValue(init);
      assert DecimalValue(d) == 10 * v + x;
      assert (10 * v + x) / 10 == v && (10 * v + x) % 10 == x;
      assert d == init + [c];
    }
  }

  /** Any u32 value prints in at most ten digits. */
  lemma DecimalWidth(n: nat)
    requires n < 0x1_0000_0000
    ensures |Decimal(n)| <= 10
  {
    DecimalWidthBelow(n, 10);
  }

  function Pow10(k: nat): nat { if k == 0 then 1 else 10 * Pow10(k - 1) }

  lemma {:induction false} DecimalWidthBelow(n: nat, k: nat)
    requires 1 <= k && n < Pow10(k)
    ensures |Decimal(n)| <= k
  {
    if n >= 10 {
      assert k >= 2;
      DecimalWidthBelow(n / 10, k - 1);
    }
  }
}
