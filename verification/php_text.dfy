/**
  String helpers with the semantics of the PHP built-ins the application relies on:
  `trim`, `empty` on strings, decimal rendering of integers, `str_pad`,
  `explode`/`implode` on a one-character delimiter, and substring search.
  Strings are sequences of Unicode scalar values.
 */
module PhpText {

  // ---------------------------------------------------------------------------
  // trim() and empty()
  // ---------------------------------------------------------------------------

  /** The characters `trim` strips by default: space, tab, LF, CR, NUL and vertical tab. */
  predicate IsTrimChar(c: char) {
    c == ' ' || c == '\t' || c == '\n' || c == '\r' || c == '\0' || c == '\U{B}'
  }

  /**
    The characters the form layer's `trim` option strips from a submitted string: Unicode
    separators, control characters and the common format characters (soft hyphen,
    zero-width and direction marks, byte order mark).
   */
  predicate IsFormTrimChar(c: char) {
    || c <= '\U{1F}' || ('\U{7F}' <= c <= '\U{A0}')
    || c == ' ' || c == '\U{1680}' || ('\U{2000}' <= c <= '\U{200F}')
    || ('\U{2028}' <= c <= '\U{202F}') || ('\U{205F}' <= c <= '\U{2064}')
    || c == '\U{3000}' || c == '\U{AD}' || c == '\U{FEFF}'
  }

  /** The two character lists a trim works with. */
  datatype TrimSet = PhpTrimChars | FormTrimChars

  predicate Strips(k: TrimSet, c: char) {
    match k
    case PhpTrimChars => IsTrimChar(c)
    case FormTrimChars => IsFormTrimChar(c)
  }

  /** The form layer strips at least what PHP's `trim` strips. */
  lemma TrimCharsAreFormTrimChars(c: char)
    ensures IsTrimChar(c) ==> IsFormTrimChar(c)
  {
  }

  /** Every character of `s` is one the trim removes. */
  predicate AllStripped(s: string, k: TrimSet) {
    forall i :: 0 <= i < |s| ==> Strips(k, s[i])
  }

  predicate AllTrimChars(s: string) {
    AllStripped(s, PhpTrimChars)
  }

  /** Neither end of `s` is a character the trim removes. */
  predicate EndsKept(s: string, k: TrimSet) {
    s == [] || (!Strips(k, s[0]) && !Strips(k, s[|s| - 1]))
  }

  /** Drops the leading characters the trim removes, and nothing else. */
  function TrimStartBy(s: string, k: TrimSet): (r: string)
    ensures |r| <= |s| && r == s[|s| - |r|..]
    ensures forall i :: 0 <= i < |s| - |r| ==> Strips(k, s[i])
    ensures r == [] || !Strips(k, r[0])
  {
    if s != [] && Strips(k, s[0]) then TrimStartBy(s[1..], k) else s
  }

  /** Drops the trailing characters the trim removes, and nothing else. */
  function TrimEndBy(s: string, k: TrimSet): (r: string)
    ensures |r| <= |s| && r == s[..|r|]
    ensures forall i :: |r| <= i < |s| ==> Strips(k, s[i])
    ensures r == [] || !Strips(k, r[|r| - 1])
  {
    if s != [] && Strips(k, s[|s| - 1]) then TrimEndBy(s[..|s| - 1], k) else s
  }

  /** `s` with its leading and trailing characters of the list removed: the middle part of `s`. */
  function TrimBy(s: string, k: TrimSet): (r: string)
    ensures exists i, j :: 0 <= i <= j <= |s| && r == s[i..j] && AllStripped(s[..i], k) && AllStripped(s[j..], k)
    ensures EndsKept(r, k)
    ensures r == [] <==> AllStripped(s, k)
  {
    var t := TrimStartBy(s, k);
    var r := TrimEndBy(t, k);
    var i := |s| - |t|;
    assert r == s[i..i + |r|];
    assert AllStripped(s[..i], k);
    assert AllStripped(s[i + |r|..], k) by {
      forall n | i + |r| <= n < |s|
        ensures Strips(k, s[n])
      {
        assert s[n] == t[n - i];
      }
    }
    assert r == [] ==> AllStripped(s, k) by {
      if r == [] {
        assert t == [];
      }
    }
    r
  }

  /** `ltrim`-style stripping skips a stripped prefix. */
  lemma {:induction false} TrimStartSkipsPrefix(a: string, t: string, k: TrimSet)
    requires AllStripped(a, k)
    ensures TrimStartBy(a + t, k) == TrimStartBy(t, k)
  {
    if a != [] {
      assert (a + t)[0] == a[0] && (a + t)[1..] == a[1..] + t;
      assert AllStripped(a[1..], k);
      assert Strips(k, a[0]);
      assert TrimStartBy(a + t, k) == TrimStartBy(a[1..] + t, k);
      TrimStartSkipsPrefix(a[1..], t, k);
    } else {
      assert a + t == t;
    }
  }

  /** `rtrim`-style stripping skips a stripped suffix. */
  lemma {:induction false} TrimEndSkipsSuffix(t: string, b: string, k: TrimSet)
    requires AllStripped(b, k)
    ensures TrimEndBy(t + b, k) == TrimEndBy(t, k)
  {
    if b != [] {
      assert (t + b)[|t + b| - 1] == b[|b| - 1] && (t + b)[..|t + b| - 1] == t + b[..|b| - 1];
      assert AllStripped(b[..|b| - 1], k);
      assert Strips(k, b[|b| - 1]);
      assert TrimEndBy(t + b, k) == TrimEndBy(t + b[..|b| - 1], k);
      TrimEndSkipsSuffix(t, b[..|b| - 1], k);
    } else {
      assert t + b == t;
    }
  }

  /** Trimming is determined by the kept middle: stripped characters around `m` are removed, and `m` is kept whole. */
  lemma TrimByUnique(a: string, m: string, b: string, k: TrimSet)
    requires AllStripped(a, k) && AllStripped(b, k) && EndsKept(m, k)
    ensures TrimBy(a + m + b, k) == m
  {
    assert a + m + b == a + (m + b);
    TrimStartSkipsPrefix(a, m + b, k);
    if m == [] {
      assert m + b == b;
      assert AllStripped(a + m + b, k) by {
        assert forall n :: 0 <= n < |a + b| ==> (a + b)[n] == (if n < |a| then a[n] else b[n - |a|]);
      }
    } else {
      assert TrimStartBy(m + b, k) == m + b;
      TrimEndSkipsSuffix(m, b, k);
    }
  }

  /** A string whose ends are kept is left alone. */
  lemma TrimByKeepsTrimmed(m: string, k: TrimSet)
    requires EndsKept(m, k)
    ensures TrimBy(m, k) == m
  {
    assert TrimStartBy(m, k) == m;
    assert TrimEndBy(m, k) == m;
  }

  /** Trimming twice is trimming once. */
  lemma TrimByIdempotent(s: string, k: TrimSet)
    ensures TrimBy(TrimBy(s, k), k) == TrimBy(s, k)
  {
    TrimByKeepsTrimmed(TrimBy(s, k), k);
  }

  /** `trim`: `s` without its leading and trailing trim characters. */
  function Trim(s: string): (r: string)
    ensures exists i, j :: 0 <= i <= j <= |s| && r == s[i..j] && AllTrimChars(s[..i]) && AllTrimChars(s[j..])
    ensures r == [] || (!IsTrimChar(r[0]) && !IsTrimChar(r[|r| - 1]))
    ensures r == [] <==> AllTrimChars(s)
  {
    TrimBy(s, PhpTrimChars)
  }

  /** PHP's `empty()` on a string: the falsy strings are "" and "0". */
  predicate IsEmpty(s: string) {
    s == "" || s == "0"
  }

  /** PHP's truthiness of a string. */
  predicate IsTruthy(s: string) {
    !IsEmpty(s)
  }

  // ---------------------------------------------------------------------------
  // Decimal digits
  // ---------------------------------------------------------------------------

  predicate IsDigit(c: char) {
    '0' <= c <= '9'
  }

  predicate AllDigits(s: string) {
    forall i :: 0 <= i < |s| ==> IsDigit(s[i])
  }

  function DigitChar(d: nat): (c: char)
    requires d < 10
    ensures IsDigit(c)
  {
    (('0' as int) + d) as char
  }

  function DigitValue(c: char): (d: nat)
    requires IsDigit(c)
    ensures d < 10 && DigitChar(d) == c
  {
    (c as int) - ('0' as int)
  }

  function Pow10(k: nat): (p: nat)
    ensures p >= 1
  {
    if k == 0 then 1 else 10 * Pow10(k - 1)
  }

  /** PHP's conversion of a non-negative integer to its decimal string: no sign, no leading zero. */
  function NatToString(n: nat): (s: string)
    ensures 1 <= |s| && AllDigits(s)
    ensures |s| > 1 ==> s[0] != '0'
  {
    if n < 10 then [DigitChar(n)] else NatToString(n / 10) + [DigitChar(n % 10)]
  }

  /** The value of a string of decimal digits, leading zeros allowed. */
  function ParseDigits(s: string): nat
    requires AllDigits(s)
  {
    if s == [] then 0 else ParseDigits(s[..|s| - 1]) * 10 + DigitValue(s[|s| - 1])
  }

  lemma {:induction false} ParseNatToString(n: nat)
    ensures ParseDigits(NatToString(n)) == n
  {
    if n >= 10 {
      var s := NatToString(n);
      assert s[..|s| - 1] == NatToString(n / 10);
      ParseNatToString(n / 10);
    }
  }

  lemma {:induction false} NatToStringFits(n: nat, k: nat)
    requires 1 <= k && n < Pow10(k)
    ensures |NatToString(n)| <= k
  {
    if n >= 10 {
      assert k >= 2;
      NatToStringFits(n / 10, k - 1);
    }
  }

  /** `c` repeated `n` times. */
  function Repeat(c: char, n: nat): (r: string)
    ensures |r| == n && forall i :: 0 <= i < n ==> r[i] == c
  {
    if n == 0 then [] else [c] + Repeat(c, n - 1)
  }

  /** `str_pad($s, $width, $pad, STR_PAD_LEFT)` with a one-character pad. */
  function PadLeft(s: string, width: nat, pad: char): (r: string)
    ensures |r| == if |s| < width then width else |s|
    ensures r[|r| - |s|..] == s
    ensures forall i :: 0 <= i < |r| - |s| ==> r[i] == pad
  {
    if |s| < width then Repeat(pad, width - |s|) + s else s
  }

  lemma {:induction false} ParseLeadingZeros(z: nat, s: string)
    requires AllDigits(s)
    ensures AllDigits(Repeat('0', z) + s)
    ensures ParseDigits(Repeat('0', z) + s) == ParseDigits(s)
  {
    var t := Repeat('0', z) + s;
    if s == [] {
      assert t == Repeat('0', z);
      ParseZeros(z);
    } else {
      assert t[..|t| - 1] == Repeat('0', z) + s[..|s| - 1];
      ParseLeadingZeros(z, s[..|s| - 1]);
    }
  }

  lemma {:induction false} ParseZeros(z: nat)
    ensures AllDigits(Repeat('0', z))
    ensures ParseDigits(Repeat('0', z)) == 0
  {
    if z > 0 {
      var t := Repeat('0', z);
      assert t[..|t| - 1] == Repeat('0', z - 1);
      ParseZeros(z - 1);
    }
  }

  // ---------------------------------------------------------------------------
  // explode() / implode() on a one-character delimiter
  // ---------------------------------------------------------------------------

  /** Number of occurrences of `c` in `s`. */
  function Count(s: string, c: char): nat
  {
    if s == [] then 0 else (if s[0] == c then 1 else 0) + Count(s[1..], c)
  }

  /** `explode($sep, $s)`: the pieces between delimiters, kept verbatim (no trimming). */
  function Split(s: string, sep: char): (parts: seq<string>)
    ensures |parts| == Count(s, sep) + 1
    ensures forall i :: 0 <= i < |parts| ==> sep !in parts[i]
  {
    if s == [] then [""]
    else
      var rest := Split(s[1..], sep);
      if s[0] == sep then [""] + rest
      else [[s[0]] + rest[0]] + rest[1..]
  }

  /** `implode($sep, $parts)`. */
  function Join(parts: seq<string>, sep: char): string
  {
    if |parts| == 0 then ""
    else if |parts| == 1 then parts[0]
    else parts[0] + [sep] + Join(parts[1..], sep)
  }

  /** Joining the pieces of a split gives back the original string. */
  lemma {:induction false} JoinSplit(s: string, sep: char)
    ensures Join(Split(s, sep), sep) == s
  {
    if s != [] {
      var rest := Split(s[1..], sep);
      JoinSplit(s[1..], sep);
      if s[0] == sep {
        assert ([""] + rest)[1..] == rest;
      } else if |rest| == 1 {
        assert s == [s[0]] + s[1..];
      } else {
        var parts := [[s[0]] + rest[0]] + rest[1..];
        assert parts[1..] == rest[1..];
        assert Join(rest, sep) == rest[0] + [sep] + Join(rest[1..], sep);
        assert s == [s[0]] + s[1..];
      }
    }
  }

  /** Splitting a string that starts with a delimiter-free `a`. */
  lemma {:induction false} SplitAfterPlainPrefix(a: string, t: string, sep: char)
    requires sep !in a
    ensures Split(a + t, sep) == [a + Split(t, sep)[0]] + Split(t, sep)[1..]
  {
    if a != [] {
      assert (a + t)[0] == a[0];
      assert (a + t)[1..] == a[1..] + t;
      SplitAfterPlainPrefix(a[1..], t, sep);
      assert [a[0]] + (a[1..] + Split(t, sep)[0]) == a + Split(t, sep)[0];
    } else {
      var p := Split(t, sep);
      assert a + t == t;
      assert a + p[0] == p[0];
      assert p == [p[0]] + p[1..];
    }
  }

  /** Splitting a join gives back the pieces, when no piece holds the delimiter. */
  lemma {:induction false} SplitJoin(parts: seq<string>, sep: char)
    requires |parts| >= 1
    requires forall i :: 0 <= i < |parts| ==> sep !in parts[i]
    ensures Split(Join(parts, sep), sep) == parts
  {
    if |parts| == 1 {
      SplitAfterPlainPrefix(parts[0], "", sep);
      assert Split("", sep) == [""];
      assert parts[0] + "" == parts[0];
    } else {
      var j := Join(parts[1..], sep);
      SplitJoin(parts[1..], sep);
      assert Join(parts, sep) == parts[0] + ([sep] + j);
      SplitAfterPlainPrefix(parts[0], [sep] + j, sep);
      assert ([sep] + j)[1..] == j;
      var q := Split([sep] + j, sep);
      assert q == [""] + parts[1..];
      assert q[0] == "" && q[1..] == parts[1..];
      assert parts[0] + q[0] == parts[0];
      assert parts == [parts[0]] + parts[1..];
    }
  }

  // ---------------------------------------------------------------------------
  // Substring search
  // ---------------------------------------------------------------------------

  predicate IsPrefix(p: string, s: string) {
    |p| <= |s| && s[..|p|] == p
  }

  /** `needle` occurs in `hay` starting at position `i`. */
  ghost predicate OccursAt(hay: string, needle: string, i: int) {
    0 <= i <= |hay| - |needle| && hay[i..i + |needle|] == needle
  }

  /** `needle` is a substring of `hay` (what `LIKE '%needle%'` tests, wildcards aside). */
  predicate Contains(hay: string, needle: string)
  {
    IsPrefix(needle, hay) || (hay != [] && Contains(hay[1..], needle))
  }

  /** The recursive search agrees with the positional definition of a substring. */
  lemma {:induction false} ContainsIff(hay: string, needle: string)
    ensures Contains(hay, needle) <==> exists i :: OccursAt(hay, needle, i)
  {
    if IsPrefix(needle, hay) {
      assert OccursAt(hay, needle, 0);
    } else if hay == [] {
    } else {
      ContainsIff(hay[1..], needle);
      if exists i :: OccursAt(hay[1..], needle, i) {
        var i :| OccursAt(hay[1..], needle, i);
        assert hay[1..][i..i + |needle|] == hay[i + 1..i + 1 + |needle|];
        assert OccursAt(hay, needle, i + 1);
      }
      if exists i :: OccursAt(hay, needle, i) {
        var i :| OccursAt(hay, needle, i);
        assert i != 0;
        assert hay[1..][i - 1..i - 1 + |needle|] == hay[i..i + |needle|];
        assert OccursAt(hay[1..], needle, i - 1);
      }
    }
  }
}
