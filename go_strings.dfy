/** The parts of Go's `strings` and `strconv` packages that the core relies on.
    A Go string is a sequence of bytes; here every `char` of a `string` stands
    for one byte, so `|s|` is Go's `len(s)`. */
module GoStrings {
  import opened Wrappers

  // ---------------------------------------------------------------------------
  // strings.TrimSpace

  /** The bytes `strings.TrimSpace` removes: ASCII white space. */
  predicate IsSpace(c: char) {
    c == ' ' || c == '\t' || c == '\n' || c == '\U{000B}' || c == '\U{000C}' || c == '\r'
  }

  predicate AllSpace(s: string) {
    forall k :: 0 <= k < |s| ==> IsSpace(s[k])
  }

  /** Number of leading white-space bytes. */
  function LeadingSpace(s: string): (i: nat)
    ensures i <= |s| && AllSpace(s[..i])
    ensures i < |s| ==> !IsSpace(s[i])
  {
    if |s| > 0 && IsSpace(s[0]) then
      var i := 1 + LeadingSpace(s[1..]);
      assert s[..i] == [s[0]] + s[1..][..i - 1];
      i
    else 0
  }

  /** Length of `s` without its trailing white-space bytes. */
  function TrailingStart(s: string): (j: nat)
    ensures j <= |s| && AllSpace(s[j..])
    ensures j > 0 ==> !IsSpace(s[j - 1])
  {
    if |s| > 0 && IsSpace(s[|s| - 1]) then
      var j := TrailingStart(s[..|s| - 1]);
      assert s[j..] == s[..|s| - 1][j..] + [s[|s| - 1]];
      j
    else |s|
  }

  /** `strings.TrimSpace`: `s` without leading and trailing white space. */
  function TrimSpace(s: string): (t: string)
    ensures |t| <= |s|
    ensures t != [] ==> !IsSpace(t[0]) && !IsSpace(t[|t| - 1])
  {
    var i := LeadingSpace(s);
    var rest := s[i..];
    var j := TrailingStart(rest);
    rest[..j]
  }

  /** What TrimSpace keeps is a slice of its input with only white space
      outside it. */
  lemma TrimSpaceSlice(s: string)
    ensures exists i, j :: 0 <= i <= j <= |s| && TrimSpace(s) == s[i..j] && AllSpace(s[..i]) && AllSpace(s[j..])
  {
    var i := LeadingSpace(s);
    var rest := s[i..];
    var j := TrailingStart(rest);
    assert rest[j..] == s[i + j..] && AllSpace(s[i + j..]);
    assert rest[..j] == s[i..i + j];
    assert 0 <= i <= i + j <= |s| && TrimSpace(s) == s[i..i + j] && AllSpace(s[..i]) && AllSpace(s[i + j..]);
  }

  lemma {:induction false} LeadingSpaceOf(a: string, r: string)
    requires AllSpace(a) && (r == [] || !IsSpace(r[0]))
    ensures LeadingSpace(a + r) == |a|
  {
    if a != [] {
      assert (a + r)[1..] == a[1..] + r;
      LeadingSpaceOf(a[1..], r);
    } else {
      assert a + r == r;
    }
  }

  lemma {:induction false} TrailingStartOf(r: string, b: string)
    requires AllSpace(b) && (r == [] || !IsSpace(r[|r| - 1]))
    ensures TrailingStart(r + b) == |r|
  {
    if b != [] {
      assert (r + b)[..|r + b| - 1] == r + b[..|b| - 1];
      TrailingStartOf(r, b[..|b| - 1]);
    } else {
      assert r + b == r;
    }
  }

  lemma AllSpaceConcat(a: string, b: string)
    requires AllSpace(a) && AllSpace(b)
    ensures AllSpace(a + b)
  {
    assert forall k :: 0 <= k < |a| ==> (a + b)[k] == a[k];
    assert forall k :: |a| <= k < |a + b| ==> (a + b)[k] == b[k - |a|];
  }

  /** TrimSpace removes exactly the white space around a trimmed core. */
  lemma TrimSpaceAround(a: string, t: string, b: string)
    requires AllSpace(a) && AllSpace(b)
    requires t != [] ==> !IsSpace(t[0]) && !IsSpace(t[|t| - 1])
    ensures TrimSpace(a + t + b) == t
  {
    var s := a + t + b;
    if t == [] {
      assert AllSpace(s) by {
        assert s == a + b;
        assert forall k :: 0 <= k < |a| ==> s[k] == a[k];
        assert forall k :: |a| <= k < |s| ==> s[k] == b[k - |a|];
      }
      assert LeadingSpace(s) == |s|;
    } else {
      assert s == a + (t + b);
      LeadingSpaceOf(a, t + b);
      assert s[|a|..] == t + b;
      TrailingStartOf(t, b);
      assert (t + b)[..|t|] == t;
    }
  }

  /** A string that TrimSpace leaves alone. */
  predicate IsTrimmed(s: string) {
    s != [] ==> !IsSpace(s[0]) && !IsSpace(s[|s| - 1])
  }

  lemma TrimSpaceOfTrimmed(s: string)
    requires IsTrimmed(s)
    ensures TrimSpace(s) == s
  {
    TrimSpaceAround([], s, []);
    assert [] + s + [] == s;
  }

  // ---------------------------------------------------------------------------
  // strings.SplitN(s, sep, 2) for a one-byte separator

  /** Position of the first `c` in `s`, or `|s|` when there is none. */
  function IndexOf(s: string, c: char): (i: nat)
    ensures i <= |s|
    ensures forall k :: 0 <= k < i ==> s[k] != c
    ensures i < |s| ==> s[i] == c
  {
    if s == [] then 0
    else if s[0] == c then 0
    else 1 + IndexOf(s[1..], c)
  }

  /** `strings.SplitN(s, sep, 2)` seen through `len(parts) == 2`: the text
      before and after the FIRST `sep`, or None when `sep` does not occur. */
  function SplitFirst(s: string, sep: char): (r: Option<(string, string)>)
    ensures r.None? <==> sep !in s
    ensures r.Some? ==> sep !in r.value.0 && s == r.value.0 + [sep] + r.value.1
  {
    var i := IndexOf(s, sep);
    if i == |s| then None
    else
      assert s == s[..i] + [sep] + s[i + 1..];
      Some((s[..i], s[i + 1..]))
  }

  /** Splitting at the first separator recovers the parts it was joined from,
      whatever the second part contains. */
  lemma SplitFirstJoin(a: string, sep: char, b: string)
    requires sep !in a
    ensures SplitFirst(a + [sep] + b, sep) == Some((a, b))
  {
    var s := a + [sep] + b;
    assert s[|a|] == sep;
    assert forall k :: 0 <= k < |a| ==> s[k] == a[k];
    assert IndexOf(s, sep) == |a|;
    assert s[..|a|] == a;
    assert s[|a| + 1..] == b;
  }

  // ---------------------------------------------------------------------------
  // strings.Contains

  predicate HasPrefix(s: string, p: string) {
    |p| <= |s| && s[..|p|] == p
  }

  /** `strings.Contains(s, sub)`: `sub` occurs in `s`; the empty string occurs
      in every string. */
  predicate Contains(s: string, sub: string)
    decreases |s|
  {
    HasPrefix(s, sub) || (|s| > 0 && Contains(s[1..], sub))
  }

  /** `sub` sits in `s` at position `i`. */
  predicate OccursAt(s: string, sub: string, i: int) {
    0 <= i && i + |sub| <= |s| && s[i..i + |sub|] == sub
  }

  /** Contains agrees with the positional reading of "occurs in". */
  lemma {:induction false} ContainsAt(s: string, sub: string)
    ensures Contains(s, sub) <==> exists i :: OccursAt(s, sub, i)
    decreases |s|
  {
    if HasPrefix(s, sub) {
      assert OccursAt(s, sub, 0);
    } else if |s| == 0 {
    } else {
      ContainsAt(s[1..], sub);
      if Contains(s[1..], sub) {
        var i :| OccursAt(s[1..], sub, i);
        assert s[1..][i..i + |sub|] == s[i + 1..i + 1 + |sub|];
        assert OccursAt(s, sub, i + 1);
      }
      if exists i :: OccursAt(s, sub, i) {
        var i :| OccursAt(s, sub, i);
        assert s[0..|sub|] == s[..|sub|];
        assert i != 0;
        assert s[1..][i - 1..i - 1 + |sub|] == s[i..i + |sub|];
        assert OccursAt(s[1..], sub, i - 1);
      }
    }
  }

  /** A string whose first character never appears in `s` does not occur in it. */
  lemma {:induction false} NotContainsFirst(s: string, sub: string)
    requires |sub| > 0 && sub[0] !in s
    ensures !Contains(s, sub)
    decreases |s|
  {
    if |s| > 0 {
      assert s[0] in s;
      assert forall c :: c in s[1..] ==> c in s;
      NotContainsFirst(s[1..], sub);
    }
  }

  // ---------------------------------------------------------------------------
  // strconv.Atoi with its error discarded, and strconv.Itoa

  const MinInt64: int := -0x8000_0000_0000_0000
  const MaxInt64: int := 0x7FFF_FFFF_FFFF_FFFF

  predicate IsDigit(c: char) { '0' <= c <= '9' }

  predicate AllDigits(s: string) {
    forall k :: 0 <= k < |s| ==> IsDigit(s[k])
  }

  function DigitChar(d: nat): (c: char)
    requires d < 10
    ensures IsDigit(c) && c as int - '0' as int == d
  {
    ('0' as int + d) as char
  }

  /** The value of a decimal numeral, most significant digit first. */
  function DecimalValue(ds: string): nat
    requires AllDigits(ds)
  {
    if ds == [] then 0
    else DecimalValue(ds[..|ds| - 1]) * 10 + (ds[|ds| - 1] as int - '0' as int)
  }

  /** `strconv.Itoa` for a non-negative value. */
  function Itoa(n: nat): (s: string)
    ensures s != [] && AllDigits(s)
  {
    if n < 10 then [DigitChar(n)] else Itoa(n / 10) + [DigitChar(n % 10)]
  }

  /** Go's saturation of an out-of-range result of `strconv.ParseInt`. */
  function Clamp64(n: int): (c: int)
    ensures MinInt64 <= c <= MaxInt64
    ensures MinInt64 <= n <= MaxInt64 ==> c == n
  {
    if n < MinInt64 then MinInt64 else if n > MaxInt64 then MaxInt64 else n
  }

  const MaxUint64: int := 0xFFFF_FFFF_FFFF_FFFF

  /** The number of digits `s` starts with. */
  function DigitRun(s: string): (n: nat)
    ensures n <= |s| && AllDigits(s[..n]) && (n < |s| ==> !IsDigit(s[n]))
    ensures AllDigits(s) ==> n == |s|
  {
    if s == [] || !IsDigit(s[0]) then 0
    else
      var n := 1 + DigitRun(s[1..]);
      assert s[..n] == [s[0]] + s[1..][..n - 1];
      n
  }

  /** `s` without its leading sign, if any. */
  function Unsigned(s: string): string {
    if |s| > 0 && (s[0] == '+' || s[0] == '-') then s[1..] else s
  }

  /** `n` with the sign `s` starts with: negated after a leading minus. */
  function WithSign(s: string, n: nat): int {
    if |s| > 0 && s[0] == '-' then -(n as int) else n
  }

  /** The value `strconv.Atoi(s)` returns beside its error, for a 64-bit
      `int`. After an optional sign the bytes are read left to right: a
      non-digit is a syntax error and gives 0, unless the digits read before
      it already exceed 2^64 - 1, which is a range error reported first and
      gives the bound of the sign; a numeral out of the 64-bit range also
      gives that bound; no digits at all is a syntax error. */
  function AtoiValue(s: string): (n: int)
    ensures MinInt64 <= n <= MaxInt64
    ensures Unsigned(s) == [] ==> n == 0
    ensures DigitRun(Unsigned(s)) == 0 ==> n == 0
  {
    var digits := Unsigned(s);
    var run := digits[..DigitRun(digits)];
    if digits == [] then 0
    else if DecimalValue(run) > MaxUint64 then Clamp64(WithSign(s, DecimalValue(run)))
    else if |run| < |digits| then 0
    else Clamp64(WithSign(s, DecimalValue(digits)))
  }

  lemma {:induction false} DecimalValueOfItoa(n: nat)
    ensures DecimalValue(Itoa(n)) == n
  {
    if n >= 10 {
      var s := Itoa(n);
      assert s[..|s| - 1] == Itoa(n / 10);
      DecimalValueOfItoa(n / 10);
    }
  }

  /** A sign followed by a numeral reads as the signed value, clamped. */
  lemma AtoiOfSignedNumeral(s: string)
    requires Unsigned(s) != [] && AllDigits(Unsigned(s))
    ensures AtoiValue(s) == Clamp64(WithSign(s, DecimalValue(Unsigned(s))))
  {
    var digits := Unsigned(s);
    assert digits[..DigitRun(digits)] == digits;
  }

  /** A numeral reads as its value, clamped to the 64-bit range. */
  lemma AtoiOfNumeral(s: string)
    requires s != [] && AllDigits(s)
    ensures AtoiValue(s) == Clamp64(DecimalValue(s))
  {
    assert IsDigit(s[0]) && Unsigned(s) == s;
    AtoiOfSignedNumeral(s);
  }

  /** Atoi reads back every 64-bit value that Itoa prints, with either sign. */
  lemma AtoiOfItoa(n: nat)
    ensures n <= MaxInt64 ==> AtoiValue(Itoa(n)) == n
    ensures n <= -MinInt64 ==> AtoiValue("-" + Itoa(n)) == -(n as int)
    ensures AtoiValue("+" + Itoa(n)) == Clamp64(n)
  {
    var digits := Itoa(n);
    DecimalValueOfItoa(n);
    AtoiOfNumeral(digits);
    var minus, plus := "-" + digits, "+" + digits;
    assert minus[0] == '-' && Unsigned(minus) == digits;
    AtoiOfSignedNumeral(minus);
    assert plus[0] == '+' && Unsigned(plus) == digits;
    AtoiOfSignedNumeral(plus);
  }

  function Pow10(n: nat): (p: nat)
    ensures p >= 1
  {
    if n == 0 then 1 else 10 * Pow10(n - 1)
  }

  lemma Pow10Nineteen()
    ensures Pow10(19) == 10_000_000_000_000_000_000
  {
    assert Pow10(10) == 10_000_000_000;
  }

  lemma {:induction false} Pow10Monotone(a: nat, b: nat)
    requires a <= b
    ensures Pow10(a) <= Pow10(b)
    decreases b
  {
    if a < b {
      Pow10Monotone(a, b - 1);
    }
  }

  /** A numeral of `n` digits is below 10^n. */
  lemma {:induction false} DecimalValueBelow(ds: string)
    requires AllDigits(ds)
    ensures DecimalValue(ds) < Pow10(|ds|)
    decreases |ds|
  {
    if ds != [] {
      var init := ds[..|ds| - 1];
      DecimalValueBelow(init);
      assert DecimalValue(ds) <= (Pow10(|init|) - 1) * 10 + 9;
    }
  }

  lemma TimesTenMonotone(a: int, lead: int, p: int)
    requires a >= lead * p
    ensures a * 10 >= lead * (10 * p)
  {
  }

  /** A numeral is at least its leading digit times 10^(n-1). */
  lemma {:induction false} DecimalValueAbove(ds: string)
    requires ds != [] && AllDigits(ds)
    ensures DecimalValue(ds) >= (ds[0] as int - '0' as int) * Pow10(|ds| - 1)
    decreases |ds|
  {
    if |ds| > 1 {
      var init := ds[..|ds| - 1];
      DecimalValueAbove(init);
      var lead, p := ds[0] as int - '0' as int, Pow10(|ds| - 2);
      assert init[0] == ds[0];
      assert DecimalValue(ds) >= DecimalValue(init) * 10;
      assert Pow10(|ds| - 1) == 10 * p;
      TimesTenMonotone(DecimalValue(init), lead, p);
    } else {
      assert ds[..0] == [];
    }
  }

  /** Reading further digits never lowers the value read so far. */
  lemma {:induction false} DecimalValuePrefix(ds: string, m: nat)
    requires m <= |ds| && AllDigits(ds)
    ensures AllDigits(ds[..m]) && DecimalValue(ds[..m]) <= DecimalValue(ds)
    decreases |ds|
  {
    if m < |ds| {
      var init := ds[..|ds| - 1];
      DecimalValuePrefix(init, m);
      assert init[..m] == ds[..m];
    } else {
      assert ds[..m] == ds;
    }
  }

  /** A non-digit that follows at most 19 digits makes the string read as 0:
      that many digits cannot exceed 2^64 - 1, so the syntax error comes
      first. */
  lemma AtoiOfNonNumeral(s: string, k: nat)
    requires 0 < k < |s| && !IsDigit(s[k]) && k <= 19
    ensures AtoiValue(s) == 0
  {
    var digits := Unsigned(s);
    var run := digits[..DigitRun(digits)];
    if digits != s { assert digits[k - 1] == s[k]; } else { assert digits[k] == s[k]; }
    assert |run| <= k;
    DecimalValueBelow(run);
    Pow10Monotone(|run|, 19);
    Pow10Nineteen();
  }

  /** Digits whose value already exceeds 2^64 - 1 make the string read as
      the largest `int`, whatever follows them: the range error is reported
      before a later non-digit is seen. */
  lemma AtoiOfOverflowingDigits(s: string, j: nat)
    requires 0 < j <= |s| && AllDigits(s[..j]) && DecimalValue(s[..j]) > MaxUint64
    ensures AtoiValue(s) == MaxInt64
  {
    assert IsDigit(s[..j][0]);
    var n := DigitRun(s);
    assert forall k :: 0 <= k < j ==> IsDigit(s[k]) by {
      forall k | 0 <= k < j ensures IsDigit(s[k]) {
        assert s[..j][k] == s[k];
      }
    }
    assert n >= j;
    DecimalValuePrefix(s[..n], j);
    assert s[..n][..j] == s[..j];
  }

  /** The example: twenty nines and a letter read as the largest `int`. */
  lemma AtoiOfTwentyNinesAndLetter()
    ensures AtoiValue("99999999999999999999x") == MaxInt64
  {
    var s := "99999999999999999999x";
    var ds := s[..20];
    assert AllDigits(ds);
    DecimalValueAbove(ds);
    Pow10Nineteen();
    AtoiOfOverflowingDigits(s, 20);
  }
}
