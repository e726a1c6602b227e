/**
 * The pieces of Go's `strings`, `strconv` and `fmt` packages that the server's
 * bookkeeping relies on, over strings of runes: trimming white space, ASCII case
 * mapping, suffix handling, decimal rendering (`%d`) and decimal scanning
 * (`fmt.Sscanf("%d")` and `strconv.Atoi`) into 64-bit integers.
 */
module Text {
  import opened Wrappers

  const INT64_MIN: int := -0x8000_0000_0000_0000
  const INT64_MAX: int := 0x7FFF_FFFF_FFFF_FFFF
  const TWO_TO_64: int := 0x1_0000_0000_0000_0000
  const UINT64_MAX: int := 0xFFFF_FFFF_FFFF_FFFF

  /** Go's `unicode.IsSpace`: the Latin-1 spaces and the other White_Space runes. */
  predicate IsSpace(c: char) {
    || '\U{0009}' <= c <= '\U{000D}'
    || c == ' ' || c == '\U{0085}' || c == '\U{00A0}' || c == '\U{1680}'
    || '\U{2000}' <= c <= '\U{200A}'
    || c == '\U{2028}' || c == '\U{2029}' || c == '\U{202F}' || c == '\U{205F}'
    || c == '\U{3000}'
  }

  /** Neither end of `s` is white space (true of the empty string). */
  predicate Trimmed(s: string) {
    s == [] || (!IsSpace(s[0]) && !IsSpace(s[|s| - 1]))
  }

  /** `s` without its leading white space. */
  function TrimLeft(s: string): (r: string)
    ensures |r| <= |s| && r == s[|s| - |r|..]
    ensures forall i :: 0 <= i < |s| - |r| ==> IsSpace(s[i])
    ensures r == [] || !IsSpace(r[0])
  {
    if s != [] && IsSpace(s[0]) then
      var r := TrimLeft(s[1..]);
      assert forall i :: 1 <= i < |s| ==> s[i] == s[1..][i - 1];
      r
    else
      s
  }

  /** `s` without its trailing white space. */
  function TrimRight(s: string): (r: string)
    ensures |r| <= |s| && r == s[..|r|]
    ensures forall i :: |r| <= i < |s| ==> IsSpace(s[i])
    ensures r == [] || !IsSpace(r[|r| - 1])
  {
    if s != [] && IsSpace(s[|s| - 1]) then
      var r := TrimRight(s[..|s| - 1]);
      assert forall i :: 0 <= i < |s| - 1 ==> s[i] == s[..|s| - 1][i];
      r
    else
      s
  }

  /** Go's `strings.TrimSpace`. */
  function TrimSpace(s: string): (r: string)
    ensures Trimmed(r)
  {
    var l := TrimLeft(s);
    var r := TrimRight(l);
    assert r != [] ==> r[0] == l[0];
    r
  }

  /** Every character of `s` is white space. */
  predicate AllSpace(s: string) {
    forall i :: 0 <= i < |s| ==> IsSpace(s[i])
  }

  /** How many white-space characters `TrimSpace` drops from the front of `s`. */
  function LeadingSpaceCount(s: string): nat {
    |s| - |TrimLeft(s)|
  }

  /**
   * What `TrimSpace` leaves: a slice of `s` with only white space before and
   * after it (and, by its contract, neither end of which is white space).
   */
  lemma TrimSpaceIsSlice(s: string)
    ensures LeadingSpaceCount(s) + |TrimSpace(s)| <= |s|
    ensures TrimSpace(s) == s[LeadingSpaceCount(s)..LeadingSpaceCount(s) + |TrimSpace(s)|]
    ensures AllSpace(s[..LeadingSpaceCount(s)])
    ensures AllSpace(s[LeadingSpaceCount(s) + |TrimSpace(s)|..])
  {
    TrimmedSlice(s, TrimLeft(s), TrimSpace(s), LeadingSpaceCount(s));
  }

  /**
   * Dropping `i` leading white-space characters (leaving `l`) and then trailing
   * white space (leaving `r`) leaves a slice of `s` with only white space around it.
   */
  lemma TrimmedSlice(s: string, l: string, r: string, i: nat)
    requires |l| <= |s| && i == |s| - |l| && l == s[i..] && forall k :: 0 <= k < i ==> IsSpace(s[k])
    requires |r| <= |l| && r == l[..|r|] && forall k :: |r| <= k < |l| ==> IsSpace(l[k])
    ensures i + |r| <= |s| && r == s[i..i + |r|]
    ensures AllSpace(s[..i]) && AllSpace(s[i + |r|..])
  {
    assert s[i + |r|..] == l[|r|..];
  }

  /** Leading white space before text that does not start with white space is exactly what TrimLeft drops. */
  lemma {:induction false} TrimLeftPadded(pre: string, rest: string)
    requires AllSpace(pre) && (rest == [] || !IsSpace(rest[0]))
    ensures TrimLeft(pre + rest) == rest
    decreases |pre|
  {
    if pre == [] {
      assert pre + rest == rest;
    } else {
      assert (pre + rest)[0] == pre[0];
      assert (pre + rest)[1..] == pre[1..] + rest;
      var shorter := pre[1..];
      assert AllSpace(shorter) by {
        forall i | 0 <= i < |shorter| ensures IsSpace(shorter[i]) {
          assert shorter[i] == pre[i + 1];
        }
      }
      TrimLeftPadded(shorter, rest);
    }
  }

  /** Trailing white space after text that does not end with white space is exactly what TrimRight drops. */
  lemma {:induction false} TrimRightPadded(rest: string, post: string)
    requires AllSpace(post) && (rest == [] || !IsSpace(rest[|rest| - 1]))
    ensures TrimRight(rest + post) == rest
    decreases |post|
  {
    if post == [] {
      assert rest + post == rest;
    } else {
      var n := |rest + post|;
      assert (rest + post)[n - 1] == post[|post| - 1];
      assert (rest + post)[..n - 1] == rest + post[..|post| - 1];
      var shorter := post[..|post| - 1];
      assert AllSpace(shorter) by {
        forall i | 0 <= i < |shorter| ensures IsSpace(shorter[i]) {
          assert shorter[i] == post[i];
        }
      }
      TrimRightPadded(rest, shorter);
    }
  }

  /** TrimSpace removes exactly the white space padding around trimmed, non-empty text. */
  lemma TrimSpacePadded(pre: string, t: string, post: string)
    requires AllSpace(pre) && AllSpace(post) && t != [] && Trimmed(t)
    ensures TrimSpace(pre + t + post) == t
  {
    assert pre + t + post == pre + (t + post);
    assert (t + post)[0] == t[0];
    TrimLeftPadded(pre, t + post);
    TrimRightPadded(t, post);
  }

  lemma TrimSpaceOfTrimmed(s: string)
    requires Trimmed(s)
    ensures TrimSpace(s) == s
  {
  }

  function LowerChar(c: char): char {
    if 'A' <= c <= 'Z' then (c as int + 32) as char else c
  }

  function UpperChar(c: char): char {
    if 'a' <= c <= 'z' then (c as int - 32) as char else c
  }

  predicate NoUpper(s: string) {
    forall i :: 0 <= i < |s| ==> !('A' <= s[i] <= 'Z')
  }

  /** Go's `strings.ToLower`, for the ASCII letters. */
  function ToLower(s: string): (r: string)
    ensures |r| == |s| && NoUpper(r)
    ensures forall i :: 0 <= i < |s| ==> r[i] == LowerChar(s[i])
    ensures NoUpper(s) ==> r == s
  {
    seq(|s|, i requires 0 <= i < |s| => LowerChar(s[i]))
  }

  predicate NoLower(s: string) {
    forall i :: 0 <= i < |s| ==> !('a' <= s[i] <= 'z')
  }

  /** Go's `strings.ToUpper`, for the ASCII letters. */
  function ToUpper(s: string): (r: string)
    ensures |r| == |s| && NoLower(r)
    ensures forall i :: 0 <= i < |s| ==> r[i] == UpperChar(s[i])
    ensures NoLower(s) ==> r == s
  {
    seq(|s|, i requires 0 <= i < |s| => UpperChar(s[i]))
  }

  /** Lower-casing never moves white space to either end. */
  lemma ToLowerOfTrimmed(s: string)
    requires Trimmed(s)
    ensures Trimmed(ToLower(s))
  {
  }

  /** Upper-casing works character by character, so it distributes over concatenation. */
  lemma ToUpperConcat(a: string, b: string)
    ensures ToUpper(a + b) == ToUpper(a) + ToUpper(b)
  {
    assert forall i :: 0 <= i < |a + b| ==> ToUpper(a + b)[i] == (ToUpper(a) + ToUpper(b))[i];
  }

  /** White space has no lower-case letter to change. */
  lemma ToUpperOfSpace(s: string)
    requires AllSpace(s)
    ensures ToUpper(s) == s
  {
    assert NoLower(s) by {
      forall i | 0 <= i < |s| ensures !('a' <= s[i] <= 'z') {
        assert IsSpace(s[i]);
      }
    }
  }

  /** Text without a decimal digit keeps none when trimmed. */
  lemma TrimSpaceKeepsNoDigits(s: string)
    requires forall i :: 0 <= i < |s| ==> !IsDigit(s[i])
    ensures forall i :: 0 <= i < |TrimSpace(s)| ==> !IsDigit(TrimSpace(s)[i])
  {
    TrimSpaceIsSlice(s);
    var k := LeadingSpaceCount(s);
    assert forall i :: 0 <= i < |TrimSpace(s)| ==> TrimSpace(s)[i] == s[k + i];
  }

  predicate HasSuffix(s: string, suffix: string) {
    |suffix| <= |s| && s[|s| - |suffix|..] == suffix
  }

  /** Go's `strings.TrimSuffix`. */
  function TrimSuffix(s: string, suffix: string): (r: string)
    ensures HasSuffix(s, suffix) ==> r + suffix == s
    ensures !HasSuffix(s, suffix) ==> r == s
  {
    if HasSuffix(s, suffix) then s[..|s| - |suffix|] else s
  }

  predicate IsDigit(c: char) {
    '0' <= c <= '9'
  }

  predicate AllDigits(s: string) {
    forall i :: 0 <= i < |s| ==> IsDigit(s[i])
  }

  /** Digits are not white space, so a run of them is already trimmed. */
  lemma DigitsAreTrimmed(s: string)
    requires AllDigits(s)
    ensures Trimmed(s)
  {
    if s != [] {
      assert IsDigit(s[0]) && IsDigit(s[|s| - 1]);
    }
  }

  /** The value of a run of decimal digits, most significant first. */
  function DigitsValue(ds: string): nat
    requires AllDigits(ds)
  {
    if ds == [] then 0 else DigitsValue(ds[..|ds| - 1]) * 10 + (ds[|ds| - 1] as int - '0' as int)
  }

  function DigitChar(d: nat): char
    requires d < 10
  {
    ('0' as int + d) as char
  }

  /** The decimal rendering of a natural number, without leading zeros. */
  function NatToDecimal(n: nat): (r: string)
    ensures |r| >= 1 && AllDigits(r)
    ensures |r| > 1 ==> r[0] != '0'
  {
    if n < 10 then [DigitChar(n)] else NatToDecimal(n / 10) + [DigitChar(n % 10)]
  }

  /** Go's `fmt` rendering of an integer with the `%d` verb. */
  function IntToDecimal(i: int): (r: string)
    ensures i >= 0 ==> AllDigits(r) && |r| >= 1
    ensures i < 0 ==> |r| >= 2 && r[0] == '-' && AllDigits(r[1..])
  {
    if i < 0 then "-" + NatToDecimal(-i) else NatToDecimal(i)
  }

  /** Reading back a rendered number gives the number. */
  lemma {:induction false} DecimalRoundTrip(n: nat)
    ensures DigitsValue(NatToDecimal(n)) == n
  {
    var r := NatToDecimal(n);
    if n >= 10 {
      assert r[..|r| - 1] == NatToDecimal(n / 10);
      DecimalRoundTrip(n / 10);
    }
  }

  lemma NatToDecimalInjective(a: nat, b: nat)
    requires NatToDecimal(a) == NatToDecimal(b)
    ensures a == b
  {
    DecimalRoundTrip(a);
    DecimalRoundTrip(b);
  }

  /** Distinct integers are rendered differently by `%d`. */
  lemma IntToDecimalInjective(a: int, b: int)
    requires IntToDecimal(a) == IntToDecimal(b)
    ensures a == b
  {
    if a < 0 && b < 0 {
      assert NatToDecimal(-a) == IntToDecimal(a)[1..];
      NatToDecimalInjective(-a, -b);
    } else if a >= 0 && b >= 0 {
      NatToDecimalInjective(a, b);
    }
  }

  /** The longest prefix of `s` made of decimal digits. */
  function LeadingDigits(s: string): (r: string)
    ensures |r| <= |s| && r == s[..|r|] && AllDigits(r)
    ensures |r| < |s| ==> !IsDigit(s[|r|])
  {
    if s != [] && IsDigit(s[0]) then [s[0]] + LeadingDigits(s[1..]) else []
  }

  lemma LeadingDigitsOfDigits(s: string)
    requires AllDigits(s)
    ensures LeadingDigits(s) == s
  {
  }

  /** A sign, if any, and the rest of the text. */
  function SplitSign(s: string): (bool, string) {
    if s != [] && (s[0] == '+' || s[0] == '-') then (s[0] == '-', s[1..]) else (false, s)
  }

  /**
   * `fmt.Sscanf(s, "%d", &v)` into an int64, on text without leading white space:
   * an optional sign, at least one decimal digit, and whatever follows is ignored;
   * a value outside the int64 range is an error.
   */
  function ScanInt64(s: string): (r: Option<int>)
    ensures r.Some? ==> INT64_MIN <= r.value <= INT64_MAX
    ensures r.Some? ==> s != [] && (IsDigit(s[0]) || s[0] == '+' || s[0] == '-')
    ensures r.Some? && r.value < 0 ==> s[0] == '-'
    ensures (forall i :: 0 <= i < |s| ==> !IsDigit(s[i])) ==> r.None?
  {
    var (negative, rest) := SplitSign(s);
    var ds := LeadingDigits(rest);
    if ds == [] then None
    else
      var v: int := if negative then -(DigitsValue(ds) as int) else DigitsValue(ds);
      if INT64_MIN <= v <= INT64_MAX then Some(v) else None
  }

  /** Scanning the rendering of a natural number gives it back when it fits in an int64, and fails otherwise. */
  lemma ScanRenderedNat(n: nat)
    ensures n <= INT64_MAX ==> ScanInt64(NatToDecimal(n)) == Some(n)
    ensures n > INT64_MAX ==> ScanInt64(NatToDecimal(n)) == None
  {
    var r := NatToDecimal(n);
    assert SplitSign(r) == (false, r);
    LeadingDigitsOfDigits(r);
    DecimalRoundTrip(n);
  }

  /**
   * `strconv.Atoi` on a 64-bit platform, keeping the value it returns beside its
   * error. After an optional sign the digits are read left to right: a non-digit
   * (or no digit at all) is a syntax error and gives 0, unless the digits read
   * so far already overflow an unsigned 64-bit number; an overflowing value is
   * clamped to the nearest int64 bound.
   */
  function Atoi(s: string): (r: int)
    ensures INT64_MIN <= r <= INT64_MAX
    ensures r < 0 ==> s != [] && s[0] == '-'
    ensures r != 0 ==> SplitSign(s).1 != [] && IsDigit(SplitSign(s).1[0])
    ensures !AllDigits(SplitSign(s).1) && DigitsValue(LeadingDigits(SplitSign(s).1)) <= UINT64_MAX ==> r == 0
  {
    var (negative, rest) := SplitSign(s);
    var ds := LeadingDigits(rest);
    if ds == [] || (ds != rest && DigitsValue(ds) <= UINT64_MAX) then 0
    else
      var v: int := if negative then -(DigitsValue(ds) as int) else DigitsValue(ds);
      if v < INT64_MIN then INT64_MIN else if v > INT64_MAX then INT64_MAX else v
  }

  /** Atoi reads back every int64 rendered by `%d`. */
  lemma AtoiRoundTrip(i: int)
    requires INT64_MIN <= i <= INT64_MAX
    ensures Atoi(IntToDecimal(i)) == i
  {
    var r := IntToDecimal(i);
    if i < 0 {
      assert SplitSign(r) == (true, NatToDecimal(-i));
      LeadingDigitsOfDigits(NatToDecimal(-i));
      DecimalRoundTrip(-i);
    } else {
      assert SplitSign(r) == (false, NatToDecimal(i));
      LeadingDigitsOfDigits(NatToDecimal(i));
      DecimalRoundTrip(i);
    }
  }

  /** Two's-complement wrap-around of Go's int64 arithmetic. */
  function WrapInt64(x: int): (r: int)
    ensures INT64_MIN <= r <= INT64_MAX
    ensures (r - x) % TWO_TO_64 == 0
    ensures INT64_MIN <= x <= INT64_MAX ==> r == x
  {
    (x - INT64_MIN) % TWO_TO_64 + INT64_MIN
  }

  /** One turn of wrap-around: just above the int64 range is just above its bottom. */
  lemma WrapInt64Once(x: int)
    requires INT64_MAX < x <= INT64_MAX + TWO_TO_64
    ensures WrapInt64(x) == x - TWO_TO_64
  {
    assert TWO_TO_64 <= x - INT64_MIN < 2 * TWO_TO_64;
  }
}
