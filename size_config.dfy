/**
 * The configuration values the core depends on: the upload size limit, written
 * as a human-readable size string, and the number of conversions allowed to run
 * at once.
 */
module SizeConfig {
  import opened Wrappers
  import opened Text

  const KIB: int := 0x400
  const MIB: int := 0x10_0000
  const GIB: int := 0x4000_0000

  /**
   * The number part of an upper-cased size string and its multiplier: the first
   * of the suffixes GB, G, MB, M, KB, K, B that the string ends with is removed;
   * without any of them the multiplier is 1.
   */
  function SplitUnit(str: string): (r: (string, int))
    ensures |str| - 2 <= |r.0| <= |str| && r.0 == str[..|r.0|]
    ensures r.1 == 1 || r.1 == KIB || r.1 == MIB || r.1 == GIB
  {
    if HasSuffix(str, "GB") then (TrimSuffix(str, "GB"), GIB)
    else if HasSuffix(str, "G") then (TrimSuffix(str, "G"), GIB)
    else if HasSuffix(str, "MB") then (TrimSuffix(str, "MB"), MIB)
    else if HasSuffix(str, "M") then (TrimSuffix(str, "M"), MIB)
    else if HasSuffix(str, "KB") then (TrimSuffix(str, "KB"), KIB)
    else if HasSuffix(str, "K") then (TrimSuffix(str, "K"), KIB)
    else if HasSuffix(str, "B") then (TrimSuffix(str, "B"), 1)
    else (str, 1)
  }

  /**
   * The unit is read off the last one or two characters: GB, MB and KB remove
   * two, G, M, K and a B after anything else remove one, and any other ending
   * leaves the text whole with multiplier 1.
   */
  lemma SplitUnitCases(str: string)
    ensures |str| >= 2 && str[|str| - 1] == 'B' && str[|str| - 2] == 'G' ==> SplitUnit(str) == (str[..|str| - 2], GIB)
    ensures |str| >= 2 && str[|str| - 1] == 'B' && str[|str| - 2] == 'M' ==> SplitUnit(str) == (str[..|str| - 2], MIB)
    ensures |str| >= 2 && str[|str| - 1] == 'B' && str[|str| - 2] == 'K' ==> SplitUnit(str) == (str[..|str| - 2], KIB)
    ensures |str| >= 1 && str[|str| - 1] == 'B' && (|str| == 1 || str[|str| - 2] !in "GMK") ==> SplitUnit(str) == (str[..|str| - 1], 1)
    ensures |str| >= 1 && str[|str| - 1] == 'G' ==> SplitUnit(str) == (str[..|str| - 1], GIB)
    ensures |str| >= 1 && str[|str| - 1] == 'M' ==> SplitUnit(str) == (str[..|str| - 1], MIB)
    ensures |str| >= 1 && str[|str| - 1] == 'K' ==> SplitUnit(str) == (str[..|str| - 1], KIB)
    ensures str == [] || str[|str| - 1] !in "GMKB" ==> SplitUnit(str) == (str, 1)
  {
    SuffixesOf(str);
  }

  /**
   * A size string in bytes: case-insensitive unit suffix, surrounding white space
   * allowed, a decimal int64 number part (0 when it cannot be read), and the
   * product wrapping around like Go's int64 multiplication.
   */
  function ParseSize(s: string): (r: int)
    ensures INT64_MIN <= r <= INT64_MAX
  {
    var (body, mult) := SplitUnit(TrimSpace(ToUpper(s)));
    match ScanInt64(TrimSpace(body))
    case None => 0
    case Some(v) => WrapInt64(v * mult)
  }

  /** The units a size string can be written in. */
  datatype Unit = Bytes | B | K | KB | M | MB | G | GB

  function Suffix(u: Unit): string {
    match u
    case Bytes => ""
    case B => "B"
    case K => "K"
    case KB => "KB"
    case M => "M"
    case MB => "MB"
    case G => "G"
    case GB => "GB"
  }

  function Multiplier(u: Unit): nat {
    match u
    case Bytes => 1
    case B => 1
    case K => KIB
    case KB => KIB
    case M => MIB
    case MB => MIB
    case G => GIB
    case GB => GIB
  }

  lemma HasOneLetterSuffix(s: string, c: char)
    ensures HasSuffix(s, [c]) <==> |s| >= 1 && s[|s| - 1] == c
  {
    if |s| >= 1 && s[|s| - 1] == c {
      assert s[|s| - 1..] == [c];
    }
  }

  lemma HasTwoLetterSuffix(s: string, a: char, b: char)
    ensures HasSuffix(s, [a, b]) <==> |s| >= 2 && s[|s| - 2] == a && s[|s| - 1] == b
  {
    if |s| >= 2 && s[|s| - 2] == a && s[|s| - 1] == b {
      assert s[|s| - 2..] == [a, b];
    }
  }

  /** Which of the unit suffixes a string ends with is decided by its last two characters. */
  lemma SuffixesOf(s: string)
    ensures HasSuffix(s, "GB") <==> |s| >= 2 && s[|s| - 2] == 'G' && s[|s| - 1] == 'B'
    ensures HasSuffix(s, "MB") <==> |s| >= 2 && s[|s| - 2] == 'M' && s[|s| - 1] == 'B'
    ensures HasSuffix(s, "KB") <==> |s| >= 2 && s[|s| - 2] == 'K' && s[|s| - 1] == 'B'
    ensures HasSuffix(s, "G") <==> |s| >= 1 && s[|s| - 1] == 'G'
    ensures HasSuffix(s, "M") <==> |s| >= 1 && s[|s| - 1] == 'M'
    ensures HasSuffix(s, "K") <==> |s| >= 1 && s[|s| - 1] == 'K'
    ensures HasSuffix(s, "B") <==> |s| >= 1 && s[|s| - 1] == 'B'
  {
    HasTwoLetterSuffix(s, 'G', 'B');
    HasTwoLetterSuffix(s, 'M', 'B');
    HasTwoLetterSuffix(s, 'K', 'B');
    HasOneLetterSuffix(s, 'G');
    HasOneLetterSuffix(s, 'M');
    HasOneLetterSuffix(s, 'K');
    HasOneLetterSuffix(s, 'B');
  }

  lemma SplitRenderedUnit(digits: string, u: Unit)
    requires digits != [] && AllDigits(digits)
    ensures SplitUnit(digits + Suffix(u)) == (digits, Multiplier(u))
  {
    var s := digits + Suffix(u);
    var n := |digits|;
    SuffixesOf(s);
    assert s[..n] == digits;
    assert IsDigit(s[n - 1]);
    match u {
      case Bytes =>
        assert s == digits;
      case B =>
        assert s[|s| - 1] == 'B' && (|s| < 2 || s[|s| - 2] == digits[n - 1]);
      case K =>
        assert s[|s| - 1] == 'K';
      case KB =>
        assert s[|s| - 2] == 'K' && s[|s| - 1] == 'B';
      case M =>
        assert s[|s| - 1] == 'M';
      case MB =>
        assert s[|s| - 2] == 'M' && s[|s| - 1] == 'B';
      case G =>
        assert s[|s| - 1] == 'G';
      case GB =>
        assert s[|s| - 2] == 'G' && s[|s| - 1] == 'B';
    }
  }

  /** A rendered number followed by a unit is split back into the number and the unit's multiplier. */
  lemma RenderedSizeParts(n: nat, u: Unit)
    ensures SplitUnit(TrimSpace(ToUpper(NatToDecimal(n) + Suffix(u)))) == (NatToDecimal(n), Multiplier(u))
    ensures TrimSpace(NatToDecimal(n)) == NatToDecimal(n)
  {
    var digits := NatToDecimal(n);
    CanonicalSplit(digits, u);
    DigitsAreTrimmed(digits);
    TrimSpaceOfTrimmed(digits);
  }

  /** Digits followed by a unit, trimmed and upper-cased, split back into the digits and the multiplier. */
  lemma CanonicalSplit(digits: string, u: Unit)
    requires digits != [] && AllDigits(digits)
    ensures SplitUnit(TrimSpace(ToUpper(digits + Suffix(u)))) == (digits, Multiplier(u))
  {
    RenderedSizeIsCanonical(digits, u);
    SplitRenderedUnit(digits, u);
  }

  /**
   * A number rendered in decimal and followed by a unit parses to the number
   * times the unit's multiplier, wrapped to int64.
   */
  lemma ParseSizeRendered(n: nat, u: Unit)
    requires n <= INT64_MAX
    ensures ParseSize(NatToDecimal(n) + Suffix(u)) == WrapInt64(n * Multiplier(u))
  {
    RenderedSizeParts(n, u);
    ScanRenderedNat(n);
  }

  /** A number too large for an int64 fails to scan, and the size is 0. */
  lemma ParseSizeOutOfRange(n: nat, u: Unit)
    requires n > INT64_MAX
    ensures ParseSize(NatToDecimal(n) + Suffix(u)) == 0
  {
    RenderedSizeParts(n, u);
    ScanRenderedNat(n);
  }

  /** Text without any decimal digit has no number to scan, and the size is 0. */
  lemma ParseSizeWithoutDigits(s: string)
    requires forall i :: 0 <= i < |s| ==> !IsDigit(s[i])
    ensures ParseSize(s) == 0
  {
    var upper := ToUpper(s);
    assert forall i :: 0 <= i < |upper| ==> upper[i] == UpperChar(s[i]);
    TrimSpaceKeepsNoDigits(upper);
    var body := SplitUnit(TrimSpace(upper)).0;
    assert forall i :: 0 <= i < |body| ==> body[i] == TrimSpace(upper)[i];
    TrimSpaceKeepsNoDigits(body);
  }

  /**
   * The unit is case-insensitive and white space around the size is ignored:
   * a padded size with its unit in any case parses like the canonical spelling.
   */
  lemma ParseSizeIgnoresCaseAndSpace(pre: string, n: nat, unit: string, u: Unit, post: string)
    requires AllSpace(pre) && AllSpace(post) && ToUpper(unit) == Suffix(u)
    ensures ParseSize(pre + NatToDecimal(n) + unit + post) == ParseSize(NatToDecimal(n) + Suffix(u))
  {
    PaddedSizeIsCanonical(pre, NatToDecimal(n), unit, u, post);
    RenderedSizeIsCanonical(NatToDecimal(n), u);
    SameCanonicalSameSize(pre + NatToDecimal(n) + unit + post, NatToDecimal(n) + Suffix(u));
  }

  /** Trimming and upper-casing a padded size with its unit in any case gives the canonical spelling. */
  lemma PaddedSizeIsCanonical(pre: string, digits: string, unit: string, u: Unit, post: string)
    requires AllSpace(pre) && AllSpace(post) && ToUpper(unit) == Suffix(u)
    requires digits != [] && AllDigits(digits)
    ensures TrimSpace(ToUpper(pre + digits + unit + post)) == digits + Suffix(u)
  {
    UpperOfPaddedSize(pre, digits, unit, post);
    RenderedSizeIsTrimmed(digits, u);
    TrimSpaceOfPaddedPair(pre, digits, Suffix(u), post);
  }

  lemma TrimSpaceOfPaddedPair(pre: string, a: string, b: string, post: string)
    requires AllSpace(pre) && AllSpace(post) && a != [] && Trimmed(a + b)
    ensures TrimSpace(pre + a + b + post) == a + b
  {
    assert pre + a + b + post == pre + (a + b) + post;
    TrimSpacePadded(pre, a + b, post);
  }

  /** ParseSize reads only the trimmed, upper-cased text. */
  lemma SameCanonicalSameSize(a: string, b: string)
    requires TrimSpace(ToUpper(a)) == TrimSpace(ToUpper(b))
    ensures ParseSize(a) == ParseSize(b)
  {
  }

  /** Upper-casing a padded size changes only the letters of its unit. */
  lemma UpperOfPaddedSize(pre: string, digits: string, unit: string, post: string)
    requires AllSpace(pre) && AllSpace(post) && AllDigits(digits)
    ensures ToUpper(pre + digits + unit + post) == pre + digits + ToUpper(unit) + post
  {
    ToUpperConcat(pre + digits + unit, post);
    ToUpperConcat(pre + digits, unit);
    ToUpperConcat(pre, digits);
    ToUpperOfSpace(pre);
    ToUpperOfSpace(post);
    assert NoLower(digits) by {
      forall i | 0 <= i < |digits| ensures !('a' <= digits[i] <= 'z') {
        assert IsDigit(digits[i]);
      }
    }
  }

  /** A number padded with white space and followed by a unit in any case is that many units. */
  lemma ParseSizePaddedAnyCase(pre: string, n: nat, unit: string, u: Unit, post: string)
    requires AllSpace(pre) && AllSpace(post) && ToUpper(unit) == Suffix(u)
    requires n * Multiplier(u) <= INT64_MAX
    ensures ParseSize(pre + NatToDecimal(n) + unit + post) == n * Multiplier(u)
  {
    ParseSizeIgnoresCaseAndSpace(pre, n, unit, u, post);
    ParseSizeRenderedExact(n, u);
  }

  /** Digits followed by a unit are already upper case and trimmed. */
  lemma RenderedSizeIsCanonical(digits: string, u: Unit)
    requires digits != [] && AllDigits(digits)
    ensures TrimSpace(ToUpper(digits + Suffix(u))) == digits + Suffix(u)
  {
    RenderedSizeIsTrimmed(digits, u);
    TrimSpaceOfTrimmed(digits + Suffix(u));
  }

  lemma RenderedSizeIsTrimmed(digits: string, u: Unit)
    requires digits != [] && AllDigits(digits)
    ensures NoLower(digits + Suffix(u)) && Trimmed(digits + Suffix(u))
  {
    var s := digits + Suffix(u);
    assert NoLower(s) by {
      forall i | 0 <= i < |s|
        ensures !('a' <= s[i] <= 'z')
      {
        if i < |digits| {
          assert s[i] == digits[i];
        }
      }
    }
    assert s[0] == digits[0];
  }

  /** When the product fits in an int64 it is the parsed size. */
  lemma ParseSizeRenderedExact(n: nat, u: Unit)
    requires n * Multiplier(u) <= INT64_MAX
    ensures ParseSize(NatToDecimal(n) + Suffix(u)) == n * Multiplier(u)
  {
    var m := Multiplier(u);
    assert m == 1 || m == KIB || m == MIB || m == GIB;
    assert n <= n * m;
    ParseSizeRendered(n, u);
  }

  lemma ParseSizeTenMB()
    ensures ParseSize("10MB") == 10 * MIB
  {
    assert NatToDecimal(10) + Suffix(MB) == "10MB";
    ParseSizeRenderedExact(10, MB);
  }

  /**
   * The upload limit in bytes: the configured size when it parses to a positive
   * number, 10MB otherwise.
   */
  function MaxUploadBytes(configured: string): (r: int)
    ensures r > 0
    ensures ParseSize(configured) > 0 ==> r == ParseSize(configured)
    ensures ParseSize(configured) <= 0 ==> r == 10 * MIB
  {
    var v := ParseSize(configured);
    if v <= 0 then ParseSizeTenMB(); ParseSize("10MB") else v
  }

  /** The size of the conversion pool: the configured value when positive, 3 otherwise. */
  function MaxConcurrentTasks(configured: int): (r: int)
    ensures r >= 1
    ensures configured > 0 ==> r == configured
    ensures configured <= 0 ==> r == 3
  {
    if configured <= 0 then 3 else configured
  }

  lemma ParseSizeInGiB(n: nat)
    requires n <= INT64_MAX
    ensures ParseSize(NatToDecimal(n) + "G") == WrapInt64(n * 0x4000_0000)
  {
    assert Suffix(G) == "G";
    ParseSizeRendered(n, G);
  }

  /**
   * The product wraps around instead of failing: a count of G from 2^33 up to
   * 2^34 is at least 2^63 bytes and wraps to a negative number, and beyond 2^34 G
   * the count wraps back to a small positive size.
   */
  lemma ParseSizeOverflowWraps(n: nat)
    requires 0x2_0000_0000 <= n < 0x6_0000_0000
    ensures ParseSize(NatToDecimal(n) + "G") == (n - 0x4_0000_0000) * 0x4000_0000
  {
    ParseSizeInGiB(n);
    WrapInt64Once(n * 0x4000_0000);
  }

  /** An upload limit that overflows to a negative size falls back to 10MB. */
  lemma OverflowingLimitFallsBack(n: nat)
    requires 0x2_0000_0000 <= n <= 0x4_0000_0000
    ensures MaxUploadBytes(NatToDecimal(n) + "G") == 10 * MIB
  {
    ParseSizeOverflowWraps(n);
  }
}
