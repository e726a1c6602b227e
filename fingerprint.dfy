/**
 * The identity of a conversion request: the normalised target format, the
 * effective quality, the task key built from them and the content digest, and
 * the output path derived from a key.
 */
module Fingerprint {
  import opened Text

  /** The task key: hex MD5 of the input, target format, and quality (0 unless jpg). */
  datatype ProcessKey = ProcessKey(md5: string, format: string, quality: int)

  const DEFAULT_JPG_QUALITY: int := 80

  /**
   * The requested format, trimmed and lower-cased; blank means webp and "jpeg"
   * is spelled "jpg". Anything else is passed on as it is, to be judged by
   * IsSupportedFormat.
   */
  function NormalizeFormat(f: string): (r: string)
    ensures r != [] && r != "jpeg"
    ensures Trimmed(r) && NoUpper(r)
  {
    var ff := ToLower(TrimSpace(f));
    ToLowerOfTrimmed(TrimSpace(f));
    if ff == "" then
      assert Trimmed("webp") && NoUpper("webp");
      "webp"
    else if ff == "jpeg" then
      assert Trimmed("jpg") && NoUpper("jpg");
      "jpg"
    else
      ff
  }

  /** The three target formats. */
  predicate IsSupportedFormat(f: string) {
    f == "webp" || f == "png" || f == "jpg"
  }

  /** Each supported format is its own normal form. */
  lemma SupportedFormatsAreNormal(f: string)
    ensures IsSupportedFormat(f) ==> NormalizeFormat(f) == f
  {
    if IsSupportedFormat(f) {
      assert !IsSpace(f[0]) && !IsSpace(f[|f| - 1]);
      assert NoUpper(f);
      NormalFormIsFixed(f);
    }
  }

  /** Text already trimmed and lower case, other than blank and "jpeg", normalises to itself. */
  lemma NormalFormIsFixed(f: string)
    requires Trimmed(f) && NoUpper(f) && f != "" && f != "jpeg"
    ensures NormalizeFormat(f) == f
  {
    TrimSpaceOfTrimmed(f);
  }

  /** What normalisation does, case by case. */
  lemma NormalizeFormatCases(f: string)
    ensures ToLower(TrimSpace(f)) == "" ==> NormalizeFormat(f) == "webp"
    ensures ToLower(TrimSpace(f)) == "jpeg" ==> NormalizeFormat(f) == "jpg"
    ensures ToLower(TrimSpace(f)) !in {"", "jpeg"} ==> NormalizeFormat(f) == ToLower(TrimSpace(f))
  {
  }

  /** Normalising a normalised format changes nothing. */
  lemma NormalizeFormatIdempotent(f: string)
    ensures NormalizeFormat(NormalizeFormat(f)) == NormalizeFormat(f)
  {
    var r := NormalizeFormat(f);
    TrimSpaceOfTrimmed(r);
  }

  /** A request is accepted exactly when its trimmed, lower-cased format is blank or one of the four names. */
  lemma NormalizedFormatSupported(f: string)
    ensures IsSupportedFormat(NormalizeFormat(f)) <==> ToLower(TrimSpace(f)) in {"", "webp", "png", "jpg", "jpeg"}
  {
  }

  lemma TrimLeftExample()
    ensures TrimLeft(" JPEG\n") == "JPEG\n"
  {
    assert IsSpace(' ') && !IsSpace('J');
    assert " JPEG\n"[1..] == "JPEG\n";
    assert TrimLeft("JPEG\n") == "JPEG\n";
  }

  lemma TrimRightExample()
    ensures TrimRight("JPEG\n") == "JPEG"
  {
    assert IsSpace('\n') && !IsSpace('G');
    assert "JPEG\n"[..4] == "JPEG";
    assert TrimRight("JPEG") == "JPEG";
  }

  lemma TrimSpaceExample()
    ensures TrimSpace(" JPEG\n") == "JPEG"
  {
    TrimLeftExample();
    TrimRightExample();
  }

  lemma ToLowerExample()
    ensures ToLower("JPEG") == "jpeg"
  {
    var l := ToLower("JPEG");
    assert l[0] == 'j' && l[1] == 'p' && l[2] == 'e' && l[3] == 'g';
  }

  /** A padded, upper-case "JPEG" becomes "jpg". */
  lemma NormalizeFormatExample()
    ensures NormalizeFormat(" JPEG\n") == "jpg"
  {
    TrimSpaceExample();
    ToLowerExample();
  }

  /**
   * The quality a task runs with: for jpg the requested value when it lies in
   * 1..100 and 80 otherwise; 0 for every other format, whatever was requested.
   */
  function EffectiveQuality(format: string, requested: int): (q: int)
    ensures format != "jpg" ==> q == 0
    ensures format == "jpg" ==> 1 <= q <= 100
    ensures format == "jpg" && 1 <= requested <= 100 ==> q == requested
    ensures format == "jpg" && !(1 <= requested <= 100) ==> q == DEFAULT_JPG_QUALITY
  {
    if format == "jpg" then
      if requested <= 0 || requested > 100 then DEFAULT_JPG_QUALITY else requested
    else
      0
  }

  /** The key of a request for `format` at the requested quality, on content with the given digest. */
  function KeyFor(digest: string, format: string, requested: int): (k: ProcessKey)
    ensures k.md5 == digest && k.format == format
    ensures format == "jpg" ==> 1 <= k.quality <= 100
    ensures format != "jpg" ==> k.quality == 0
    ensures k.quality == EffectiveQuality(format, requested)
    ensures IsSupportedFormat(format) ==> WellFormedKey(k)
  {
    ProcessKey(digest, format, EffectiveQuality(format, requested))
  }

  /** A key whose format is supported and whose quality is already effective. */
  predicate WellFormedKey(k: ProcessKey) {
    IsSupportedFormat(k.format) && EffectiveQuality(k.format, k.quality) == k.quality
  }

  predicate IsLowerHex(c: char) {
    '0' <= c <= '9' || 'a' <= c <= 'f'
  }

  /** `hex.EncodeToString` of a 16-byte MD5 sum. */
  predicate IsHexDigest(s: string) {
    |s| == 32 && forall i :: 0 <= i < |s| ==> IsLowerHex(s[i])
  }

  predicate ValidKey(k: ProcessKey) {
    IsHexDigest(k.md5) && WellFormedKey(k)
  }

  /** Keys of supported formats are well formed; other formats ignore the requested quality. */
  lemma KeyForWellFormed(digest: string, format: string, q1: int, q2: int)
    requires IsSupportedFormat(format)
    ensures WellFormedKey(KeyFor(digest, format, q1))
    ensures format != "jpg" ==> KeyFor(digest, format, q1) == KeyFor(digest, format, q2)
    ensures format == "jpg" && 1 <= q1 <= 100 && 1 <= q2 <= 100 && q1 != q2 ==>
              KeyFor(digest, format, q1) != KeyFor(digest, format, q2)
  {
  }

  function ArtifactPath(md5: string, extension: string): string {
    "output/" + md5 + "." + extension
  }

  /** The extension of a key's artifact: "jpg_<quality>" for jpg, the format otherwise. */
  function Extension(k: ProcessKey): string {
    if k.format == "jpg" then "jpg_" + IntToDecimal(k.quality) else k.format
  }

  /** `output/<md5>.jpg_<quality>` for jpg keys and `output/<md5>.<format>` for the others. */
  function OutputPathForKey(k: ProcessKey): string {
    ArtifactPath(k.md5, Extension(k))
  }

  /** The layout of an artifact path: the directory, the digest, a dot and the extension. */
  lemma OutputPathLayout(k: ProcessKey)
    ensures |OutputPathForKey(k)| == 8 + |k.md5| + |Extension(k)|
    ensures OutputPathForKey(k)[..7] == "output/"
    ensures OutputPathForKey(k)[7..7 + |k.md5|] == k.md5 && OutputPathForKey(k)[7 + |k.md5|] == '.'
    ensures k.format == "jpg" ==> OutputPathForKey(k)[8 + |k.md5|..] == "jpg_" + IntToDecimal(k.quality)
    ensures k.format != "jpg" ==> OutputPathForKey(k)[8 + |k.md5|..] == k.format
  {
  }

  lemma ArtifactPathInjective(m1: string, e1: string, m2: string, e2: string)
    requires |m1| == |m2| && ArtifactPath(m1, e1) == ArtifactPath(m2, e2)
    ensures m1 == m2 && e1 == e2
  {
    var p := ArtifactPath(m1, e1);
    assert m1 == p[7..7 + |m1|] == m2;
    assert e1 == p[8 + |m1|..] == e2;
  }

  /** Two jpg artifacts of the same content at different qualities never share a path. */
  lemma JpgQualitiesGetDistinctPaths(md5: string, q1: int, q2: int)
    requires q1 != q2
    ensures OutputPathForKey(ProcessKey(md5, "jpg", q1)) != OutputPathForKey(ProcessKey(md5, "jpg", q2))
  {
    var k1, k2 := ProcessKey(md5, "jpg", q1), ProcessKey(md5, "jpg", q2);
    if OutputPathForKey(k1) == OutputPathForKey(k2) {
      ArtifactPathInjective(md5, Extension(k1), md5, Extension(k2));
      assert IntToDecimal(q1) == Extension(k1)[4..] == Extension(k2)[4..] == IntToDecimal(q2);
      IntToDecimalInjective(q1, q2);
    }
  }

  /** Distinct valid keys write distinct artifacts, so no two tasks share an output file. */
  lemma OutputPathInjective(k1: ProcessKey, k2: ProcessKey)
    requires ValidKey(k1) && ValidKey(k2)
    requires OutputPathForKey(k1) == OutputPathForKey(k2)
    ensures k1 == k2
  {
    ArtifactPathInjective(k1.md5, Extension(k1), k2.md5, Extension(k2));
    if k1.format == "jpg" && k2.format == "jpg" {
      assert IntToDecimal(k1.quality) == Extension(k1)[4..] == Extension(k2)[4..] == IntToDecimal(k2.quality);
      IntToDecimalInjective(k1.quality, k2.quality);
    }
  }
}
