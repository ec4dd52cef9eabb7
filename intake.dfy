/**
 * The intake side of the upload route in src/controllers/v1.ts: the JPEG name
 * filter handed to multer, the name the disk storage gives a stored file
 * (`<Date.now()>_<originalname>`), the 2 MiB size limit, and the outcome the
 * configured `multer(...).single("file")` middleware hands to the route's
 * callback.
 */
module Intake {
  import opened Wrappers

  /** The message of the Error the filter passes to multer's callback. */
  const OnlyJpgMessage := "Only JPG files are allowed!"

  /** `limits.fileSize` of the middleware: 2 MiB, in bytes. */
  const MaxFileSize: nat := 1024 * 1024 * 2

  /** The one multipart field `.single("file")` accepts a file from. */
  const FileField := "file"

  /** multer's error codes for an oversized file and for a file in another field. */
  const LimitFileSize := "LIMIT_FILE_SIZE"
  const LimitUnexpectedFile := "LIMIT_UNEXPECTED_FILE"

  // ---------------------------------------------------------------------------
  // The JPEG name filter
  // ---------------------------------------------------------------------------

  /** What the filter tells multer: keep the file, or abort with an error message. */
  datatype Verdict = Accept | Reject(message: string)

  predicate EndsWith(s: string, suffix: string)
  {
    |suffix| <= |s| && s[|s| - |suffix|..] == suffix
  }

  /**
   * Reference semantics of `originalname.match(/\.(jpg|jpeg)$/)`: the regular
   * expression is not anchored at the start, so `match` searches every start
   * position `i`; without the `m` flag `$` matches only at the end of the
   * string, so a match from `i` means the rest of the string is exactly
   * ".jpg" or ".jpeg". The comparison is case-sensitive (no `i` flag).
   */
  ghost predicate MatchesFrom(s: string, i: int)
  {
    0 <= i <= |s| && (s[i..] == ".jpg" || s[i..] == ".jpeg")
  }

  ghost predicate RegexFinds(s: string)
  {
    exists i :: MatchesFrom(s, i)
  }

  /** imageFilter: accept exactly the names that end in ".jpg" or ".jpeg". */
  function ImageFilter(originalName: string): (v: Verdict)
    ensures v.Reject? ==> v.message == OnlyJpgMessage
  {
    if EndsWith(originalName, ".jpg") || EndsWith(originalName, ".jpeg") then Accept
    else Reject(OnlyJpgMessage)
  }

  /** The suffix test decides exactly what the regular-expression search finds. */
  lemma ImageFilterIsRegexSearch(name: string)
    ensures ImageFilter(name) == Accept <==> RegexFinds(name)
  {
    forall i | MatchesFrom(name, i)
      ensures EndsWith(name, ".jpg") || EndsWith(name, ".jpeg")
    {
      assert name[i..] == name[|name| - |name[i..]|..];
    }
    if EndsWith(name, ".jpg") {
      assert MatchesFrom(name, |name| - 4);
    } else if EndsWith(name, ".jpeg") {
      assert MatchesFrom(name, |name| - 5);
    }
  }

  /** The test is case-sensitive: upper-case extensions are refused whatever precedes them. */
  lemma UpperCaseExtensionRejected(stem: string)
    ensures ImageFilter(stem + ".JPG") == Reject(OnlyJpgMessage)
    ensures ImageFilter(stem + ".JPEG") == Reject(OnlyJpgMessage)
    ensures ImageFilter(stem + ".Jpg") == Reject(OnlyJpgMessage)
  {
    var a, b, c := stem + ".JPG", stem + ".JPEG", stem + ".Jpg";
    assert a[|a| - 1] == 'G';
    assert b[|b| - 1] == 'G';
    assert c[|c| - 3] == 'J';
    assert c[|c| - 1] == 'g' && c[|c| - 2] == 'p';
  }

  /** "jpg" without a dot in front of it is not enough: the dot is part of the pattern. */
  lemma ExtensionNeedsDot(stem: string)
    ensures ImageFilter(stem + "jpg") == Accept <==> EndsWith(stem, ".")
  {
    var s := stem + "jpg";
    assert s[|s| - 1] == 'g' && s[|s| - 2] == 'p' && s[|s| - 3] == 'j';
    if EndsWith(stem, ".") {
      assert s[|s| - 4..] == [s[|s| - 4]] + s[|s| - 3..];
      assert s[|s| - 4] == stem[|stem| - 1];
    }
    if EndsWith(s, ".jpg") {
      assert stem[|stem| - 1..] == [s[|s| - 4]];
    }
  }

  // ---------------------------------------------------------------------------
  // Date.now().toString() and the stored file name
  // ---------------------------------------------------------------------------

  predicate IsDigit(c: char)
  {
    '0' <= c <= '9'
  }

  predicate AllDigits(s: string)
  {
    forall i :: 0 <= i < |s| ==> IsDigit(s[i])
  }

  function DigitChar(d: nat): (c: char)
    requires d < 10
    ensures IsDigit(c)
  {
    ('0' as int + d) as char
  }

  function DigitValue(c: char): (d: nat)
    requires IsDigit(c)
    ensures d < 10 && DigitChar(d) == c
  {
    c as int - '0' as int
  }

  /** The decimal numeral `toString()` gives a non-negative integer number of milliseconds. */
  function Decimal(n: nat): (s: string)
    ensures |s| >= 1 && AllDigits(s)
    ensures s[0] == '0' ==> n == 0
  {
    if n < 10 then [DigitChar(n)] else Decimal(n / 10) + [DigitChar(n % 10)]
  }

  /** Reading a numeral back, most significant digit first. */
  function ParseDecimal(s: string): nat
    requires AllDigits(s)
  {
    if s == [] then 0 else ParseDecimal(s[..|s| - 1]) * 10 + DigitValue(s[|s| - 1])
  }

  /** A numeral without a leading zero, as `toString()` writes it. */
  predicate CanonicalNumeral(s: string)
  {
    |s| >= 1 && AllDigits(s) && (s[0] == '0' ==> |s| == 1)
  }

  lemma {:induction false} ParseDecimalOfDecimal(n: nat)
    ensures ParseDecimal(Decimal(n)) == n
  {
    var s := Decimal(n);
    if n >= 10 {
      ParseDecimalOfDecimal(n / 10);
      assert s[..|s| - 1] == Decimal(n / 10);
    }
  }

  lemma {:induction false} ParseDecimalPositive(s: string)
    requires |s| >= 1 && AllDigits(s) && s[0] != '0'
    ensures ParseDecimal(s) > 0
  {
    if |s| > 1 {
      ParseDecimalPositive(s[..|s| - 1]);
    }
  }

  lemma {:induction false} DecimalOfParseDecimal(s: string)
    requires CanonicalNumeral(s)
    ensures Decimal(ParseDecimal(s)) == s
  {
    if |s| > 1 {
      var front := s[..|s| - 1];
      DecimalOfParseDecimal(front);
      ParseDecimalPositive(front);
      var n := ParseDecimal(s);
      assert n / 10 == ParseDecimal(front) && n % 10 == DigitValue(s[|s| - 1]);
      assert s == front + [s[|s| - 1]];
    }
  }

  /** `${timestamp}_${file.originalname}`, the name the disk storage writes the file under. */
  function StoredName(timestamp: nat, originalName: string): (r: string)
    ensures EndsWith(r, originalName)
    ensures |r| > |originalName| + 1 && r[|r| - |originalName| - 1] == '_'
    ensures AllDigits(r[..|r| - |originalName| - 1])
  {
    assert (Decimal(timestamp) + "_" + originalName)[..|Decimal(timestamp)|] == Decimal(timestamp);
    Decimal(timestamp) + "_" + originalName
  }

  /** The position of the first occurrence of `c` in `s`, if there is one. */
  function IndexOf(s: string, c: char): (r: Option<nat>)
    ensures r.None? ==> c !in s
    ensures r.Some? ==> r.value < |s| && s[r.value] == c && c !in s[..r.value]
  {
    if s == [] then None
    else if s[0] == c then Some(0)
    else match IndexOf(s[1..], c)
      case None => None
      case Some(k) => (assert s[..k + 1] == [s[0]] + s[1..][..k]; Some(k + 1))
  }

  /** IndexOf finds the first occurrence, wherever it is. */
  lemma IndexOfFirst(s: string, c: char, k: nat)
    requires k < |s| && s[k] == c
    requires forall j :: 0 <= j < k ==> s[j] != c
    ensures IndexOf(s, c) == Some(k)
  {
    var r := IndexOf(s, c);
    assert c in s;
    forall j | 0 <= j < r.value
      ensures s[j] != c
    {
      assert s[..r.value][j] == s[j];
    }
  }

  /**
   * Splits a stored name back into the timestamp and the original name: the
   * numeral runs up to the first '_', which a numeral never contains.
   */
  function ParseStoredName(s: string): Option<(nat, string)>
  {
    match IndexOf(s, '_')
    case None => None
    case Some(k) =>
      if CanonicalNumeral(s[..k]) then Some((ParseDecimal(s[..k]), s[k + 1..])) else None
  }

  lemma StoredNameRoundTrip(timestamp: nat, originalName: string)
    ensures ParseStoredName(StoredName(timestamp, originalName)) == Some((timestamp, originalName))
  {
    var d := Decimal(timestamp);
    var s := StoredName(timestamp, originalName);
    assert s[..|d|] == d && s[|d|] == '_' && s[|d| + 1..] == originalName;
    forall i | 0 <= i < |d|
      ensures d[i] != '_'
    {
      assert IsDigit(d[i]);
    }
    IndexOfFirst(s, '_', |d|);
    ParseDecimalOfDecimal(timestamp);
  }

  lemma StoredNameFromParse(s: string, timestamp: nat, originalName: string)
    requires ParseStoredName(s) == Some((timestamp, originalName))
    ensures StoredName(timestamp, originalName) == s
  {
    var k := IndexOf(s, '_').value;
    DecimalOfParseDecimal(s[..k]);
    assert s == s[..k] + "_" + s[k + 1..];
  }

  /**
   * Two stored names coincide only for the same timestamp and the same
   * original name, so names collide exactly when one original name is
   * uploaded twice within the same millisecond.
   */
  lemma StoredNameInjective(t1: nat, n1: string, t2: nat, n2: string)
    requires StoredName(t1, n1) == StoredName(t2, n2)
    ensures t1 == t2 && n1 == n2
  {
    StoredNameRoundTrip(t1, n1);
    StoredNameRoundTrip(t2, n2);
  }

  /** A suffix without '_' lies inside the original name or is not a suffix at all. */
  lemma EndsWithPastSeparator(prefix: string, name: string, suffix: string)
    requires '_' !in suffix
    ensures EndsWith(prefix + "_" + name, suffix) <==> EndsWith(name, suffix)
  {
    var s := prefix + "_" + name;
    if |suffix| <= |name| {
      assert s[|s| - |suffix|..] == name[|name| - |suffix|..];
    } else if |suffix| <= |s| {
      assert s[|s| - |suffix|..][|suffix| - |name| - 1] == '_';
    }
  }

  /**
   * The stored name ends with the original name, and the filter would judge it
   * exactly as it judged the original: no accepted suffix is lost or created
   * by the timestamp prefix.
   */
  lemma StoredNameKeepsExtension(timestamp: nat, originalName: string)
    ensures EndsWith(StoredName(timestamp, originalName), originalName)
    ensures ImageFilter(StoredName(timestamp, originalName)) == ImageFilter(originalName)
  {
    var d := Decimal(timestamp);
    var s := StoredName(timestamp, originalName);
    assert s[|s| - |originalName|..] == originalName;
    EndsWithPastSeparator(d, originalName, ".jpg");
    EndsWithPastSeparator(d, originalName, ".jpeg");
  }

  // ---------------------------------------------------------------------------
  // The configured middleware
  // ---------------------------------------------------------------------------

  /** A file part of the incoming multipart request, as multer sees it. */
  datatype Part = Part(fieldName: string, originalName: string, size: nat)

  /** `req.file` after the disk storage wrote it. */
  datatype StoredFile = StoredFile(originalName: string, fileName: string, path: string, size: nat)

  /** What the middleware passes to the route's callback: an error, or `req.file` (possibly absent). */
  datatype MiddlewareOutcome =
    | MulterError(code: string)
    | OtherError(message: string)
    | NoFile
    | Stored(file: StoredFile)

  /**
   * `multer({storage, fileFilter: imageFilter, limits: {fileSize: 2 MiB}}).single("file")`
   * applied to a request with at most one file part, at time `now`, with the
   * storage destination directory `destination`. A part with an empty file
   * name (a form submitted with no file chosen) is skipped before any check,
   * so `req.file` stays unset.
   */
  function Middleware(part: Option<Part>, destination: string, now: nat): (o: MiddlewareOutcome)
    ensures o.Stored? <==>
      part.Some? && part.value.fieldName == FileField &&
      ImageFilter(part.value.originalName) == Accept && part.value.size <= MaxFileSize
    ensures o.Stored? ==>
      o.file.originalName == part.value.originalName && o.file.size <= MaxFileSize &&
      ParseStoredName(o.file.fileName) == Some((now, o.file.originalName)) &&
      ImageFilter(o.file.fileName) == Accept &&
      o.file.path == destination + "/" + o.file.fileName
    ensures o.OtherError? ==> o.message == OnlyJpgMessage
    ensures o.NoFile? <==> part.None? || part.value.originalName == ""
    ensures o.MulterError? <==>
      part.Some? && part.value.originalName != "" &&
      (part.value.fieldName != FileField ||
       (ImageFilter(part.value.originalName) == Accept && part.value.size > MaxFileSize))
    ensures o.OtherError? <==>
      part.Some? && part.value.originalName != "" && part.value.fieldName == FileField &&
      ImageFilter(part.value.originalName).Reject?
  {
    match part
    case None => NoFile
    case Some(p) =>
      if p.originalName == "" then NoFile
      else if p.fieldName != FileField then MulterError(LimitUnexpectedFile)
      else if ImageFilter(p.originalName).Reject? then OtherError(ImageFilter(p.originalName).message)
      else if p.size > MaxFileSize then MulterError(LimitFileSize)
      else
        var name := StoredName(now, p.originalName);
        StoredNameRoundTrip(now, p.originalName);
        StoredNameKeepsExtension(now, p.originalName);
        Stored(StoredFile(p.originalName, name, destination + "/" + name, p.size))
  }
}
