/**
 * The upload middleware's two decisions: whether a file is accepted
 * (`checkFileType`) and the name it is stored under (the disk storage's
 * `filename`). The extension (`path.extname` of the original name) and the
 * clock reading (`Date.now()`) are inputs.
 */
module Upload {

  import opened JsText

  const RejectMessage: string := "Error: You can only upload image files!"

  /** `/jpeg|jpg|png|gif/.test(s)`: one of the four names occurs anywhere in `s`. */
  predicate MatchesImageType(s: string) {
    Contains(s, "jpeg") || Contains(s, "jpg") || Contains(s, "png") || Contains(s, "gif")
  }

  /** The callback's two uses: `cb(null, true)` and `cb(message)`. */
  datatype Decision = Accept | Reject(error: string)

  /** `checkFileType`: the lower-cased extension and the mimetype as given must both match. */
  function CheckFileType(extension: string, mimetype: string): (d: Decision)
    ensures d == Accept <==> MatchesImageType(ToLower(extension)) && MatchesImageType(mimetype)
    ensures d != Accept ==> d == Reject(RejectMessage)
  {
    var extOk := MatchesImageType(ToLower(extension));
    var mimeOk := MatchesImageType(mimetype);
    if mimeOk && extOk then Accept else Reject(RejectMessage)
  }

  /** The match is unanchored: ".jpgz" and "image/pngx" pass. */
  lemma UnanchoredMatch()
    ensures CheckFileType(".jpgz", "image/pngx") == Accept
  {
    assert ToLower(".jpgz") == ".jpgz";
    assert StartsWith(".jpgz"[1..], "jpg");
    assert StartsWith("image/pngx"[6..], "png");
    ContainsDropFront(".jpgz", 1, "jpg");
    ContainsDropFront("image/pngx", 6, "png");
  }

  /** The extension is lower-cased first: ".PNG" passes with "image/png". */
  lemma ExtensionCaseInsensitive()
    ensures CheckFileType(".PNG", "image/png") == Accept
  {
    assert ToLower(".PNG") == ".png";
    assert StartsWith(".png"[1..], "png");
    assert StartsWith("image/png"[6..], "png");
    ContainsDropFront(".png", 1, "png");
    ContainsDropFront("image/png", 6, "png");
  }

  /** Lower-casing the extension beforehand never changes the decision. */
  lemma ExtensionCaseIgnored(extension: string, mimetype: string)
    ensures CheckFileType(ToLower(extension), mimetype) == CheckFileType(extension, mimetype)
  {
    ToLowerIdempotent(extension);
  }

  /** A string without a lower-case 'j', 'p' or 'f' holds none of the four names. */
  lemma NoImageName(m: string)
    requires 'j' !in m && 'p' !in m && 'f' !in m
    ensures !MatchesImageType(m)
  {
    ContainsNeedsChar(m, "jpeg", 0);
    ContainsNeedsChar(m, "jpg", 0);
    ContainsNeedsChar(m, "png", 0);
    ContainsNeedsChar(m, "gif", 2);
  }

  /** The mimetype is not lower-cased: "image/PNG" is refused. */
  lemma MimetypeCaseSensitive()
    ensures CheckFileType(".png", "image/PNG") == Reject(RejectMessage)
  {
    NoImageName("image/PNG");
  }

  /** A mimetype with none of the four names is refused whatever the extension. */
  lemma NonImageMimetypeRejected(extension: string, mimetype: string)
    requires !MatchesImageType(mimetype)
    ensures CheckFileType(extension, mimetype) == Reject(RejectMessage)
  {
  }

  lemma ContainsInside(a: string, t: string, b: string, p: string)
    requires Contains(t, p)
    ensures Contains(a + t + b, p)
  {
    assert (a + t + b)[|a|..|a| + |t|] == t;
    ContainsSlice(a + t + b, |a|, |a| + |t|, p);
  }

  lemma ToLowerConcat(a: string, b: string, c: string)
    ensures ToLower(a + b + c) == ToLower(a) + ToLower(b) + ToLower(c)
  {
  }

  /** Text around an accepted extension and mimetype never causes a refusal. */
  lemma AcceptedStaysAccepted(extension: string, mimetype: string, e1: string, e2: string, m1: string, m2: string)
    requires CheckFileType(extension, mimetype) == Accept
    ensures CheckFileType(e1 + extension + e2, m1 + mimetype + m2) == Accept
  {
    var lower := ToLower(extension);
    ToLowerConcat(e1, extension, e2);
    forall p | p in ["jpeg", "jpg", "png", "gif"]
      ensures Contains(lower, p) ==> Contains(ToLower(e1) + lower + ToLower(e2), p)
      ensures Contains(mimetype, p) ==> Contains(m1 + mimetype + m2, p)
    {
      if Contains(lower, p) {
        ContainsInside(ToLower(e1), lower, ToLower(e2), p);
      }
      if Contains(mimetype, p) {
        ContainsInside(m1, mimetype, m2, p);
      }
    }
  }

  // ===========================================================================
  // The stored file name
  // ===========================================================================

  /** `file.fieldname + '-' + Date.now() + path.extname(file.originalname)`. */
  function StoredFilename(fieldname: string, now: nat, extension: string): string {
    fieldname + "-" + Decimal(now) + extension
  }

  /** The name starts with the field name and a dash, ends with the extension, and holds the timestamp's digits in between. */
  lemma StoredFilenameParts(fieldname: string, now: nat, extension: string)
    ensures var name := StoredFilename(fieldname, now, extension);
      StartsWith(name, fieldname + "-") && EndsWith(name, extension) &&
      name[|fieldname| + 1..|name| - |extension|] == Decimal(now)
  {
    var name := StoredFilename(fieldname, now, extension);
    assert name == (fieldname + "-") + Decimal(now) + extension;
    assert name[..|fieldname| + 1] == fieldname + "-";
    assert name[|name| - |extension|..] == extension;
  }

  /** The timestamp can be read back from the name. */
  lemma StoredFilenameTimestamp(fieldname: string, now: nat, extension: string)
    ensures var name := StoredFilename(fieldname, now, extension);
      var digits := name[|fieldname| + 1..|name| - |extension|];
      (forall k :: 0 <= k < |digits| ==> IsDigit(digits[k])) && DecimalValue(digits) == now
  {
    StoredFilenameParts(fieldname, now, extension);
    DecimalRoundTrip(now);
  }

  /** Uploads of one field and extension at different milliseconds are stored under different names. */
  lemma StoredFilenameInjective(fieldname: string, t1: nat, t2: nat, extension: string)
    requires StoredFilename(fieldname, t1, extension) == StoredFilename(fieldname, t2, extension)
    ensures t1 == t2
  {
    StoredFilenameParts(fieldname, t1, extension);
    StoredFilenameParts(fieldname, t2, extension);
    DecimalInjective(t1, t2);
  }
}
