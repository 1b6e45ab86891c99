/** The decisions of the media sanitiser in wa-helper.js: which MIME types
    are converted and to what, the output path of a conversion, the
    allow-lists and the size ceiling, and the whole accept/reject outcome of
    `detectAndConvertMedia` as a function of its oracles (the MIME lookup,
    whether the transcoder succeeds, and the size of a file). */
module Sanitizer {
  import opened Wrappers
  import opened Text

  /** `MAX_FILE_SIZE`: 64 MiB. */
  const MAX_FILE_SIZE: nat := 64 * 1024 * 1024

  const ALLOWED_MIME_VIDEO: set<string> := {"video/mp4", "application/mp4", "video/3gp", "video/3gpp"}
  const ALLOWED_MIME_AUDIO: set<string> :=
    {"audio/mpeg", "audio/mp3", "audio/aac", "audio/x-aac", "audio/mp4", "audio/3gpp", "audio/3gpp2", "audio/ogg", "audio/opus"}
  const ALLOWED_MIME_DOC: set<string> := {"application/pdf"}

  const WAV_TYPES: set<string> := {"audio/wav", "audio/x-wav", "audio/wave"}

  /** A conversion the sanitiser runs: the extension of the converted file
      and the MIME type it is given afterwards. */
  datatype Conversion = Conversion(outputExt: string, resultMime: string)

  /** WebM video is re-encoded to MP4; the WAV family to MP3. Nothing else is
      converted. */
  function ConversionFor(mimeType: string): (r: Option<Conversion>)
    ensures r.Some? <==> mimeType == "video/webm" || mimeType in WAV_TYPES
    ensures mimeType == "video/webm" ==> r == Some(Conversion(".mp4", "video/mp4"))
    ensures mimeType in WAV_TYPES ==> r == Some(Conversion(".mp3", "audio/mpeg"))
    ensures r.Some? ==> r.value.resultMime != "video/webm" && r.value.resultMime !in WAV_TYPES
  {
    if mimeType == "video/webm" then Some(Conversion(".mp4", "video/mp4"))
    else if mimeType in WAV_TYPES then Some(Conversion(".mp3", "audio/mpeg"))
    else None
  }

  /** `application/mp4` is read as `video/mp4`; every other type is kept,
      and membership in the video list is unaffected. */
  function NormalizeMime(mimeType: string): (r: string)
    ensures mimeType == "application/mp4" ==> r == "video/mp4"
    ensures r != "application/mp4"
    ensures mimeType != "application/mp4" ==> r == mimeType
    ensures r in ALLOWED_MIME_VIDEO <==> mimeType in ALLOWED_MIME_VIDEO
  {
    if mimeType == "application/mp4" then "video/mp4" else mimeType
  }

  /** The allow-list check: the list is chosen by the type's prefix, so an
      accepted type is always listed somewhere. */
  predicate IsAllowed(mimeType: string): (b: bool)
    ensures b ==> mimeType in ALLOWED_MIME_VIDEO + ALLOWED_MIME_AUDIO + ALLOWED_MIME_DOC
    ensures StartsWith(mimeType, "video/") ==> (b <==> mimeType in ALLOWED_MIME_VIDEO)
    ensures StartsWith(mimeType, "audio/") ==> (b <==> mimeType in ALLOWED_MIME_AUDIO)
    ensures !StartsWith(mimeType, "video/") && !StartsWith(mimeType, "audio/") ==> (b <==> mimeType in ALLOWED_MIME_DOC)
  {
    if StartsWith(mimeType, "video/") then mimeType in ALLOWED_MIME_VIDEO
    else if StartsWith(mimeType, "audio/") then mimeType in ALLOWED_MIME_AUDIO
    else mimeType in ALLOWED_MIME_DOC
  }

  /** Choosing the list by prefix accepts exactly the listed types, except
      `application/mp4`, which lacks the `video/` prefix of its list. */
  lemma AllowedIff(mimeType: string)
    ensures IsAllowed(mimeType) <==>
      mimeType in (ALLOWED_MIME_VIDEO - {"application/mp4"}) + ALLOWED_MIME_AUDIO + ALLOWED_MIME_DOC
  {
    ListedPrefixes();
  }

  /** Every listed type but `application/mp4` carries its list's prefix, and
      the document type carries neither. */
  lemma ListedPrefixes()
    ensures forall m :: m in ALLOWED_MIME_VIDEO - {"application/mp4"} ==> StartsWith(m, "video/")
    ensures forall m :: m in ALLOWED_MIME_AUDIO ==> StartsWith(m, "audio/") && !StartsWith(m, "video/")
    ensures forall m :: m in ALLOWED_MIME_DOC + {"application/mp4"} ==> !StartsWith(m, "video/") && !StartsWith(m, "audio/")
  {
    forall m | m in ALLOWED_MIME_VIDEO - {"application/mp4"} ensures StartsWith(m, "video/") {
      assert m[..6] == "video/";
    }
    forall m | m in ALLOWED_MIME_AUDIO ensures StartsWith(m, "audio/") && !StartsWith(m, "video/") {
      assert m[..6] == "audio/";
      assert m[0] == 'a';
    }
    forall m | m in ALLOWED_MIME_DOC + {"application/mp4"} ensures !StartsWith(m, "video/") && !StartsWith(m, "audio/") {
      assert m[0] == 'a' && m[1] == 'p';
    }
  }

  /** After normalisation the check is plain membership in one of the three
      lists. */
  lemma NormalizedAllowedIff(mimeType: string)
    ensures IsAllowed(NormalizeMime(mimeType)) <==>
      mimeType in ALLOWED_MIME_VIDEO + ALLOWED_MIME_AUDIO + ALLOWED_MIME_DOC
  {
    AllowedIff(NormalizeMime(mimeType));
    AllowedIff("video/mp4");
  }

  /** The final check: allowed type and at most 64 MiB; the types it lets
      through are exactly the listed ones other than `application/mp4`. */
  predicate Acceptable(mimeType: string, size: nat): (b: bool)
    ensures b <==>
      mimeType in (ALLOWED_MIME_VIDEO - {"application/mp4"}) + ALLOWED_MIME_AUDIO + ALLOWED_MIME_DOC &&
      size <= MAX_FILE_SIZE
  {
    AllowedIff(mimeType);
    IsAllowed(mimeType) && size <= MAX_FILE_SIZE
  }

  /** The ceiling is inclusive: exactly 64 MiB passes, one byte more fails,
      whatever the type. */
  lemma CeilingIsInclusive(mimeType: string)
    ensures Acceptable(mimeType, 67108864) <==> IsAllowed(mimeType)
    ensures !Acceptable(mimeType, 67108865)
  {
  }

  // === Output path ===

  /** `.ext` starts at index `k`: a dot followed by one or more characters,
      none of them `/` or `.`, up to the end (the regex `\.[^/.]+$`). */
  ghost predicate IsExtensionAt(s: string, k: int)
  {
    0 <= k < |s| - 1 && s[k] == '.' && forall j :: k < j < |s| ==> s[j] != '.' && s[j] != '/'
  }

  /** Where the regex matches, if it does. */
  function ExtensionStart(s: string): (r: Option<nat>)
    ensures r.Some? ==> IsExtensionAt(s, r.value)
    ensures r.None? <==> forall k :: !IsExtensionAt(s, k)
  {
    if |s| < 2 || s[|s| - 1] == '.' || s[|s| - 1] == '/' then None
    else if s[|s| - 2] == '.' then Some(|s| - 2)
    else
      assert forall k :: IsExtensionAt(s, k) <==> IsExtensionAt(s[..|s| - 1], k);
      ExtensionStart(s[..|s| - 1])
  }

  /** The regex matches in at most one place. */
  lemma ExtensionIsUnique(s: string, k1: int, k2: int)
    requires IsExtensionAt(s, k1) && IsExtensionAt(s, k2)
    ensures k1 == k2
  {
  }

  /** `inputPath.replace(/\.[^/.]+$/i, outputExt)`: the trailing extension
      replaced by `outputExt`, or the path unchanged when it has none. */
  function OutputPath(inputPath: string, outputExt: string): (r: string)
    ensures (forall k :: !IsExtensionAt(inputPath, k)) ==> r == inputPath
    ensures forall k :: IsExtensionAt(inputPath, k) ==> r == inputPath[..k] + outputExt
  {
    match ExtensionStart(inputPath)
    case None => inputPath
    case Some(k) =>
      assert forall k' :: IsExtensionAt(inputPath, k') ==> k' == k by {
        forall k' | IsExtensionAt(inputPath, k') ensures k' == k {
          ExtensionIsUnique(inputPath, k, k');
        }
      }
      inputPath[..k] + outputExt
  }

  /** The converted file is a new path, next to the input, unless the input
      already carries the target extension or has no extension at all. */
  lemma OutputPathDiffers(inputPath: string, outputExt: string, k: int)
    requires IsExtensionAt(inputPath, k) && inputPath[k..] != outputExt
    ensures OutputPath(inputPath, outputExt) != inputPath
    ensures StartsWith(OutputPath(inputPath, outputExt), inputPath[..k])
  {
  }

  /** A path without any dot has no extension and is its own output path. */
  lemma NoDotNoExtension(inputPath: string, outputExt: string)
    requires forall j :: 0 <= j < |inputPath| ==> inputPath[j] != '.'
    ensures OutputPath(inputPath, outputExt) == inputPath
  {
  }

  lemma ClipExample(inputPath: string)
    requires inputPath == "/tmp/clip.webm"
    ensures OutputPath(inputPath, ".mp4") == "/tmp/clip.mp4"
  {
    assert IsExtensionAt(inputPath, 9);
    assert inputPath[..9] + ".mp4" == "/tmp/clip.mp4";
  }

  /** A dot in a directory name is not an extension. */
  lemma DottedDirectoryExample(inputPath: string)
    requires inputPath == "/tmp/v1.2/clip"
    ensures OutputPath(inputPath, ".mp4") == inputPath
  {
    assert inputPath[9] == '/' && inputPath[7] == '.';
    assert forall k :: 0 <= k < 9 ==> !IsExtensionAt(inputPath, k);
    assert forall k :: 9 <= k < |inputPath| ==> inputPath[k] != '.';
  }

  // === The whole decision ===

  /** What `detectAndConvertMedia` resolves to: the file and MIME type to
      send, or a rejection; either way the temp files produced. */
  datatype Decision =
    | Accept(file: string, mimeType: string, tempFiles: seq<string>)
    | Reject(tempFiles: seq<string>)

  /** The path a conversion writes to, when the looked-up type calls for
      one. */
  function ConversionTarget(filePath: string, lookedUp: Option<string>): Option<string>
  {
    if lookedUp.Some? && ConversionFor(lookedUp.value).Some? then
      Some(OutputPath(filePath, ConversionFor(lookedUp.value).value.outputExt))
    else None
  }

  /** `detectAndConvertMedia(filePath)` as a function of the MIME lookup,
      the transcoder's success and the size of each file. */
  function Sanitize(filePath: string, lookedUp: Option<string>, transcodes: bool, sizeOf: string -> nat): (d: Decision)
    ensures |d.tempFiles| <= 1
    ensures lookedUp.None? ==> d == Reject([])
    ensures d.tempFiles != [] ==> ConversionTarget(filePath, lookedUp) == Some(d.tempFiles[0]) && transcodes
    ensures d.Accept? ==> Acceptable(d.mimeType, sizeOf(d.file))
  {
    match lookedUp
    case None => Reject([])
    case Some(m) =>
      match ConversionFor(m)
      case None =>
        var final := NormalizeMime(m);
        if Acceptable(final, sizeOf(filePath)) then Accept(filePath, final, []) else Reject([])
      case Some(cv) =>
        var out := OutputPath(filePath, cv.outputExt);
        if !transcodes then Reject([])
        else
          var final := NormalizeMime(cv.resultMime);
          if Acceptable(final, sizeOf(out)) then Accept(out, final, [out]) else Reject([out])
  }

  /** Without a conversion the original file is sent, under its normalised
      type, exactly when that type is listed and the file is within the
      ceiling. */
  lemma UnconvertedOutcome(filePath: string, m: string, transcodes: bool, sizeOf: string -> nat)
    requires ConversionFor(m).None?
    ensures var d := Sanitize(filePath, Some(m), transcodes, sizeOf);
      d.tempFiles == [] &&
      (d.Accept? <==> m in ALLOWED_MIME_VIDEO + ALLOWED_MIME_AUDIO + ALLOWED_MIME_DOC && sizeOf(filePath) <= MAX_FILE_SIZE) &&
      (d.Accept? ==> d.file == filePath && d.mimeType == NormalizeMime(m))
  {
    NormalizedAllowedIff(m);
  }

  /** A WebM file that converts is sent as `video/mp4` from the converted
      path exactly when the converted file is within the ceiling; otherwise
      the converted path is still handed back for cleanup. */
  lemma WebmOutcome(filePath: string, transcodes: bool, sizeOf: string -> nat)
    ensures var d := Sanitize(filePath, Some("video/webm"), transcodes, sizeOf);
      var out := OutputPath(filePath, ".mp4");
      (!transcodes ==> d == Reject([])) &&
      (transcodes ==>
         d.tempFiles == [out] &&
         (d.Accept? <==> sizeOf(out) <= MAX_FILE_SIZE) &&
         (d.Accept? ==> d.file == out && d.mimeType == "video/mp4"))
  {
    NormalizedAllowedIff("video/mp4");
  }

  /** A WAV-family file that converts is sent as `audio/mpeg` from the
      converted path exactly when the converted file is within the ceiling. */
  lemma WavOutcome(filePath: string, m: string, transcodes: bool, sizeOf: string -> nat)
    requires m in WAV_TYPES
    ensures var d := Sanitize(filePath, Some(m), transcodes, sizeOf);
      var out := OutputPath(filePath, ".mp3");
      (!transcodes ==> d == Reject([])) &&
      (transcodes ==>
         d.tempFiles == [out] &&
         (d.Accept? <==> sizeOf(out) <= MAX_FILE_SIZE) &&
         (d.Accept? ==> d.file == out && d.mimeType == "audio/mpeg"))
  {
    NormalizedAllowedIff("audio/mpeg");
  }

  /** When the one file that is measured (the conversion output if there is
      one, the input otherwise) is over the ceiling, the file is rejected. */
  lemma OversizeRejected(filePath: string, lookedUp: Option<string>, transcodes: bool, sizeOf: string -> nat)
    requires sizeOf(if ConversionTarget(filePath, lookedUp).Some? then ConversionTarget(filePath, lookedUp).value else filePath) > MAX_FILE_SIZE
    ensures Sanitize(filePath, lookedUp, transcodes, sizeOf).Reject?
  {
  }
}
