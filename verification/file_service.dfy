/**
  Client-side file checks (src/services/fileService.ts): `validateFile`,
  which tests the size against a maximum and then the lower-cased MIME type
  against a list of accepted patterns, and `getFileIcon`, which classifies a
  MIME type into an icon name by a fixed, first-match list of tests.
 */
module FileService {
  import opened Common
  import opened Text
  import Upload

  datatype Validation =
    | Valid
    /** The message names the maximum, formatted; only the maximum is kept. */
    | TooLarge(maxSize: int)
    | UnsupportedType(message: string)

  const TypePrefix := "Type de fichier non supporté. Types acceptés : "

  /** `xs.join(sep)`. */
  function Join(xs: seq<string>, sep: string): (r: string)
    ensures |xs| == 1 ==> r == xs[0]
    ensures |xs| == 0 ==> r == ""
  {
    if |xs| == 0 then ""
    else if |xs| == 1 then xs[0]
    else xs[0] + sep + Join(xs[1..], sep)
  }

  /** One accepted pattern: `major/` followed by a star matches any type that starts with
      `major` (no slash needed), anything else must be equal. */
  predicate PatternMatches(fileType: string, pattern: string) {
    if EndsWith(pattern, "/*") then StartsWith(fileType, pattern[..|pattern| - 2])
    else fileType == pattern
  }

  /** `acceptedTypes.some(...)`. */
  function AnyMatches(fileType: string, patterns: seq<string>): (b: bool)
    ensures b <==> exists i :: 0 <= i < |patterns| && PatternMatches(fileType, patterns[i])
  {
    if |patterns| == 0 then false
    else PatternMatches(fileType, patterns[0]) || AnyMatches(fileType, patterns[1..])
  }

  /** validateFile. */
  function ValidateFile(size: nat, fileType: string, maxSize: int, accepted: seq<string>): (r: Validation)
    ensures r.Valid? <==>
      size <= maxSize && exists i :: 0 <= i < |accepted| && PatternMatches(ToLower(fileType), accepted[i])
    ensures size > maxSize ==> r == TooLarge(maxSize)
    ensures r.UnsupportedType? ==> size <= maxSize && r.message == TypePrefix + Join(accepted, ", ")
  {
    if size > maxSize then TooLarge(maxSize)
    else if !AnyMatches(ToLower(fileType), accepted) then UnsupportedType(TypePrefix + Join(accepted, ", "))
    else Valid
  }

  // ------------------------------------------------------------ properties

  /** The wildcard only compares the part before the final slash and star: "imagefoo" passes as
      an image. */
  lemma WildcardIsAPrefixTest()
    ensures ValidateFile(10, "imagefoo", 10, ["image/*"]) == Valid
  {
    assert EndsWith("image/*", "/*");
    assert ToLower("imagefoo") == "imagefoo";
    assert PatternMatches("imagefoo", "image/*");
  }

  lemma {:induction false} LowerCharNotUpper(c: char)
    ensures !IsUpper(LowerChar(c))
  {
  }

  /** Patterns are not lower-cased, so one containing an upper-case letter
      never matches. */
  lemma {:induction false} UpperCasePatternNeverMatches(fileType: string, pattern: string)
    requires HasChar(pattern, IsUpper)
    ensures !PatternMatches(ToLower(fileType), pattern)
  {
    var t := ToLower(fileType);
    var i :| 0 <= i < |pattern| && IsUpper(pattern[i]);
    if EndsWith(pattern, "/*") {
      assert i < |pattern| - 2 by {
        assert pattern[|pattern| - 2..] == "/*";
        assert pattern[|pattern| - 2] == '/' && pattern[|pattern| - 1] == '*';
      }
      if StartsWith(t, pattern[..|pattern| - 2]) {
        assert t[i] == pattern[i];
        LowerCharNotUpper(fileType[i]);
      }
    } else if t == pattern {
      LowerCharNotUpper(fileType[i]);
    }
  }

  lemma {:induction false} ToLowerIdempotent(s: string)
    ensures ToLower(ToLower(s)) == ToLower(s)
  {
    var t := ToLower(s);
    forall i | 0 <= i < |s| ensures ToLower(t)[i] == t[i] {
      LowerCharNotUpper(s[i]);
    }
  }

  /** The file's type is compared case-insensitively. */
  lemma {:induction false} TypeCaseIgnored(size: nat, fileType: string, maxSize: int, accepted: seq<string>)
    ensures ValidateFile(size, fileType, maxSize, accepted) == ValidateFile(size, ToLower(fileType), maxSize, accepted)
  {
    ToLowerIdempotent(fileType);
  }

  /** No entry of the server's allowlist is a wildcard. */
  lemma {:induction false} AllowlistHasNoWildcard()
    ensures forall i :: 0 <= i < |Upload.AllowedMimes| ==> !EndsWith(Upload.AllowedMimes[i], "/*")
  {
    var d := Upload.DocxMime;
    assert d[|d| - 1] == 't';
    forall i | 0 <= i < |Upload.AllowedMimes|
      ensures !EndsWith(Upload.AllowedMimes[i], "/*")
    {
      var m := Upload.AllowedMimes[i];
      assert m[|m| - 1] != '*';
    }
  }

  /** With the server's allowlist and 10 MiB cap, the client check accepts a
      file of known size exactly when the server's filter accepts its type
      lower-cased: the client compares types case-insensitively, the server
      does not. */
  lemma {:induction false} ClientCheckMatchesServerFilter(size: nat, fileType: string)
    ensures ValidateFile(size, fileType, Upload.MaxUploadBytes, Upload.AllowedMimes).Valid?
      <==> Upload.FileFilter(ToLower(fileType), Some(size)) == Upload.Accepted
  {
    AllowlistHasNoWildcard();
    var t := ToLower(fileType);
    assert (exists i :: 0 <= i < |Upload.AllowedMimes| && PatternMatches(t, Upload.AllowedMimes[i]))
      <==> t in Upload.AllowedMimes;
  }

  // ------------------------------------------------------------ icons

  /** The tests `getFileIcon` applies, in order, each with its icon. */
  predicate IsImage(t: string) { StartsWith(t, "image/") }
  predicate IsVideo(t: string) { StartsWith(t, "video/") }
  predicate IsAudio(t: string) { StartsWith(t, "audio/") }
  predicate IsMedia(t: string) { IsImage(t) || IsVideo(t) || IsAudio(t) }
  predicate IsWord(t: string) { Contains(t, "word") }
  predicate IsSheet(t: string) { Contains(t, "excel") || Contains(t, "spreadsheet") }
  predicate IsSlides(t: string) { Contains(t, "powerpoint") || Contains(t, "presentation") }
  predicate IsArchive(t: string) { Contains(t, "zip") || Contains(t, "compressed") }

  function FileIcon(t: string): (r: string)
    ensures r in {"fa-image", "fa-video", "fa-music", "fa-file-pdf", "fa-file-word",
                  "fa-file-excel", "fa-file-powerpoint", "fa-file-archive", "fa-file"}
    ensures r == "fa-image" <==> IsImage(t)
    ensures r == "fa-video" <==> IsVideo(t)
    ensures r == "fa-music" <==> IsAudio(t)
    ensures r == "fa-file-pdf" <==> t == "application/pdf"
    ensures r == "fa-file-word" <==> !IsMedia(t) && t != "application/pdf" && IsWord(t)
    ensures r == "fa-file-excel" <==> !IsMedia(t) && t != "application/pdf" && !IsWord(t) && IsSheet(t)
    ensures r == "fa-file-powerpoint" <==>
      !IsMedia(t) && t != "application/pdf" && !IsWord(t) && !IsSheet(t) && IsSlides(t)
    ensures r == "fa-file-archive" <==>
      !IsMedia(t) && t != "application/pdf" && !IsWord(t) && !IsSheet(t) && !IsSlides(t) && IsArchive(t)
    ensures r == "fa-file" <==>
      !IsMedia(t) && t != "application/pdf" && !IsWord(t) && !IsSheet(t) && !IsSlides(t) && !IsArchive(t)
  {
    if IsImage(t) then "fa-image"
    else if IsVideo(t) then "fa-video"
    else if IsAudio(t) then assert t[1] == 'u' && "application/pdf"[1] == 'p'; "fa-music"
    else if t == "application/pdf" then "fa-file-pdf"
    else if IsWord(t) then "fa-file-word"
    else if IsSheet(t) then "fa-file-excel"
    else if IsSlides(t) then "fa-file-powerpoint"
    else if IsArchive(t) then "fa-file-archive"
    else "fa-file"
  }

  /** An `application/...` type is never classified as media. */
  lemma {:induction false} ApplicationIsNotMedia(t: string)
    requires StartsWith(t, "application/")
    ensures !IsMedia(t)
  {
    assert t[1] == "application/"[1] == 'p';
    assert "image/"[1] == 'm' && "video/"[1] == 'i' && "audio/"[1] == 'u';
  }

  /** A non-media, non-PDF type containing `word` at some position gets the
      Word icon. */
  lemma {:induction false} WordAt(t: string, k: nat)
    requires StartsWith(t, "application/") && t != "application/pdf"
    requires k + 4 <= |t| && t[k] == 'w' && t[k + 1] == 'o' && t[k + 2] == 'r' && t[k + 3] == 'd'
    ensures FileIcon(t) == "fa-file-word"
  {
    ApplicationIsNotMedia(t);
    assert t[k..k + 4] == "word";
    assert OccursAt(t, "word", k);
  }

  /** Both Word types the server accepts get the Word icon. */
  lemma WordTypesGetWordIcon()
    ensures FileIcon("application/msword") == "fa-file-word"
    ensures FileIcon(Upload.DocxMime) == "fa-file-word"
  {
    var m := "application/msword";
    assert m[..12] == "application/";
    assert |m| != |"application/pdf"|;
    WordAt(m, 14);
    var d := Upload.DocxMime;
    assert d[..12] == "application/";
    assert |d| != |"application/pdf"|;
    WordAt(d, 46);
  }
}
