/**
  The upload middleware (server/src/middleware/upload.ts): the file filter
  (a fixed MIME allowlist, then a size cap) and the stored file name, a
  fresh unique prefix followed by the original name's extension as Node's
  `path.extname` computes it (POSIX flavour).
 */
module Upload {
  import opened Common

  const AllowedMimes: seq<string> := [
    "image/jpeg", "image/png", "image/gif",
    "video/mp4", "video/webm",
    "audio/mpeg", "audio/wav",
    "application/pdf", "application/msword",
    DocxMime
  ]

  /** The Word (OOXML) document type, spelled in three pieces. */
  const DocxMime := "application/" + "vnd.openxmlformats-officedocument." + "wordprocessingml.document"

  /** 10 MiB. */
  const MaxUploadBytes: nat := 10 * 1024 * 1024

  const TypeRefused := "Type de fichier non autorisé"
  const TooLargeText := "Le fichier est trop volumineux (max 10MB)"

  datatype Verdict = Accepted | Refused(message: string)

  /** fileFilter. The size is optional: when it is not known the comparison
      is false and the file passes this check. */
  function FileFilter(mime: string, size: Option<nat>): (v: Verdict)
    ensures v == Accepted <==> mime in AllowedMimes && (size.None? || size.value <= MaxUploadBytes)
    ensures mime !in AllowedMimes ==> v == Refused(TypeRefused)
    ensures mime in AllowedMimes && size.Some? && size.value > MaxUploadBytes ==> v == Refused(TooLargeText)
  {
    if mime !in AllowedMimes then Refused(TypeRefused)
    else if size.Some? && size.value > MaxUploadBytes then Refused(TooLargeText)
    else Accepted
  }

  /** The allowlist has ten distinct entries, each a `type/subtype` pair. */
  lemma AllowlistShape()
    ensures |AllowedMimes| == 10
    ensures forall i, j :: 0 <= i < j < |AllowedMimes| ==> AllowedMimes[i] != AllowedMimes[j]
  {
  }

  // ------------------------------------------------------------ path.extname

  /** `s` without its trailing slashes. */
  function DropTrailingSlashes(s: string): (r: string)
    ensures |r| <= |s| && r == s[..|r|]
    ensures r == [] || r[|r| - 1] != '/'
    ensures forall i :: |r| <= i < |s| ==> s[i] == '/'
  {
    if |s| == 0 || s[|s| - 1] != '/' then s else DropTrailingSlashes(s[..|s| - 1])
  }

  /** Index of the last occurrence of `c` in `s`. */
  function LastIndexOf(s: string, c: char): (r: Option<nat>)
    ensures r.Some? ==> r.value < |s| && s[r.value] == c && forall j :: r.value < j < |s| ==> s[j] != c
    ensures r.None? ==> forall j :: 0 <= j < |s| ==> s[j] != c
  {
    if |s| == 0 then None
    else if s[|s| - 1] == c then Some(|s| - 1)
    else LastIndexOf(s[..|s| - 1], c)
  }

  /** The last path segment, trailing slashes ignored. */
  function BaseName(path: string): (r: string)
    ensures forall i :: 0 <= i < |r| ==> r[i] != '/'
  {
    var t := DropTrailingSlashes(path);
    match LastIndexOf(t, '/')
    case None => t
    case Some(k) => t[k + 1..]
  }

  /** `path.extname`: from the last dot of the last segment to its end; empty
      when that segment has no dot, starts with its only dot, or is `..`. */
  function ExtName(path: string): (r: string)
    ensures r == [] || (r[0] == '.' && forall i :: 1 <= i < |r| ==> r[i] != '.' && r[i] != '/')
    ensures EndsWithText(BaseName(path), r)
  {
    var b := BaseName(path);
    match LastIndexOf(b, '.')
    case None => []
    case Some(d) => if d == 0 || b == ".." then [] else b[d..]
  }

  predicate EndsWithText(s: string, suffix: string) {
    |suffix| <= |s| && s[|s| - |suffix|..] == suffix
  }

  /** The stored name: the unique prefix and the original extension. */
  function StoredFilename(uniqueSuffix: string, originalName: string): (r: string)
    ensures |r| >= |uniqueSuffix| && r[..|uniqueSuffix|] == uniqueSuffix
    ensures r[|uniqueSuffix|..] == ExtName(originalName)
  {
    uniqueSuffix + ExtName(originalName)
  }

  /** A plain `name.ext` file name keeps its extension. */
  lemma {:induction false} ExtNameOfPlainName(name: string, ext: string)
    requires name != [] && forall i :: 0 <= i < |name| ==> name[i] != '/'
    requires ext != [] && forall i :: 0 <= i < |ext| ==> ext[i] != '.' && ext[i] != '/'
    ensures ExtName(name + "." + ext) == "." + ext
  {
    var p := name + "." + ext;
    assert p[|p| - 1] == ext[|ext| - 1];
    assert DropTrailingSlashes(p) == p;
    assert forall i :: 0 <= i < |p| ==> p[i] != '/' by {
      forall i | 0 <= i < |p| ensures p[i] != '/' {
        if i < |name| { assert p[i] == name[i]; }
        else if i > |name| { assert p[i] == ext[i - |name| - 1]; }
      }
    }
    assert BaseName(p) == p;
    assert p[|name|] == '.';
    assert forall j :: |name| < j < |p| ==> p[j] != '.' by {
      forall j | |name| < j < |p| ensures p[j] != '.' { assert p[j] == ext[j - |name| - 1]; }
    }
    assert LastIndexOf(p, '.') == Some(|name|) by {
      LastIndexOfAt(p, '.', |name|);
    }
    assert p != ".." by { assert |p| >= 3; }
    assert p[|name|..] == "." + ext;
  }

  lemma {:induction false} LastIndexOfAt(s: string, c: char, k: nat)
    requires k < |s| && s[k] == c && forall j :: k < j < |s| ==> s[j] != c
    ensures LastIndexOf(s, c) == Some(k)
    decreases |s|
  {
    if s[|s| - 1] != c {
      LastIndexOfAt(s[..|s| - 1], c, k);
    }
  }

  /** A name without a dot, and the same name as a dot-file, have no
      extension. */
  lemma {:induction false} DotFileHasNoExtension(name: string)
    requires name != [] && forall i :: 0 <= i < |name| ==> name[i] != '.' && name[i] != '/'
    ensures ExtName(name) == ""
    ensures ExtName("." + name) == ""
  {
    assert DropTrailingSlashes(name) == name;
    assert BaseName(name) == name;
    var p := "." + name;
    assert p[|p| - 1] == name[|name| - 1];
    assert DropTrailingSlashes(p) == p;
    assert forall i :: 0 <= i < |p| ==> p[i] != '/' by {
      forall i | 0 <= i < |p| ensures p[i] != '/' { if i > 0 { assert p[i] == name[i - 1]; } }
    }
    assert BaseName(p) == p;
    assert forall j :: 0 < j < |p| ==> p[j] != '.' by {
      forall j | 0 < j < |p| ensures p[j] != '.' { assert p[j] == name[j - 1]; }
    }
    LastIndexOfAt(p, '.', 0);
  }
}
