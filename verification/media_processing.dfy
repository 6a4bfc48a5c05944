/**
  The media helpers of the client (src/utils/mediaProcessing.ts) that do not
  touch a canvas: the size test, the image and video tests on the MIME type,
  and `processVideo`, which only checks the size and hands the file back.
 */
module MediaProcessing {
  import opened Common
  import opened Text
  import Upload

  const BytesPerMB: nat := 1024 * 1024

  /** processVideo's limit when none is given. */
  const DefaultVideoMB: nat := 2

  datatype MediaFile = MediaFile(name: string, mimeType: string, size: nat)

  datatype Processed = Done(file: MediaFile) | Failed(message: string)

  predicate ValidateFileSize(f: MediaFile, maxSizeMB: nat) {
    f.size <= maxSizeMB * BytesPerMB
  }

  predicate IsImageFile(f: MediaFile) { StartsWith(f.mimeType, "image/") }

  predicate IsVideoFile(f: MediaFile) { StartsWith(f.mimeType, "video/") }

  function VideoTooLarge(maxSizeMB: nat): string {
    "Video size must be less than " + NatToString(maxSizeMB) + "MB"
  }

  /** processVideo: the file itself when within the limit, an error naming
      the limit otherwise. */
  function ProcessVideo(f: MediaFile, maxSizeMB: Option<nat>): (r: Processed)
    ensures var limit := if maxSizeMB.Some? then maxSizeMB.value else DefaultVideoMB;
      && (r.Done? <==> ValidateFileSize(f, limit))
      && (r.Done? ==> r.file == f)
      && (r.Failed? ==> r.message == VideoTooLarge(limit))
  {
    var limit := if maxSizeMB.Some? then maxSizeMB.value else DefaultVideoMB;
    if f.size > limit * BytesPerMB then Failed(VideoTooLarge(limit)) else Done(f)
  }

  // ------------------------------------------------------------ properties

  /** No MIME type is both an image and a video. */
  lemma NeverImageAndVideo(f: MediaFile)
    ensures !(IsImageFile(f) && IsVideoFile(f))
  {
  }

  /** A limit that passes keeps passing when raised. */
  lemma {:induction false} SizeLimitMonotone(f: MediaFile, m: nat, n: nat)
    requires m <= n && ValidateFileSize(f, m)
    ensures ValidateFileSize(f, n)
  {
    assert m * BytesPerMB <= n * BytesPerMB;
  }

  /** The default video limit admits exactly 2 MiB. */
  lemma DefaultLimitBoundary(name: string, mimeType: string)
    ensures ProcessVideo(MediaFile(name, mimeType, 2 * BytesPerMB), None).Done?
    ensures ProcessVideo(MediaFile(name, mimeType, 2 * BytesPerMB + 1), None).Failed?
  {
  }

  /** The server's upload cap is this module's test at 10 MB. */
  lemma ServerCapIsTenMB(f: MediaFile)
    ensures ValidateFileSize(f, 10) <==> f.size <= Upload.MaxUploadBytes
  {
  }
}
