/** Classifying an uploaded file as "image", "video", "gif" or "other",
    from its content type or, failing that, from its file name's
    extension. */
module Media {
  import opened Common

  /** `Path.GetExtension` with '/' as the only directory separator: the
      text from the last '.' of the last path segment, empty when there is
      none or when the name ends with that '.'. */
  function Extension(fileName: string): (r: string)
    ensures r == [] || (|r| >= 2 && r[0] == '.' && |r| <= |fileName| && r == fileName[|fileName| - |r|..])
    ensures forall i :: 1 <= i < |r| ==> r[i] != '.' && r[i] != '/'
    decreases |fileName|
  {
    if fileName == [] then []
    else
      var last := fileName[|fileName| - 1];
      if last == '.' || last == '/' then []
      else ExtensionFrom(fileName, |fileName| - 1)
  }

  /** The scan towards the front, from position i, past characters that
      are neither '.' nor '/'. */
  function ExtensionFrom(fileName: string, i: nat): (r: string)
    requires 1 <= i + 1 <= |fileName|
    requires forall j :: i <= j < |fileName| ==> fileName[j] != '.' && fileName[j] != '/'
    ensures r == [] || (|r| >= 2 && r[0] == '.' && |r| <= |fileName| && r == fileName[|fileName| - |r|..])
    ensures forall k :: 1 <= k < |r| ==> r[k] != '.' && r[k] != '/'
    decreases i
  {
    if i == 0 then []
    else if fileName[i - 1] == '.' then fileName[i - 1..]
    else if fileName[i - 1] == '/' then []
    else ExtensionFrom(fileName, i - 1)
  }

  const ImageExtensions := [".jpg", ".jpeg", ".png"]
  const VideoExtensions := [".mp4", ".mov", ".avi"]

  /** The switch over the lower-cased extension. */
  function TypeOfExtension(ext: string): (r: string)
    ensures r in {"image", "video", "gif", "other"}
    ensures r == "gif" <==> ext == ".gif"
    ensures r == "image" <==> ext in ImageExtensions
    ensures r == "video" <==> ext in VideoExtensions
  {
    if ext in ImageExtensions then "image"
    else if ext == ".gif" then "gif"
    else if ext in VideoExtensions then "video"
    else "other"
  }

  function GetFileType(contentType: string, fileName: string): (r: string)
    ensures r in {"image", "video", "gif", "other"}
  {
    if !IsNullOrWhiteSpace(Some(contentType)) && StartsWith(contentType, "image") then "image"
    else if !IsNullOrWhiteSpace(Some(contentType)) && StartsWith(contentType, "video") then "video"
    else TypeOfExtension(ToLower(Extension(fileName)))
  }

  /** An image or video content type decides alone; the file name is not
      consulted. */
  lemma ContentTypeDecides(contentType: string, fileName: string, otherName: string)
    requires StartsWith(contentType, "image") || StartsWith(contentType, "video")
    ensures GetFileType(contentType, fileName) == GetFileType(contentType, otherName)
    ensures StartsWith(contentType, "image") ==> GetFileType(contentType, fileName) == "image"
    ensures !StartsWith(contentType, "image") ==> GetFileType(contentType, fileName) == "video"
  {
    assert contentType[0] == contentType[..5][0];
    assert !IsWhiteSpace(contentType[0]);
  }

  /** Otherwise only the extension counts, whatever its letter case. */
  lemma ExtensionDecides(contentType: string, fileName: string, otherName: string)
    requires !StartsWith(contentType, "image") && !StartsWith(contentType, "video")
    requires ToLower(Extension(fileName)) == ToLower(Extension(otherName))
    ensures GetFileType(contentType, fileName) == GetFileType(contentType, otherName)
    ensures GetFileType(contentType, fileName) == TypeOfExtension(ToLower(Extension(fileName)))
  {
  }

  /** "gif" comes only from a name ending in ".gif", in any letter case. */
  lemma GifOnlyFromExtension(contentType: string, fileName: string)
    ensures GetFileType(contentType, fileName) == "gif" <==>
      (!StartsWith(contentType, "image") || IsNullOrWhiteSpace(Some(contentType))) &&
      (!StartsWith(contentType, "video") || IsNullOrWhiteSpace(Some(contentType))) &&
      ToLower(Extension(fileName)) == ".gif"
  {
  }
}
