/** Uploading up to five media files to the cloud store, one after the
    other, stopping at the first file that is empty, too large or refused
    by the store. */
module Uploads {
  import opened Common
  import opened Media

  const MaximumFileCount := 5
  const MaxFileSize := 100 * 1024 * 1024

  /** The part of an uploaded form file the service reads. */
  datatype FormFile = FormFile(fileName: string, contentType: string, length: nat)

  /** The cloud store's answer: its status, its message and, on success,
      the uploaded file's secure URL, which may be absent. */
  datatype CloudReply = CloudReply(code: int, message: string, secureUrl: Option<string>)

  /** The cloud store, as seen by the service: the answer to the k-th upload
      call, made with this file. */
  type Uploader = (nat, FormFile) -> CloudReply

  datatype UploadEntry = UploadEntry(secureUrl: string, fileType: string)

  predicate Rejected(f: FormFile)
  {
    f.length == 0 || f.length > MaxFileSize
  }

  function RejectionMessage(f: FormFile): string
  {
    if f.length == 0 then "One or more files are empty."
    else "File '" + f.fileName + "' exceeds the maximum allowed size."
  }

  /** File k stops the upload: it is rejected before it is sent, or the
      store refuses it. */
  predicate Stops(files: seq<FormFile>, upload: Uploader, k: nat)
    requires k < |files|
  {
    Rejected(files[k]) || upload(k, files[k]).code != OK
  }

  /** The first file, from position `from` on, that stops the upload. */
  function FirstStop(files: seq<FormFile>, upload: Uploader, from: nat): (r: Option<nat>)
    requires from <= |files|
    ensures r.Some? ==> from <= r.value < |files| && Stops(files, upload, r.value) &&
                        forall j :: from <= j < r.value ==> !Stops(files, upload, j)
    ensures r.None? ==> forall j :: from <= j < |files| ==> !Stops(files, upload, j)
    decreases |files| - from
  {
    if from == |files| then None
    else if Stops(files, upload, from) then Some(from)
    else FirstStop(files, upload, from + 1)
  }

  /** The secure URLs the store returned for the first n files, in order,
      skipping answers without one. */
  function SecureUrls(files: seq<FormFile>, upload: Uploader, n: nat): (r: seq<string>)
    requires n <= |files|
    ensures |r| <= n
    ensures forall u :: u in r ==> exists j :: 0 <= j < n && upload(j, files[j]).secureUrl == Some(u)
  {
    if n == 0 then []
    else
      var earlier := SecureUrls(files, upload, n - 1);
      match upload(n - 1, files[n - 1]).secureUrl
      case Some(u) => earlier + [u]
      case None => earlier
  }

  /** Every URL labelled with one file type. */
  function Entries(urls: seq<string>, fileType: string): (r: seq<UploadEntry>)
    ensures |r| == |urls|
    ensures forall i :: 0 <= i < |r| ==> r[i].secureUrl == urls[i] && r[i].fileType == fileType
  {
    seq(|urls|, i requires 0 <= i < |urls| => UploadEntry(urls[i], fileType))
  }

  /** Uploads the files in order. `uploaded` is the number of calls made
      to the store. */
  method UploadFileAsync(files: Option<seq<FormFile>>, upload: Uploader)
    returns (r: Response<seq<UploadEntry>>, uploaded: nat)
    ensures (files.None? || files.value == []) ==>
      r == Fail(BadRequest, "No files were provided for upload.") && uploaded == 0
    ensures files.Some? && |files.value| > MaximumFileCount ==>
      r == Fail(BadRequest, "You can upload a maximum of 5 files.") && uploaded == 0
    ensures files.Some? && 0 < |files.value| <= MaximumFileCount ==>
      var fs := files.value;
      match FirstStop(fs, upload, 0)
      case Some(k) =>
        if Rejected(fs[k]) then r == Fail(BadRequest, RejectionMessage(fs[k])) && uploaded == k
        else r == Fail(upload(k, fs[k]).code, upload(k, fs[k]).message) && uploaded == k + 1
      case None =>
        uploaded == |fs| &&
        r == Ok(OK, "Upload successful",
                Entries(SecureUrls(fs, upload, |fs|), GetFileType(fs[0].contentType, fs[0].fileName)))
  {
    if files.None? || files.value == [] {
      return Fail(BadRequest, "No files were provided for upload."), 0;
    }
    var fs := files.value;
    if |fs| > MaximumFileCount {
      return Fail(BadRequest, "You can upload a maximum of 5 files."), 0;
    }
    var urls: seq<string> := [];
    var k := 0;
    uploaded := 0;
    while k < |fs|
      invariant 0 <= k <= |fs|
      invariant uploaded == k
      invariant forall j :: 0 <= j < k ==> !Stops(fs, upload, j)
      invariant urls == SecureUrls(fs, upload, k)
    {
      var file := fs[k];
      if file.length == 0 {
        assert FirstStop(fs, upload, 0) == Some(k) by { FirstStopAt(fs, upload, k); }
        return Fail(BadRequest, "One or more files are empty."), uploaded;
      }
      if file.length > MaxFileSize {
        assert FirstStop(fs, upload, 0) == Some(k) by { FirstStopAt(fs, upload, k); }
        return Fail(BadRequest, "File '" + file.fileName + "' exceeds the maximum allowed size."), uploaded;
      }
      var reply := upload(k, file);
      uploaded := uploaded + 1;
      if reply.code != OK {
        assert FirstStop(fs, upload, 0) == Some(k) by { FirstStopAt(fs, upload, k); }
        return Fail(reply.code, reply.message), uploaded;
      }
      if reply.secureUrl.Some? {
        urls := urls + [reply.secureUrl.value];
      }
      k := k + 1;
    }
    var fileType := GetFileType(fs[0].contentType, fs[0].fileName);
    var entries := Entries(urls, fileType);
    return Ok(OK, "Upload successful", entries), uploaded;
  }

  /** When no file before k stops the upload and file k does, k is the
      first stop. */
  lemma FirstStopAt(files: seq<FormFile>, upload: Uploader, k: nat)
    requires k < |files|
    requires forall j :: 0 <= j < k ==> !Stops(files, upload, j)
    requires Stops(files, upload, k)
    ensures FirstStop(files, upload, 0) == Some(k)
  {
  }

  /** A successful upload sent every file, and every file was non-empty
      and within the size limit. */
  lemma SuccessMeansEveryFileAccepted(files: seq<FormFile>, upload: Uploader)
    requires FirstStop(files, upload, 0).None?
    ensures forall j :: 0 <= j < |files| ==> 0 < files[j].length <= MaxFileSize && upload(j, files[j]).code == OK
  {
    forall j | 0 <= j < |files|
      ensures 0 < files[j].length <= MaxFileSize && upload(j, files[j]).code == OK
    {
      assert !Stops(files, upload, j);
    }
  }

  /** When the store returns a URL for every file, every file gets an entry,
      in the order the files were given. */
  lemma {:induction false} AllUrlsKept(files: seq<FormFile>, upload: Uploader, n: nat)
    requires n <= |files|
    requires forall j :: 0 <= j < n ==> upload(j, files[j]).secureUrl.Some?
    ensures |SecureUrls(files, upload, n)| == n
    ensures forall j :: 0 <= j < n ==> SecureUrls(files, upload, n)[j] == upload(j, files[j]).secureUrl.value
  {
    if n > 0 {
      AllUrlsKept(files, upload, n - 1);
    }
  }
}
