/** The stand-alone upload page (pages/p3/UploadPage.tsx): choose or drop
    a file, then upload it through a pre-signed POST. The two network
    calls are abstract: the caller says how far the upload got. */
module UploadPage {
  import opened Base
  import opened UploadValidation

  datatype State = State(file: Option<File>, status: string)

  const Initial: State := State(None, "")

  const RequestingStatus: string := "Requesting pre-signed URL..."
  const UploadingStatus: string := "Uploading to S3..."
  const FailedStatus: string := "Upload failed. Please try again."

  function SuccessStatus(fileUrl: string): string
  {
    "Upload successful! File URL: " + fileUrl
  }

  /** `handleFileChange` and `handleDrop`: the first file of a non-empty
      list is taken, an empty list changes nothing. */
  function PickFirst(s: State, files: seq<File>): (r: State)
    ensures |files| == 0 ==> r == s
    ensures |files| > 0 ==> r.file == Some(files[0]) && r.status == s.status
  {
    if |files| > 0 then s.(file := Some(files[0])) else s
  }

  /** The calls `handleUpload` makes to the storage backend. */
  datatype Request = PresignRequest(file: File) | StorageUpload(file: File)

  /** How far an upload got: the pre-signed POST failed, the storage upload
      failed, or the upload returned the file's URL. */
  datatype Outcome = PresignFailed | StorageFailed | Uploaded(fileUrl: string)

  /** Everything one `handleUpload` call does: the state afterwards, every
      status it shows in order (the last one set by the 3-second timer),
      and the requests it makes. */
  datatype Run = Run(state: State, statuses: seq<string>, requests: seq<Request>)

  function HandleUpload(s: State, outcome: Outcome): (r: Run)
    ensures s.file.None? ==> r == Run(s, [], [])
    ensures s.file.Some? ==>
              && |r.statuses| >= 3
              && r.statuses[0] == RequestingStatus
              && r.statuses[|r.statuses| - 1] == ""
              && r.state.status == ""
              && |r.requests| >= 1 && r.requests[0] == PresignRequest(WithUploadType(s.file.value))
              && (UploadingStatus in r.statuses <==> !outcome.PresignFailed?)
              && (outcome.Uploaded? <==> r.state.file.None?)
              && (outcome.Uploaded? ==> r.statuses[|r.statuses| - 2] == SuccessStatus(outcome.fileUrl))
              && (!outcome.Uploaded? ==> r.statuses[|r.statuses| - 2] == FailedStatus && r.state.file == s.file)
  {
    match s.file
    case None => Run(s, [], [])
    case Some(f) =>
      var g := WithUploadType(f);
      match outcome
      case PresignFailed =>
        Run(s.(status := ""), [RequestingStatus, FailedStatus, ""], [PresignRequest(g)])
      case StorageFailed =>
        Run(s.(status := ""), [RequestingStatus, UploadingStatus, FailedStatus, ""],
            [PresignRequest(g), StorageUpload(g)])
      case Uploaded(url) =>
        Run(State(None, ""), [RequestingStatus, UploadingStatus, SuccessStatus(url), ""],
            [PresignRequest(g), StorageUpload(g)])
  }

  /** A failed upload keeps the file, so pressing upload again sends the
      very same file with the same type. */
  lemma RetryResendsSameFile(s: State, failure: Outcome, next: Outcome)
    requires s.file.Some?
    requires !failure.Uploaded?
    ensures HandleUpload(HandleUpload(s, failure).state, next).requests[0]
            == HandleUpload(s, failure).requests[0]
  {
  }

  /** After a success nothing is left to upload: a second press does nothing. */
  lemma SuccessLeavesNothingToUpload(s: State, url: string, next: Outcome)
    requires s.file.Some?
    ensures HandleUpload(HandleUpload(s, Uploaded(url)).state, next).requests == []
  {
  }
}
