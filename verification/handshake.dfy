/** The pre-signed upload handshake of the controller pages
    (pages/ControlPage.tsx and components/control/SidebarAndUpload.tsx):
    `request_presigned_url` out, `presigned_url` or `presigned_url_error`
    back, a PUT to the storage URL, then `upload_complete` out. Each press
    of Upload registers one `socket.once` listener for each reply; the PUT
    itself is abstract and its outcome arrives with the reply. */
module Handshake {
  import opened Base
  import opened Relay
  import opened UploadValidation

  const UploadingStatus: string := "📤 Uploading..."
  const SuccessStatus: string := "✅ Upload successful!"
  const FailedStatus: string := "❌ Upload failed!"

  function ErrorStatus(message: string): string
  {
    "❌ Error: " + message
  }

  /** The selected file, the status line, the pending `presigned_url`
      listeners (each holding the author it will report, if the page sends
      one) and the number of pending `presigned_url_error` listeners. */
  datatype Upload = Upload(selected: Option<File>, status: string,
                           urlWaiters: seq<Option<string>>, errorWaiters: nat)

  const Idle: Upload := Upload(None, "", [], 0)

  /** `handleUpload`: nothing without a file; otherwise the uploading status,
      one `request_presigned_url` and one listener for each reply. */
  function Click(u: Upload, author: Option<string>): (r: (Upload, seq<Emit>))
    ensures u.selected.None? ==> r == (u, [])
    ensures u.selected.Some? ==>
              && r.0.status == UploadingStatus
              && r.1 == [RequestPresignedUrl(u.selected.value.name, u.selected.value.mimeType)]
              && r.0.urlWaiters == u.urlWaiters + [author]
              && r.0.errorWaiters == u.errorWaiters + 1
              && r.0.selected == u.selected
  {
    match u.selected
    case None => (u, [])
    case Some(f) =>
      (u.(status := UploadingStatus, urlWaiters := u.urlWaiters + [author], errorWaiters := u.errorWaiters + 1),
       [RequestPresignedUrl(f.name, f.mimeType)])
  }

  /** One `upload_complete` per pending listener, for the file name the
      relay sent back. */
  function Completions(fileName: string, waiters: seq<Option<string>>): (out: seq<Emit>)
    ensures |out| == |waiters|
    ensures forall i :: 0 <= i < |waiters| ==> out[i] == UploadComplete(fileName, waiters[i])
  {
    if |waiters| == 0 then [] else [UploadComplete(fileName, waiters[0])] + Completions(fileName, waiters[1..])
  }

  /** `presigned_url` arrives: every pending listener PUTs the file; an OK
      PUT shows success and emits `upload_complete`, a failed one shows the
      failure and emits nothing. The error listeners stay registered. */
  function OnPresignedUrl(u: Upload, fileName: string, putOk: bool): (r: (Upload, seq<Emit>))
    ensures r.0.urlWaiters == [] && r.0.errorWaiters == u.errorWaiters && r.0.selected == u.selected
    ensures u.urlWaiters == [] ==> r == (u, [])
    ensures u.urlWaiters != [] && putOk ==>
              r.0.status == SuccessStatus && |r.1| == |u.urlWaiters|
              && forall i :: 0 <= i < |r.1| ==> r.1[i] == UploadComplete(fileName, u.urlWaiters[i])
    ensures u.urlWaiters != [] && !putOk ==> r.0.status == FailedStatus && r.1 == []
  {
    if u.urlWaiters == [] then (u, [])
    else if putOk then (u.(status := SuccessStatus, urlWaiters := []), Completions(fileName, u.urlWaiters))
    else (u.(status := FailedStatus, urlWaiters := []), [])
  }

  /** `presigned_url_error` arrives: the pending error listeners show the
      relay's message. */
  function OnPresignedUrlError(u: Upload, message: string): (r: Upload)
    ensures r.errorWaiters == 0 && r.urlWaiters == u.urlWaiters && r.selected == u.selected
    ensures u.errorWaiters > 0 ==> r.status == ErrorStatus(message)
    ensures u.errorWaiters == 0 ==> r == u
  {
    if u.errorWaiters > 0 then u.(status := ErrorStatus(message), errorWaiters := 0) else u
  }

  /** The picker hands over a file (or `null`). */
  function Select(u: Upload, file: Option<File>): (r: Upload)
    ensures r.selected == file && r.status == u.status
    ensures r.urlWaiters == u.urlWaiters && r.errorWaiters == u.errorWaiters
  {
    u.(selected := file)
  }

  /** The modal's Close button: no file and an empty status line. Pending
      listeners are not removed. */
  function Close(u: Upload): (r: Upload)
    ensures r.selected == None && r.status == ""
    ensures r.urlWaiters == u.urlWaiters && r.errorWaiters == u.errorWaiters
  {
    u.(selected := None, status := "")
  }

  /** Everything that can happen to the handshake. */
  datatype Act =
    | Pressed(author: Option<string>)
    | UrlArrived(fileName: string, putOk: bool)
    | ErrorArrived(message: string)
    | Picked(file: Option<File>)
    | Closed

  function Apply(u: Upload, a: Act): (Upload, seq<Emit>)
  {
    match a
    case Pressed(author) => Click(u, author)
    case UrlArrived(name, ok) => OnPresignedUrl(u, name, ok)
    case ErrorArrived(msg) => (OnPresignedUrlError(u, msg), [])
    case Picked(f) => (Select(u, f), [])
    case Closed => (Close(u), [])
  }

  function Run(u: Upload, acts: seq<Act>): (Upload, seq<Emit>)
  {
    if |acts| == 0 then (u, [])
    else
      var prev := Run(u, acts[..|acts| - 1]);
      var step := Apply(prev.0, acts[|acts| - 1]);
      (step.0, prev.1 + step.1)
  }

  function Requests(out: seq<Emit>): nat
  {
    if |out| == 0 then 0
    else Requests(out[..|out| - 1]) + (if out[|out| - 1].RequestPresignedUrl? then 1 else 0)
  }

  function CompletionCount(out: seq<Emit>): nat
  {
    if |out| == 0 then 0
    else CompletionCount(out[..|out| - 1]) + (if out[|out| - 1].UploadComplete? then 1 else 0)
  }

  lemma {:induction false} CountsAppend(a: seq<Emit>, b: seq<Emit>)
    ensures Requests(a + b) == Requests(a) + Requests(b)
    ensures CompletionCount(a + b) == CompletionCount(a) + CompletionCount(b)
  {
    if |b| > 0 {
      assert (a + b)[..|a + b| - 1] == a + b[..|b| - 1];
      CountsAppend(a, b[..|b| - 1]);
    } else {
      assert a + b == a;
    }
  }

  lemma {:induction false} CompletionsCount(fileName: string, waiters: seq<Option<string>>)
    ensures CompletionCount(Completions(fileName, waiters)) == |waiters|
    ensures Requests(Completions(fileName, waiters)) == 0
  {
    if |waiters| > 0 {
      CompletionsCount(fileName, waiters[1..]);
      CountsAppend([UploadComplete(fileName, waiters[0])], Completions(fileName, waiters[1..]));
    }
  }

  /** Every `upload_complete` answers an earlier `request_presigned_url`:
      from an idle handshake, completions plus still-pending listeners
      never exceed the requests sent. */
  lemma {:induction false} CompletionsFollowRequests(acts: seq<Act>)
    ensures var r := Run(Idle, acts);
            CompletionCount(r.1) + |r.0.urlWaiters| <= Requests(r.1)
  {
    if |acts| > 0 {
      var prev := Run(Idle, acts[..|acts| - 1]);
      CompletionsFollowRequests(acts[..|acts| - 1]);
      var step := Apply(prev.0, acts[|acts| - 1]);
      CountsAppend(prev.1, step.1);
      match acts[|acts| - 1]
      case Pressed(author) => {
        if prev.0.selected.Some? {
          assert Requests(step.1) == 1 && CompletionCount(step.1) == 0;
        }
      }
      case UrlArrived(name, ok) => {
        if prev.0.urlWaiters != [] && ok {
          CompletionsCount(name, prev.0.urlWaiters);
        }
      }
      case ErrorArrived(msg) => {}
      case Picked(f) => {}
      case Closed => {}
    }
  }
}
