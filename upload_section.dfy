/**
 * The upload panel `UploadSection`: the selected `file`, the `uploading`
 * flag, the `error` message and the `dragActive` highlight, changed by the
 * drag, drop, select, remove and upload handlers. `Step` is the
 * specification of one handler run on a snapshot of the state; the class
 * `UploadSection` updates its fields in place and is proved to agree with
 * it. The HTTP request is not part of this model: its outcome is an input,
 * and the calls to the parent's `onUploadSuccess` are recorded in order.
 */
module UploadPanel {
  import opened Wrappers
  import opened Records

  /** A browser `File`: its name, its MIME type and its size in bytes. */
  datatype FileInfo = FileInfo(name: string, mimeType: string, size: nat)

  datatype DragKind = DragEnter | DragOver | DragLeave

  /**
   * How the upload request ended: the server's response data, or an error
   * with the response's `detail` (absent when there was no response or no
   * detail) and the error `code` (empty when there is none).
   */
  datatype UploadOutcome =
    | Delivered(data: Insight)
    | Failed(detail: Option<string>, code: string)

  datatype Event =
    | Drag(kind: DragKind)
    | Drop(files: seq<FileInfo>)
    | Select(files: seq<FileInfo>)
    | Remove
    | StartUpload
    | UploadDone(outcome: UploadOutcome)

  /** The panel's state, plus every value handed to `onUploadSuccess` so far. */
  datatype Panel = Panel(
    file: Option<FileInfo>, uploading: bool, error: string, dragActive: bool,
    handedOver: seq<Insight>)

  const PdfType: string := "application/pdf"
  const NotPdfMessage: string := "Please select a PDF file"
  const NoFileMessage: string := "Please select a file first"
  const TimeoutCode: string := "ECONNABORTED"
  const TimeoutMessage: string := "Upload timeout. Please try again."
  const GenericMessage: string := "Failed to upload file. Please try again."

  const Initial: Panel := Panel(None, false, "", false, [])

  predicate IsPdf(f: FileInfo) { f.mimeType == PdfType }

  /** A `detail` the catch block uses: present and a non-empty string. */
  predicate HasDetail(detail: Option<string>) { detail.Some? && detail.value != [] }

  /**
   * The message a failed upload shows: the server's detail first, then the
   * timeout message for `ECONNABORTED`, then the generic message. It is
   * never empty, so a failure always shows an error.
   */
  function FailureMessage(detail: Option<string>, code: string): (m: string)
    ensures m != []
    ensures HasDetail(detail) ==> m == detail.value
    ensures !HasDetail(detail) ==> (m == TimeoutMessage <==> code == TimeoutCode)
    ensures !HasDetail(detail) ==> m == TimeoutMessage || m == GenericMessage
  {
    if HasDetail(detail) then detail.value
    else if code == TimeoutCode then TimeoutMessage
    else GenericMessage
  }

  /** `disabled={!file || uploading}`: the upload button is usable only with a file and no upload running. */
  predicate UploadEnabled(p: Panel) {
    p.file.Some? && !p.uploading
  }

  /** The file a handler puts on the wire: `handleUpload` sends the selected file, and only it. */
  function Sent(p: Panel, e: Event): (f: Option<FileInfo>)
    ensures f.Some? <==> e.StartUpload? && p.file.Some?
    ensures f.Some? ==> f == p.file
  {
    if e.StartUpload? then p.file else None
  }

  /** One handler run: what the state becomes. */
  function Step(p: Panel, e: Event): Panel {
    match e
    case Drag(kind) => p.(dragActive := kind != DragLeave)
    case Drop(files) =>
      if |files| > 0 && IsPdf(files[0]) then p.(dragActive := false, file := Some(files[0]), error := "")
      else p.(dragActive := false, error := NotPdfMessage)
    case Select(files) =>
      if |files| == 0 then p
      else if IsPdf(files[0]) then p.(file := Some(files[0]), error := "")
      else p.(error := NotPdfMessage)
    case Remove => p.(file := None)
    case StartUpload =>
      if p.file.None? then p.(error := NoFileMessage) else p.(uploading := true, error := "")
    case UploadDone(outcome) =>
      match outcome
      case Delivered(data) => p.(handedOver := p.handedOver + [data], file := None, uploading := false)
      case Failed(detail, code) => p.(error := FailureMessage(detail, code), uploading := false)
  }

  /** The handlers run one after the other. */
  function Run(p: Panel, es: seq<Event>): Panel
    decreases |es|
  {
    if es == [] then p else Run(Step(p, es[0]), es[1..])
  }

  /** The only files the panel ever holds are PDFs. */
  predicate Valid(p: Panel) {
    p.file.Some? ==> IsPdf(p.file.value)
  }

  /** Every handler keeps the held file a PDF. */
  lemma StepKeepsValid(p: Panel, e: Event)
    requires Valid(p)
    ensures Valid(Step(p, e))
  {
  }

  lemma {:induction false} RunKeepsValid(p: Panel, es: seq<Event>)
    requires Valid(p)
    ensures Valid(Run(p, es))
    decreases |es|
  {
    if es != [] {
      StepKeepsValid(p, es[0]);
      RunKeepsValid(Step(p, es[0]), es[1..]);
    }
  }

  /** `dragenter` and `dragover` light the drop zone, `dragleave` and `drop` put it out; nothing else changes. */
  lemma DragHighlight(p: Panel, e: Event)
    requires e.Drag? || e.Drop?
    ensures Step(p, e).dragActive <==> e.Drag? && e.kind != DragLeave
    ensures e.Drag? ==> Step(p, e) == p.(dragActive := e.kind != DragLeave)
  {
  }

  /**
   * Choosing a file: a PDF becomes the file and clears the error; anything
   * else leaves the file as it was and asks for a PDF; an empty selection
   * changes nothing, while an empty drop also asks for a PDF.
   */
  lemma ChooseFile(p: Panel, e: Event)
    requires e.Drop? || e.Select?
    ensures var q := Step(p, e);
      && q.uploading == p.uploading && q.handedOver == p.handedOver
      && (|e.files| > 0 && IsPdf(e.files[0]) ==> q.file == Some(e.files[0]) && q.error == "")
      && (|e.files| > 0 && !IsPdf(e.files[0]) ==> q.file == p.file && q.error == NotPdfMessage)
      && (|e.files| == 0 && e.Select? ==> q == p)
      && (|e.files| == 0 && e.Drop? ==> q.file == p.file && q.error == NotPdfMessage)
  {
  }

  /** Upload without a file: the request is not sent, the error asks for a file, and the flag is left alone. */
  lemma UploadWithoutFile(p: Panel)
    requires p.file.None?
    ensures Sent(p, StartUpload) == None
    ensures Step(p, StartUpload) == p.(error := NoFileMessage)
  {
  }

  /**
   * A full upload from an enabled button: the selected file is sent, the
   * button stays disabled while the request runs, and afterwards `uploading`
   * is false whatever the outcome. On success the response data is handed
   * over exactly once and the file is cleared; on failure the file is kept
   * and the error is the failure message.
   */
  lemma UploadRoundTrip(p: Panel, outcome: UploadOutcome)
    requires UploadEnabled(p)
    ensures Sent(p, StartUpload) == p.file
    ensures !UploadEnabled(Step(p, StartUpload))
    ensures var q := Run(p, [StartUpload, UploadDone(outcome)]);
      && !q.uploading
      && q.dragActive == p.dragActive
      && (outcome.Delivered? ==> q.file == None && q.handedOver == p.handedOver + [outcome.data] && q.error == "")
      && (outcome.Failed? ==>
            q.file == p.file && q.handedOver == p.handedOver && q.error == FailureMessage(outcome.detail, outcome.code))
  {
    var s := Step(p, StartUpload);
    assert [StartUpload, UploadDone(outcome)][1..] == [UploadDone(outcome)];
    assert Run(p, [StartUpload, UploadDone(outcome)]) == Run(s, [UploadDone(outcome)]);
    assert [UploadDone(outcome)][1..] == [];
    assert Run(s, [UploadDone(outcome)]) == Step(s, UploadDone(outcome));
  }

  /** The data of each successful upload among `es`, in order. */
  function DeliveredData(es: seq<Event>): seq<Insight>
    decreases |es|
  {
    if es == [] then []
    else
      var here := if es[0].UploadDone? && es[0].outcome.Delivered? then [es[0].outcome.data] else [];
      here + DeliveredData(es[1..])
  }

  /** The parent is called once per successful upload, in order, with that upload's data, and never otherwise. */
  lemma {:induction false} RunHandsOverDeliveries(p: Panel, es: seq<Event>)
    ensures Run(p, es).handedOver == p.handedOver + DeliveredData(es)
    decreases |es|
  {
    if es != [] {
      RunHandsOverDeliveries(Step(p, es[0]), es[1..]);
      assert p.handedOver + (DeliveredData([es[0]]) + DeliveredData(es[1..])) ==
        (p.handedOver + DeliveredData([es[0]])) + DeliveredData(es[1..]);
      assert [es[0]][1..] == [];
    }
  }

  /** The component: its four state variables, and the parent's calls so far. */
  class UploadSection {
    var file: Option<FileInfo>
    var uploading: bool
    var error: string
    var dragActive: bool
    var handedOver: seq<Insight>

    function Snapshot(): Panel
      reads this
    {
      Panel(file, uploading, error, dragActive, handedOver)
    }

    /** `useState(null)`, `useState(false)`, `useState('')`, `useState(false)` */
    constructor()
      ensures Snapshot() == Initial
    {
      file := None;
      uploading := false;
      error := "";
      dragActive := false;
      handedOver := [];
    }

    /** `handleDrag(e)` */
    method HandleDrag(kind: DragKind)
      modifies this
      ensures Snapshot() == Step(old(Snapshot()), Drag(kind))
    {
      if kind == DragEnter || kind == DragOver {
        dragActive := true;
      } else if kind == DragLeave {
        dragActive := false;
      }
    }

    /** `handleDrop(e)`: only the first dropped file is looked at. */
    method HandleDrop(files: seq<FileInfo>)
      modifies this
      ensures Snapshot() == Step(old(Snapshot()), Drop(files))
    {
      dragActive := false;
      if |files| > 0 && files[0].mimeType == PdfType {
        file := Some(files[0]);
        error := "";
      } else {
        error := NotPdfMessage;
      }
    }

    /** `handleFileSelect(e)`: only the first selected file is looked at. */
    method HandleFileSelect(files: seq<FileInfo>)
      modifies this
      ensures Snapshot() == Step(old(Snapshot()), Select(files))
    {
      if |files| > 0 {
        if files[0].mimeType == PdfType {
          file := Some(files[0]);
          error := "";
        } else {
          error := NotPdfMessage;
        }
      }
    }

    /** The Remove button. */
    method RemoveFile()
      modifies this
      ensures Snapshot() == Step(old(Snapshot()), Remove)
    {
      file := None;
    }

    /** `handleUpload` up to the request: returns the file it sends, if any. */
    method BeginUpload() returns (sent: Option<FileInfo>)
      modifies this
      ensures sent == Sent(old(Snapshot()), StartUpload)
      ensures Snapshot() == Step(old(Snapshot()), StartUpload)
    {
      if file.None? {
        error := NoFileMessage;
        return None;
      }
      uploading := true;
      error := "";
      sent := file;
    }

    /** `handleUpload` after the request: the success branch or the catch block, then `finally`. */
    method FinishUpload(outcome: UploadOutcome)
      modifies this
      ensures Snapshot() == Step(old(Snapshot()), UploadDone(outcome))
    {
      match outcome {
        case Delivered(data) =>
          handedOver := handedOver + [data];
          file := None;
        case Failed(detail, code) =>
          if detail.Some? && detail.value != [] {
            error := detail.value;
          } else if code == TimeoutCode {
            error := TimeoutMessage;
          } else {
            error := GenericMessage;
          }
      }
      uploading := false;
    }

    /** `handleUpload` from start to finish, with `outcome` as the request's result when one is sent. */
    method HandleUpload(outcome: UploadOutcome) returns (sent: Option<FileInfo>)
      modifies this
      ensures sent == Sent(old(Snapshot()), StartUpload)
      ensures sent.Some? ==> Snapshot() == Run(old(Snapshot()), [StartUpload, UploadDone(outcome)])
      ensures sent.None? ==> Snapshot() == Step(old(Snapshot()), StartUpload)
      ensures sent.Some? ==> !uploading
    {
      ghost var before := Snapshot();
      sent := BeginUpload();
      if sent.Some? {
        ghost var mid := Snapshot();
        FinishUpload(outcome);
        assert [StartUpload, UploadDone(outcome)][1..] == [UploadDone(outcome)];
        assert Run(before, [StartUpload, UploadDone(outcome)]) == Run(mid, [UploadDone(outcome)]);
        assert [UploadDone(outcome)][1..] == [];
        assert Run(mid, [UploadDone(outcome)]) == Step(mid, UploadDone(outcome));
      }
    }
  }
}
