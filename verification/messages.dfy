/**
 The data shared by the three execution contexts of the auto-poster: the
 uploaded documents, the persisted session cursor, the two-key durable
 store, and the messages that travel between popup, background worker and
 page script.
 */
module Messages {

  datatype Option<+T> = None | Some(value: T) {
    function GetOr(default: T): T {
      match this
      case Some(v) => v
      case None => default
    }
  }

  /** One uploaded HTML document: its file name and raw HTML text. */
  datatype FileData = FileData(name: string, content: string)

  /** The progress cursor: whether a batch is running and the index of the next file. */
  datatype Session = Session(isRunning: bool, currentIndex: nat)

  /** The session every reset writes, and the default for a missing session key. */
  const Idle: Session := Session(false, 0)

  /**
   The durable key-value store, restricted to its two keys
   (`tistoryAutoPosterFiles` and `tistoryAutoPosterSession`); `None` is a key
   that was never written.
   */
  datatype Store = Store(files: Option<seq<FileData>>, session: Option<Session>)

  const EmptyStore: Store := Store(None, None)

  /** The file list a reader sees: a missing key reads as the empty list. */
  function FilesOf(st: Store): seq<FileData> {
    st.files.GetOr([])
  }

  /** The session a reader sees: a missing key reads as the idle session. */
  function SessionOf(st: Store): Session {
    st.session.GetOr(Idle)
  }

  /** A write of the session key alone; the files key is left as it was. */
  function WriteSession(st: Store, s: Session): (st': Store)
    ensures SessionOf(st') == s
    ensures st'.files == st.files
  {
    st.(session := Some(s))
  }

  /**
   The cursor invariant of the durable store: the session is either the idle
   session or points at an existing file.
   */
  predicate CursorInv(st: Store) {
    SessionOf(st) == Idle || SessionOf(st).currentIndex < |FilesOf(st)|
  }

  /** Every message type used by the extension; `Other` is any other `type`. */
  datatype Msg =
    | StartPosting
    | RunPostingForFile(fileIndex: int, file: Option<FileData>)
    | FilePosted(fileIndex: int)
    | Error(message: Option<string>)
    | PostingDone
    | PostingError(message: Option<string>)
    | OpenNewPost
    | Other(kind: string)

  /**
   An emitted message: `Broadcast` is `chrome.runtime.sendMessage` (reaching
   the popup and the background worker), `ToTab` is `chrome.tabs.sendMessage`
   to the active tab.
   */
  datatype Envelope = Broadcast(msg: Msg) | ToTab(msg: Msg)

  /** The early-return reasons of the background worker's start routine. */
  datatype Reason = NoTab | NoSessionOrFiles | AlreadyDone

  /** A `{ok: ...}` response object. */
  datatype Reply = Ok | NotOk(reason: Reason)

  /** Whether a listener called `sendResponse`, and with what. */
  datatype Response = NoResponse | Respond(reply: Reply)

  /** The delivery of file `i` to the page script, as the background worker sends it. */
  function Delivery(files: seq<FileData>, i: nat): Envelope
    requires i < |files|
  {
    ToTab(RunPostingForFile(i, Some(files[i])))
  }

  /** The number of page deliveries in an outbox. */
  function CountDeliveries(out: seq<Envelope>): nat {
    if out == [] then 0
    else (if out[0].ToTab? && out[0].msg.RunPostingForFile? then 1 else 0) + CountDeliveries(out[1..])
  }
}
