/**
 The background worker: the batch coordinator that owns the progress
 cursor. Each message handler is one atomic turn over the durable store,
 given whether an active tab exists, producing the new store, the messages
 sent in order, and the listener's response.
 */
module Background {
  import opened Messages

  /** What the start routine leaves behind: the store, the messages it sent, its reply. */
  datatype StartOutcome = StartOutcome(store: Store, outbox: seq<Envelope>, reply: Reply)

  /** What one listener turn leaves behind. */
  datatype Turn = Turn(store: Store, outbox: seq<Envelope>, response: Response)

  /** The batch is running and has files left to deliver. */
  predicate Deliverable(st: Store) {
    SessionOf(st).isRunning && 0 < |FilesOf(st)| && SessionOf(st).currentIndex < |FilesOf(st)|
  }

  /**
   `startPostingOnCurrentTab`: without a tab, or without a running session
   and files, nothing happens; a cursor past the end is normalised to the
   idle session with a done notice; otherwise the current file is delivered
   to the tab and nothing is written.
   */
  function Start(st: Store, hasTab: bool): (o: StartOutcome)
    ensures o.store.files == st.files
    ensures o.reply == NotOk(NoTab) <==> !hasTab
    ensures (o.reply == NotOk(NoSessionOrFiles))
              == (hasTab && (!SessionOf(st).isRunning || |FilesOf(st)| == 0))
    ensures (o.reply == NotOk(AlreadyDone))
              == (hasTab && SessionOf(st).isRunning && 0 < |FilesOf(st)| <= SessionOf(st).currentIndex)
    ensures o.reply == Ok <==> hasTab && Deliverable(st)
    ensures o.reply.NotOk? && o.reply.reason != AlreadyDone ==> o.store == st && o.outbox == []
    ensures o.reply == NotOk(AlreadyDone) ==> SessionOf(o.store) == Idle && o.outbox == [Broadcast(PostingDone)]
    ensures o.reply == Ok ==>
              o.store == st && o.outbox == [Delivery(FilesOf(st), SessionOf(st).currentIndex)]
  {
    if !hasTab then StartOutcome(st, [], NotOk(NoTab))
    else
      var files := FilesOf(st);
      var session := SessionOf(st);
      if !session.isRunning || |files| == 0 then StartOutcome(st, [], NotOk(NoSessionOrFiles))
      else if session.currentIndex >= |files| then
        StartOutcome(WriteSession(st, Idle), [Broadcast(PostingDone)], NotOk(AlreadyDone))
      else
        StartOutcome(st, [Delivery(files, session.currentIndex)], Ok)
  }

  /**
   The `FILE_POSTED` branch: the cursor advances by one whatever index the
   page reported; at the end of the batch the idle session is written and a
   done notice sent, otherwise the advanced session is written first and the
   start routine re-run on it.
   */
  function OnFilePosted(st: Store, hasTab: bool): (t: Turn)
    ensures t.store.files == st.files
    ensures t.response == Respond(Ok)
    ensures SessionOf(st).currentIndex + 1 >= |FilesOf(st)| ==>
              SessionOf(t.store) == Idle && t.outbox == [Broadcast(PostingDone)]
    ensures SessionOf(st).currentIndex + 1 < |FilesOf(st)| ==>
              && SessionOf(t.store) == Session(SessionOf(st).isRunning, SessionOf(st).currentIndex + 1)
              && t.outbox == (if SessionOf(st).isRunning && hasTab
                              then [Delivery(FilesOf(st), SessionOf(st).currentIndex + 1)] else [])
  {
    var files := FilesOf(st);
    var session := SessionOf(st);
    var next := session.currentIndex + 1;
    if next >= |files| then
      Turn(WriteSession(st, Idle), [Broadcast(PostingDone)], Respond(Ok))
    else
      var o := Start(WriteSession(st, session.(currentIndex := next)), hasTab);
      Turn(o.store, o.outbox, Respond(Ok))
  }

  /** The notice text used when the page reported no message, or an empty one. */
  const UnknownError: string := "알 수 없는 오류"

  /** `msg.message || '알 수 없는 오류'`. */
  function ErrorNotice(message: Option<string>): (r: string)
    ensures r != []
    ensures message.Some? && message.value != [] ==> r == message.value
    ensures message.None? || message.value == [] ==> r == UnknownError
  {
    match message
    case Some(m) => if m != [] then m else UnknownError
    case None => UnknownError
  }

  /** The `ERROR` branch: reset the session and forward the failure to the popup. */
  function OnError(st: Store, message: Option<string>): (t: Turn)
    ensures t.store.files == st.files
    ensures SessionOf(t.store) == Idle
    ensures t.outbox == [Broadcast(PostingError(Some(ErrorNotice(message))))]
    ensures t.response == Respond(Ok)
  {
    Turn(WriteSession(st, Idle), [Broadcast(PostingError(Some(ErrorNotice(message))))], Respond(Ok))
  }

  /** The background listener: dispatch on the message type; other types get no response. */
  function Handle(st: Store, hasTab: bool, m: Msg): (t: Turn)
    ensures t.store.files == st.files
    ensures m.StartPosting? ==> var o := Start(st, hasTab);
                                t == Turn(o.store, o.outbox, Respond(o.reply))
    ensures m.FilePosted? ==> t == OnFilePosted(st, hasTab)
    ensures m.Error? ==> t == OnError(st, m.message)
    ensures !(m.StartPosting? || m.FilePosted? || m.Error?) ==> t == Turn(st, [], NoResponse)
  {
    match m
    case StartPosting =>
      var o := Start(st, hasTab);
      Turn(o.store, o.outbox, Respond(o.reply))
    case FilePosted(_) => OnFilePosted(st, hasTab)
    case Error(message) => OnError(st, message)
    case _ => Turn(st, [], NoResponse)
  }

  /**
   On a store nothing was ever written to, both keys read as their defaults:
   a start request finds no session and changes nothing, and a stray
   completion report moves the cursor past the empty list, so it writes the
   idle session and announces the batch done.
   */
  lemma EmptyStoreDefaults(hasTab: bool, i: int)
    ensures Handle(EmptyStore, hasTab, StartPosting).store == EmptyStore
    ensures Handle(EmptyStore, hasTab, StartPosting).outbox == []
    ensures hasTab ==> Handle(EmptyStore, hasTab, StartPosting).response == Respond(NotOk(NoSessionOrFiles))
    ensures Handle(EmptyStore, hasTab, FilePosted(i)) == Turn(Store(None, Some(Idle)), [Broadcast(PostingDone)], Respond(Ok))
  {
  }

  /** A sequence of listener turns, each on the store the previous one left. */
  function Run(st: Store, hasTab: bool, msgs: seq<Msg>): (Store, seq<Envelope>)
    decreases |msgs|
  {
    if msgs == [] then (st, [])
    else
      var t := Handle(st, hasTab, msgs[0]);
      var rest := Run(t.store, hasTab, msgs[1..]);
      (rest.0, t.outbox + rest.1)
  }

  /** The cursor invariant holds after every listener turn that started from it. */
  lemma HandlePreservesCursorInv(st: Store, hasTab: bool, m: Msg)
    requires CursorInv(st)
    ensures CursorInv(Handle(st, hasTab, m).store)
  {
  }

  /** A completion report or an error report establishes the cursor invariant from any store. */
  lemma ReportsEstablishCursorInv(st: Store, hasTab: bool, m: Msg)
    requires m.FilePosted? || m.Error?
    ensures CursorInv(Handle(st, hasTab, m).store)
  {
  }

  /** The invariant holds after any sequence of turns that started from it. */
  lemma {:induction false} RunPreservesCursorInv(st: Store, hasTab: bool, msgs: seq<Msg>)
    requires CursorInv(st)
    ensures CursorInv(Run(st, hasTab, msgs).0)
    ensures Run(st, hasTab, msgs).0.files == st.files
    decreases |msgs|
  {
    if msgs != [] {
      HandlePreservesCursorInv(st, hasTab, msgs[0]);
      RunPreservesCursorInv(Handle(st, hasTab, msgs[0]).store, hasTab, msgs[1..]);
    }
  }

  /** `FILE_POSTED` does not look at the index it carries. */
  lemma FilePostedIgnoresIndex(st: Store, hasTab: bool, a: int, b: int)
    ensures Handle(st, hasTab, FilePosted(a)) == Handle(st, hasTab, FilePosted(b))
  {
  }

  /** No turn delivers more than one file to the page. */
  lemma AtMostOneDelivery(st: Store, hasTab: bool, m: Msg)
    ensures CountDeliveries(Handle(st, hasTab, m).outbox) <= 1
  {
  }

  lemma CountDeliveriesAppend(a: seq<Envelope>, b: seq<Envelope>)
    ensures CountDeliveries(a + b) == CountDeliveries(a) + CountDeliveries(b)
    decreases |a|
  {
    if a == [] {
      assert a + b == b;
    } else {
      assert (a + b)[0] == a[0];
      assert (a + b)[1..] == a[1..] + b;
      CountDeliveriesAppend(a[1..], b);
    }
  }

  /**
   Once the session is not running, no turn delivers a file and the session
   stays not running: a batch stopped by an error or by completion cannot
   resume without the popup writing a running session.
   */
  lemma IdleTurnIsQuiet(st: Store, hasTab: bool, m: Msg)
    requires !SessionOf(st).isRunning
    ensures CountDeliveries(Handle(st, hasTab, m).outbox) == 0
    ensures !SessionOf(Handle(st, hasTab, m).store).isRunning
  {
  }

  lemma {:induction false} IdleRunIsQuiet(st: Store, hasTab: bool, msgs: seq<Msg>)
    requires !SessionOf(st).isRunning
    ensures CountDeliveries(Run(st, hasTab, msgs).1) == 0
    ensures !SessionOf(Run(st, hasTab, msgs).0).isRunning
    decreases |msgs|
  {
    if msgs != [] {
      var t := Handle(st, hasTab, msgs[0]);
      IdleTurnIsQuiet(st, hasTab, msgs[0]);
      IdleRunIsQuiet(t.store, hasTab, msgs[1..]);
      CountDeliveriesAppend(t.outbox, Run(t.store, hasTab, msgs[1..]).1);
    }
  }

  /** The deliveries of files `from` up to (excluding) `to`, in order. */
  function Deliveries(files: seq<FileData>, from: nat, to: nat): seq<Envelope>
    requires from <= to <= |files|
    decreases (to as int) - (from as int)
  {
    if from == to then [] else [Delivery(files, from)] + Deliveries(files, from + 1, to)
  }

  /** A store holding `files` whose running cursor is at `k`. */
  function RunningAt(files: seq<FileData>, k: nat): Store {
    Store(Some(files), Some(Session(true, k)))
  }

  /** One turn followed by the rest of the run. */
  lemma RunStep(st: Store, hasTab: bool, msgs: seq<Msg>)
    requires msgs != []
    ensures var t := Handle(st, hasTab, msgs[0]);
            Run(st, hasTab, msgs) == (Run(t.store, hasTab, msgs[1..]).0, t.outbox + Run(t.store, hasTab, msgs[1..]).1)
  {
  }

  /**
   With the cursor at `k` and a tab present, `|files| - k` completion
   reports (whatever indices they carry) deliver files `k + 1` to the last
   in order, then announce the end, and leave the idle session.
   */
  lemma {:induction false} CompletionReportsDrainBatch(files: seq<FileData>, k: nat, msgs: seq<Msg>)
    requires k < |files|
    requires |msgs| == |files| - k
    requires forall i :: 0 <= i < |msgs| ==> msgs[i].FilePosted?
    ensures Run(RunningAt(files, k), true, msgs)
              == (Store(Some(files), Some(Idle)), Deliveries(files, k + 1, |files|) + [Broadcast(PostingDone)])
    decreases |files| - k
  {
    var st := RunningAt(files, k);
    var t := Handle(st, true, msgs[0]);
    RunStep(st, true, msgs);
    if k + 1 == |files| {
      assert msgs[1..] == [];
      assert t.store == Store(Some(files), Some(Idle));
      assert t.outbox == [Broadcast(PostingDone)];
      assert Run(t.store, true, msgs[1..]) == (t.store, []);
      assert Deliveries(files, k + 1, |files|) == [];
      assert t.outbox + [] == [] + [Broadcast(PostingDone)];
    } else {
      assert t.store == RunningAt(files, k + 1);
      assert t.outbox == [Delivery(files, k + 1)];
      CompletionReportsDrainBatch(files, k + 1, msgs[1..]);
      var tail := Deliveries(files, k + 2, |files|);
      assert Deliveries(files, k + 1, |files|) == [Delivery(files, k + 1)] + tail;
      assert [Delivery(files, k + 1)] + (tail + [Broadcast(PostingDone)])
          == ([Delivery(files, k + 1)] + tail) + [Broadcast(PostingDone)];
    }
  }

  /**
   The whole batch: a start followed by one completion report per file
   delivers every file exactly once, in order, then announces the end and
   leaves the idle session.
   */
  lemma BatchRunsInOrder(files: seq<FileData>, msgs: seq<Msg>)
    requires 0 < |files|
    requires |msgs| == |files|
    requires forall i :: 0 <= i < |msgs| ==> msgs[i].FilePosted?
    ensures Run(RunningAt(files, 0), true, [StartPosting] + msgs)
              == (Store(Some(files), Some(Idle)), Deliveries(files, 0, |files|) + [Broadcast(PostingDone)])
  {
    var st := RunningAt(files, 0);
    var all := [StartPosting] + msgs;
    assert all[0] == StartPosting;
    assert all[1..] == msgs;
    RunStep(st, true, all);
    var t := Handle(st, true, StartPosting);
    assert t.store == st;
    assert t.outbox == [Delivery(files, 0)];
    CompletionReportsDrainBatch(files, 0, msgs);
    var tail := Deliveries(files, 1, |files|);
    assert Deliveries(files, 0, |files|) == [Delivery(files, 0)] + tail;
    assert [Delivery(files, 0)] + (tail + [Broadcast(PostingDone)])
        == ([Delivery(files, 0)] + tail) + [Broadcast(PostingDone)];
  }

  /** Three files: deliveries for indices 0, 1 and 2 in that order, then the done notice. */
  lemma ThreeFileScenario(a: FileData, b: FileData, c: FileData)
    ensures Run(RunningAt([a, b, c], 0), true, [StartPosting, FilePosted(0), FilePosted(1), FilePosted(2)])
              == (Store(Some([a, b, c]), Some(Idle)),
                  [ToTab(RunPostingForFile(0, Some(a))), ToTab(RunPostingForFile(1, Some(b))),
                   ToTab(RunPostingForFile(2, Some(c))), Broadcast(PostingDone)])
  {
    var files := [a, b, c];
    var msgs := [FilePosted(0), FilePosted(1), FilePosted(2)];
    assert [StartPosting, FilePosted(0), FilePosted(1), FilePosted(2)] == [StartPosting] + msgs;
    assert forall i :: 0 <= i < |msgs| ==> msgs[i].FilePosted?;
    BatchRunsInOrder(files, msgs);
    assert Deliveries(files, 3, 3) == [];
    assert Deliveries(files, 2, 3) == [Delivery(files, 2)];
    assert Deliveries(files, 1, 3) == [Delivery(files, 1), Delivery(files, 2)];
    assert Deliveries(files, 0, 3) == [Delivery(files, 0), Delivery(files, 1), Delivery(files, 2)];
    assert Delivery(files, 0) == ToTab(RunPostingForFile(0, Some(a)));
    assert Delivery(files, 1) == ToTab(RunPostingForFile(1, Some(b)));
    assert Delivery(files, 2) == ToTab(RunPostingForFile(2, Some(c)));
    assert Deliveries(files, 0, 3) + [Broadcast(PostingDone)]
        == [Delivery(files, 0), Delivery(files, 1), Delivery(files, 2), Broadcast(PostingDone)];
  }

  /**
   Three files, the second fails with message `x`: the popup is told `x`, the
   session is reset, and no later report or other message delivers another
   file until a new start.
   */
  lemma ErrorStopsBatch(a: FileData, b: FileData, c: FileData, x: string, later: seq<Msg>)
    requires x != []
    ensures var r := Run(RunningAt([a, b, c], 0), true, [StartPosting, FilePosted(0), Error(Some(x))]);
            && r.1 == [ToTab(RunPostingForFile(0, Some(a))), ToTab(RunPostingForFile(1, Some(b))),
                       Broadcast(PostingError(Some(x)))]
            && SessionOf(r.0) == Idle
            && CountDeliveries(Run(r.0, true, later).1) == 0
  {
    var files := [a, b, c];
    var m := [StartPosting, FilePosted(0), Error(Some(x))];
    var st0 := RunningAt(files, 0);
    RunStep(st0, true, m);
    assert m[1..] == [FilePosted(0), Error(Some(x))];
    RunStep(st0, true, m[1..]);
    var st1 := RunningAt(files, 1);
    assert Handle(st0, true, FilePosted(0)).store == st1;
    assert m[1..][1..] == [Error(Some(x))];
    RunStep(st1, true, m[1..][1..]);
    var st2 := Store(Some(files), Some(Idle));
    assert Handle(st1, true, Error(Some(x))).store == st2;
    assert Run(st2, true, []) == (st2, []);
    IdleRunIsQuiet(st2, true, later);
  }
}
