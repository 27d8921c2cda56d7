/**
 Properties that span the three contexts: the stores the popup writes keep
 the background worker's cursor invariant, the start handshake, the round
 trip of one delivery through the page script, and how a page failure
 reaches the popup's status line.
 */
module Scenarios {
  import opened Messages
  import Background
  import Popup
  import ContentScript

  /** Both stores the popup writes satisfy the cursor invariant the background worker keeps. */
  lemma PopupWritesKeepCursorInv(p: Popup.PopupState, files: seq<FileData>)
    ensures CursorInv(Store(Some(files), Some(Idle)))
    ensures p.loaded != [] ==> var effects := Popup.StartClicked(p).1;
                               effects[0].SetStorage? && CursorInv(effects[0].store)
  {
  }

  /**
   Loading files without pressing start does not start a batch: the start
   routine finds an idle session, answers with `NO_SESSION_OR_FILES`, and
   touches nothing.
   */
  lemma UploadAloneDoesNotStart(files: seq<FileData>)
    ensures var st := Store(Some(files), Some(Idle));
            Background.Handle(st, true, StartPosting) == Background.Turn(st, [], Respond(NotOk(NoSessionOrFiles)))
  {
  }

  /**
   The start handshake: with files loaded and a tab open, the store the
   popup writes makes the background worker deliver the first loaded file
   and answer `ok`, and the popup then shows that posting started; without a
   tab the answer is `NO_TAB` and the popup shows that starting failed.
   */
  lemma StartHandshake(p: Popup.PopupState, hasTab: bool)
    requires p.loaded != []
    ensures var st := Popup.StartClicked(p).1[0].store;
            var t := Background.Handle(st, hasTab, StartPosting);
            && (hasTab ==> && t.outbox == [ToTab(RunPostingForFile(0, Some(p.loaded[0])))]
                           && t.store == st
                           && Popup.OnStartAnswer(p, Popup.Answered(Some(t.response.reply))).status
                                == Some(Popup.Started))
            && (!hasTab ==> && t == Background.Turn(st, [], Respond(NotOk(NoTab)))
                            && Popup.OnStartAnswer(p, Popup.Answered(Some(t.response.reply))).status
                                 == Some(Popup.StartFailed))
  {
  }

  /**
   One delivery's round trip: the page script acknowledges the delivery of
   file `k`, and on a page where every step succeeds it reports file `k`
   posted; fed back, that report moves the cursor to `k + 1` and delivers
   the next file, or ends the batch after the last.
   */
  lemma DeliveryRoundTrip(files: seq<FileData>, k: nat, page: ContentScript.Page,
                          parse: string -> ContentScript.Document)
    requires k < |files|
    requires ContentScript.PassedThrough(|ContentScript.Checks|, Some(files[k]), page)
    ensures var st := Background.RunningAt(files, k);
            var delivery := Background.Handle(st, true, StartPosting).outbox;
            var page_ := ContentScript.OnMessage(delivery[0].msg, page, parse);
            && delivery == [Delivery(files, k)]
            && page_.0 == Respond(Ok)
            && page_.1.outbox == [Broadcast(FilePosted(k))]
            && var back := Background.Handle(st, true, page_.1.outbox[0].msg);
               && (k + 1 < |files| ==> back.store == Background.RunningAt(files, k + 1)
                                       && back.outbox == [Delivery(files, k + 1)])
               && (k + 1 == |files| ==> SessionOf(back.store) == Idle
                                        && back.outbox == [Broadcast(PostingDone)])
  {
    ContentScript.RunReportsFirstFailure(ContentScript.AsWritten, k, Some(files[k]), page, parse);
  }

  /**
   A failing page step reaches the popup: the page reports the error text of
   the first failing check, the background worker resets the session and
   forwards that text, and the popup shows it after its fixed prefix. Every
   check but the editor's throws a non-empty text of its own, which arrives
   unchanged; the editor check forwards the runtime's fault text, which the
   worker replaces with its placeholder only if that text is empty.
   */
  lemma FailureReachesPopup(st: Store, fileIndex: int, file: Option<FileData>, page: ContentScript.Page,
                            parse: string -> ContentScript.Document, p: Popup.PopupState)
    requires !ContentScript.PassedThrough(|ContentScript.Checks|, file, page)
    ensures var n := ContentScript.FirstFailing(file, page);
            n < |ContentScript.Checks| &&
            var text := ContentScript.ErrorMessageOf(
                          ContentScript.Failure(ContentScript.Checks[n], ContentScript.AsWritten, page));
            var notice := Background.ErrorNotice(Some(text));
            var t := Background.Handle(st, true, Error(Some(text)));
            var shown := Popup.OnRuntimeMessage(p, PostingError(Some(notice))).status;
            && ContentScript.RunPostingForFile(fileIndex, file, page, parse).outbox == [Broadcast(Error(Some(text)))]
            && SessionOf(t.store) == Idle
            && t.outbox == [Broadcast(PostingError(Some(notice)))]
            && shown == Some(Popup.Aborted(notice))
            && (ContentScript.Checks[n] != ContentScript.EditorReadable || text != [] ==>
                  && shown == Some(Popup.Aborted(text))
                  && var line := Popup.TextOf(shown.value);
                     |text| <= |line| && line[|line| - |text|..] == text)
  {
    ContentScript.PassedThroughIff(|ContentScript.Checks|, file, page);
    ContentScript.RunOutboxByFirstFailing(ContentScript.AsWritten, fileIndex, file, page, parse);
    var n := ContentScript.FirstFailing(file, page);
    FailureTextsAreNonEmpty(ContentScript.Checks[n], ContentScript.AsWritten, page);
  }

  /**
   Every check the page script makes, except the editor check, throws an
   error with a non-empty text of its own, so the background worker never
   substitutes its placeholder for it; under the corrected guard the same
   holds for an editor document without a body.
   */
  lemma FailureTextsAreNonEmpty(c: ContentScript.Check, edition: ContentScript.Edition, page: ContentScript.Page)
    requires c == ContentScript.EditorReadable ==> !page.editor.EditorBody?
    ensures c != ContentScript.EditorReadable || (edition == ContentScript.Intended && page.editor.NoBody?) ==>
              var text := ContentScript.ErrorMessageOf(ContentScript.Failure(c, edition, page));
              text != [] && Background.ErrorNotice(Some(text)) == text
  {
  }

  /** The end of a batch reaches the popup as the all-posted status. */
  lemma BatchEndReachesPopup(files: seq<FileData>, msgs: seq<Msg>, p: Popup.PopupState)
    requires 0 < |files| && |msgs| == |files|
    requires forall i :: 0 <= i < |msgs| ==> msgs[i].FilePosted?
    ensures var out := Background.Run(Background.RunningAt(files, 0), true, [StartPosting] + msgs).1;
            && |out| == |files| + 1
            && Popup.OnRuntimeMessage(p, out[|files|].msg).status == Some(Popup.AllPosted)
  {
    Background.BatchRunsInOrder(files, msgs);
    DeliveriesLength(files, 0, |files|);
  }

  lemma {:induction false} DeliveriesLength(files: seq<FileData>, from: nat, to: nat)
    requires from <= to <= |files|
    ensures |Background.Deliveries(files, from, to)| == to - from
    decreases (to as int) - (from as int)
  {
    if from < to {
      DeliveriesLength(files, from + 1, to);
    }
  }
}
