/**
 The page script, the page automator: it splits a document into title and
 body, drives the blog editor through a fixed sequence of UI steps, and
 reports either completion or exactly one error to the background worker.
 The DOM is abstract: a parsed document is a list of elements in document
 order, and the live page is the set of UI elements that appear in time.
 */
module ContentScript {
  import opened Messages
  import JsString

  /** One element of a parsed document: tag name, text content, serialised markup. */
  datatype Node = Node(tag: string, text: string, markup: string)

  /** The elements of a parsed document's body, in document order. */
  type Document = seq<Node>

  /** The title used when a document has no heading, or an empty one. */
  const Untitled: string := "제목 없음"

  /** `{ title, bodyHtml }`. */
  datatype Split = Split(title: string, bodyHtml: string)

  predicate IsH1(n: Node) {
    n.tag == "h1"
  }

  /** The position of the first `h1` in document order, as `querySelector("h1")` finds it. */
  function FirstH1(doc: Document): (r: Option<nat>)
    ensures r.None? ==> forall j :: 0 <= j < |doc| ==> !IsH1(doc[j])
    ensures r.Some? ==> r.value < |doc| && IsH1(doc[r.value]) && forall j :: 0 <= j < r.value ==> !IsH1(doc[j])
    decreases |doc|
  {
    if doc == [] then None
    else if IsH1(doc[0]) then Some(0)
    else
      match FirstH1(doc[1..])
      case None => None
      case Some(k) => Some(k + 1)
  }

  /** The body's `innerHTML`: the concatenated markup of its elements. */
  function Serialize(doc: Document): string {
    if doc == [] then [] else doc[0].markup + Serialize(doc[1..])
  }

  /** The document with the element at `k` removed (`h1.remove()`). */
  function RemoveAt(doc: Document, k: nat): (r: Document)
    requires k < |doc|
    ensures |r| == |doc| - 1
  {
    doc[..k] + doc[k + 1..]
  }

  /**
   `splitHtmlToTitleAndBody`: `parse` stands for `DOMParser`. Without an
   `h1` the raw HTML is the body; with one, its trimmed text is the title
   and the rest of the body, trimmed, is the body.
   */
  function SplitHtmlToTitleAndBody(raw: string, parse: string -> Document): (r: Split)
  {
    var doc := parse(raw);
    match FirstH1(doc)
    case None => Split(Untitled, raw)
    case Some(k) =>
      var title := JsString.Trim(doc[k].text);
      var body := JsString.Trim(Serialize(RemoveAt(doc, k)));
      Split(if title != [] then title else Untitled, body)
  }

  /** The number of `h1` elements in a document. */
  function CountH1(doc: Document): nat {
    if doc == [] then 0 else (if IsH1(doc[0]) then 1 else 0) + CountH1(doc[1..])
  }

  lemma {:induction false} CountH1Append(a: Document, b: Document)
    ensures CountH1(a + b) == CountH1(a) + CountH1(b)
    decreases |a|
  {
    if a == [] {
      assert a + b == b;
    } else {
      assert (a + b)[0] == a[0];
      assert (a + b)[1..] == a[1..] + b;
      CountH1Append(a[1..], b);
    }
  }

  /**
   Without an `h1` in the parsed document the title is the placeholder and
   the body is the raw input, verbatim.
   */
  lemma SplitWithoutHeading(raw: string, parse: string -> Document)
    requires forall j :: 0 <= j < |parse(raw)| ==> !IsH1(parse(raw)[j])
    ensures SplitHtmlToTitleAndBody(raw, parse) == Split(Untitled, raw)
  {
  }

  /**
   With an `h1`, the title is the trimmed text of the first one (the
   placeholder when that is blank) and is never empty nor padded; the body
   is the trimmed markup of the document without exactly that element, so
   every other `h1` stays in it.
   */
  lemma SplitWithHeading(raw: string, parse: string -> Document, k: nat)
    requires k < |parse(raw)| && IsH1(parse(raw)[k])
    requires forall j :: 0 <= j < k ==> !IsH1(parse(raw)[j])
    ensures var r := SplitHtmlToTitleAndBody(raw, parse);
            var doc := parse(raw);
            && (JsString.AllWhitespace(doc[k].text) ==> r.title == Untitled)
            && (!JsString.AllWhitespace(doc[k].text) ==> r.title == JsString.Trim(doc[k].text))
            && r.title != [] && JsString.Trimmed(r.title)
            && r.bodyHtml == JsString.Trim(Serialize(doc[..k] + doc[k + 1..]))
            && JsString.Trimmed(r.bodyHtml)
            && CountH1(doc[..k] + doc[k + 1..]) == CountH1(doc) - 1
  {
    var doc := parse(raw);
    assert FirstH1(doc) == Some(k);
    JsString.TrimEmptyIff(doc[k].text);
    assert JsString.Trimmed(Untitled);
    CountH1Append(doc[..k], doc[k..]);
    CountH1Append(doc[..k], doc[k + 1..]);
    assert doc == doc[..k] + doc[k..];
    assert doc[k..][1..] == doc[k + 1..];
  }

  /** A value a script throws: a string, a truthy non-string value, or a falsy one. */
  datatype Thrown =
    | StringValue(s: string)
    | ObjectValue(message: Option<string>, asString: string)
    | FalsyValue(asString: string)

  /** An `Error` object with the given message, as `new Error(text)` builds it. */
  function ErrorWith(text: string): Thrown {
    ObjectValue(Some(text), "Error: " + text)
  }

  /**
   The message `sendError` derives: a string passes through unchanged; else
   a truthy `message` property; else the value's string conversion.
   */
  function ErrorMessageOf(err: Thrown): (m: string)
    ensures err.StringValue? ==> m == err.s
    ensures err.ObjectValue? && err.message.Some? && err.message.value != [] ==> m == err.message.value
    ensures err.ObjectValue? && (err.message.None? || err.message.value == []) ==> m == err.asString
    ensures err.FalsyValue? ==> m == err.asString
  {
    match err
    case StringValue(s) => s
    case ObjectValue(Some(msg), asString) => if msg != [] then msg else asString
    case ObjectValue(None, asString) => asString
    case FalsyValue(asString) => asString
  }

  /** `sendError`: exactly one `ERROR` message carrying the derived text. */
  function SendError(err: Thrown): (out: seq<Envelope>)
    ensures |out| == 1 && out[0].Broadcast? && out[0].msg.Error?
    ensures out[0].msg.message == Some(ErrorMessageOf(err))
  {
    [Broadcast(Error(Some(ErrorMessageOf(err))))]
  }

  /** The UI elements `runPostingForFile` waits for or looks up. */
  datatype Element =
    | MoreButton
    | HtmlBlockPlugin
    | CodeBlockArea
    | CodeBlockInput
    | CodeBlockSubmit
    | TitleInput
    | EditorFrame
    | PublishLayerButton
    | PublicRadio
    | PublishButton

  /**
   The editor iframe's document as `contentDocument || contentWindow.document`
   yields it: a document with a body (its markup), a document without a body,
   or no document at all because that expression itself throws (a
   cross-origin `SecurityError`, or a `TypeError` on a missing window).
   `fault` is what the runtime throws: for `NoBody`, on reading `innerHTML`
   of the missing body; for `Inaccessible`, on reading the document.
   */
  datatype EditorDoc = EditorBody(html: string) | NoBody(fault: Thrown) | Inaccessible(fault: Thrown)

  /** The error text the editor-document guard throws. */
  const EditorUnreadableText: string := "에디터 iframe 문서를 읽을 수 없습니다."

  /** Whether a guard or step lets the script go on, or what it throws. */
  datatype Guard = Proceed | Throws(err: Thrown)

  /**
   The guard `!iframeDoc && !iframeDoc.body` as written. It only runs once a
   document was obtained, so `!iframeDoc` is false and the conjunction
   short-circuits to false whether or not there is a body: it never throws.
   */
  function EditorGuardAsWritten(hasBody: bool): Guard {
    var missingDocument := false;
    if missingDocument && !hasBody then Throws(ErrorWith(EditorUnreadableText)) else Proceed
  }

  /**
   The guard as evidently intended, `!iframeDoc || !iframeDoc.body`: on an
   obtained document it throws its own message exactly when the body is
   missing.
   */
  function EditorGuardIntended(hasBody: bool): (g: Guard)
    ensures g.Throws? <==> !hasBody
    ensures g.Throws? ==> ErrorMessageOf(g.err) == EditorUnreadableText
  {
    var missingDocument := false;
    if missingDocument || !hasBody then Throws(ErrorWith(EditorUnreadableText)) else Proceed
  }

  /** Which editor guard a run uses: the one in the code, or the corrected one. */
  datatype Edition = AsWritten | Intended

  /**
   The editor steps: obtain the document, run the guard, append to the body.
   The first of them to throw decides what the run reports; with a body all
   three go through, under either guard.
   */
  function EditorStep(edition: Edition, d: EditorDoc): (g: Guard)
    ensures g.Proceed? <==> d.EditorBody?
    ensures d.Inaccessible? ==> g == Throws(d.fault)
    ensures d.NoBody? && edition == AsWritten ==> g == Throws(d.fault)
    ensures d.NoBody? && edition == Intended ==> g.Throws? && ErrorMessageOf(g.err) == EditorUnreadableText
  {
    var guard := if edition == AsWritten then EditorGuardAsWritten(d.EditorBody?)
                 else EditorGuardIntended(d.EditorBody?);
    match d
    case Inaccessible(fault) => Throws(fault)
    case NoBody(fault) => if guard.Throws? then guard else Throws(fault)
    case EditorBody(_) => if guard.Throws? then guard else Proceed
  }

  /** An anchor on a home or management page: whether it has class `link_tab`, and its URL. */
  datatype Anchor = Anchor(linkTab: bool, href: string)

  const NewPostPath: string := "/manage/newpost"
  const HomeUrl: string := "https://www.tistory.com"

  /** The anchor matches `a.link_tab[href$="/manage/newpost"]`. */
  predicate IsNewPostLink(a: Anchor) {
    a.linkTab && JsString.EndsWith(a.href, NewPostPath)
  }

  /** The position of the first matching anchor in document order, as `querySelector` finds it. */
  function FirstNewPostLink(links: seq<Anchor>): (r: Option<nat>)
    ensures r.None? ==> forall j :: 0 <= j < |links| ==> !IsNewPostLink(links[j])
    ensures r.Some? ==> r.value < |links| && IsNewPostLink(links[r.value])
                        && forall j :: 0 <= j < r.value ==> !IsNewPostLink(links[j])
    decreases |links|
  {
    if links == [] then None
    else if IsNewPostLink(links[0]) then Some(0)
    else
      match FirstNewPostLink(links[1..])
      case None => None
      case Some(k) => Some(k + 1)
  }

  /**
   The live page as the script sees it: its URL, the UI elements that appear
   within their wait budgets, the editor iframe's document, the anchors in
   document order, and what reading `.href` of a missing link throws.
   */
  datatype Page = Page(href: string, elements: set<Element>, editor: EditorDoc,
                       links: seq<Anchor>, missingLinkFault: Thrown)

  /** One precondition `runPostingForFile` checks before going on. */
  datatype Check = FileContent | NewPostUrl | Present(e: Element) | EditorReadable

  /** The checks in the order the script makes them. */
  const Checks: seq<Check> := [
    FileContent, NewPostUrl, Present(MoreButton), Present(HtmlBlockPlugin), Present(CodeBlockArea),
    Present(CodeBlockInput), Present(CodeBlockSubmit), Present(TitleInput), Present(EditorFrame),
    EditorReadable, Present(PublishLayerButton), Present(PublicRadio), Present(PublishButton)]

  /** Positions in `Checks` after which the script writes to the page. */
  const AfterCodeBlockInput: nat := 6
  const AfterTitleInput: nat := 8
  const AfterEditorReadable: nat := 10

  /** The check passes; the editor check passes exactly for a document with a body, under either guard. */
  predicate Passes(c: Check, file: Option<FileData>, page: Page) {
    match c
    case FileContent => file.Some? && file.value.content != []
    case NewPostUrl => JsString.Contains(page.href, NewPostPath)
    case Present(e) => e in page.elements
    case EditorReadable => page.editor.EditorBody?
  }

  /** The first `n` checks all pass. */
  predicate PassedThrough(n: nat, file: Option<FileData>, page: Page)
    requires n <= |Checks|
  {
    forall j :: 0 <= j < n ==> Passes(Checks[j], file, page)
  }

  /** The message each check's own `throw new Error(…)` carries. */
  function CheckText(c: Check): string {
    match c
    case FileContent => "파일 내용이 비어 있습니다."
    case NewPostUrl => "현재 탭은 /manage/newpost 글쓰기 페이지가 아닙니다."
    case Present(MoreButton) => "HTML 블럭을 여는 버튼(더보기)을 찾을 수 없습니다."
    case Present(HtmlBlockPlugin) => "HTML 블럭 플러그인 버튼을 찾을 수 없습니다."
    case Present(CodeBlockArea) => ".mce-codeblock-content 영역을 찾을 수 없습니다."
    case Present(CodeBlockInput) => "HTML 블럭 입력 영역을 찾을 수 없습니다."
    case Present(CodeBlockSubmit) => "HTML 블럭 확인 버튼을 찾을 수 없습니다."
    case Present(TitleInput) => "제목 입력 필드를 찾을 수 없습니다."
    case Present(EditorFrame) => "에디터 iframe(#editor-tistory_ifr)을 찾을 수 없습니다."
    case EditorReadable => EditorUnreadableText
    case Present(PublishLayerButton) => "발행 레이어 호출 버튼(publish-layer-btn)을 찾을 수 없습니다."
    case Present(PublicRadio) => "공개 버튼(input#open20)을 찾을 수 없습니다."
    case Present(PublishButton) => "발행/등록 버튼(button#publish-btn)을 찾을 수 없습니다."
  }

  /**
   What a failing check throws: its own error, except that the editor check
   throws whatever the editor steps throw.
   */
  function Failure(c: Check, edition: Edition, page: Page): Thrown
    requires c == EditorReadable ==> !page.editor.EditorBody?
  {
    if c == EditorReadable then EditorStep(edition, page.editor).err else ErrorWith(CheckText(c))
  }

  /** What the script wrote into the page: code block, title field, editor body, navigation. */
  datatype Edits = Edits(codeBlock: Option<string>, titleField: Option<string>,
                         editorBody: Option<string>, navigateTo: Option<string>)

  const NoEdits: Edits := Edits(None, None, None, None)

  /** What a run of the page script leaves: the messages it sent and the page edits. */
  datatype Outcome = Outcome(outbox: seq<Envelope>, edits: Edits)

  function Fail(c: Check, edition: Edition, page: Page, edits: Edits): Outcome
    requires c == EditorReadable ==> !page.editor.EditorBody?
  {
    Outcome(SendError(Failure(c, edition, page)), edits)
  }

  /**
   `runPostingForFile` under the given editor guard: each step, in the
   source's order, either finds what it needs or throws; a throw ends the
   run with one error report, keeping the edits made so far. After the last
   step the script navigates home and reports the file as posted under the
   index it was given.
   */
  function RunPosting(edition: Edition, fileIndex: int, file: Option<FileData>, page: Page,
                      parse: string -> Document): (r: Outcome)
  {
    if !Passes(FileContent, file, page) then Fail(FileContent, edition, page, NoEdits)
    else
      var content := file.value.content;
      if !Passes(NewPostUrl, file, page) then Fail(NewPostUrl, edition, page, NoEdits)
      else if MoreButton !in page.elements then Fail(Present(MoreButton), edition, page, NoEdits)
      else if HtmlBlockPlugin !in page.elements then Fail(Present(HtmlBlockPlugin), edition, page, NoEdits)
      else if CodeBlockArea !in page.elements then Fail(Present(CodeBlockArea), edition, page, NoEdits)
      else if CodeBlockInput !in page.elements then Fail(Present(CodeBlockInput), edition, page, NoEdits)
      else
        var e1 := NoEdits.(codeBlock := Some(content));
        if CodeBlockSubmit !in page.elements then Fail(Present(CodeBlockSubmit), edition, page, e1)
        else
          var split := SplitHtmlToTitleAndBody(content, parse);
          if TitleInput !in page.elements then Fail(Present(TitleInput), edition, page, e1)
          else
            var e2 := e1.(titleField := Some(split.title));
            if EditorFrame !in page.elements then Fail(Present(EditorFrame), edition, page, e2)
            else if EditorStep(edition, page.editor).Throws? then Fail(EditorReadable, edition, page, e2)
            else
              var e3 := e2.(editorBody := Some(page.editor.html + split.bodyHtml));
              if PublishLayerButton !in page.elements then Fail(Present(PublishLayerButton), edition, page, e3)
              else if PublicRadio !in page.elements then Fail(Present(PublicRadio), edition, page, e3)
              else if PublishButton !in page.elements then Fail(Present(PublishButton), edition, page, e3)
              else Outcome([Broadcast(FilePosted(fileIndex))], e3.(navigateTo := Some(HomeUrl)))
  }

  /** `runPostingForFile` as the code is written. */
  function RunPostingForFile(fileIndex: int, file: Option<FileData>, page: Page, parse: string -> Document)
    : Outcome
  {
    RunPosting(AsWritten, fileIndex, file, page, parse)
  }

  /** The position of the first failing check at or after `j`, or `|Checks|` when none fails. */
  function FirstFailingFrom(j: nat, file: Option<FileData>, page: Page): (n: nat)
    requires j <= |Checks|
    ensures j <= n <= |Checks|
    ensures forall i :: j <= i < n ==> Passes(Checks[i], file, page)
    ensures n < |Checks| ==> !Passes(Checks[n], file, page)
    decreases |Checks| - j
  {
    if j == |Checks| || !Passes(Checks[j], file, page) then j else FirstFailingFrom(j + 1, file, page)
  }

  /** The position of the first failing check, or `|Checks|` when every check passes. */
  function FirstFailing(file: Option<FileData>, page: Page): (n: nat)
    ensures n <= |Checks|
    ensures PassedThrough(n, file, page)
    ensures n < |Checks| ==> !Passes(Checks[n], file, page)
  {
    FirstFailingFrom(0, file, page)
  }

  /** The checks, position by position. */
  lemma ChecksInOrder()
    ensures && Checks[0] == FileContent && Checks[1] == NewPostUrl && Checks[2] == Present(MoreButton)
            && Checks[3] == Present(HtmlBlockPlugin) && Checks[4] == Present(CodeBlockArea)
            && Checks[5] == Present(CodeBlockInput) && Checks[6] == Present(CodeBlockSubmit)
            && Checks[7] == Present(TitleInput) && Checks[8] == Present(EditorFrame)
            && Checks[9] == EditorReadable && Checks[10] == Present(PublishLayerButton)
            && Checks[11] == Present(PublicRadio) && Checks[12] == Present(PublishButton)
  {
  }

  /** The checks passed so far are exactly those before the first failing one. */
  lemma PassedThroughIff(m: nat, file: Option<FileData>, page: Page)
    requires m <= |Checks|
    ensures PassedThrough(m, file, page) <==> m <= FirstFailing(file, page)
  {
    var n := FirstFailing(file, page);
    if m > n {
      assert !Passes(Checks[n], file, page);
    }
  }

  /**
   The run, under either guard, described by where its first failing check
   lies: the message it sends, how far it wrote to the page, and what it
   wrote there (the raw file into the code block, the split title into the
   title field, the old editor body followed by the split body into the
   editor, and home as the next location).
   */
  lemma RunByFirstFailing(edition: Edition, fileIndex: int, file: Option<FileData>, page: Page,
                          parse: string -> Document)
    ensures var r := RunPosting(edition, fileIndex, file, page, parse);
            var n := FirstFailing(file, page);
            && r.outbox == (if n == |Checks| then [Broadcast(FilePosted(fileIndex))]
                            else SendError(Failure(Checks[n], edition, page)))
            && (r.edits.codeBlock.Some? <==> AfterCodeBlockInput <= n)
            && (r.edits.titleField.Some? <==> AfterTitleInput <= n)
            && (r.edits.editorBody.Some? <==> AfterEditorReadable <= n)
            && (r.edits.navigateTo.Some? <==> n == |Checks|)
            && (r.edits.codeBlock.Some? ==> r.edits.codeBlock == Some(file.value.content))
            && (r.edits.titleField.Some? ==>
                  r.edits.titleField == Some(SplitHtmlToTitleAndBody(file.value.content, parse).title))
            && (r.edits.editorBody.Some? ==>
                  r.edits.editorBody == Some(page.editor.html + SplitHtmlToTitleAndBody(file.value.content, parse).bodyHtml))
            && (r.edits.navigateTo.Some? ==> r.edits.navigateTo == Some(HomeUrl))
  {
    RunOutboxByFirstFailing(edition, fileIndex, file, page, parse);
    RunEditsByFirstFailing(edition, fileIndex, file, page, parse);
  }

  /** The message part of `RunByFirstFailing`. */
  lemma RunOutboxByFirstFailing(edition: Edition, fileIndex: int, file: Option<FileData>, page: Page,
                                parse: string -> Document)
    ensures var n := FirstFailing(file, page);
            RunPosting(edition, fileIndex, file, page, parse).outbox
              == (if n == |Checks| then [Broadcast(FilePosted(fileIndex))]
                  else SendError(Failure(Checks[n], edition, page)))
  {
    ChecksInOrder();
  }

  /** The page-edit part of `RunByFirstFailing`. */
  lemma RunEditsByFirstFailing(edition: Edition, fileIndex: int, file: Option<FileData>, page: Page,
                               parse: string -> Document)
    ensures var r := RunPosting(edition, fileIndex, file, page, parse);
            var n := FirstFailing(file, page);
            var content := if file.Some? then file.value.content else "";
            var split := SplitHtmlToTitleAndBody(content, parse);
            && r.edits.codeBlock == (if AfterCodeBlockInput <= n then Some(content) else None)
            && r.edits.titleField == (if AfterTitleInput <= n then Some(split.title) else None)
            && r.edits.editorBody == (if AfterEditorReadable <= n then Some(page.editor.html + split.bodyHtml) else None)
            && r.edits.navigateTo == (if n == |Checks| then Some(HomeUrl) else None)
  {
    ChecksInOrder();
  }

  /**
   A run reports exactly one message: the file posted, under the index it
   was given, exactly when every check passes; otherwise the error of the
   first check that fails.
   */
  lemma RunReportsFirstFailure(edition: Edition, fileIndex: int, file: Option<FileData>, page: Page,
                               parse: string -> Document)
    ensures var r := RunPosting(edition, fileIndex, file, page, parse);
            && |r.outbox| == 1
            && (r.outbox == [Broadcast(FilePosted(fileIndex))] <==> PassedThrough(|Checks|, file, page))
            && (forall k :: 0 <= k < |Checks| && PassedThrough(k, file, page) && !Passes(Checks[k], file, page)
                  ==> r.outbox == SendError(Failure(Checks[k], edition, page)))
  {
    RunByFirstFailing(edition, fileIndex, file, page, parse);
    PassedThroughIff(|Checks|, file, page);
    forall k | 0 <= k < |Checks| && PassedThrough(k, file, page) && !Passes(Checks[k], file, page)
      ensures k == FirstFailing(file, page)
    {
      PassedThroughIff(k, file, page);
    }
  }

  /**
   The page is written to only as far as the run got: the code block once
   its input was found, the title field once it was found, the editor body
   once the editor document was readable, and the page navigates home only
   after every step.
   */
  lemma RunEditsFollowProgress(edition: Edition, fileIndex: int, file: Option<FileData>, page: Page,
                               parse: string -> Document)
    ensures var r := RunPosting(edition, fileIndex, file, page, parse);
            && (r.edits.codeBlock.Some? <==> PassedThrough(AfterCodeBlockInput, file, page))
            && (r.edits.titleField.Some? <==> PassedThrough(AfterTitleInput, file, page))
            && (r.edits.editorBody.Some? <==> PassedThrough(AfterEditorReadable, file, page))
            && (r.edits.navigateTo.Some? <==> PassedThrough(|Checks|, file, page))
  {
    var n := FirstFailing(file, page);
    RunByFirstFailing(edition, fileIndex, file, page, parse);
    PassedThroughIff(AfterCodeBlockInput, file, page);
    PassedThroughIff(AfterTitleInput, file, page);
    PassedThroughIff(AfterEditorReadable, file, page);
    PassedThroughIff(|Checks|, file, page);
  }

  /**
   As written, a run that reaches the editor with a document but no body is
   not stopped by the guard; it fails one line later, and what reaches the
   background worker is the runtime's fault text, not the guard's message.
   With the `TypeError` a browser raises there, the two texts differ.
   */
  lemma EditorGuardAsWrittenLeaksFault(fileIndex: int, file: Option<FileData>, page: Page,
                                       parse: string -> Document)
    requires PassedThrough(AfterEditorReadable - 1, file, page)
    requires page.editor.NoBody?
    ensures EditorGuardAsWritten(false) == Proceed
    ensures RunPostingForFile(fileIndex, file, page, parse).outbox
              == [Broadcast(Error(Some(ErrorMessageOf(page.editor.fault))))]
    ensures page.editor.fault == NullBodyFault ==>
              RunPostingForFile(fileIndex, file, page, parse).outbox
                != [Broadcast(Error(Some(EditorUnreadableText)))]
  {
    EditorFailsFirst(file, page);
    RunByFirstFailing(AsWritten, fileIndex, file, page, parse);
    var text := ErrorMessageOf(NullBodyFault);
    assert |text| != |EditorUnreadableText|;
  }

  /** The `TypeError` a browser throws for `iframeDoc.body.innerHTML` when the body is null. */
  const NullBodyFault: Thrown := ObjectValue(Some("Cannot read properties of null (reading 'innerHTML')"),
                                             "TypeError: Cannot read properties of null (reading 'innerHTML')")

  /**
   With the corrected guard, the same run stops with the guard's own message.
   The correction changes nothing else: the page edits are the same on every
   page, and so is the whole outcome unless the editor document has no body.
   */
  lemma IntendedGuardReportsUnreadableEditor(fileIndex: int, file: Option<FileData>, page: Page,
                                             parse: string -> Document)
    ensures RunPosting(Intended, fileIndex, file, page, parse).edits
              == RunPostingForFile(fileIndex, file, page, parse).edits
    ensures !page.editor.NoBody? ==>
              RunPosting(Intended, fileIndex, file, page, parse) == RunPostingForFile(fileIndex, file, page, parse)
    ensures PassedThrough(AfterEditorReadable - 1, file, page) && page.editor.NoBody? ==>
              RunPosting(Intended, fileIndex, file, page, parse).outbox
                == [Broadcast(Error(Some(EditorUnreadableText)))]
  {
    RunByFirstFailing(AsWritten, fileIndex, file, page, parse);
    RunByFirstFailing(Intended, fileIndex, file, page, parse);
    if PassedThrough(AfterEditorReadable - 1, file, page) && page.editor.NoBody? {
      EditorFailsFirst(file, page);
    }
  }

  /** When every check before the editor check passes and the body is missing, the editor check is the first to fail. */
  lemma EditorFailsFirst(file: Option<FileData>, page: Page)
    requires PassedThrough(AfterEditorReadable - 1, file, page)
    requires !page.editor.EditorBody?
    ensures FirstFailing(file, page) == AfterEditorReadable - 1
  {
    PassedThroughIff(AfterEditorReadable - 1, file, page);
    assert Checks[AfterEditorReadable - 1] == EditorReadable;
    if FirstFailing(file, page) > AfterEditorReadable - 1 {
      PassedThroughIff(AfterEditorReadable, file, page);
    }
  }

  /**
   `openNewPostFromHome`: go to the first anchor the selector
   `a.link_tab[href$="/manage/newpost"]` finds, or report the fault of
   reading `.href` when there is none.
   */
  function OpenNewPostFromHome(page: Page): (r: Outcome)
    ensures r.edits.codeBlock == r.edits.titleField == r.edits.editorBody == None
    ensures r.edits.navigateTo.Some? <==> exists j :: 0 <= j < |page.links| && IsNewPostLink(page.links[j])
    ensures r.edits.navigateTo.Some? ==> r.outbox == []
    ensures r.edits.navigateTo.None? ==> r.outbox == SendError(page.missingLinkFault)
  {
    match FirstNewPostLink(page.links)
    case Some(k) => Outcome([], NoEdits.(navigateTo := Some(page.links[k].href)))
    case None => Outcome(SendError(page.missingLinkFault), NoEdits)
  }

  /**
   The link leads to the editor: the location the home page navigates to is
   the first new-post link's URL, and a page at that location passes the
   `/manage/newpost` check that `runPostingForFile` makes.
   */
  lemma NewPostLinkOpensEditor(page: Page, file: Option<FileData>)
    ensures var r := OpenNewPostFromHome(page);
            r.edits.navigateTo.Some? ==>
              && (exists k :: 0 <= k < |page.links| && IsNewPostLink(page.links[k])
                               && r.edits.navigateTo.value == page.links[k].href
                               && forall j :: 0 <= j < k ==> !IsNewPostLink(page.links[j]))
              && Passes(NewPostUrl, file, page.(href := r.edits.navigateTo.value))
  {
    var r := OpenNewPostFromHome(page);
    if r.edits.navigateTo.Some? {
      var k := FirstNewPostLink(page.links).value;
      JsString.EndsWithContains(page.links[k].href, NewPostPath);
    }
  }

  /** The page script's listener: acknowledge and run the two requests it knows; ignore the rest. */
  function OnMessage(m: Msg, page: Page, parse: string -> Document): (r: (Response, Outcome))
    ensures m.OpenNewPost? || m.RunPostingForFile? <==> r.0 == Respond(Ok)
    ensures !(m.OpenNewPost? || m.RunPostingForFile?) ==> r == (NoResponse, Outcome([], NoEdits))
    ensures m.RunPostingForFile? ==> r.1 == RunPostingForFile(m.fileIndex, m.file, page, parse)
    ensures m.OpenNewPost? ==> r.1 == OpenNewPostFromHome(page)
  {
    match m
    case OpenNewPost => (Respond(Ok), OpenNewPostFromHome(page))
    case RunPostingForFile(fileIndex, file) => (Respond(Ok), RunPostingForFile(fileIndex, file, page, parse))
    case _ => (NoResponse, Outcome([], NoEdits))
  }
}
