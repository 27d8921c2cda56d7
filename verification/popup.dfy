/**
 The popup, the operator console: it filters the selected files to HTML,
 reads them into the loaded list while showing read progress, seeds the
 durable store, starts the batch, and shows the terminal notices the
 background worker broadcasts.
 */
module Popup {
  import opened Messages
  import JsString

  /** A file the user selected; `text` is what reading the file yields. */
  datatype LocalFile = LocalFile(name: string, text: string)

  /** The CSS class `setStatus` adds to the status line. */
  datatype Tone = Plain | ErrorTone | SuccessTone

  /** Every status the popup can show. */
  datatype Status =
    | NoFilesSelected
    | HtmlOnly
    | SomeExcluded(total: nat, invalid: nat)
    | Reading
    | Loaded(count: nat)
    | UploadFirst
    | CommunicationFailed
    | Started
    | StartFailed
    | Aborted(suffix: string)
    | AllPosted

  function ToneOf(s: Status): Tone {
    match s
    case Reading => Plain
    case Loaded(_) => SuccessTone
    case Started => SuccessTone
    case AllPosted => SuccessTone
    case _ => ErrorTone
  }

  /** The text the status line shows. */
  function TextOf(s: Status): string {
    match s
    case NoFilesSelected => "선택된 파일이 없습니다. HTML 파일을 선택해주세요."
    case HtmlOnly => "HTML(.html, .htm) 확장자의 파일만 업로드할 수 있습니다."
    case SomeExcluded(total, invalid) =>
      "총 " + JsString.Decimal(total) + "개 중 " + JsString.Decimal(invalid) + "개는 HTML이 아니라서 제외되었습니다."
    case Reading => "파일 내용을 읽는 중..."
    case Loaded(count) => JsString.Decimal(count) + "개의 HTML 파일을 불러왔습니다."
    case UploadFirst => "먼저 HTML 파일을 업로드 하세요."
    case CommunicationFailed => "백그라운드와 통신 중 오류가 발생했습니다."
    case Started => "자동 포스팅을 시작했습니다. (현재 탭의 티스토리 페이지에서 진행)"
    case StartFailed => "자동 포스팅 시작에 실패했습니다. 티스토리 페이지가 열려 있는지 확인하세요."
    case Aborted(suffix) => "오류로 인해 작업이 중단되었습니다: " + suffix
    case AllPosted => "모든 HTML 파일 발행을 완료했습니다."
  }

  /** The popup's memory: the loaded files, the status shown, the progress bar width in percent. */
  datatype PopupState = PopupState(loaded: seq<FileData>, status: Option<Status>, progress: nat)

  /** The name passes the `/\.html?$/i` test. */
  predicate IsHtml(f: LocalFile) {
    JsString.HasHtmlExtension(f.name)
  }

  /** The HTML files of `files`, in their original order. */
  function KeepHtml(files: seq<LocalFile>): (r: seq<LocalFile>)
    ensures |r| <= |files|
    ensures forall k :: 0 <= k < |r| ==> IsHtml(r[k])
    ensures forall f :: f in r <==> f in files && IsHtml(f)
    ensures |r| == |files| <==> forall k :: 0 <= k < |files| ==> IsHtml(files[k])
    decreases |files|
  {
    if files == [] then []
    else
      var rest := KeepHtml(files[1..]);
      assert forall f :: f in files <==> f == files[0] || f in files[1..];
      if JsString.MatchesHtmlRegex(files[0].name) then [files[0]] + rest else rest
  }

  /** Filtering a concatenation filters each part: kept files keep their relative order. */
  lemma {:induction false} KeepHtmlAppend(a: seq<LocalFile>, b: seq<LocalFile>)
    ensures KeepHtml(a + b) == KeepHtml(a) + KeepHtml(b)
    decreases |a|
  {
    if a == [] {
      assert a + b == b;
    } else {
      assert (a + b)[0] == a[0];
      assert (a + b)[1..] == a[1..] + b;
      KeepHtmlAppend(a[1..], b);
    }
  }

  /** `filterHtmlFiles`' result object. */
  datatype Filtered = Filtered(htmlFiles: seq<LocalFile>, invalidCount: int, total: nat)

  /** `filterHtmlFiles`: a missing list counts as empty. */
  function FilterHtmlFiles(fileList: Option<seq<LocalFile>>): (r: Filtered)
    ensures r.total == |fileList.GetOr([])|
    ensures r.invalidCount >= 0 && r.invalidCount + |r.htmlFiles| == r.total
    ensures r.htmlFiles == KeepHtml(fileList.GetOr([]))
    ensures r.invalidCount == 0 <==> forall f :: f in fileList.GetOr([]) ==> IsHtml(f)
  {
    var files := fileList.GetOr([]);
    var html := KeepHtml(files);
    assert (forall f :: f in files ==> IsHtml(f)) <==> (forall k :: 0 <= k < |files| ==> IsHtml(files[k]));
    Filtered(html, |files| - |html|, |files|)
  }

  /**
   `Math.round(((i + 1) / total) * 100)` in integers: the percentage shown
   after reading file `i` of `total`.
   */
  function Percent(i: nat, total: nat): nat
    requires i < total
  {
    (200 * (i + 1) + total) / (2 * total)
  }

  /**
   The percentage is the nearest integer to `100 * (i + 1) / total`, halves
   rounded up, as `Math.round` does; it lies in 0..100 and is at least 1
   exactly when `total <= 200 * (i + 1)`.
   */
  lemma PercentIsRounded(i: nat, total: nat)
    requires i < total
    ensures 200 * (i + 1) - total < 2 * total * Percent(i, total) <= 200 * (i + 1) + total
    ensures Percent(i, total) <= 100
    ensures Percent(i, total) >= 1 <==> total <= 200 * (i + 1)
  {
    var n := 200 * (i + 1) + total;
    var d := 2 * total;
    DivBounds(n, d);
    assert n < d * 101;
    DivLess(n, d, 101);
    if total <= 200 * (i + 1) {
      DivAtLeast(n, d, 1);
    } else {
      DivLess(n, d, 1);
    }
  }

  /** The percentage never drops as more files are read. */
  lemma PercentMonotone(i: nat, j: nat, total: nat)
    requires i <= j < total
    ensures Percent(i, total) <= Percent(j, total)
  {
    DivMonotone(200 * (i + 1) + total, 200 * (j + 1) + total, 2 * total);
  }

  lemma DivBounds(n: nat, d: nat)
    requires 0 < d
    ensures d * (n / d) <= n < d * (n / d) + d
  {
  }

  lemma MulCancelLess(d: nat, x: nat, y: nat)
    requires d * x < d * y
    ensures x < y
  {
  }

  lemma DivLess(n: nat, d: nat, m: nat)
    requires 0 < d && n < d * m
    ensures n / d < m
  {
  }

  lemma DivMonotone(a: nat, b: nat, d: nat)
    requires a <= b && 0 < d
    ensures a / d <= b / d
  {
    DivBounds(a, d);
    DivBounds(b, d);
    assert d * (a / d) < d * (b / d + 1);
    MulCancelLess(d, a / d, b / d + 1);
  }

  lemma DivAtLeast(n: nat, d: nat, m: nat)
    requires 0 < d && d * m <= n
    ensures m <= n / d
  {
    DivBounds(n, d);
    assert d * m < d * (n / d + 1);
    MulCancelLess(d, m, n / d + 1);
  }

  /** The bar shows 100 after the last file. */
  lemma PercentAtLast(total: nat)
    requires 0 < total
    ensures Percent(total - 1, total) == 100
  {
    var d := 2 * total;
    var n := 200 * total + total;
    assert n == d * 100 + total;
    DivAtLeast(n, d, 100);
    DivLess(n, d, 101);
  }

  /** The progress values after each of the `n` files. */
  function PercentTrace(n: nat): (r: seq<nat>)
    ensures |r| == n
  {
    seq(n, i requires 0 <= i < n => Percent(i, n))
  }

  /**
   The bar's whole history while `n` files are read: it starts at 0, never
   moves back, never passes 100, and ends at 100.
   */
  lemma ProgressTraceIsMonotone(n: nat)
    requires 0 < n
    ensures var progress := [0] + PercentTrace(n);
            && (forall a, b :: 0 <= a <= b < |progress| ==> progress[a] <= progress[b])
            && (forall a :: 0 <= a < |progress| ==> progress[a] <= 100)
            && progress[|progress| - 1] == 100
  {
    var progress := [0] + PercentTrace(n);
    forall a, b | 0 <= a <= b < |progress| ensures progress[a] <= progress[b] {
      if 0 < a { PercentMonotone(a - 1, b - 1, n); }
    }
    forall a | 0 < a < |progress| ensures progress[a] <= 100 {
      PercentIsRounded(a - 1, n);
    }
    PercentAtLast(n);
  }

  /** The stored form of a read file. */
  function ToFileData(f: LocalFile): FileData {
    FileData(f.name, f.text)
  }

  /**
   The reading loop of `handleFiles`: each HTML file is read in order into
   its stored form, and the bar is set after each one.
   */
  method ReadFiles(htmlFiles: seq<LocalFile>) returns (loaded: seq<FileData>, progress: seq<nat>)
    requires htmlFiles != []
    ensures |loaded| == |htmlFiles|
    ensures forall k :: 0 <= k < |htmlFiles| ==> loaded[k] == FileData(htmlFiles[k].name, htmlFiles[k].text)
    ensures progress == [0] + PercentTrace(|htmlFiles|)
    ensures forall a, b :: 0 <= a <= b < |progress| ==> progress[a] <= progress[b]
    ensures forall a :: 0 <= a < |progress| ==> progress[a] <= 100
    ensures progress[|progress| - 1] == 100
  {
    loaded := [];
    progress := [0];
    var n := |htmlFiles|;
    var i := 0;
    while i < n
      invariant 0 <= i <= n
      invariant |loaded| == i
      invariant forall k :: 0 <= k < i ==> loaded[k] == ToFileData(htmlFiles[k])
      invariant |progress| == i + 1 && progress[0] == 0
      invariant forall k :: 0 <= k < i ==> progress[k + 1] == Percent(k, n)
    {
      loaded := loaded + [ToFileData(htmlFiles[i])];
      progress := progress + [Percent(i, n)];
      i := i + 1;
    }
    assert progress == [0] + PercentTrace(n);
    ProgressTraceIsMonotone(n);
  }

  /**
   `handleFiles`: an empty selection and a selection without HTML files only
   set an error status; otherwise the HTML files are read in order while the
   progress bar advances, then stored together with an idle session.
   `statuses` and `progress` list every status and bar width set, in order.
   */
  method HandleFiles(p: PopupState, fileList: Option<seq<LocalFile>>)
    returns (p': PopupState, write: Option<Store>, statuses: seq<Status>, progress: seq<nat>)
    ensures var f := FilterHtmlFiles(fileList);
            f.total == 0 ==>
              p' == p.(status := Some(NoFilesSelected)) && write == None && statuses == [NoFilesSelected] && progress == []
    ensures var f := FilterHtmlFiles(fileList);
            f.total > 0 && f.htmlFiles == [] ==>
              p' == p.(status := Some(HtmlOnly)) && write == None && statuses == [HtmlOnly] && progress == []
    ensures var f := FilterHtmlFiles(fileList);
            f.htmlFiles != [] ==>
              && |p'.loaded| == |f.htmlFiles|
              && (forall k :: 0 <= k < |f.htmlFiles| ==>
                    p'.loaded[k] == FileData(f.htmlFiles[k].name, f.htmlFiles[k].text))
              && write == Some(Store(Some(p'.loaded), Some(Idle)))
              && statuses == [if f.invalidCount > 0 then SomeExcluded(f.total, f.invalidCount) else Reading,
                              Loaded(|f.htmlFiles|)]
              && p'.status == Some(Loaded(|f.htmlFiles|))
              && progress == [0] + PercentTrace(|f.htmlFiles|)
              && (forall a, b :: 0 <= a <= b < |progress| ==> progress[a] <= progress[b])
              && (forall a :: 0 <= a < |progress| ==> progress[a] <= 100)
              && progress[|progress| - 1] == 100 && p'.progress == 100
  {
    var f := FilterHtmlFiles(fileList);
    if f.total == 0 {
      return p.(status := Some(NoFilesSelected)), None, [NoFilesSelected], [];
    }
    if |f.htmlFiles| == 0 {
      return p.(status := Some(HtmlOnly)), None, [HtmlOnly], [];
    }
    var first := if f.invalidCount > 0 then SomeExcluded(f.total, f.invalidCount) else Reading;
    var loaded;
    loaded, progress := ReadFiles(f.htmlFiles);
    statuses := [first, Loaded(|f.htmlFiles|)];
    p' := PopupState(loaded, Some(Loaded(|f.htmlFiles|)), 100);
    write := Some(Store(Some(loaded), Some(Idle)));
  }

  /** What the popup asks of the browser, in order. */
  datatype Effect = SetStorage(store: Store) | SendMessage(msg: Msg)

  /**
   The start button: without loaded files only an error status is shown;
   otherwise the files and a running session at index 0 are stored, and only
   then is the start request sent.
   */
  function StartClicked(p: PopupState): (r: (PopupState, seq<Effect>))
    ensures p.loaded == [] ==> r.0 == p.(status := Some(UploadFirst)) && r.1 == []
    ensures p.loaded != [] ==>
              && r.0 == p
              && |r.1| == 2
              && r.1[0] == SetStorage(Store(Some(p.loaded), Some(Session(true, 0))))
              && r.1[1] == SendMessage(StartPosting)
  {
    if |p.loaded| == 0 then (p.(status := Some(UploadFirst)), [])
    else (p, [SetStorage(Store(Some(p.loaded), Some(Session(true, 0)))), SendMessage(StartPosting)])
  }

  /** How the start request came back: a runtime error, or a response (possibly none). */
  datatype StartAnswer = LastError | Answered(reply: Option<Reply>)

  /** The start request's callback: a runtime error, an `ok` reply, or anything else. */
  function OnStartAnswer(p: PopupState, a: StartAnswer): (p': PopupState)
    ensures p'.loaded == p.loaded && p'.progress == p.progress
    ensures p'.status == Some(Started) <==> a == Answered(Some(Ok))
    ensures p'.status == Some(CommunicationFailed) <==> a == LastError
    ensures p'.status == Some(StartFailed) <==> a.Answered? && a.reply != Some(Ok)
  {
    match a
    case LastError => p.(status := Some(CommunicationFailed))
    case Answered(Some(Ok)) => p.(status := Some(Started))
    case Answered(_) => p.(status := Some(StartFailed))
  }

  /** The popup's listener for the background worker's terminal notices. */
  function OnRuntimeMessage(p: PopupState, m: Msg): (p': PopupState)
    ensures p'.loaded == p.loaded && p'.progress == p.progress
    ensures m.PostingError? ==> p'.status == Some(Aborted(m.message.GetOr("")))
                                 && ToneOf(p'.status.value) == ErrorTone
    ensures m.PostingDone? ==> p'.status == Some(AllPosted) && ToneOf(p'.status.value) == SuccessTone
    ensures !(m.PostingError? || m.PostingDone?) ==> p' == p
  {
    match m
    case PostingError(message) => p.(status := Some(Aborted(message.GetOr(""))))
    case PostingDone => p.(status := Some(AllPosted))
    case _ => p
  }
}
