/**
 * The `editor-paste` callback as a specification: for a clipboard file
 * list, the sequence of effects the handler has on the host (prevent
 * default, PUT requests, selection replacements, notices), and what those
 * effects do to the editor text. The handler method in module Plugin is
 * proved to produce exactly this log.
 */
module Paste {
  import opened Wrappers
  import opened ObjectName
  import opened R2Upload

  predicate StartsWith(s: string, prefix: string)
  {
    |prefix| <= |s| && s[..|prefix|] == prefix
  }

  /** `file.type.startsWith("image/")`. */
  predicate IsImage(f: ClipboardFile)
  {
    StartsWith(f.mimeType, "image/")
  }

  const SuccessNotice := "图片上传成功！"
  const FailurePrefix := "上传失败: "

  /** `![${file.name}](${imageUrl})`. */
  function ImageMarkdown(name: string, url: string): string
  {
    "![" + name + "](" + url + ")"
  }

  /** One effect of the handler on its surroundings, in the order it happens. */
  datatype Action =
    | PreventDefault
    | Send(request: PutRequest)
    | ReplaceSelection(text: string)
    | ShowNotice(message: string)

  /** What the handler reads besides the clipboard: the plugin's settings and
      client snapshot, the clock (`clock(i)` is what `Date.now()` gives while
      the file at clipboard position i is handled) and the store (`store(i)`
      is its reply to the request for that file). */
  datatype Context = Context(
    settings: Settings,
    client: ClientConfig,
    clock: nat -> nat,
    store: nat -> StoreReply)

  /** The object name generated for file `f` at clipboard position i. */
  function NameAt(ctx: Context, i: nat, f: ClipboardFile): string
  {
    ImageObjectName(ctx.clock(i), f.name)
  }

  /** The outcome of the `uploadToR2` call for file `f` at position i. */
  function OutcomeAt(ctx: Context, i: nat, f: ClipboardFile): UploadRun
  {
    Upload(ctx.settings, ctx.client, f, NameAt(ctx, i, f), ctx.store(i))
  }

  /** The actions for an image file with display name `name` whose upload
      went as `run`: prevent default, the request if the guard let one
      through, then the link and the success notice, or the failure notice
      alone. */
  function ImageActions(name: string, run: UploadRun): seq<Action>
  {
    var sent := if run.sent.Some? then [Send(run.sent.value)] else [];
    var reaction := match run.result
      case Success(url) => [ReplaceSelection(ImageMarkdown(name, url)), ShowNotice(SuccessNotice)]
      case Failure(e) => [ShowNotice(FailurePrefix + e.Message())];
    [PreventDefault] + sent + reaction
  }

  /** The actions one iteration of the loop takes for file `f` at position i:
      nothing for a non-image. */
  function FileStep(ctx: Context, i: nat, f: ClipboardFile): seq<Action>
  {
    if IsImage(f) then ImageActions(f.name, OutcomeAt(ctx, i, f)) else []
  }

  /** The actions of `step` on the first n files, in clipboard order. */
  function Steps(step: (nat, ClipboardFile) -> seq<Action>, files: seq<ClipboardFile>, n: nat): seq<Action>
    requires n <= |files|
  {
    if n == 0 then [] else Steps(step, files, n - 1) + step(n - 1, files[n - 1])
  }

  /** The actions of the first n iterations of the loop. */
  function PasteLog(ctx: Context, files: seq<ClipboardFile>, n: nat): seq<Action>
    requires n <= |files|
  {
    Steps((i: nat, f: ClipboardFile) => FileStep(ctx, i, f), files, n)
  }

  /** One more iteration appends its actions to the log. */
  lemma PasteLogStep(ctx: Context, files: seq<ClipboardFile>, i: nat)
    requires i < |files|
    ensures PasteLog(ctx, files, i + 1) == PasteLog(ctx, files, i) + FileStep(ctx, i, files[i])
  {
  }

  /** The whole callback: an absent or empty file list returns at once. */
  function PasteEvent(ctx: Context, clipboard: Option<seq<ClipboardFile>>): seq<Action>
  {
    match clipboard
    case None => []
    case Some(files) => if |files| == 0 then [] else PasteLog(ctx, files, |files|)
  }

  // ---------------------------------------------------------------------
  // Reading the log: the requests, notices and insertions it holds.

  /** The one-element reading of an optional pick. */
  function Picked<T>(o: Option<T>): seq<T>
  {
    match o case Some(x) => [x] case None => []
  }

  /** The values `pick` extracts from the log, in log order. */
  function Select<T>(log: seq<Action>, pick: Action -> Option<T>): seq<T>
  {
    if |log| == 0 then []
    else Select(log[..|log| - 1], pick) + Picked(pick(log[|log| - 1]))
  }

  lemma {:induction false} SelectAppend<T>(a: seq<Action>, b: seq<Action>, pick: Action -> Option<T>)
    ensures Select(a + b, pick) == Select(a, pick) + Select(b, pick)
    decreases |b|
  {
    if |b| == 0 {
      assert a + b == a;
    } else {
      var c := a + b;
      assert c[..|c| - 1] == a + b[..|b| - 1];
      assert c[|c| - 1] == b[|b| - 1];
      SelectAppend(a, b[..|b| - 1], pick);
    }
  }

  lemma SelectSingle<T>(x: Action, pick: Action -> Option<T>)
    ensures Select([x], pick) == Picked(pick(x))
  {
    assert [x][..0] == [];
  }

  /** A reading is empty exactly when `pick` finds nothing in any action. */
  lemma {:induction false} SelectEmptyIff<T>(log: seq<Action>, pick: Action -> Option<T>)
    ensures Select(log, pick) == [] <==> forall k :: 0 <= k < |log| ==> pick(log[k]).None?
  {
    if |log| > 0 {
      var init := log[..|log| - 1];
      SelectEmptyIff(init, pick);
      assert forall k :: 0 <= k < |init| ==> init[k] == log[k];
    }
  }

  function RequestOf(a: Action): Option<PutRequest>
  {
    if a.Send? then Some(a.request) else None
  }

  function NoticeOf(a: Action): Option<string>
  {
    if a.ShowNotice? then Some(a.message) else None
  }

  function InsertionOf(a: Action): Option<string>
  {
    if a.ReplaceSelection? then Some(a.text) else None
  }

  function PreventOf(a: Action): Option<()>
  {
    if a.PreventDefault? then Some(()) else None
  }

  function Requests(log: seq<Action>): seq<PutRequest> { Select(log, RequestOf) }
  function Notices(log: seq<Action>): seq<string> { Select(log, NoticeOf) }
  function Insertions(log: seq<Action>): seq<string> { Select(log, InsertionOf) }

  // ---------------------------------------------------------------------
  // The clipboard seen independently of the log.

  /** A clipboard file together with its position in the list. */
  datatype Entry = Entry(position: nat, file: ClipboardFile)

  /** The entries among the first n files that satisfy `keep`, in clipboard order. */
  function Entries(files: seq<ClipboardFile>, n: nat, keep: Entry -> bool): seq<Entry>
    requires n <= |files|
  {
    if n == 0 then []
    else Entries(files, n - 1, keep) + if keep(Entry(n - 1, files[n - 1])) then [Entry(n - 1, files[n - 1])] else []
  }

  /** `Entries` lists every file among the first n that satisfies `keep`
      exactly once, with its true position, in increasing position order,
      and nothing else. */
  lemma {:induction false} EntriesExact(files: seq<ClipboardFile>, n: nat, keep: Entry -> bool)
    requires n <= |files|
    ensures forall k :: 0 <= k < |Entries(files, n, keep)| ==>
              var e := Entries(files, n, keep)[k];
              e.position < n && e.file == files[e.position] && keep(e)
    ensures forall k, l :: 0 <= k < l < |Entries(files, n, keep)| ==>
              Entries(files, n, keep)[k].position < Entries(files, n, keep)[l].position
    ensures forall i :: 0 <= i < n && keep(Entry(i, files[i])) ==> Entry(i, files[i]) in Entries(files, n, keep)
  {
    if n > 0 {
      EntriesExact(files, n - 1, keep);
    }
  }

  /** `f` applied to each entry, in order. */
  function MapEntries<T>(es: seq<Entry>, f: Entry -> T): (r: seq<T>)
    ensures |r| == |es| && forall k :: 0 <= k < |es| ==> r[k] == f(es[k])
  {
    if |es| == 0 then [] else MapEntries(es[..|es| - 1], f) + [f(es[|es| - 1])]
  }

  lemma MapEntriesSnoc<T>(es: seq<Entry>, e: Entry, f: Entry -> T)
    ensures MapEntries(es + [e], f) == MapEntries(es, f) + [f(e)]
  {
    assert (es + [e])[..|es|] == es;
  }

  /** The step for the file at position i yields, under `pick`, the single
      value `f` gives for its entry when `keep` holds, and nothing otherwise. */
  ghost predicate StepYields<T>(step: (nat, ClipboardFile) -> seq<Action>, files: seq<ClipboardFile>, i: nat,
                                pick: Action -> Option<T>, keep: Entry -> bool, f: Entry -> T)
    requires i < |files|
  {
    Select(step(i, files[i]), pick) == if keep(Entry(i, files[i])) then [f(Entry(i, files[i]))] else []
  }

  /** One more file extends a reading of the steps by that file's value, if it has one. */
  lemma StepsSnoc<T>(step: (nat, ClipboardFile) -> seq<Action>, files: seq<ClipboardFile>, n: nat,
                     pick: Action -> Option<T>, keep: Entry -> bool, f: Entry -> T)
    requires 0 < n <= |files|
    requires Select(Steps(step, files, n - 1), pick) == MapEntries(Entries(files, n - 1, keep), f)
    requires StepYields(step, files, n - 1, pick, keep, f)
    ensures Select(Steps(step, files, n), pick) == MapEntries(Entries(files, n, keep), f)
  {
    var prev, last := Steps(step, files, n - 1), step(n - 1, files[n - 1]);
    var es, e := Entries(files, n - 1, keep), Entry(n - 1, files[n - 1]);
    SelectAppend(prev, last, pick);
    if keep(e) {
      MapEntriesSnoc(es, e, f);
    } else {
      assert Select(prev, pick) + [] == Select(prev, pick);
    }
  }

  /** A reading of the steps is the map of its per-file value over the files
      whose step yields one, when each step yields at most that value. */
  lemma {:induction false} SelectSteps<T>(step: (nat, ClipboardFile) -> seq<Action>, files: seq<ClipboardFile>, n: nat,
                                          pick: Action -> Option<T>, keep: Entry -> bool, f: Entry -> T)
    requires n <= |files|
    requires forall i :: 0 <= i < n ==> StepYields(step, files, i, pick, keep, f)
    ensures Select(Steps(step, files, n), pick) == MapEntries(Entries(files, n, keep), f)
  {
    if n > 0 {
      SelectSteps(step, files, n - 1, pick, keep, f);
      StepsSnoc(step, files, n, pick, keep, f);
    }
  }

  /** The steps produce nothing exactly when every single step produces nothing. */
  lemma {:induction false} StepsEmptyIff(step: (nat, ClipboardFile) -> seq<Action>, files: seq<ClipboardFile>, n: nat)
    requires n <= |files|
    ensures Steps(step, files, n) == [] <==> forall i :: 0 <= i < n ==> step(i, files[i]) == []
  {
    if n > 0 {
      StepsEmptyIff(step, files, n - 1);
    }
  }

  predicate IsImageEntry(e: Entry)
  {
    IsImage(e.file)
  }

  /** The image files among the first n, with their positions. */
  function ImageEntries(files: seq<ClipboardFile>, n: nat): seq<Entry>
    requires n <= |files|
  {
    Entries(files, n, IsImageEntry)
  }

  /** An image file that gets uploaded: the configuration is complete and the
      store accepts its request. */
  predicate Uploaded(ctx: Context, e: Entry)
  {
    IsImage(e.file) && Configured(ctx.settings) && ctx.store(e.position).Stored?
  }

  /** The successfully uploaded image files among the first n. */
  function UploadedEntries(ctx: Context, files: seq<ClipboardFile>, n: nat): seq<Entry>
    requires n <= |files|
  {
    Entries(files, n, e => Uploaded(ctx, e))
  }

  /** `ImageEntries` lists every image file among the first n exactly once,
      with its true position, in clipboard order, and nothing else. */
  lemma ImageEntriesExact(files: seq<ClipboardFile>, n: nat)
    requires n <= |files|
    ensures forall k :: 0 <= k < |ImageEntries(files, n)| ==>
              var e := ImageEntries(files, n)[k];
              e.position < n && e.file == files[e.position] && IsImage(e.file)
    ensures forall k, l :: 0 <= k < l < |ImageEntries(files, n)| ==>
              ImageEntries(files, n)[k].position < ImageEntries(files, n)[l].position
    ensures forall i :: 0 <= i < n && IsImage(files[i]) ==> Entry(i, files[i]) in ImageEntries(files, n)
  {
    EntriesExact(files, n, IsImageEntry);
  }

  /** Likewise `UploadedEntries` for the images whose upload succeeded. */
  lemma UploadedEntriesExact(ctx: Context, files: seq<ClipboardFile>, n: nat)
    requires n <= |files|
    ensures forall k :: 0 <= k < |UploadedEntries(ctx, files, n)| ==>
              var e := UploadedEntries(ctx, files, n)[k];
              e.position < n && e.file == files[e.position] && Uploaded(ctx, e)
    ensures forall k, l :: 0 <= k < l < |UploadedEntries(ctx, files, n)| ==>
              UploadedEntries(ctx, files, n)[k].position < UploadedEntries(ctx, files, n)[l].position
    ensures forall i :: 0 <= i < n && Uploaded(ctx, Entry(i, files[i])) ==> Entry(i, files[i]) in UploadedEntries(ctx, files, n)
  {
    EntriesExact(files, n, e => Uploaded(ctx, e));
  }

  /** The request for an entry. */
  function RequestFor(ctx: Context, e: Entry): PutRequest
  {
    PutRequest(ctx.client, ctx.settings.r2Bucket, NameAt(ctx, e.position, e.file), e.file.payload, e.file.mimeType)
  }

  /** The notice for an image entry: success when it is uploaded, otherwise
      the configuration message or the store's own message. */
  function NoticeAt(ctx: Context, e: Entry): string
  {
    if !Configured(ctx.settings) then FailurePrefix + ConfigurationMessage
    else match ctx.store(e.position)
      case Stored => SuccessNotice
      case Rejected(message) => FailurePrefix + message
  }

  /** The link inserted for an uploaded entry: its name and its public URL. */
  function LinkFor(ctx: Context, e: Entry): string
  {
    ImageMarkdown(e.file.name, PublicUrl(ctx.settings, NameAt(ctx, e.position, e.file)))
  }

  function RequestsAt(ctx: Context, es: seq<Entry>): seq<PutRequest>
  {
    MapEntries(es, e => RequestFor(ctx, e))
  }

  function NoticesAt(ctx: Context, es: seq<Entry>): seq<string>
  {
    MapEntries(es, e => NoticeAt(ctx, e))
  }

  function LinksAt(ctx: Context, es: seq<Entry>): seq<string>
  {
    MapEntries(es, e => LinkFor(ctx, e))
  }

  // ---------------------------------------------------------------------
  // One iteration.

  /** Any reading of an image's actions, action by action. */
  lemma ImageActionsSelect<T>(name: string, run: UploadRun, pick: Action -> Option<T>)
    ensures Select(ImageActions(name, run), pick) ==
              Picked(pick(PreventDefault))
              + (if run.sent.Some? then Picked(pick(Send(run.sent.value))) else [])
              + match run.result
                case Success(url) =>
                  Picked(pick(ReplaceSelection(ImageMarkdown(name, url)))) + Picked(pick(ShowNotice(SuccessNotice)))
                case Failure(e) => Picked(pick(ShowNotice(FailurePrefix + e.Message())))
  {
    var sent := if run.sent.Some? then [Send(run.sent.value)] else [];
    var reaction := match run.result
      case Success(url) => [ReplaceSelection(ImageMarkdown(name, url)), ShowNotice(SuccessNotice)]
      case Failure(e) => [ShowNotice(FailurePrefix + e.Message())];
    assert ImageActions(name, run) == [PreventDefault] + sent + reaction;
    SelectAppend([PreventDefault] + sent, reaction, pick);
    SelectAppend([PreventDefault], sent, pick);
    SelectSingle(PreventDefault, pick);
    if run.sent.Some? {
      SelectSingle(Send(run.sent.value), pick);
    }
    if run.result.Success? {
      var url := run.result.value;
      assert reaction == [ReplaceSelection(ImageMarkdown(name, url))] + [ShowNotice(SuccessNotice)];
      SelectAppend([ReplaceSelection(ImageMarkdown(name, url))], [ShowNotice(SuccessNotice)], pick);
      SelectSingle(ReplaceSelection(ImageMarkdown(name, url)), pick);
      SelectSingle(ShowNotice(SuccessNotice), pick);
    } else {
      SelectSingle(reaction[0], pick);
    }
  }

  /** An iteration acts exactly when its file is an image, and then it
      prevents the default paste once. */
  lemma FileStepPrevents(ctx: Context, i: nat, f: ClipboardFile)
    ensures var step := FileStep(ctx, i, f);
            && (step == [] <==> !IsImage(f))
            && Select(step, PreventOf) == (if IsImage(f) then [()] else [])
  {
    if IsImage(f) {
      var run := OutcomeAt(ctx, i, f);
      ImageActionsSelect(f.name, run, PreventOf);
      assert ImageActions(f.name, run)[0] == PreventDefault;
    }
  }

  /** An iteration sends one request exactly for an image under a valid configuration. */
  lemma FileStepRequests(ctx: Context, i: nat, f: ClipboardFile)
    ensures Requests(FileStep(ctx, i, f))
            == if IsImage(f) && Configured(ctx.settings) then [RequestFor(ctx, Entry(i, f))] else []
  {
    if IsImage(f) {
      ImageActionsSelect(f.name, OutcomeAt(ctx, i, f), RequestOf);
      UploadContract(ctx.settings, ctx.client, f, NameAt(ctx, i, f), ctx.store(i));
    }
  }

  /** An iteration shows one notice per image, whatever the outcome. */
  lemma FileStepNotices(ctx: Context, i: nat, f: ClipboardFile)
    ensures Notices(FileStep(ctx, i, f))
            == if IsImage(f) then [NoticeAt(ctx, Entry(i, f))] else []
  {
    if IsImage(f) {
      ImageActionsSelect(f.name, OutcomeAt(ctx, i, f), NoticeOf);
      UploadContract(ctx.settings, ctx.client, f, NameAt(ctx, i, f), ctx.store(i));
    }
  }

  /** An iteration inserts text only after a successful upload, and then the link. */
  lemma FileStepInsertions(ctx: Context, i: nat, f: ClipboardFile)
    ensures Insertions(FileStep(ctx, i, f))
            == if Uploaded(ctx, Entry(i, f)) then [LinkFor(ctx, Entry(i, f))] else []
  {
    if IsImage(f) {
      ImageActionsSelect(f.name, OutcomeAt(ctx, i, f), InsertionOf);
      UploadContract(ctx.settings, ctx.client, f, NameAt(ctx, i, f), ctx.store(i));
    }
  }

  // ---------------------------------------------------------------------
  // The whole loop.

  /** There are image entries exactly when some file is an image. */
  lemma ImageEntriesEmptyIff(files: seq<ClipboardFile>, n: nat)
    requires n <= |files|
    ensures ImageEntries(files, n) == [] <==> forall i :: 0 <= i < n ==> !IsImage(files[i])
  {
    ImageEntriesExact(files, n);
    var es := ImageEntries(files, n);
    if es != [] {
      assert IsImage(files[es[0].position]);
    }
  }

  /** The log prevents the default paste exactly when its prevent reading is non-empty. */
  lemma PreventedIff(log: seq<Action>)
    ensures PreventDefault in log <==> Select(log, PreventOf) != []
  {
    SelectEmptyIff(log, PreventOf);
    if PreventDefault in log {
      var k :| 0 <= k < |log| && log[k] == PreventDefault;
      assert PreventOf(log[k]).Some?;
    }
  }

  /** The default paste is prevented once per image file, in clipboard order. */
  lemma PreventsPerImage(ctx: Context, files: seq<ClipboardFile>, n: nat)
    requires n <= |files|
    ensures Select(PasteLog(ctx, files, n), PreventOf) == MapEntries(ImageEntries(files, n), (e: Entry) => ())
  {
    forall i | 0 <= i < n
      ensures Select(FileStep(ctx, i, files[i]), PreventOf)
              == if IsImageEntry(Entry(i, files[i])) then [()] else []
    {
      FileStepPrevents(ctx, i, files[i]);
    }
    SelectSteps((i: nat, f: ClipboardFile) => FileStep(ctx, i, f), files, n, PreventOf, IsImageEntry, (e: Entry) => ());
  }

  /** The handler leaves no trace exactly when no file is an image. */
  lemma NoImageNoEffect(ctx: Context, files: seq<ClipboardFile>, n: nat)
    requires n <= |files|
    ensures PasteLog(ctx, files, n) == [] <==> forall i :: 0 <= i < n ==> !IsImage(files[i])
  {
    forall i | 0 <= i < n
      ensures FileStep(ctx, i, files[i]) == [] <==> !IsImage(files[i])
    {
      FileStepPrevents(ctx, i, files[i]);
    }
    StepsEmptyIff((i: nat, f: ClipboardFile) => FileStep(ctx, i, f), files, n);
  }

  /** Default paste is suppressed exactly when an image is present, once per
      image; without images the handler does nothing at all. */
  lemma PreventDefaultIffImage(ctx: Context, files: seq<ClipboardFile>, n: nat)
    requires n <= |files|
    ensures var log := PasteLog(ctx, files, n);
            && (PreventDefault in log <==> exists i :: 0 <= i < n && IsImage(files[i]))
            && (log == [] <==> forall i :: 0 <= i < n ==> !IsImage(files[i]))
            && |Select(log, PreventOf)| == |ImageEntries(files, n)|
  {
    PreventsPerImage(ctx, files, n);
    NoImageNoEffect(ctx, files, n);
    PreventedIff(PasteLog(ctx, files, n));
    ImageEntriesEmptyIff(files, n);
  }

  /** With a valid configuration there is one request per image file, in
      clipboard order, each for the file's own generated name, bytes and MIME
      type; without one, no request at all. */
  lemma RequestsInClipboardOrder(ctx: Context, files: seq<ClipboardFile>, n: nat)
    requires n <= |files|
    ensures Requests(PasteLog(ctx, files, n))
            == if Configured(ctx.settings) then RequestsAt(ctx, ImageEntries(files, n)) else []
  {
    var step := (i: nat, f: ClipboardFile) => FileStep(ctx, i, f);
    var request := (e: Entry) => RequestFor(ctx, e);
    var keep := if Configured(ctx.settings) then IsImageEntry else (e: Entry) => false;
    forall i | 0 <= i < n
      ensures Select(FileStep(ctx, i, files[i]), RequestOf)
              == if keep(Entry(i, files[i])) then [request(Entry(i, files[i]))] else []
    {
      FileStepRequests(ctx, i, files[i]);
    }
    SelectSteps(step, files, n, RequestOf, keep, request);
    if !Configured(ctx.settings) {
      EntriesExact(files, n, keep);
    }
  }

  /** Every image file gets exactly one notice, in clipboard order, success or
      failure: a failed upload does not stop the files after it. */
  lemma NoticesInClipboardOrder(ctx: Context, files: seq<ClipboardFile>, n: nat)
    requires n <= |files|
    ensures Notices(PasteLog(ctx, files, n)) == NoticesAt(ctx, ImageEntries(files, n))
  {
    var step := (i: nat, f: ClipboardFile) => FileStep(ctx, i, f);
    var notice := (e: Entry) => NoticeAt(ctx, e);
    forall i | 0 <= i < n
      ensures Select(FileStep(ctx, i, files[i]), NoticeOf)
              == if IsImageEntry(Entry(i, files[i])) then [notice(Entry(i, files[i]))] else []
    {
      FileStepNotices(ctx, i, files[i]);
    }
    SelectSteps(step, files, n, NoticeOf, IsImageEntry, notice);
  }

  /** The texts put at the selection are the links of the successfully
      uploaded images, one each, in clipboard order, each with the file's
      name and its public URL. */
  lemma InsertionsInClipboardOrder(ctx: Context, files: seq<ClipboardFile>, n: nat)
    requires n <= |files|
    ensures Insertions(PasteLog(ctx, files, n)) == LinksAt(ctx, UploadedEntries(ctx, files, n))
  {
    var step := (i: nat, f: ClipboardFile) => FileStep(ctx, i, f);
    var link := (e: Entry) => LinkFor(ctx, e);
    var keep := (e: Entry) => Uploaded(ctx, e);
    forall i | 0 <= i < n
      ensures Select(FileStep(ctx, i, files[i]), InsertionOf)
              == if keep(Entry(i, files[i])) then [link(Entry(i, files[i]))] else []
    {
      FileStepInsertions(ctx, i, files[i]);
    }
    SelectSteps(step, files, n, InsertionOf, keep, link);
  }

  /** Nothing is uploaded without a valid configuration. */
  lemma {:induction false} NothingUploadedUnconfigured(ctx: Context, files: seq<ClipboardFile>, n: nat)
    requires n <= |files| && !Configured(ctx.settings)
    ensures UploadedEntries(ctx, files, n) == []
  {
    if n > 0 {
      NothingUploadedUnconfigured(ctx, files, n - 1);
    }
  }

  /** Under a missing credential or endpoint no request goes out, nothing is
      inserted, and each image gets the configuration-error notice. */
  lemma UnconfiguredPaste(ctx: Context, files: seq<ClipboardFile>)
    requires !Configured(ctx.settings)
    ensures var log := PasteLog(ctx, files, |files|);
            && Requests(log) == []
            && Insertions(log) == []
            && |Notices(log)| == |ImageEntries(files, |files|)|
            && forall k :: 0 <= k < |Notices(log)| ==> Notices(log)[k] == FailurePrefix + ConfigurationMessage
  {
    RequestsInClipboardOrder(ctx, files, |files|);
    InsertionsInClipboardOrder(ctx, files, |files|);
    NoticesInClipboardOrder(ctx, files, |files|);
    NothingUploadedUnconfigured(ctx, files, |files|);
  }

  // ---------------------------------------------------------------------
  // The editor.

  /** The editor text around the selection: before it, the selection, after it. */
  datatype EditorView = EditorView(before: string, selection: string, after: string)
  {
    function Text(): string
    {
      before + selection + after
    }
  }

  /** `replaceSelection(text)`: the text takes the selection's place and the
      cursor ends up after it. */
  function AfterReplace(v: EditorView, text: string): EditorView
  {
    EditorView(v.before + text, "", v.after)
  }

  function Effect(v: EditorView, a: Action): EditorView
  {
    if a.ReplaceSelection? then AfterReplace(v, a.text) else v
  }

  /** The editor after the actions of a log, applied in order. */
  function Apply(v: EditorView, log: seq<Action>): EditorView
  {
    if |log| == 0 then v else Effect(Apply(v, log[..|log| - 1]), log[|log| - 1])
  }

  /** Applying one more action is applying its effect afterwards. */
  lemma ApplySnoc(v: EditorView, log: seq<Action>, a: Action)
    ensures Apply(v, log + [a]) == Effect(Apply(v, log), a)
  {
    assert (log + [a])[..|log|] == log;
  }

  /** Applying two logs one after the other is applying their concatenation. */
  lemma {:induction false} ApplyAppend(v: EditorView, a: seq<Action>, b: seq<Action>)
    ensures Apply(v, a + b) == Apply(Apply(v, a), b)
    decreases |b|
  {
    if |b| == 0 {
      assert a + b == a;
    } else {
      var c := a + b;
      assert c[..|c| - 1] == a + b[..|b| - 1];
      assert c[|c| - 1] == b[|b| - 1];
      ApplyAppend(v, a, b[..|b| - 1]);
    }
  }

  function Concat(texts: seq<string>): string
  {
    if |texts| == 0 then "" else Concat(texts[..|texts| - 1]) + texts[|texts| - 1]
  }

  /** A log changes the editor only through its insertions: their texts in
      order take the selection's place, the selection is gone once anything
      was inserted, and the text after the selection is never touched. */
  lemma {:induction false} EditorAfterLog(v: EditorView, log: seq<Action>)
    ensures var ins := Insertions(log);
            Apply(v, log) == EditorView(v.before + Concat(ins), if ins == [] then v.selection else "", v.after)
  {
    if |log| > 0 {
      var init := log[..|log| - 1];
      EditorAfterLog(v, init);
      assert Insertions(log) == Insertions(init) + Picked(InsertionOf(log[|log| - 1]));
      var ins := Insertions(init);
      if log[|log| - 1].ReplaceSelection? {
        var t := log[|log| - 1].text;
        assert Insertions(log) == ins + [t];
        assert (ins + [t])[..|ins|] == ins;
        assert Concat(ins + [t]) == Concat(ins) + t;
        assert v.before + Concat(ins) + t == v.before + (Concat(ins) + t);
      } else {
        assert Insertions(log) == ins + [];
        assert ins + [] == ins;
      }
    }
  }

  /** The editor text after a whole paste event: the links of the uploaded
      images in clipboard order, at the place of the selection (which stays
      only when nothing was uploaded). */
  lemma PasteEventEditor(ctx: Context, clipboard: Option<seq<ClipboardFile>>, v: EditorView)
    ensures var log := PasteEvent(ctx, clipboard);
            var links := Insertions(log);
            && Apply(v, log).Text() == v.before + Concat(links) + (if links == [] then v.selection else "") + v.after
            && (clipboard.None? || clipboard.value == [] ==> log == [])
  {
    EditorAfterLog(v, PasteEvent(ctx, clipboard));
  }
}
