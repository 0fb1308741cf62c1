/**
 * The plugin object and the editor it writes into, as mutable state: the
 * settings, the client snapshot built from them and the host's data blob,
 * the lifecycle methods that move between them, and the `editor-paste`
 * handler proved to produce the log that module Paste specifies.
 */
module Plugin {
  import opened Wrappers
  import opened ObjectName
  import opened R2Upload
  import opened Paste

  /** The part of an Obsidian editor the handler touches: the text before
      the selection, the selection, and the text after it. */
  class Editor {
    var before: string
    var selection: string
    var after: string

    constructor (before: string, selection: string, after: string)
      ensures View() == EditorView(before, selection, after)
    {
      this.before := before;
      this.selection := selection;
      this.after := after;
    }

    function View(): EditorView
      reads this
    {
      EditorView(before, selection, after)
    }

    /** `editor.replaceSelection(text)`. */
    method ReplaceSelection(text: string)
      modifies this
      ensures View() == AfterReplace(old(View()), text)
    {
      before := before + text;
      selection := "";
    }
  }

  /** `S3ImageUploaderPlugin`: `data` stands for what the host keeps for
      `loadData` and `saveData`. */
  class S3ImageUploaderPlugin {
    var settings: Settings
    var client: ClientConfig
    var data: map<string, string>

    /** The client is the snapshot of the current settings. This is not an
        object invariant: `LoadSettings` alone and a rejected save both leave
        it false, as the plugin's own code does. */
    ghost predicate ClientMatchesSettings()
      reads this
    {
      client == ClientConfigFor(settings)
    }

    /** `onload`: load the settings from the host's blob, then build the client. */
    constructor OnLoad(stored: map<string, string>)
      ensures data == stored
      ensures settings == LoadedSettings(stored)
      ensures ClientMatchesSettings()
    {
      data := stored;
      settings := DefaultSettings;
      client := ClientConfigFor(DefaultSettings);
      new;
      LoadSettings();
      InitializeS3Client();
    }

    /** `loadSettings`: the defaults overridden by whatever the blob holds. */
    method LoadSettings()
      modifies this`settings
      ensures settings == LoadedSettings(data)
    {
      var s := DefaultSettings;
      if AccessKeyIdKey in data { s := s.(r2AccessKeyId := data[AccessKeyIdKey]); }
      if AccessKeySecretKey in data { s := s.(r2AccessKeySecret := data[AccessKeySecretKey]); }
      if BucketKey in data { s := s.(r2Bucket := data[BucketKey]); }
      if EndpointKey in data { s := s.(r2Endpoint := data[EndpointKey]); }
      if CustomDomainKey in data { s := s.(customDomain := data[CustomDomainKey]); }
      settings := s;
    }

    /** `initializeS3Client`: the class-level form of `ClientConfigFor`. */
    method InitializeS3Client()
      modifies this`client
      ensures client == ClientConfigFor(settings)
      ensures ClientMatchesSettings()
    {
      client := ClientConfigFor(settings);
    }

    /** `saveSettings`: write the settings to the blob, then rebuild the
        client. `saved` says whether the host's `saveData` resolves. When it
        does, loading the blob again gives back the settings and the client
        matches them. When it rejects, the method throws before the client
        is rebuilt, so blob and client stay as they were. */
    method SaveSettings(saved: bool)
      modifies this`data, this`client
      ensures saved ==> data == Persisted(settings) && LoadedSettings(data) == settings && ClientMatchesSettings()
      ensures !saved ==> data == old(data) && client == old(client)
    {
      if !saved {
        return;
      }
      data := Persisted(settings);
      LoadAfterSave(settings);
      InitializeS3Client();
    }

    /** A settings tab `onChange`: set one field, then save. After a failed
        save the settings hold the new value but the client is the old one. */
    method UpdateSetting(f: Field, value: string, saved: bool)
      modifies this
      ensures settings == WithField(old(settings), f, value)
      ensures saved ==> data == Persisted(settings) && LoadedSettings(data) == settings && ClientMatchesSettings()
      ensures !saved ==> data == old(data) && client == old(client)
    {
      settings := WithField(settings, f, value);
      SaveSettings(saved);
    }

    /** `uploadToR2(file, fileName)`, with `reply` for the outcome of `send`:
        the class-level form of `R2Upload.Upload` on the object's own
        settings and client. */
    method UploadToR2(file: ClipboardFile, fileName: string, reply: StoreReply) returns (run: UploadRun)
      ensures run == Upload(settings, client, file, fileName, reply)
      ensures ClientMatchesSettings() && run.sent.Some? ==> run.sent.value.client == ClientConfigFor(settings)
    {
      if !Configured(settings) {
        return UploadRun(None, Failure(ConfigurationError));
      }
      var command := PutRequest(client, settings.r2Bucket, fileName, file.payload, file.mimeType);
      match reply {
        case Rejected(message) =>
          return UploadRun(Some(command), Failure(StoreError(message)));
        case Stored =>
          return UploadRun(Some(command), Success(PublicUrl(settings, fileName)));
      }
    }

    /** The `editor-paste` callback: `clock(i)` is `Date.now()` and `store(i)`
        the store's reply while the file at position i is handled. The log
        of effects is the one Paste specifies, and the editor ends up as
        that log's insertions leave it. */
    method HandlePaste(clipboard: Option<seq<ClipboardFile>>, editor: Editor,
                       clock: nat -> nat, store: nat -> StoreReply)
      returns (log: seq<Action>)
      modifies editor
      ensures log == PasteEvent(Context(settings, client, clock, store), clipboard)
      ensures editor.View() == Apply(old(editor.View()), log)
    {
      log := [];
      if clipboard.None? || |clipboard.value| == 0 {
        return;
      }
      var files := clipboard.value;
      var ctx := Context(settings, client, clock, store);
      for i := 0 to |files|
        invariant log == PasteLog(ctx, files, i)
        invariant editor.View() == Apply(old(editor.View()), log)
      {
        var step := HandleFile(ctx, i, files[i], editor);
        PasteLogStep(ctx, files, i);
        ApplyAppend(old(editor.View()), log, step);
        log := log + step;
      }
    }

    /** One iteration of the callback's loop, for the file at position i:
        skip a non-image; otherwise prevent the default paste, name the
        object after the clock, upload, then insert the link and report
        success, or report the failure. */
    method HandleFile(ctx: Context, i: nat, file: ClipboardFile, editor: Editor) returns (step: seq<Action>)
      requires ctx.settings == settings && ctx.client == client
      modifies editor
      ensures step == FileStep(ctx, i, file)
      ensures editor.View() == Apply(old(editor.View()), step)
    {
      step := [];
      if !IsImage(file) {
        return;
      }
      ApplySnoc(editor.View(), step, PreventDefault);
      step := step + [PreventDefault];
      var timestamp := ctx.clock(i);
      var fileName := ImageObjectName(timestamp, file.name);
      var run := UploadToR2(file, fileName, ctx.store(i));
      if run.sent.Some? {
        ApplySnoc(old(editor.View()), step, Send(run.sent.value));
        step := step + [Send(run.sent.value)];
      }
      match run.result {
        case Success(url) =>
          var imageMarkdown := ImageMarkdown(file.name, url);
          editor.ReplaceSelection(imageMarkdown);
          ApplySnoc(old(editor.View()), step, ReplaceSelection(imageMarkdown));
          step := step + [ReplaceSelection(imageMarkdown)];
          ApplySnoc(old(editor.View()), step, ShowNotice(SuccessNotice));
          step := step + [ShowNotice(SuccessNotice)];
        case Failure(e) =>
          ApplySnoc(old(editor.View()), step, ShowNotice(FailurePrefix + e.Message()));
          step := step + [ShowNotice(FailurePrefix + e.Message())];
      }
    }
  }
}
