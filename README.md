# obsidian-s3-image-uploader, modelled in Dafny

The plugin watches the Obsidian editor for paste events. It processes the
clipboard's files in order and skips anything whose MIME type does not start
with `image/`. Each image gets an object name, `image-<milliseconds><extension>`,
and, when key id, secret and endpoint are set, is sent in one PUT request to
a Cloudflare R2 (S3-compatible) bucket; otherwise no request goes out and the
image gets the configuration-error notice.
After a successful upload, the plugin puts a Markdown image link in place of
the editor's selection and shows a success notice. After a failure it shows
the error's message and goes on with the next file. Five text settings drive
the upload: access key id, secret, bucket, endpoint and an optional custom
domain. They are loaded from the host's data blob over empty defaults and
saved back on every edit. Each successful save rebuilds the S3 client; after
a rejected save the old client stays (`R2Upload.StaleClientAfterFailedSave`).

The model has these modules:

- `FileExtension` (`file_extension.dfy`). JavaScript's `split(".")` and
  `pop()`, and `getFileExtension`. The last piece is proved to be exactly the
  text after the last dot. The extension is characterized for names with a dot,
  names without a dot, empty names and names ending in a dot.
- `ObjectName` (`object_name.dfy`). The decimal text of the timestamp, with its
  parse as round-trip partner, and the object name. Names are proved to collide
  exactly when the milliseconds and the extensions agree.
- `R2Upload` (`r2_upload.dfy`). The settings record and the stored blob, with
  load, save and edit. It also holds the client snapshot and the `uploadToR2`
  decision as a function on values: the guard, the single request, success or
  the error, and the URL. The result of `send` is an input (`StoreReply`).
- `Paste` (`paste.dfy`). A specification of the paste callback. It is the
  sequence of effects the callback has: default prevented, requests sent,
  selection replacements and notices. A view of the editor is folded over
  those effects.
  - Lemmas read the log independently of how it is built: by its requests,
    its notices and its insertions.
  - Each reading is compared with a reference list built directly from the
    clipboard: the image entries, or the uploaded entries.
- `Plugin` (`plugin.dfy`). The classes `Editor` and `S3ImageUploaderPlugin`,
  with mutable fields and `modifies` frames.
  - `HandlePaste` is the callback's `for` loop. It is proved to produce the
    log `Paste` specifies and to leave the editor as that log describes.
  - `OnLoad` and `InitializeS3Client` establish `ClientMatchesSettings()`: the client is the
    snapshot of the current settings. So do `SaveSettings` and
    `UpdateSetting` when the host's `saveData` succeeds; when it rejects, the
    client is left as it was. `LoadSettings` alone changes the settings and
    not the client, as the code does.
- `Wrappers` (`wrappers.dfy`). `Option` and `Result`.

`Date.now()` and the object store are not computed. The callback takes
`clock(i)` and `store(i)`: the clock reading and the store's reply while the
file at clipboard position `i` is handled.

**Names without a dot.** A name without a dot, such as `blob`, gets
`image-<ts>.blob`, because `"blob".split(".").pop()` is `"blob"`, which is
non-empty. Only an empty name, or one ending in a dot, gets no extension
(`FileExtension.ExtensionWithoutDot`, `ObjectName.ObjectNameExamples`,
`FileExtension.ExtensionEmptyIff`).

## Model

| member | source | states |
|---|---|---|
| FileExtension.LastSegment | main.ts:139 | `split(".").pop()`: the last piece of the split. Characterized by `LastSegmentIsTextAfterLastSep` and `LastSegmentCharacterized` as the text after the last separator. |
| FileExtension.GetFileExtension | main.ts:138-141 | "." plus the popped piece, or "" when the piece is empty. Characterized by `ExtensionFromLastDot`, `ExtensionEmptyIff` and `ExtensionShape`. |
| FileExtension.Split | main.ts:139 | `split` on a one-character separator never returns an empty array. No piece contains the separator. There is a single piece exactly when the separator does not occur. |
| FileExtension.JoinSplit | main.ts:139 | Joining the pieces with the separator gives back the input: splitting loses no text. |
| FileExtension.LastSegmentIsTextAfterLastSep | main.ts:139 | `pop()` on the split gives a dot-free suffix of the name. It is either the whole name or preceded by the separator. |
| FileExtension.LastSegmentCharacterized | main.ts:139 | A string is the popped piece if and only if it is the text after the last separator (or the whole name when there is none). |
| FileExtension.ExtensionFromLastDot | main.ts:138-141 | The extension is "." plus the text after the last dot, or "" when that text is empty. |
| FileExtension.ExtensionEmptyIff | main.ts:138-141 | The extension is "" exactly when the name is empty or ends with a dot. |
| FileExtension.ExtensionShape | main.ts:138-141 | A non-empty extension is one dot followed by a dot-free tail of the name. It is a suffix of the name iff the name has a dot, and "." + name iff it has none. |
| FileExtension.ExtensionAfterDot | main.ts:138-141 | A name whose text after its last dot is a non-empty tail gets "." plus that tail. |
| FileExtension.ExtensionOfDotFreeName | main.ts:138-141 | A non-empty name without a dot gets "." plus the whole name. |
| FileExtension.ExtensionOfPhoto | main.ts:138-141 | `photo.PNG` gives `.PNG`; case is kept. |
| FileExtension.ExtensionOfTarball | main.ts:138-141 | Only the last piece counts: `a.tar.gz` gives `.gz`. |
| FileExtension.ExtensionWithoutDot | main.ts:138-141 | A dot-free name such as `blob` gives `.blob`, not "". |
| FileExtension.ExtensionOfEmptyAndTrailingDot | main.ts:138-141 | "" and `a.` give no extension. |
| ObjectName.ImageObjectName | main.ts:54-57 | `image-`, the timestamp's decimal text, then the file's extension. `ObjectNamesCollideIff` says when two names are equal. |
| ObjectName.Decimal | main.ts:54-57 | The timestamp prints as at least one decimal digit, with no leading zero. |
| ObjectName.DecimalRoundTrip | main.ts:54-57 | Parsing the printed timestamp gives the timestamp back. |
| ObjectName.DecimalInjective | main.ts:54-57 | Different timestamps print differently. |
| ObjectName.ObjectNamesCollideIff | main.ts:53-57 | Two generated names are equal if and only if the timestamps are equal and the extensions are equal. |
| ObjectName.SameMillisecondCollision | main.ts:53-57 | The name is not unique despite the comment: two PNG files handled in the same millisecond get the same object name. |
| ObjectName.ObjectNameExamples | main.ts:54-57 | `photo.PNG` becomes `image-<ts>.PNG` and `blob` becomes `image-<ts>.blob`. |
| R2Upload.Configured | main.ts:108-114 | The guard: key id, secret and endpoint are all non-empty. Its effect is stated in `UploadContract` and `MissingCredentialBlocksUpload`. |
| R2Upload.PublicUrl | main.ts:127-129 | The URL: custom domain and name, or endpoint, bucket and name. Characterized by `PublicUrlLocatesObject`. |
| R2Upload.Upload | main.ts:107-134 | `uploadToR2` on values: the guard, the request, and the URL or the error, given the store's reply. Characterized by `UploadContract`. |
| R2Upload.UploadError.Message | main.ts:70-72 | The error's `message` shown in the failure notice: the fixed configuration text thrown by the guard, or the store's message rethrown. Read through `FileStepNotices` and `UnconfiguredPaste`. |
| R2Upload.WithField | main.ts:162-163 | Assigning one settings field changes that field and leaves the other four as they were. |
| R2Upload.LoadedSettings | main.ts:83-89 | Each field is the stored value under its key when present, otherwise the default. |
| R2Upload.Persisted | main.ts:91-92 | The saved blob holds every field under its key. |
| R2Upload.LoadAfterSave | main.ts:83-92 | Loading what was saved gives back the same settings. |
| R2Upload.LoadNothing | main.ts:21-27 | With nothing stored, every field is the empty default. |
| R2Upload.ClientConfigFor | main.ts:96-105 | The client has region "auto" and takes its endpoint and key pair from the settings. |
| R2Upload.ClientConfigDependsOn | main.ts:96-105 | Two settings give the same client if and only if endpoint, key id and secret agree; bucket and custom domain do not matter. |
| R2Upload.PublicUrlLocatesObject | main.ts:127-129 | The returned URL is the custom domain, or else endpoint/bucket, then "/" and the object name. |
| R2Upload.UploadContract | main.ts:107-134 | No request is sent iff key id, secret or endpoint is empty, and then the configuration error is thrown. Otherwise exactly one request goes out, with the bucket, the name, the bytes and the MIME type. Success iff the store accepts, returning the public URL; otherwise the store's error is rethrown. |
| R2Upload.MissingCredentialBlocksUpload | main.ts:108-114 | Blanking key id, secret or endpoint blocks the upload before any request, whatever else is set. |
| R2Upload.EmptyBucketIsSent | main.ts:108-123 | The guard does not check the bucket: an empty bucket is still sent. |
| R2Upload.SentWithCurrentCredentials | main.ts:96-125 | With the client built from the settings, the request carries the settings' endpoint and key pair. |
| R2Upload.StaleClientAfterFailedSave | main.ts:91-94 | After a credential edit whose save fails, the next upload passes the guard on the new settings but goes out through the old settings' client, which no longer matches them. |
| Paste.IsImage | main.ts:47 | The MIME type starts with `image/`. Used by every per-file lemma (`FileStepPrevents` and the rest). |
| Paste.ImageActions | main.ts:50-73 | The actions for one image: prevent the default paste, the request if one was sent, then the link and the success notice, or the failure notice. Read through `FileStepRequests`, `FileStepNotices` and `FileStepInsertions`. |
| Paste.FileStep | main.ts:46-73 | One iteration: nothing for a non-image, otherwise `ImageActions` with the name from the clock and the store's reply. Characterized by `FileStepPrevents` and the other per-file lemmas. |
| Paste.PasteLog | main.ts:45-74 | The loop's actions: the iterations for the first n files, in clipboard order. `PasteLogStep` extends it by one file; `SelectSteps` reads it. |
| Paste.PasteEvent | main.ts:41-75 | The callback: nothing when the file list is missing or empty, otherwise the log of the whole loop. Characterized by `PasteEventEditor` and the clipboard-order lemmas. |
| Paste.ImageMarkdown | main.ts:66 | The inserted link: "![", the file's name, "](", the URL, ")". Read through `FileStepInsertions` and `InsertionsInClipboardOrder`. |
| Paste.ImageEntriesExact | main.ts:45-47 | The reference list holds every image file exactly once, with its true position, in increasing position order, and no non-image. |
| Paste.UploadedEntriesExact | main.ts:45-67 | The same for the image files that are configured for and accepted by the store. |
| Paste.FileStepPrevents | main.ts:46-50 | One iteration does nothing for a non-image. For an image it prevents the default paste exactly once. |
| Paste.FileStepRequests | main.ts:52-63 | One iteration sends the file's request exactly when the file is an image and the settings pass the guard. |
| Paste.FileStepNotices | main.ts:52-73 | One iteration shows exactly one notice per image: success, the configuration message, or the store's message. |
| Paste.FileStepInsertions | main.ts:60-67 | One iteration inserts text only after a successful upload, and then the link with the file's name and public URL. |
| Paste.SelectSteps | main.ts:45-74 | When each iteration yields at most one value under a reading, the reading of the whole loop is those values in clipboard order, one per file that yields one. |
| Paste.StepsEmptyIff | main.ts:45-74 | The loop has no effect exactly when no iteration has one. |
| Paste.NoImageNoEffect | main.ts:45-47 | The callback has no effect at all exactly when no file is an image. |
| Paste.PreventsPerImage | main.ts:45-50 | `preventDefault` is called once for each image file, in clipboard order. |
| Paste.PreventDefaultIffImage | main.ts:45-50 | `preventDefault` is called iff some file is an image, once per image. Without images the callback has no effect at all. |
| Paste.RequestsInClipboardOrder | main.ts:45-63 | With a valid configuration the requests are one per image file, in clipboard order, for the file's generated name, bytes and MIME type. Without one, no request is sent. |
| Paste.NoticesInClipboardOrder | main.ts:45-73 | Every image file gets exactly one notice, in clipboard order. A failure does not stop the later files. |
| Paste.InsertionsInClipboardOrder | main.ts:45-67 | The inserted texts are the links of exactly the uploaded images, in clipboard order. |
| Paste.NothingUploadedUnconfigured | main.ts:108-114 | Without key id, secret and endpoint, no file counts as uploaded. |
| Paste.UnconfiguredPaste | main.ts:45-73 | Without a valid configuration a paste sends nothing and inserts nothing. Every image gets the configuration-error notice. |
| Paste.AfterReplace | main.ts:67 | `replaceSelection`: the text takes the selection's place and the selection becomes empty. `Plugin.Editor.ReplaceSelection` is proved to do this. |
| Paste.Apply | main.ts:45-74 | The editor after a log: only the insertions change it, in order. Characterized by `ApplyAppend` and `EditorAfterLog`. |
| Paste.ApplyAppend | main.ts:45-74 | Applying two parts of a log one after the other is applying them together. |
| Paste.EditorAfterLog | main.ts:65-67 | A log changes the editor only through its insertions. Their texts in order replace the selection, and the text after the selection is untouched. |
| Paste.PasteEventEditor | main.ts:41-75 | After a paste, the editor text is the text before the selection, then the uploaded links in order, then the text after the selection. The selection survives only when nothing was uploaded. A missing or empty file list does nothing. |
| Plugin.Editor.ReplaceSelection | main.ts:67 | The text takes the selection's place; the text after it is untouched. |
| Plugin.S3ImageUploaderPlugin.OnLoad | main.ts:33-35 | On load the settings are the stored blob over the defaults, and the client matches them. |
| Plugin.S3ImageUploaderPlugin.LoadSettings | main.ts:83-89 | The settings become the stored blob over the defaults. |
| Plugin.S3ImageUploaderPlugin.InitializeS3Client | main.ts:96-105 | The client is rebuilt from the current settings. |
| Plugin.S3ImageUploaderPlugin.SaveSettings | main.ts:91-94 | When `saveData` succeeds, the blob becomes the settings, reloading it gives those settings back, and the client matches them. When it rejects, blob and client are unchanged: the client is not rebuilt. |
| Plugin.S3ImageUploaderPlugin.UpdateSetting | main.ts:162-165 | A settings-tab edit changes one field in any case. A successful save stores it and keeps the client in step; after a failed save the blob and the old client remain. |
| Plugin.S3ImageUploaderPlugin.UploadToR2 | main.ts:107-134 | The upload agrees with `R2Upload.Upload`. When `ClientMatchesSettings()` holds, a sent request uses a client built from the current settings. |
| Plugin.S3ImageUploaderPlugin.HandleFile | main.ts:46-73 | One loop iteration produces exactly the specified actions for its file and applies them to the editor. |
| Plugin.S3ImageUploaderPlugin.HandlePaste | main.ts:41-75 | The callback's effects are exactly the specified paste log, and the editor ends as that log leaves it. |

## Left out

- The Obsidian host API (`registerEvent`, `addSettingTab`, `Notice`, `loadData` and `saveData` as I/O) is reduced to the plugin's `data` field and to actions in a log.
- The AWS SDK is not modelled: request signing, HTTP, retries and the SDK's error types. `send` is an input reply that accepts or rejects the request with a message.
- `file.arrayBuffer()` and `Buffer.from` are not modelled. The payload is the file's bytes, and a failure to read them is not modelled.
- `Date.now()` is an input clock. The timestamp is an unbounded natural, so JavaScript's number printing past 2^53 or in exponent form is not modelled.
- Asynchronous scheduling is not modelled. Each paste runs to completion on a snapshot of the settings and the client, so a settings edit that interleaves with an upload is not captured, nor are edits to the editor or a second paste during an awaited upload; `Paste.PasteEventEditor` assumes only this handler changes the editor. Only the first `preventDefault` call runs before the first `await`, so only that one can affect the host's default paste; the log records every call.
- `console.error` calls are diagnostics only.
- Settings tab widgets are not modelled: names, placeholders, descriptions and `display`. Only the effect of each `onChange` is kept (`UpdateSetting`).
- The stored blob is a map from strings to strings. Non-string values and extra keys, which `Object.assign` would also copy onto the settings object, are not modelled.
- `Plugin.S3ImageUploaderPlugin.SaveSettings`: the host's `saveData` is reduced to a flag saying whether it succeeds. A rejected save is assumed to leave the stored blob as it was. The exception that then reaches the settings tab is not modelled.
- `Plugin.S3ImageUploaderPlugin.OnLoad`: a rejected `loadData` is not modelled. The model always loads the given blob.
- `Plugin.Editor`: the host editor is reduced to a single selection. With several cursors, Obsidian's `replaceSelection` writes at each of them, and that is not modelled.
- `Plugin.S3ImageUploaderPlugin.HandlePaste`: the `evt.clipboardData?.files` lookup is modelled as an optional sequence of files.
