/**
 * The plugin's settings record, the client snapshot built from it, and the
 * decision part of `uploadToR2`: the configuration guard, the one PUT
 * request, and the choice of public URL. The object store itself is an
 * oracle: the caller supplies the reply the store gives to the request.
 */
module R2Upload {
  import opened Wrappers

  /** The five string-valued settings fields. */
  datatype Settings = Settings(
    r2AccessKeyId: string,
    r2AccessKeySecret: string,
    r2Bucket: string,
    r2Endpoint: string,
    customDomain: string)

  const DefaultSettings := Settings("", "", "", "", "")

  /** Names under which the host's data blob stores each field. */
  const AccessKeyIdKey := "r2AccessKeyId"
  const AccessKeySecretKey := "r2AccessKeySecret"
  const BucketKey := "r2Bucket"
  const EndpointKey := "r2Endpoint"
  const CustomDomainKey := "customDomain"

  /** One settings field, as the settings tab edits them one at a time. */
  datatype Field = AccessKeyId | AccessKeySecret | Bucket | Endpoint | CustomDomain

  function FieldOf(s: Settings, f: Field): string
  {
    match f
    case AccessKeyId => s.r2AccessKeyId
    case AccessKeySecret => s.r2AccessKeySecret
    case Bucket => s.r2Bucket
    case Endpoint => s.r2Endpoint
    case CustomDomain => s.customDomain
  }

  function KeyOf(f: Field): string
  {
    match f
    case AccessKeyId => AccessKeyIdKey
    case AccessKeySecret => AccessKeySecretKey
    case Bucket => BucketKey
    case Endpoint => EndpointKey
    case CustomDomain => CustomDomainKey
  }

  /** The settings with one field replaced (`this.plugin.settings.<field> = value`). */
  function WithField(s: Settings, f: Field, value: string): (r: Settings)
    ensures forall g: Field :: FieldOf(r, g) == if g == f then value else FieldOf(s, g)
  {
    match f
    case AccessKeyId => s.(r2AccessKeyId := value)
    case AccessKeySecret => s.(r2AccessKeySecret := value)
    case Bucket => s.(r2Bucket := value)
    case Endpoint => s.(r2Endpoint := value)
    case CustomDomain => s.(customDomain := value)
  }

  /** A stored value, or the default's value for that key when none is stored. */
  function StoredOr(stored: map<string, string>, key: string, default: string): string
  {
    if key in stored then stored[key] else default
  }

  /** `Object.assign({}, DEFAULT_SETTINGS, await this.loadData())`: every
      stored field overrides the default; an absent blob is the empty map. */
  function LoadedSettings(stored: map<string, string>): (s: Settings)
    ensures forall f: Field :: FieldOf(s, f) == StoredOr(stored, KeyOf(f), FieldOf(DefaultSettings, f))
  {
    Settings(
      StoredOr(stored, AccessKeyIdKey, DefaultSettings.r2AccessKeyId),
      StoredOr(stored, AccessKeySecretKey, DefaultSettings.r2AccessKeySecret),
      StoredOr(stored, BucketKey, DefaultSettings.r2Bucket),
      StoredOr(stored, EndpointKey, DefaultSettings.r2Endpoint),
      StoredOr(stored, CustomDomainKey, DefaultSettings.customDomain))
  }

  /** The blob `saveData(this.settings)` writes. */
  function Persisted(s: Settings): (stored: map<string, string>)
    ensures forall f: Field :: KeyOf(f) in stored && stored[KeyOf(f)] == FieldOf(s, f)
  {
    map[AccessKeyIdKey := s.r2AccessKeyId,
        AccessKeySecretKey := s.r2AccessKeySecret,
        BucketKey := s.r2Bucket,
        EndpointKey := s.r2Endpoint,
        CustomDomainKey := s.customDomain]
  }

  /** Loading what was saved gives back the same settings. */
  lemma LoadAfterSave(s: Settings)
    ensures LoadedSettings(Persisted(s)) == s
  {
  }

  /** Nothing stored: every field is the empty default. */
  lemma LoadNothing()
    ensures LoadedSettings(map[]) == DefaultSettings
    ensures forall f: Field :: FieldOf(LoadedSettings(map[]), f) == ""
  {
  }

  /** What `new S3Client({...})` is configured with. */
  datatype ClientConfig = ClientConfig(
    region: string,
    endpoint: string,
    accessKeyId: string,
    secretAccessKey: string)

  /** `initializeS3Client`: region fixed to "auto", the endpoint and the key
      pair taken from the settings. */
  function ClientConfigFor(s: Settings): (c: ClientConfig)
    ensures c.region == "auto"
    ensures c.endpoint == s.r2Endpoint
    ensures c.accessKeyId == s.r2AccessKeyId && c.secretAccessKey == s.r2AccessKeySecret
  {
    ClientConfig("auto", s.r2Endpoint, s.r2AccessKeyId, s.r2AccessKeySecret)
  }

  /** The snapshot depends on exactly three fields: bucket and custom domain
      changes leave it as it is, and any change of the other three shows. */
  lemma ClientConfigDependsOn(s: Settings, t: Settings)
    ensures ClientConfigFor(s) == ClientConfigFor(t) <==>
            && s.r2Endpoint == t.r2Endpoint
            && s.r2AccessKeyId == t.r2AccessKeyId
            && s.r2AccessKeySecret == t.r2AccessKeySecret
  {
  }

  /** A clipboard file: its name, its MIME type and its bytes. */
  datatype ClipboardFile = ClipboardFile(name: string, mimeType: string, payload: seq<bv8>)

  /** The `PutObjectCommand` sent through a client. */
  datatype PutRequest = PutRequest(
    client: ClientConfig,
    bucket: string,
    key: string,
    body: seq<bv8>,
    contentType: string)

  /** What the store answers to one request. */
  datatype StoreReply = Stored | Rejected(message: string)

  /** Why an upload fails: the guard, or the store rejecting the request. */
  datatype UploadError = ConfigurationError | StoreError(cause: string)
  {
    /** The error's `message`. */
    function Message(): string
    {
      match this
      case ConfigurationError => ConfigurationMessage
      case StoreError(cause) => cause
    }
  }

  const ConfigurationMessage := "请先配置 R2 设置"

  /** The guard of `uploadToR2`: key id, secret and endpoint all non-empty.
      The bucket and the custom domain are not checked. */
  predicate Configured(s: Settings)
  {
    s.r2AccessKeyId != "" && s.r2AccessKeySecret != "" && s.r2Endpoint != ""
  }

  /** The URL returned after a successful PUT. */
  function PublicUrl(s: Settings, fileName: string): string
  {
    if s.customDomain != "" then s.customDomain + "/" + fileName
    else s.r2Endpoint + "/" + s.r2Bucket + "/" + fileName
  }

  /** The URL ends in "/" and the object name, after the custom domain when
      one is set and after endpoint and bucket otherwise. */
  lemma PublicUrlLocatesObject(s: Settings, fileName: string)
    ensures var url := PublicUrl(s, fileName);
            var base := if s.customDomain != "" then s.customDomain else s.r2Endpoint + "/" + s.r2Bucket;
            && |url| == |base| + 1 + |fileName|
            && url[..|base|] == base
            && url[|base|] == '/'
            && url[|base| + 1..] == fileName
  {
  }

  /** The request `uploadToR2` sends (if any) and what it returns or throws. */
  datatype UploadRun = UploadRun(sent: Option<PutRequest>, result: Result<string, UploadError>)

  /** `uploadToR2(file, fileName)` with `reply` standing for what `send` does. */
  function Upload(s: Settings, client: ClientConfig, file: ClipboardFile, fileName: string, reply: StoreReply): UploadRun
  {
    if !Configured(s) then UploadRun(None, Failure(ConfigurationError))
    else
      var request := PutRequest(client, s.r2Bucket, fileName, file.payload, file.mimeType);
      match reply
      case Stored => UploadRun(Some(request), Success(PublicUrl(s, fileName)))
      case Rejected(message) => UploadRun(Some(request), Failure(StoreError(message)))
  }

  /** The guard runs first: without key id, secret and endpoint no request is
      built and the configuration error is thrown; otherwise exactly one
      request goes out, for the settings' bucket and the given name with the
      file's bytes and MIME type, and the upload succeeds exactly when the
      store accepts it, with the public URL, or fails with the store's message. */
  lemma UploadContract(s: Settings, client: ClientConfig, file: ClipboardFile, fileName: string, reply: StoreReply)
    ensures var run := Upload(s, client, file, fileName, reply);
            && (run.sent.None? <==> !Configured(s))
            && (!Configured(s) ==> run.result == Failure(ConfigurationError))
            && (run.sent.Some? ==>
                  run.sent.value == PutRequest(client, s.r2Bucket, fileName, file.payload, file.mimeType))
            && (run.result.Success? <==> Configured(s) && reply.Stored?)
            && (run.result.Success? ==> run.result.value == PublicUrl(s, fileName))
            && (Configured(s) && reply.Rejected? ==> run.result == Failure(StoreError(reply.message)))
  {
  }

  /** Blanking any one of the three guarded fields blocks every upload before
      a request is built, whatever else is set. */
  lemma MissingCredentialBlocksUpload(s: Settings, f: Field, file: ClipboardFile, fileName: string, reply: StoreReply)
    requires f == AccessKeyId || f == AccessKeySecret || f == Endpoint
    ensures var run := Upload(WithField(s, f, ""), ClientConfigFor(WithField(s, f, "")), file, fileName, reply);
            run.sent.None? && run.result == Failure(ConfigurationError)
  {
  }

  /** An empty bucket does not stop the request. */
  lemma EmptyBucketIsSent(s: Settings, client: ClientConfig, file: ClipboardFile, fileName: string, reply: StoreReply)
    requires Configured(s)
    ensures Upload(s.(r2Bucket := ""), client, file, fileName, reply).sent
            == Some(PutRequest(client, "", fileName, file.payload, file.mimeType))
  {
  }

  /** With the snapshot built from the settings, the request carries the
      settings' own endpoint and key pair. */
  lemma SentWithCurrentCredentials(s: Settings, file: ClipboardFile, fileName: string, reply: StoreReply)
    requires Configured(s)
    ensures var run := Upload(s, ClientConfigFor(s), file, fileName, reply);
            && run.sent.Some?
            && run.sent.value.client.endpoint == s.r2Endpoint
            && run.sent.value.client.accessKeyId == s.r2AccessKeyId
            && run.sent.value.client.secretAccessKey == s.r2AccessKeySecret
  {
  }

  /** A credential edit whose save fails leaves the snapshot of the old
      settings in place: the next upload passes the guard on the edited
      settings but goes out through a client that no longer matches them. */
  lemma StaleClientAfterFailedSave(s: Settings, f: Field, value: string,
                                   file: ClipboardFile, fileName: string, reply: StoreReply)
    requires f == AccessKeyId || f == AccessKeySecret || f == Endpoint
    requires value != FieldOf(s, f)
    requires Configured(WithField(s, f, value))
    ensures var run := Upload(WithField(s, f, value), ClientConfigFor(s), file, fileName, reply);
            && run.sent.Some?
            && run.sent.value.client == ClientConfigFor(s)
            && run.sent.value.client != ClientConfigFor(WithField(s, f, value))
  {
    assert FieldOf(WithField(s, f, value), f) == value;
  }
}
