/** The client side of backup and restore (`fetchEncryptionKey`,
    `restoreWalletsFromDrive`, `backupWalletsToDrive`). Each HTTP exchange is an
    input: the response the endpoint gave, its body being the JSON value
    `response.json()` resolved to. */
module DriveBackup {
  import opened Wrappers
  import opened Json
  import opened Primitives
  import opened BackupEnvelope
  import opened BackupMerge
  import DriveRoutes

  datatype HttpResponse = HttpResponse(status: int, body: Json)

  /** `response.ok` */
  predicate IsOk(r: HttpResponse) { 200 <= r.status <= 299 }

  const NoBackupFile: string := "No backup file found"
  const RestoreFailed: string := "Restore failed"
  const BackupFailed: string := "Backup failed"
  const KeyFetchFailed: string := "Failed to fetch encryption key. Please sign in."
  const EmptyKey: string := "Server returned an empty encryption key"
  /** Stands for the message of the SyntaxError `JSON.parse` throws on malformed text. */
  const JsonSyntaxError: string := "SyntaxError: malformed JSON"

  /** `new Error(errorData.error || fallback).message`: a truthy `error` of any type
      becomes the message in its `String()` form, and reading it off a `null` body
      throws instead. */
  function ErrorText(body: Json, fallback: string): (m: string)
    ensures body.JNull? ==> m == NullRead("error")
    ensures !body.JNull? && Present(Get(body, "error")) ==> m == JsString(Get(body, "error").value)
    ensures !body.JNull? && !Present(Get(body, "error")) ==> m == fallback
  {
    if body.JNull? then NullRead("error")
    else match Get(body, "error")
      case Some(e) => if Truthy(e) then JsString(e) else fallback
      case None => fallback
  }

  /** Every error body the Drive routes send reaches the caller as its message. */
  lemma RouteErrorReachesClient(e: DriveRoutes.Failure, fallback: string)
    ensures var body := DriveRoutes.ErrorResponse(e).body;
            ErrorText(body, fallback) == (if DriveRoutes.IsAuthFailure(e) then DriveRoutes.SessionExpired
                                          else if e.message != "" then e.message else DriveRoutes.InternalError)
  {
  }

  /** `fetchEncryptionKey()`: the per-user key from `/api/drive/backup/key`, of
      whatever JSON type the body gives it, provided it is truthy. */
  function FetchEncryptionKey(resp: HttpResponse): (r: Result<Json>)
    ensures !IsOk(resp) ==> r == Err(ErrorText(resp.body, KeyFetchFailed))
    ensures IsOk(resp) && resp.body.JNull? ==> r == Err(NullDestructure("key"))
    ensures r.Ok? <==> IsOk(resp) && !resp.body.JNull? && Present(Get(resp.body, "key"))
    ensures r.Ok? ==> Truthy(r.value) && Get(resp.body, "key") == Some(r.value)
    ensures IsOk(resp) && !resp.body.JNull? && r.Err? ==> r.message == EmptyKey
  {
    if !IsOk(resp) then Err(ErrorText(resp.body, KeyFetchFailed))
    else if resp.body.JNull? then Err(NullDestructure("key"))
    else match Get(resp.body, "key")
      case Some(k) => if Truthy(k) then Ok(k) else Err(EmptyKey)
      case None => Err(EmptyKey)
  }

  /** The key the route serves is the key the client encrypts with, and a refusal
      of the route reaches the client as its error text. */
  lemma ServedKeyIsUsed(session: Option<DriveRoutes.Session>, secret: string, hmac: (string, string) -> Option<Bytes>)
    ensures var served := DriveRoutes.KeyGet(None, session, secret, hmac);
            var r := FetchEncryptionKey(HttpResponse(served.status, served.body));
            && (served.status == 200 && |hmac(secret, session.value.email).value| > 0 ==>
                  r == Ok(JStr(DriveRoutes.Hex(hmac(secret, session.value.email).value))))
            && (served.status != 200 ==> r == Err(Get(served.body, "error").value.s))
  {
  }

  /** What an empty or unreadable backup normalises to: `{wallets: []}`. */
  const EmptyBackup: Json := JObj(map["wallets" := JArr([])])

  /** `typeof fileContent === 'string' ? JSON.parse(fileContent) : fileContent`;
      None is `undefined`. */
  function ParseContent(p: Suite, fileContent: Option<Json>): (r: Result<Option<Json>>)
    ensures r.Err? <==> fileContent.Some? && fileContent.value.JStr? && p.parse(fileContent.value.s).None?
    ensures r.Err? ==> r.message == JsonSyntaxError
    ensures fileContent.Some? && fileContent.value.JStr? && r.Ok? ==> r.value == p.parse(fileContent.value.s)
    ensures !(fileContent.Some? && fileContent.value.JStr?) ==> r == Ok(fileContent)
  {
    match fileContent
    case Some(JStr(text)) =>
      (match p.parse(text)
       case None => Err(JsonSyntaxError)
       case Some(doc) => Ok(Some(doc)))
    case other => Ok(other)
  }

  /** The truthy `data` field of the parsed file content, if there is one. */
  function StoredData(p: Suite, fileContent: Option<Json>): Option<Json> {
    match ParseContent(p, fileContent)
    case Ok(Some(doc)) => if Truthy(doc) && Present(Get(doc, "data")) then Get(doc, "data") else None
    case _ => None
  }

  /** Lines 252-265: what the restore makes of the downloaded `fileContent` under
      `key`. Unparseable text throws, content without `data` is the empty backup,
      and otherwise the decryption decides: its error is thrown, a falsy document
      becomes the empty backup and any other is returned as it is. */
  function OpenContent(p: Suite, key: Json, fileContent: Option<Json>): (r: Result<Json>)
    ensures ParseContent(p, fileContent).Err? ==> r == Err(JsonSyntaxError)
    ensures ParseContent(p, fileContent).Ok? && StoredData(p, fileContent).None? ==> r == Ok(EmptyBackup)
    ensures StoredData(p, fileContent).Some? ==>
              var d := Decrypt(p, StoredData(p, fileContent).value, key);
              && (d.Err? ==> r == Err(DecryptFailed))
              && (d.Ok? && Truthy(d.value) ==> r == d)
              && (d.Ok? && !Truthy(d.value) ==> r == Ok(EmptyBackup))
    ensures r.Ok? ==> Truthy(r.value)
  {
    var parsed :- ParseContent(p, fileContent);
    if parsed.None? || !Truthy(parsed.value) || !Present(Get(parsed.value, "data")) then Ok(EmptyBackup)
    else
      var decrypted :- Decrypt(p, Get(parsed.value, "data").value, key);
      if !Truthy(decrypted) then Ok(EmptyBackup) else Ok(decrypted)
  }

  /** `existingKey || (await fetchEncryptionKey())` */
  function RestoreKey(existingKey: Json, keyResp: HttpResponse): (r: Result<Json>)
    ensures Truthy(existingKey) ==> r == Ok(existingKey)
    ensures !Truthy(existingKey) ==> r == FetchEncryptionKey(keyResp)
    ensures r.Ok? ==> Truthy(r.value)
  {
    if Truthy(existingKey) then Ok(existingKey) else FetchEncryptionKey(keyResp)
  }

  /** `restoreWalletsFromDrive(existingKey)`; a falsy `existingKey` (`undefined`
      included) means none was given and the key is fetched. */
  function RestoreWalletsFromDrive(p: Suite, existingKey: Json, keyResp: HttpResponse, resp: HttpResponse): (r: Result<Json>)
    ensures RestoreKey(existingKey, keyResp).Err? ==> r == Err(RestoreKey(existingKey, keyResp).message)
    ensures RestoreKey(existingKey, keyResp).Ok? ==>
              && (resp.status == 404 ==> r == Err(NoBackupFile))
              && (resp.status != 404 && !IsOk(resp) ==> r == Err(ErrorText(resp.body, RestoreFailed)))
              && (IsOk(resp) && resp.body.JNull? ==> r == Err(NullDestructure("fileContent")))
              && (IsOk(resp) && !resp.body.JNull? ==>
                    r == OpenContent(p, RestoreKey(existingKey, keyResp).value, Get(resp.body, "fileContent")))
    ensures r.Ok? ==> Truthy(r.value) && IsOk(resp)
  {
    var key :- RestoreKey(existingKey, keyResp);
    if resp.status == 404 then Err(NoBackupFile)
    else if !IsOk(resp) then Err(ErrorText(resp.body, RestoreFailed))
    else if resp.body.JNull? then Err(NullDestructure("fileContent"))
    else OpenContent(p, key, Get(resp.body, "fileContent"))
  }

  /** A stored backup whose `data` fails to decrypt makes a restore throw, not
      return `{wallets: []}`, whether the file content arrives as JSON text (as
      uploaded) or already parsed. */
  lemma RestoreAuthFailureThrows(p: Suite, key: Json, keyResp: HttpResponse, resp: HttpResponse, doc: Json, data: string)
    requires Truthy(key) && IsOk(resp) && !resp.body.JNull?
    requires Get(resp.body, "fileContent") == Some(doc)
             || (exists text :: Get(resp.body, "fileContent") == Some(JStr(text)) && p.parse(text) == Some(doc))
    requires Get(doc, "data") == Some(JStr(data)) && data != ""
    requires Decrypt(p, JStr(data), key).Err?
    ensures RestoreWalletsFromDrive(p, key, keyResp, resp) == Err(DecryptFailed)
  {
    if Get(resp.body, "fileContent") != Some(doc) {
      var text :| Get(resp.body, "fileContent") == Some(JStr(text)) && p.parse(text) == Some(doc);
      assert ParseContent(p, Get(resp.body, "fileContent")) == Ok(Some(doc));
    }
  }

  /** Content without a truthy `data`, or `data` that decrypts to `null`, restores as
      `{wallets: []}`, for text and parsed content alike. */
  lemma RestoreEmptyCases(p: Suite, key: Json, keyResp: HttpResponse, resp: HttpResponse, doc: Json)
    requires Truthy(key) && IsOk(resp) && !resp.body.JNull?
    requires (Get(resp.body, "fileContent") == Some(doc) && !doc.JStr?)
             || (exists text :: Get(resp.body, "fileContent") == Some(JStr(text)) && p.parse(text) == Some(doc))
    requires !Present(Get(doc, "data")) || Decrypt(p, Get(doc, "data").value, key) == Ok(JNull)
    ensures RestoreWalletsFromDrive(p, key, keyResp, resp) == Ok(EmptyBackup)
  {
    if !(Get(resp.body, "fileContent") == Some(doc) && !doc.JStr?) {
      var text :| Get(resp.body, "fileContent") == Some(JStr(text)) && p.parse(text) == Some(doc);
      assert ParseContent(p, Get(resp.body, "fileContent")) == Ok(Some(doc));
    }
  }

  /** The payload the backup page sends; a missing `wallets` is the empty list. */
  datatype BackupRequest = BackupRequest(wallets: seq<Record>, masterClientId: Option<Json>)

  /** The stored entries to merge into and the masterClientId after reading the
      old backup. Any failure of that read, a wrong key included, leaves an empty
      list; the stored entries are taken as they are, whatever their type. */
  function MergeBase(existing: Result<Json>, requested: Option<Json>): (r: (seq<Json>, Option<Json>))
    ensures existing.Err? ==> r == ([], requested)
    ensures Present(requested) ==> r.1 == requested
    ensures r.1 != requested ==> existing.Ok? && Present(Get(existing.value, "masterClientId"))
                                 && r.1 == Get(existing.value, "masterClientId")
    ensures existing.Ok? && Get(existing.value, "wallets").Some? && Get(existing.value, "wallets").value.JArr? ==>
              r.0 == Get(existing.value, "wallets").value.items
    ensures existing.Ok? && !(Get(existing.value, "wallets").Some? && Get(existing.value, "wallets").value.JArr?) ==>
              r == ([], requested)
    ensures existing.Ok? && Get(existing.value, "wallets").Some? && Get(existing.value, "wallets").value.JArr?
            && !Present(requested) && Present(Get(existing.value, "masterClientId")) ==>
              r.1 == Get(existing.value, "masterClientId")
  {
    match existing
    case Err(_) => ([], requested)
    case Ok(doc) =>
      if Truthy(doc) && Get(doc, "wallets").Some? && Get(doc, "wallets").value.JArr? then
        var base := Get(doc, "wallets").value.items;
        var existingId := Get(doc, "masterClientId");
        if !Present(requested) && Present(existingId) then (base, existingId) else (base, requested)
      else ([], requested)
  }

  /** `{wallets, masterClientId, timestamp, version: 1}`; an `undefined` masterClientId is dropped by `JSON.stringify`. */
  function MergedDocument(wallets: seq<Json>, masterClientId: Option<Json>, stamp: string): Json {
    JObj(map["wallets" := JArr(wallets), "timestamp" := JStr(stamp), "version" := JNum(1)]
         + (if masterClientId.Some? then map["masterClientId" := masterClientId.value] else map[]))
  }

  /** The uploaded file: `{data, timestamp, version: 1}`. */
  function EnvelopeDocument(data: string, stamp: string): Json {
    JObj(map["data" := JStr(data), "timestamp" := JStr(stamp), "version" := JNum(1)])
  }

  /** Lines 153-198: the document `backupWalletsToDrive` encrypts under `key`, or the
      TypeError of a `null` stored entry that escapes the merge. */
  function MergedFor(p: Suite, req: BackupRequest, key: Json, keyResp: HttpResponse, restoreResp: HttpResponse,
                     mergeStamp: string): (r: Result<Json>)
    ensures var base := MergeBase(RestoreWalletsFromDrive(p, key, keyResp, restoreResp), req.masterClientId);
            && (r.Err? <==> MergeStored(base.0, req.wallets).Err?)
            && (r.Err? ==> r.message == NullEntryError && JNull in base.0)
            && (r.Ok? ==> r.value == MergedDocument(MergeStored(base.0, req.wallets).value, base.1, mergeStamp))
  {
    var (base, masterClientId) := MergeBase(RestoreWalletsFromDrive(p, key, keyResp, restoreResp), req.masterClientId);
    var wallets :- MergeStored(base, req.wallets);
    Ok(MergedDocument(wallets, masterClientId, mergeStamp))
  }

  /** The upload body, if one was sent, and what `backupWalletsToDrive` resolves or throws. */
  datatype BackupRun = BackupRun(uploaded: Option<string>, outcome: Result<Json>)

  /** `backupWalletsToDrive(payload)`, with the two `new Date()` stamps, the random
      salt and iv, and the three endpoint responses as inputs. */
  function BackupWalletsToDrive(p: Suite, req: BackupRequest, keyResp: HttpResponse, restoreResp: HttpResponse,
                                mergeStamp: string, fileStamp: string, salt: Bytes, iv: Bytes,
                                uploadResp: HttpResponse): (run: BackupRun)
    requires |salt| == SaltLength && |iv| == IvLength
    ensures run.uploaded.Some? <==>
              FetchEncryptionKey(keyResp).Ok?
              && MergedFor(p, req, FetchEncryptionKey(keyResp).value, keyResp, restoreResp, mergeStamp).Ok?
              && Fits(p, MergedFor(p, req, FetchEncryptionKey(keyResp).value, keyResp, restoreResp, mergeStamp).value,
                      FetchEncryptionKey(keyResp).value, salt, iv)
    ensures FetchEncryptionKey(keyResp).Err? ==> run == BackupRun(None, Err(FetchEncryptionKey(keyResp).message))
    ensures FetchEncryptionKey(keyResp).Ok?
            && MergedFor(p, req, FetchEncryptionKey(keyResp).value, keyResp, restoreResp, mergeStamp).Err? ==>
              run == BackupRun(None, Err(NullEntryError))
    ensures FetchEncryptionKey(keyResp).Ok? && run.uploaded.None? ==>
              run.outcome == Err(NullEntryError) || run.outcome == Err(EncryptFailed)
    ensures FetchEncryptionKey(keyResp).Ok?
            && MergedFor(p, req, FetchEncryptionKey(keyResp).value, keyResp, restoreResp, mergeStamp).Ok?
            && !Fits(p, MergedFor(p, req, FetchEncryptionKey(keyResp).value, keyResp, restoreResp, mergeStamp).value,
                     FetchEncryptionKey(keyResp).value, salt, iv) ==>
              run == BackupRun(None, Err(EncryptFailed))
    ensures run.outcome.Ok? <==> run.uploaded.Some? && IsOk(uploadResp)
    ensures run.outcome.Ok? ==> run.outcome.value == uploadResp.body
    ensures run.uploaded.Some? && !IsOk(uploadResp) ==> run.outcome == Err(ErrorText(uploadResp.body, BackupFailed))
  {
    match FetchEncryptionKey(keyResp)
    case Err(m) => BackupRun(None, Err(m))
    case Ok(key) =>
      match MergedFor(p, req, key, keyResp, restoreResp, mergeStamp)
      case Err(m) => BackupRun(None, Err(m))
      case Ok(merged) =>
        match Encrypt(p, merged, key, salt, iv)
        case Err(m) => BackupRun(None, Err(m))
        case Ok(data) =>
          var content := p.stringify(EnvelopeDocument(data, fileStamp));
          if !IsOk(uploadResp) then BackupRun(Some(content), Err(ErrorText(uploadResp.body, BackupFailed)))
          else BackupRun(Some(content), Ok(uploadResp.body))
  }

  /** The uploaded file parses to `{data, timestamp, version: 1}` whose `data`
      decrypts, under the fetched key, to the merged document. */
  lemma UploadedContentDecrypts(p: Suite, req: BackupRequest, keyResp: HttpResponse, restoreResp: HttpResponse,
                                mergeStamp: string, fileStamp: string, salt: Bytes, iv: Bytes, uploadResp: HttpResponse)
    requires Sound(p)
    requires |salt| == SaltLength && |iv| == IvLength
    requires BackupWalletsToDrive(p, req, keyResp, restoreResp, mergeStamp, fileStamp, salt, iv, uploadResp).uploaded.Some?
    ensures var key := FetchEncryptionKey(keyResp).value;
            var run := BackupWalletsToDrive(p, req, keyResp, restoreResp, mergeStamp, fileStamp, salt, iv, uploadResp);
            exists data ::
              && p.parse(run.uploaded.value) == Some(EnvelopeDocument(data, fileStamp))
              && data != ""
              && Decrypt(p, JStr(data), key) == MergedFor(p, req, key, keyResp, restoreResp, mergeStamp)
  {
    var key := FetchEncryptionKey(keyResp).value;
    var merged := MergedFor(p, req, key, keyResp, restoreResp, mergeStamp).value;
    RoundTrip(p, merged, key, salt, iv);
    var data := Encrypt(p, merged, key, salt, iv).value;
    assert p.parse(p.stringify(EnvelopeDocument(data, fileStamp))) == Some(EnvelopeDocument(data, fileStamp));
  }

  /** Backup then restore on the client: a later restore (no key passed, the same
      user's key fetched again) of the file that was uploaded gives back exactly the
      merged document that was encrypted. */
  lemma BackupThenRestore(p: Suite, req: BackupRequest, keyResp: HttpResponse, restoreResp: HttpResponse,
                          mergeStamp: string, fileStamp: string, salt: Bytes, iv: Bytes, uploadResp: HttpResponse,
                          later: HttpResponse)
    requires Sound(p)
    requires |salt| == SaltLength && |iv| == IvLength
    requires BackupWalletsToDrive(p, req, keyResp, restoreResp, mergeStamp, fileStamp, salt, iv, uploadResp).uploaded.Some?
    requires IsOk(later) && !later.body.JNull?
    requires Get(later.body, "fileContent")
             == Some(JStr(BackupWalletsToDrive(p, req, keyResp, restoreResp, mergeStamp, fileStamp, salt, iv, uploadResp).uploaded.value))
    ensures RestoreWalletsFromDrive(p, JNull, keyResp, later)
            == MergedFor(p, req, FetchEncryptionKey(keyResp).value, keyResp, restoreResp, mergeStamp)
  {
    var key := FetchEncryptionKey(keyResp).value;
    var run := BackupWalletsToDrive(p, req, keyResp, restoreResp, mergeStamp, fileStamp, salt, iv, uploadResp);
    UploadedContentDecrypts(p, req, keyResp, restoreResp, mergeStamp, fileStamp, salt, iv, uploadResp);
    var data :| && p.parse(run.uploaded.value) == Some(EnvelopeDocument(data, fileStamp)) && data != ""
                && Decrypt(p, JStr(data), key) == MergedFor(p, req, key, keyResp, restoreResp, mergeStamp);
    var merged := MergedFor(p, req, key, keyResp, restoreResp, mergeStamp);
    assert merged.Ok? && merged.value.JObj?;
    OpenEnvelope(p, key, run.uploaded.value, data, fileStamp);
    assert RestoreKey(JNull, keyResp) == Ok(key);
  }

  /** Uploaded text that parses to an envelope opens to what its `data` decrypts to,
      when that is truthy. */
  lemma OpenEnvelope(p: Suite, key: Json, text: string, data: string, stamp: string)
    requires p.parse(text) == Some(EnvelopeDocument(data, stamp)) && data != ""
    requires Decrypt(p, JStr(data), key).Ok? && Truthy(Decrypt(p, JStr(data), key).value)
    ensures OpenContent(p, key, Some(JStr(text))) == Decrypt(p, JStr(data), key)
  {
    assert ParseContent(p, Some(JStr(text))) == Ok(Some(EnvelopeDocument(data, stamp)));
    assert Get(EnvelopeDocument(data, stamp), "data") == Some(JStr(data));
    assert StoredData(p, Some(JStr(text))) == Some(JStr(data));
  }

  /** Through the routes: after the client's upload is posted and stored, the
      restore route serves it back and the client's restore yields the merged document. */
  lemma DriveRoundTrip(p: Suite, req: BackupRequest, keyResp: HttpResponse, restoreResp: HttpResponse,
                       mergeStamp: string, fileStamp: string, salt: Bytes, iv: Bytes, uploadResp: HttpResponse,
                       session: Option<DriveRoutes.Session>, store: DriveRoutes.Store, newId: string)
    requires Sound(p)
    requires |salt| == SaltLength && |iv| == IvLength
    requires BackupWalletsToDrive(p, req, keyResp, restoreResp, mergeStamp, fileStamp, salt, iv, uploadResp).uploaded.Some?
    requires DriveRoutes.HasToken(session)
    requires forall f :: f in store && f.name != DriveRoutes.BackupFileName ==> f.id != newId
    ensures var run := BackupWalletsToDrive(p, req, keyResp, restoreResp, mergeStamp, fileStamp, salt, iv, uploadResp);
            var request := JObj(map["fileContent" := JStr(run.uploaded.value)]);
            var stored := DriveRoutes.BackupPost(None, session, Ok(request), store, newId, None).store;
            var served := DriveRoutes.RestoreGet(None, session, stored, None);
            RestoreWalletsFromDrive(p, JNull, keyResp, HttpResponse(served.status, served.body))
            == MergedFor(p, req, FetchEncryptionKey(keyResp).value, keyResp, restoreResp, mergeStamp)
  {
    var run := BackupWalletsToDrive(p, req, keyResp, restoreResp, mergeStamp, fileStamp, salt, iv, uploadResp);
    var request := JObj(map["fileContent" := JStr(run.uploaded.value)]);
    assert run.uploaded.value != "";
    DriveRoutes.BackupThenRestore(session, request, store, newId);
    var stored := DriveRoutes.BackupPost(None, session, Ok(request), store, newId, None).store;
    var served := DriveRoutes.RestoreGet(None, session, stored, None);
    BackupThenRestore(p, req, keyResp, restoreResp, mergeStamp, fileStamp, salt, iv, uploadResp,
                      HttpResponse(served.status, served.body));
  }

  /** A wrong key while reading the old backup does not stop the backup: the old
      records are dropped and only the new wallets are uploaded. */
  lemma WrongKeyDropsOldBackup(p: Suite, req: BackupRequest, keyResp: HttpResponse, restoreResp: HttpResponse,
                               mergeStamp: string, fileStamp: string, salt: Bytes, iv: Bytes, uploadResp: HttpResponse)
    requires |salt| == SaltLength && |iv| == IvLength
    requires FetchEncryptionKey(keyResp).Ok?
    requires RestoreWalletsFromDrive(p, FetchEncryptionKey(keyResp).value, keyResp, restoreResp) == Err(DecryptFailed)
    ensures MergeBase(RestoreWalletsFromDrive(p, FetchEncryptionKey(keyResp).value, keyResp, restoreResp), req.masterClientId)
            == ([], req.masterClientId)
    ensures MergedFor(p, req, FetchEncryptionKey(keyResp).value, keyResp, restoreResp, mergeStamp).Ok?
    ensures BackupWalletsToDrive(p, req, keyResp, restoreResp, mergeStamp, fileStamp, salt, iv, uploadResp).uploaded.Some?
            <==> Fits(p, MergedFor(p, req, FetchEncryptionKey(keyResp).value, keyResp, restoreResp, mergeStamp).value,
                      FetchEncryptionKey(keyResp).value, salt, iv)
  {
  }

  /** A `null` wallet in the old backup aborts the backup before anything is
      uploaded, once the first new wallet matches no stored entry before it: the
      merge's TypeError escapes the outer `try`. */
  lemma NullStoredWalletAborts(p: Suite, req: BackupRequest, keyResp: HttpResponse, restoreResp: HttpResponse,
                               mergeStamp: string, fileStamp: string, salt: Bytes, iv: Bytes, uploadResp: HttpResponse,
                               previous: Json, k: nat)
    requires |salt| == SaltLength && |iv| == IvLength
    requires FetchEncryptionKey(keyResp).Ok?
    requires RestoreWalletsFromDrive(p, FetchEncryptionKey(keyResp).value, keyResp, restoreResp) == Ok(previous)
    requires Get(previous, "wallets").Some? && Get(previous, "wallets").value.JArr?
    requires k < |Get(previous, "wallets").value.items| && Get(previous, "wallets").value.items[k].JNull?
    requires req.wallets != []
    requires forall j :: 0 <= j < k ==> !Matches(Fields(Get(previous, "wallets").value.items[j]), req.wallets[0])
    ensures BackupWalletsToDrive(p, req, keyResp, restoreResp, mergeStamp, fileStamp, salt, iv, uploadResp)
            == BackupRun(None, Err(NullEntryError))
  {
    NullEntryAborts(Get(previous, "wallets").value.items, req.wallets, k);
  }
}
