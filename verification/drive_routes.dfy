/** The three server routes behind Drive backup: `POST /api/drive/backup`,
    `GET /api/drive/restore` and `GET /api/drive/backup/key`. The session, the
    Drive app-data folder (a sequence of files in listing order) and HMAC-SHA256
    are inputs; a Drive call that throws is injected as a `Fault`. */
module DriveRoutes {
  import opened Wrappers
  import opened Text
  import opened Json
  import opened Primitives

  const BackupFileName := "wallet_backup_encrypted.json"
  const Unauthorized := "Unauthorized"
  const NoFileContent := "No file content provided"
  const NoBackupFile := "No backup file found"
  const SessionExpired := "Session expired. Please sign in again."
  const AuthExpiredCode := "AUTH_EXPIRED"
  const InternalError := "Internal Server Error"
  const InvalidCredentials := "invalid authentication credentials"
  const ConfigError := "Server configuration error"
  const KeyDerivationFailed := "Failed to derive encryption key"

  /** A NextAuth session; an empty string is an absent field. */
  datatype Session = Session(accessToken: string, email: string)

  datatype DriveFile = DriveFile(id: string, name: string, modifiedTime: string, content: Json)

  /** The app-data folder, in the order `files.list` returns it. */
  type Store = seq<DriveFile>

  datatype Response = Response(status: int, body: Json)

  /** A thrown error: its `code` (if any) and `message` (empty when absent). */
  datatype Failure = Failure(code: Option<int>, message: string)

  /** The `k`-th Drive call of a request throws `error` (calls numbered from 0). */
  datatype Fault = Fault(call: nat, error: Failure)

  function ErrorBody(message: string): Json {
    JObj(map["error" := JStr(message)])
  }

  predicate IsAuthFailure(e: Failure) {
    e.code == Some(401) || e.code == Some(403) || Contains(e.message, InvalidCredentials)
  }

  /** The shared catch block of the backup and restore routes. */
  function ErrorResponse(e: Failure): (r: Response)
    ensures r.status == 401 <==> IsAuthFailure(e)
    ensures r.status != 401 ==> r.status == 500
    ensures IsAuthFailure(e) ==> r.body == JObj(map["error" := JStr(SessionExpired), "code" := JStr(AuthExpiredCode)])
    ensures !IsAuthFailure(e) ==> r.body == ErrorBody(if e.message != "" then e.message else InternalError)
  {
    if IsAuthFailure(e) then
      Response(401, JObj(map["error" := JStr(SessionExpired), "code" := JStr(AuthExpiredCode)]))
    else Response(500, ErrorBody(if e.message != "" then e.message else InternalError))
  }

  /** A 403 from Drive is reported as an expired session, as is the Google credential message. */
  lemma ForbiddenIsExpiredSession(message: string)
    ensures ErrorResponse(Failure(Some(403), message)).status == 401
    ensures ErrorResponse(Failure(None, "Request had invalid authentication credentials.")).status == 401
  {
    var prefix := "Request had ";
    var m := prefix + InvalidCredentials + ".";
    assert m == "Request had invalid authentication credentials.";
    assert m[|prefix|..|prefix| + |InvalidCredentials|] == InvalidCredentials;
    ContainsAt(m, InvalidCredentials, |prefix|);
  }

  predicate HasToken(session: Option<Session>) {
    session.Some? && session.value.accessToken != ""
  }

  /** The files the routes' `files.list` query returns. */
  function Listed(store: Store): (r: Store)
    ensures |r| <= |store|
    ensures forall f :: f in r <==> f in store && f.name == BackupFileName
  {
    if store == [] then []
    else (if store[0].name == BackupFileName then [store[0]] else []) + Listed(store[1..])
  }

  /** The files whose name is not the backup file's, in order. */
  function Others(store: Store): (r: Store)
    ensures forall f :: f in r <==> f in store && f.name != BackupFileName
  {
    if store == [] then []
    else (if store[0].name != BackupFileName then [store[0]] else []) + Others(store[1..])
  }

  /** `files.delete({fileId})` */
  function Delete(store: Store, id: string): (r: Store)
    ensures forall f :: f in r <==> f in store && f.id != id
    ensures |r| <= |store|
  {
    if store == [] then []
    else (if store[0].id != id then [store[0]] else []) + Delete(store[1..], id)
  }

  /** One of the first `n` delete calls names `f`'s id. */
  predicate DeletedBy(f: DriveFile, victims: Store, n: nat)
    requires n <= |victims|
  {
    exists i :: 0 <= i < n && victims[i].id == f.id
  }

  /** The deletion loop over the first `n` listed files. */
  function DeleteFirst(store: Store, victims: Store, n: nat): (r: Store)
    requires n <= |victims|
    ensures forall f :: f in r ==> f in store
    decreases n
  {
    if n == 0 then store else Delete(DeleteFirst(store, victims, n - 1), victims[n - 1].id)
  }

  /** The loop keeps exactly the stored files whose id none of its calls named. */
  lemma {:induction false} DeleteFirstExact(store: Store, victims: Store, n: nat, f: DriveFile)
    requires n <= |victims|
    ensures f in DeleteFirst(store, victims, n) <==> f in store && !DeletedBy(f, victims, n)
    decreases n
  {
    if n > 0 {
      DeleteFirstExact(store, victims, n - 1, f);
      DeleteFirstStep(store, victims, n, f);
      DeletedByStep(f, victims, n);
      KeptStep(f in DeleteFirst(store, victims, n), f in DeleteFirst(store, victims, n - 1), f in store,
               DeletedBy(f, victims, n), DeletedBy(f, victims, n - 1), victims[n - 1].id == f.id);
    }
  }

  /** The induction step of DeleteFirstExact, over its atoms: `kept` and `keptBefore`
      say the file survives `n` and `n - 1` calls, `hit` and `hitBefore` that one of
      them named it, `last` that the `n`-th did. */
  lemma KeptStep(kept: bool, keptBefore: bool, stored: bool, hit: bool, hitBefore: bool, last: bool)
    requires keptBefore <==> stored && !hitBefore
    requires kept <==> keptBefore && !last
    requires hit <==> hitBefore || last
    ensures kept <==> stored && !hit
  {
  }

  /** The `n`-th call removes exactly the files with its victim's id. */
  lemma DeleteFirstStep(store: Store, victims: Store, n: nat, f: DriveFile)
    requires 0 < n <= |victims|
    ensures f in DeleteFirst(store, victims, n) <==> f in DeleteFirst(store, victims, n - 1) && f.id != victims[n - 1].id
  {
  }

  /** The first `n` calls name `f` exactly when the first `n - 1` do or the last one does. */
  lemma DeletedByStep(f: DriveFile, victims: Store, n: nat)
    requires 0 < n <= |victims|
    ensures DeletedBy(f, victims, n) <==> DeletedBy(f, victims, n - 1) || victims[n - 1].id == f.id
  {
    if DeletedBy(f, victims, n - 1) {
      var i :| 0 <= i < n - 1 && victims[i].id == f.id;
      assert 0 <= i < n && victims[i].id == f.id;
    }
    if victims[n - 1].id == f.id {
      assert DeletedBy(f, victims, n);
    }
    if DeletedBy(f, victims, n) && !DeletedBy(f, victims, n - 1) {
      var i :| 0 <= i < n && victims[i].id == f.id;
      assert i == n - 1;
    }
  }

  datatype RouteRun = RouteRun(store: Store, response: Response)

  /** The fault, if it hits one of the `calls` Drive calls a request makes. */
  function Hit(fault: Option<Fault>, calls: nat): (h: Option<Fault>)
    ensures h.Some? <==> fault.Some? && fault.value.call < calls
    ensures h.Some? ==> h == fault
  {
    if fault.Some? && fault.value.call < calls then fault else None
  }

  /** `POST /api/drive/backup`. `sessionError` is what `getServerSession` threw, if
      it threw; `body` is what `req.json()` gave (an `Err` when it threw), `newId`
      the id Drive assigns to the created file. Calls: 0 lists, 1..n delete the n
      listed files in order, n+1 creates. */
  function BackupPost(sessionError: Option<Failure>, session: Option<Session>, body: Result<Json>, store: Store,
                      newId: string, fault: Option<Fault>): (r: RouteRun)
    ensures sessionError.Some? ==> r == RouteRun(store, ErrorResponse(sessionError.value))
    ensures sessionError.None? && !HasToken(session) ==> r == RouteRun(store, Response(401, ErrorBody(Unauthorized)))
    ensures sessionError.None? && HasToken(session) && body == Ok(JNull) ==>
              r == RouteRun(store, ErrorResponse(Failure(None, NullDestructure("fileContent"))))
    ensures sessionError.None? && HasToken(session) && body.Ok? && !body.value.JNull? && !Present(Get(body.value, "fileContent")) ==>
              r == RouteRun(store, Response(400, ErrorBody(NoFileContent)))
    ensures r.response.status == 200 <==>
              sessionError.None? && HasToken(session) && body.Ok? && Present(Get(body.value, "fileContent"))
              && Hit(fault, |Listed(store)| + 2).None?
    ensures sessionError.None? && Hit(fault, |Listed(store)| + 2).Some? && HasToken(session) && body.Ok?
            && Present(Get(body.value, "fileContent")) ==>
              r.response == ErrorResponse(fault.value.error)
  {
    if sessionError.Some? then RouteRun(store, ErrorResponse(sessionError.value))
    else if !HasToken(session) then RouteRun(store, Response(401, ErrorBody(Unauthorized)))
    else match body
      case Err(message) => RouteRun(store, ErrorResponse(Failure(None, message)))
      case Ok(request) =>
        if request.JNull? then RouteRun(store, ErrorResponse(Failure(None, NullDestructure("fileContent"))))
        else
          var content := Get(request, "fileContent");
          if !Present(content) then RouteRun(store, Response(400, ErrorBody(NoFileContent)))
          else
            var listed := Listed(store);
            match Hit(fault, |listed| + 2)
            case Some(Fault(k, e)) =>
              if k == 0 then RouteRun(store, ErrorResponse(e))
              else RouteRun(DeleteFirst(store, listed, k - 1), ErrorResponse(e))
            case None =>
              var cleared := DeleteFirst(store, listed, |listed|);
              RouteRun(cleared + [DriveFile(newId, BackupFileName, "", content.value)],
                       Response(200, JObj(map["success" := JBool(true), "fileId" := JStr(newId)])))
  }

  /** Deleting every listed file leaves no file with the backup name. */
  lemma DeleteAllListed(store: Store)
    ensures forall f :: f in DeleteFirst(store, Listed(store), |Listed(store)|) ==> f.name != BackupFileName
  {
    var listed := Listed(store);
    forall f | f in DeleteFirst(store, listed, |listed|)
      ensures f.name != BackupFileName
    {
      DeleteFirstExact(store, listed, |listed|, f);
    }
  }

  /** A successful backup leaves exactly one backup file, holding the uploaded
      content, and no file of another name is touched. */
  lemma BackupReplaces(session: Option<Session>, request: Json, store: Store, newId: string)
    requires HasToken(session) && Present(Get(request, "fileContent"))
    requires forall f :: f in store && f.name != BackupFileName ==> f.id != newId
    ensures var r := BackupPost(None, session, Ok(request), store, newId, None);
            && r.response == Response(200, JObj(map["success" := JBool(true), "fileId" := JStr(newId)]))
            && (forall f :: f in r.store && f.name == BackupFileName ==> f == DriveFile(newId, BackupFileName, "", Get(request, "fileContent").value))
            && r.store[|r.store| - 1] == DriveFile(newId, BackupFileName, "", Get(request, "fileContent").value)
            && (forall f :: f in store && f.name != BackupFileName && (forall g :: g in Listed(store) ==> g.id != f.id) ==> f in r.store)
  {
    var listed := Listed(store);
    DeleteAllListed(store);
    forall f | f in store && f.name != BackupFileName && (forall g :: g in listed ==> g.id != f.id)
      ensures f in DeleteFirst(store, listed, |listed|)
    {
      DeleteFirstExact(store, listed, |listed|, f);
    }
  }

  /** A fault on the create call comes after every listed file was deleted. */
  lemma CreateFaultRun(session: Option<Session>, request: Json, store: Store, newId: string, e: Failure)
    requires HasToken(session) && Present(Get(request, "fileContent"))
    ensures BackupPost(None, session, Ok(request), store, newId, Some(Fault(|Listed(store)| + 1, e)))
            == RouteRun(DeleteFirst(store, Listed(store), |Listed(store)|), ErrorResponse(e))
  {
    var listed := Listed(store);
    var fault := Some(Fault(|listed| + 1, e));
    assert !request.JNull?;
    assert Hit(fault, |listed| + 2) == fault;
  }

  /** A failing create after the deletions loses the old backup: no backup file remains. */
  lemma FailedCreateLosesBackup(session: Option<Session>, request: Json, store: Store, newId: string, e: Failure)
    requires HasToken(session) && Present(Get(request, "fileContent"))
    ensures var r := BackupPost(None, session, Ok(request), store, newId, Some(Fault(|Listed(store)| + 1, e)));
            r.response == ErrorResponse(e) && forall f :: f in r.store ==> f.name != BackupFileName
  {
    CreateFaultRun(session, request, store, newId, e);
    DeleteAllListed(store);
  }

  /** The metadata of a listed file (`fields: 'files(id, name, modifiedTime)'`). */
  function Metadata(f: DriveFile): Json {
    JObj(map["id" := JStr(f.id), "name" := JStr(f.name), "modifiedTime" := JStr(f.modifiedTime)])
  }

  /** `GET /api/drive/restore`; `sessionError` is what `getServerSession` threw, if
      it threw. Calls: 0 lists, 1 downloads the first listed file. */
  function RestoreGet(sessionError: Option<Failure>, session: Option<Session>, store: Store, fault: Option<Fault>): (r: Response)
    ensures sessionError.Some? ==> r == ErrorResponse(sessionError.value)
    ensures sessionError.None? && !HasToken(session) ==> r == Response(401, ErrorBody(Unauthorized))
    ensures sessionError.None? && HasToken(session) && Hit(fault, 1).None? && Listed(store) == [] ==>
              r == Response(404, ErrorBody(NoBackupFile))
    ensures r.status == 200 <==> sessionError.None? && HasToken(session) && Listed(store) != [] && Hit(fault, 2).None?
    ensures r.status == 200 ==> r.body == JObj(map["fileContent" := Listed(store)[0].content, "metadata" := Metadata(Listed(store)[0])])
    ensures sessionError.None? && HasToken(session) && Hit(fault, if Listed(store) == [] then 1 else 2).Some? ==>
              r == ErrorResponse(fault.value.error)
  {
    if sessionError.Some? then ErrorResponse(sessionError.value)
    else if !HasToken(session) then Response(401, ErrorBody(Unauthorized))
    else if Hit(fault, 1).Some? then ErrorResponse(fault.value.error)
    else
      var files := Listed(store);
      if files == [] then Response(404, ErrorBody(NoBackupFile))
      else if Hit(fault, 2).Some? then ErrorResponse(fault.value.error)
      else Response(200, JObj(map["fileContent" := files[0].content, "metadata" := Metadata(files[0])]))
  }

  /** After a successful backup, restore returns the uploaded content when the folder
      held nothing else under the backup name. */
  lemma BackupThenRestore(session: Option<Session>, request: Json, store: Store, newId: string)
    requires HasToken(session) && Present(Get(request, "fileContent"))
    requires forall f :: f in store && f.name != BackupFileName ==> f.id != newId
    ensures var stored := BackupPost(None, session, Ok(request), store, newId, None).store;
            var r := RestoreGet(None, session, stored, None);
            r.status == 200 && Get(r.body, "fileContent") == Get(request, "fileContent")
  {
    BackupReplaces(session, request, store, newId);
    var stored := BackupPost(None, session, Ok(request), store, newId, None).store;
    var created := DriveFile(newId, BackupFileName, "", Get(request, "fileContent").value);
    assert created in stored;
    assert created in Listed(stored);
    var first := Listed(stored)[0];
    assert first in Listed(stored);
    assert first == created;
  }

  // ---------------------------------------------------------------------------
  // Key route

  const HexDigits := "0123456789abcdef"

  function HexChar(n: int): (c: char)
    requires 0 <= n < 16
  {
    HexDigits[n]
  }

  /** `digest('hex')`: two lower-case hex digits per byte. */
  function Hex(bs: Bytes): (s: string)
    ensures |s| == 2 * |bs|
    ensures forall i :: 0 <= i < |s| ==> s[i] in HexDigits
  {
    if bs == [] then ""
    else [HexChar(bs[0] as int / 16), HexChar(bs[0] as int % 16)] + Hex(bs[1..])
  }

  function HexValue(c: char): (r: Option<int>)
    ensures r.Some? ==> 0 <= r.value < 16
  {
    if '0' <= c <= '9' then Some(c as int - '0' as int)
    else if 'a' <= c <= 'f' then Some(c as int - 'a' as int + 10)
    else None
  }

  /** Reads lower-case hex back into bytes, the partner of `Hex`. */
  function Unhex(s: string): Option<Bytes>
    decreases |s|
  {
    if |s| < 2 then (if s == [] then Some([]) else None)
    else
      var hi, lo, rest := HexValue(s[0]), HexValue(s[1]), Unhex(s[2..]);
      if hi.Some? && lo.Some? && rest.Some? then Some([(hi.value * 16 + lo.value) as byte] + rest.value)
      else None
  }

  lemma UnhexCons(hi: char, lo: char, rest: string, high: int, low: int, tail: Bytes)
    requires HexValue(hi) == Some(high) && HexValue(lo) == Some(low) && Unhex(rest) == Some(tail)
    ensures 0 <= high * 16 + low < 256
    ensures Unhex([hi, lo] + rest) == Some([(high * 16 + low) as byte] + tail)
  {
    var s := [hi, lo] + rest;
    assert s[0] == hi && s[1] == lo && s[2..] == rest;
  }

  lemma HexCharValue(n: int)
    requires 0 <= n < 16
    ensures HexValue(HexChar(n)) == Some(n)
  {
  }

  /** `Hex` of a non-empty list: the two digits of its head, then the rest. */
  lemma HexCons(bs: Bytes)
    requires bs != []
    ensures Hex(bs) == [HexChar(bs[0] as int / 16), HexChar(bs[0] as int % 16)] + Hex(bs[1..])
  {
  }

  /** The two digits of a byte read back as that byte. */
  lemma ByteDigits(x: byte)
    ensures HexValue(HexChar(x as int / 16)) == Some(x as int / 16)
    ensures HexValue(HexChar(x as int % 16)) == Some(x as int % 16)
    ensures ((x as int / 16) * 16 + x as int % 16) as byte == x
  {
    ByteSplit(x as int);
    HexCharValue(x as int / 16);
    HexCharValue(x as int % 16);
  }

  /** One byte of the round trip: its two digits in front of any text that reads
      back read back as that byte in front. */
  lemma HexStep(x: byte, rest: string, tail: Bytes)
    requires Unhex(rest) == Some(tail)
    ensures Unhex([HexChar(x as int / 16), HexChar(x as int % 16)] + rest) == Some([x] + tail)
  {
    var high, low := x as int / 16, x as int % 16;
    ByteDigits(x);
    UnhexCons(HexChar(high), HexChar(low), rest, high, low, tail);
  }

  /** The hex key decodes back to the HMAC digest: the hex text loses nothing. */
  lemma {:induction false} HexRoundTrip(bs: Bytes)
    ensures Unhex(Hex(bs)) == Some(bs)
    decreases |bs|
  {
    if bs != [] {
      HexRoundTrip(bs[1..]);
      HexCons(bs);
      HexStep(bs[0], Hex(bs[1..]), bs[1..]);
      assert [bs[0]] + bs[1..] == bs;
    }
  }

  lemma ByteSplit(b: int)
    requires 0 <= b < 256
    ensures 0 <= b / 16 < 16 && 0 <= b % 16 < 16 && b / 16 * 16 + b % 16 == b
  {
  }

  /** `GET /api/drive/backup/key`. `sessionError` is what `getServerSession` threw,
      if it threw; `secret` is `WALLET_BACKUP_SECRET` (empty when unset) and
      `hmac(secret, email)` the SHA-256 HMAC digest, None when it throws. */
  function KeyGet(sessionError: Option<Failure>, session: Option<Session>, secret: string,
                  hmac: (string, string) -> Option<Bytes>): (r: Response)
    ensures sessionError.Some? ==> r == Response(500, ErrorBody(KeyDerivationFailed))
    ensures sessionError.None? && (session.None? || session.value.email == "") ==> r == Response(401, ErrorBody(Unauthorized))
    ensures sessionError.None? && session.Some? && session.value.email != "" && secret == "" ==>
              r == Response(500, ErrorBody(ConfigError))
    ensures r.status == 200 <==>
              sessionError.None? && session.Some? && session.value.email != "" && secret != "" && hmac(secret, session.value.email).Some?
    ensures r.status == 200 ==> r.body == JObj(map["key" := JStr(Hex(hmac(secret, session.value.email).value))])
    ensures r.status != 200 && r.status != 401 && (secret != "" || sessionError.Some?) ==>
              r == Response(500, ErrorBody(KeyDerivationFailed))
  {
    if sessionError.Some? then Response(500, ErrorBody(KeyDerivationFailed))
    else if session.None? || session.value.email == "" then Response(401, ErrorBody(Unauthorized))
    else if secret == "" then Response(500, ErrorBody(ConfigError))
    else match hmac(secret, session.value.email)
      case None => Response(500, ErrorBody(KeyDerivationFailed))
      case Some(digest) => Response(200, JObj(map["key" := JStr(Hex(digest))]))
  }

  /** The key depends only on the secret and the e-mail: two sessions of the same
      user (with different access tokens) get the same key. */
  lemma KeyPerUser(a: Session, b: Session, secret: string, hmac: (string, string) -> Option<Bytes>)
    requires a.email == b.email
    ensures KeyGet(None, Some(a), secret, hmac) == KeyGet(None, Some(b), secret, hmac)
  {
  }

  /** The key route needs no Drive access token: only the e-mail is checked. */
  lemma KeyIgnoresAccessToken(email: string, secret: string, hmac: (string, string) -> Option<Bytes>, digest: Bytes)
    requires email != "" && secret != "" && hmac(secret, email) == Some(digest)
    ensures KeyGet(None, Some(Session("", email)), secret, hmac).status == 200
  {
  }
}
