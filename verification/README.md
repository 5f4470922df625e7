# Web wallet: Drive backup, Lightning service and account pages, in Dafny

This project models the core of a browser-based multi-chain wallet written in
JavaScript (Next.js). The core is made of four parts:

- The encrypted Google Drive backup (`googleDriveBackup.js`):
  - the per-user key fetch;
  - the versioned AES-GCM envelope `v1-gcm:` + base64(salt ‖ iv ‖ ciphertext);
  - the merge of the wallets being backed up into an existing backup;
  - the restore flow and its error paths.
- The three Drive API routes on the server:
  - `POST /api/drive/backup` replaces the backup file;
  - `GET /api/drive/restore` reads it;
  - `GET /api/drive/backup/key` derives the per-user HMAC key.
- The two Lightning service modules:
  - the global SDK connect state (one instance, one in-flight connect promise, a mnemonic map);
  - the single prepared-send slot and fee classification;
  - address validation;
  - the polled and the event-driven confirmation waiters;
  - the payment history;
  - on-chain deposit claims and refunds;
  - decimal-string-to-satoshi conversion.
- The pages:
  - the wallet list (drag reordering, name search, row selection, sorting);
  - the Drive restore and backup settings pages;
  - the unclaimed-deposit list;
  - the batch-transaction banner;
  - the password login screen;
  - the sign-in error page;
  - the app shell's routing effect (query forwarding, affiliate id, sign-in redirects).

Everything is modelled as pure functions over immutable datatypes:

- JSON values are `Json`. A missing field is an absent key, and JavaScript truthiness is the `Truthy` predicate.
- Browser query strings are `SearchParams.Query`: an ordered list of pairs with `get`, `toString` and the form-urlencoded reading.
- Crypto, base64, UTF-8 and JSON text are the function fields of `Primitives.Suite`; so is `maxArgs`, the engine's limit on the arguments of one call, whose value the source does not fix. Their algebraic laws (round trips, tag length) are the ghost predicate `Sound`, which the lemmas assume instead of axioms.
- Randomness (salt, iv), clocks, HTTP and SDK responses, the session (or the error its lookup throws), the HMAC and URL parsing are parameters.
- Redux dispatches and toasts are recorded as data in each function's result.

## Model

| member | source | states |
|---|---|---|
| BackupEnvelope.Encrypt | src/utils/googleDriveBackup.js:60-94 | Fails with "Failed to encrypt wallet data" exactly when the key is falsy or the sealed payload is longer than the engine accepts as arguments of one call (the RangeError of the spread at line 88, caught by the same `catch`). Any truthy key is used in its `String()` form, and the text then starts with the `v1-gcm:` version prefix. |
| BackupEnvelope.Decrypt | src/utils/googleDriveBackup.js:99-139 | The only error is the single "Invalid password or corrupted file" message. A falsy key, a non-string ciphertext, or a body that is not base64 gives that error. Text without the version prefix, and a decoded body under 29 bytes, both decrypt to `null`. |
| BackupEnvelope.FrameSlices | src/utils/googleDriveBackup.js:80-85 | The payload is 16-byte salt, 12-byte iv, then ciphertext; slicing at 16 and 28 gives back each part. |
| BackupEnvelope.EncryptLayout | src/utils/googleDriveBackup.js:72-89 | With a non-empty password, encryption succeeds exactly when the payload fits the argument limit; then the base64 payload after the prefix decodes to salt ‖ iv ‖ ciphertext, with the ciphertext longer than the 16-byte tag. |
| BackupEnvelope.RoundTrip | src/utils/googleDriveBackup.js:60-139 | Encryption with a non-empty password succeeds exactly when the payload fits, and decrypting what it produced with the same password gives back the same JSON value. |
| BackupEnvelope.AuthFailureThrows | src/utils/googleDriveBackup.js:120-137 | When the AES-GCM open fails (wrong key or tampered bytes), decryption throws the corrupted-file error rather than returning null. |
| BackupEnvelope.NullOnlyFromFormat | src/utils/googleDriveBackup.js:105-132 | A `null` result has one of three causes: a missing prefix, a decoded body shorter than 29 bytes, or a body that opens under this key and whose JSON text is itself `null`. |
| BackupEnvelope.FreshRandomnessDiffers | src/utils/googleDriveBackup.js:65-89 | Two successful encryptions of the same data with different salt or iv produce different texts. |
| BackupEnvelope.PayloadLength | src/utils/googleDriveBackup.js:72-88 | The payload spread into `String.fromCharCode` is 16 + 12 bytes of salt and iv, the UTF-8 JSON text, and the 16-byte tag; it fits exactly when that sum is within the argument limit. |
| Json.JsString | src/utils/googleDriveBackup.js:17-19 | `String(v)`: a string is itself, and a truthy value other than an array has non-empty text. A non-negative number prints as its decimal digits. |
| BackupMerge.FindMatch | src/utils/googleDriveBackup.js:179-184 | The first existing wallet with the same truthy clientId, or with equal walletName and chain_name; None when no wallet matches. |
| BackupMerge.Matches | src/utils/googleDriveBackup.js:179-184 | The `findIndex` test under `===`: the same truthy primitive clientId, or `===`-equal walletName and chain_name. An object or array value is a fresh reference from `JSON.parse` and equals nothing. |
| BackupMerge.MatchesByValue | src/utils/googleDriveBackup.js:179-184 | A shared truthy primitive clientId always matches; an object or array clientId never does, so the test falls to the name and chain comparison. |
| BackupMerge.MergeOne | src/utils/googleDriveBackup.js:186-190 | A match is overwritten in place by the spread of old and new fields; otherwise the new wallet is appended. |
| BackupMerge.MergeLength | src/utils/googleDriveBackup.js:177-191 | The merged list has the existing length plus the number of wallets that matched nothing, so it lies between the existing length and that plus the new count. |
| BackupMerge.MergeKeepsExisting | src/utils/googleDriveBackup.js:177-191 | No existing wallet is lost or loses a field, and a field that no new wallet carries keeps its old value. |
| BackupMerge.MergeWithoutCollisions | src/utils/googleDriveBackup.js:177-191 | When nothing matches (neither the existing wallets nor the new ones among themselves), the merge is plain concatenation. |
| BackupMerge.LastWalletApplied | src/utils/googleDriveBackup.js:177-191 | The last new wallet's fields all appear, with its values, in some wallet of the merged list. |
| BackupMerge.GrowingListCollapse | src/utils/googleDriveBackup.js:178-190 | Two new wallets with the same clientId collapse into one entry, because the second matches the first one pushed. |
| BackupMerge.RenameThenAdd | src/utils/googleDriveBackup.js:179-184 | A wallet renamed under the same clientId is still matched and renamed in place, not duplicated. |
| BackupMerge.MergeSingle | src/utils/googleDriveBackup.js:178-191 | Merging a one-wallet list is one merge step. |
| BackupMerge.Merge | src/utils/googleDriveBackup.js:177-191 | The fold over the new wallets keeps every existing entry at its position with all its fields, and adds at most one entry per new wallet. |
| BackupMerge.Fields | src/utils/googleDriveBackup.js:181-187 | An object entry's fields are its own. Any other entry has no clientId, walletName or chain_name. |
| BackupMerge.FindEntry | src/utils/googleDriveBackup.js:179-184 | `findIndex` over the stored entries: the first match, with no `null` entry before it. Otherwise it is the TypeError of a `null` entry that nothing before it matches. |
| BackupMerge.MergeEntry | src/utils/googleDriveBackup.js:179-190 | A step fails exactly when its lookup does. A match is replaced by the object of the spread fields, and no match appends the new wallet. |
| BackupMerge.MergeStored | src/utils/googleDriveBackup.js:177-191 | The fold over the stored entries fails only with the `null`-entry TypeError, and only when the list holds a `null`. A success keeps the length bounds, and every entry is an old one or an object. |
| BackupMerge.FindEntryObjects | src/utils/googleDriveBackup.js:179-184 | Over a list of objects the raw lookup finds what the record lookup finds, and never fails. |
| BackupMerge.MergeStoredObjects | src/utils/googleDriveBackup.js:177-191 | A stored list of objects merges exactly as the record merge does. |
| BackupMerge.FindEntryReachesNull | src/utils/googleDriveBackup.js:179-184 | The lookup throws when it reaches a `null` entry before any match. |
| BackupMerge.NullEntryAborts | src/utils/googleDriveBackup.js:178-184 | A `null` entry that the first new wallet reaches before any match aborts the whole merge with the TypeError. |
| Json.Spread | src/utils/googleDriveBackup.js:187 | `{...a, ...b}`: the key sets unite, b's values win, and a's values remain for keys b lacks. |
| DriveBackup.FetchEncryptionKey | src/utils/googleDriveBackup.js:14-27 | Succeeds exactly for an ok response whose `key` is truthy, of any type, and returns that key. A `null` body throws the destructuring TypeError. Any other falsy key fails with "Server returned an empty encryption key", and a non-ok response fails with the error text. |
| DriveBackup.ErrorText | src/utils/googleDriveBackup.js:17-19 | A `null` body throws the TypeError of reading `error`. A truthy `error` of any type becomes the message in its `String()` form; otherwise the caller's fallback is used. |
| DriveBackup.RouteErrorReachesClient | src/utils/googleDriveBackup.js:244-247 | Every error body the Drive routes send reaches the client as its message: the session-expired text for an auth failure, otherwise the error's own message, or the internal-error text when that message is empty. |
| DriveBackup.ServedKeyIsUsed | src/utils/googleDriveBackup.js:14-27 | When the key route serves the hex of a non-empty digest, the client uses exactly that text as its key. When the route refuses, the client fails with the route's error text. |
| DriveBackup.ParseContent | src/utils/googleDriveBackup.js:252-253 | Only a string file content is JSON-parsed, and a parse failure is a SyntaxError; other content passes through unchanged. |
| DriveBackup.OpenContent | src/utils/googleDriveBackup.js:252-265 | An unparsable text is the SyntaxError. Content without a truthy `data` is `{wallets: []}`. Otherwise a decryption error propagates, a truthy decryption is returned, and a falsy one becomes `{wallets: []}`. A success is always truthy. |
| DriveBackup.RestoreKey | src/utils/googleDriveBackup.js:236 | A truthy passed key is used; otherwise the fetched key or its error. A key in use is always truthy. |
| DriveBackup.RestoreWalletsFromDrive | src/utils/googleDriveBackup.js:233-270 | A truthy passed key is used as it is; otherwise a key fetch failure is the error. With a key, a 404 throws "No backup file found", and any other non-ok status throws the body's error text or "Restore failed". A `null` body throws the destructuring TypeError. Otherwise the result is what the content opens to, and a success is always truthy. |
| DriveBackup.RestoreAuthFailureThrows | src/utils/googleDriveBackup.js:249-265 | A stored backup, given as an object or as its JSON text, whose `data` fails to decrypt makes the restore throw the decryption error. |
| DriveBackup.RestoreEmptyCases | src/utils/googleDriveBackup.js:249-265 | Content without a truthy `data`, or with data that decrypts to `null`, restores as `{wallets: []}`. The content may be an object or its JSON text. |
| DriveBackup.MergeBase | src/utils/googleDriveBackup.js:153-174 | Any restore error leaves an empty list and the requested master id. When the stored `wallets` is an array, its entries are the base as they are, whatever their type. When no master id was requested and the stored backup has one, the stored one is used; a requested one is kept. |
| DriveBackup.MergedFor | src/utils/googleDriveBackup.js:153-198 | The document to encrypt is `{wallets, masterClientId, timestamp, version: 1}` over the merged entries. The merge fails exactly when it throws the `null`-entry TypeError. |
| DriveBackup.BackupWalletsToDrive | src/utils/googleDriveBackup.js:148-227 | An upload happens exactly when the key fetch succeeds, the merge does not throw, and the merged payload fits the argument limit. A key failure is reported with the key error, a `null` stored entry that the merge reaches with its TypeError, and an oversized payload with "Failed to encrypt wallet data", each without an upload. The outcome is the upload's JSON exactly when the upload response is ok, and the error text otherwise. |
| DriveBackup.UploadedContentDecrypts | src/utils/googleDriveBackup.js:193-214 | The uploaded file's `data` decrypts under the per-user key to the merged document: the wallets, the master id, a timestamp and version 1. |
| DriveBackup.OpenEnvelope | src/utils/googleDriveBackup.js:249-265 | Downloaded text that parses to an envelope restores as what its `data` decrypts to, when that is truthy. |
| DriveBackup.BackupThenRestore | src/utils/googleDriveBackup.js:148-270 | Backup then restore on the client: a later restore of the uploaded file, with the key fetched again, gives back exactly the merged document that was encrypted. |
| DriveBackup.DriveRoundTrip | src/utils/googleDriveBackup.js:200-265 | Through the routes: the upload is stored by the backup route and served back by the restore route, and the client's restore then yields the merged document. |
| DriveBackup.WrongKeyDropsOldBackup | src/utils/googleDriveBackup.js:157-174 | If the existing backup cannot be decrypted, the merge starts from an empty list and succeeds, and the backup is uploaded, replacing the old wallets, exactly when the new payload fits. |
| DriveBackup.NullStoredWalletAborts | src/utils/googleDriveBackup.js:177-191 | A `null` wallet in the old backup, reached by the first new wallet before any match, aborts the backup before any upload. |
| DriveRoutes.ErrorResponse | src/app/api/drive/backup/route.js:65-78 | 401 with the session-expired body exactly for a Google 401 or 403, or an invalid-credentials message; every other error is 500 with its message. |
| DriveRoutes.ForbiddenIsExpiredSession | src/app/api/drive/backup/route.js:65-73 | A 403 and an invalid-credentials message are both reported as an expired session. |
| DriveRoutes.Listed | src/app/api/drive/backup/route.js:31-36 | The listing holds exactly the stored files with the backup file name. |
| DriveRoutes.Delete | src/app/api/drive/backup/route.js:38-42 | Deleting an id removes exactly the files with that id. |
| DriveRoutes.Others | src/app/api/drive/backup/route.js:31-61 | The files without the backup name, which the route never lists. |
| DriveRoutes.DeleteFirst | src/app/api/drive/backup/route.js:40-42 | The delete loop keeps only stored files. |
| DriveRoutes.DeleteFirstExact | src/app/api/drive/backup/route.js:40-42 | The first n deletions keep exactly the stored files whose id none of those n listed files has. |
| DriveRoutes.BackupPost | src/app/api/drive/backup/route.js:8-80 | A throwing session lookup is answered through the error mapping with the store untouched. No access token gives 401, and no file content gives 400; both leave the store untouched. A `null` request body is answered as a 500 TypeError. The response is 200 exactly when the session lookup, the content and every Drive call succeed. A Drive call that fails is answered through the error mapping. |
| DriveRoutes.DeleteAllListed | src/app/api/drive/backup/route.js:37-42 | After the delete loop no file with the backup name remains. |
| DriveRoutes.BackupReplaces | src/app/api/drive/backup/route.js:31-61 | A successful post leaves exactly one backup file, holding the new content and listed last. Every other file whose id no old backup shares is kept. |
| DriveRoutes.FailedCreateLosesBackup | src/app/api/drive/backup/route.js:38-61 | If the create call fails after the old backups were deleted, the store holds no backup at all. |
| DriveRoutes.RestoreGet | src/app/api/drive/restore/route.js:8-66 | A throwing session lookup is answered through the error mapping. 401 without a token and 404 when no backup is listed. 200 exactly when the session lookup succeeds, a backup is listed and both Drive calls succeed, returning the first listed file's content and metadata. A failing Drive call is answered through the error mapping. |
| DriveRoutes.BackupThenRestore | src/app/api/drive/restore/route.js:24-45 | After a successful backup post, a restore returns 200 with the posted content. |
| DriveRoutes.Hex | src/app/api/drive/backup/key/route.js:32-34 | The digest as lower-case hex: two hex digits per byte. |
| DriveRoutes.HexRoundTrip | src/app/api/drive/backup/key/route.js:32-34 | The hex text decodes back to the digest bytes, so no two digests share a key text. |
| DriveRoutes.KeyGet | src/app/api/drive/backup/key/route.js:14-44 | A throwing session lookup gives 500 "Failed to derive encryption key". Otherwise 401 without a signed-in email, 500 "Server configuration error" without a secret, 200 with hex(HMAC(secret, email)) exactly when the HMAC succeeds, and 500 "Failed to derive encryption key" otherwise. |
| DriveRoutes.KeyPerUser | src/app/api/drive/backup/key/route.js:31-36 | The key depends only on the email: two sessions of the same user get the same key. |
| DriveRoutes.KeyIgnoresAccessToken | src/app/api/drive/backup/key/route.js:18-20 | A session with an email but no Google access token still gets a key. |
| LightningService.StartConnect | src/myWallet/wallet-lightning.service.js:13-42 | A new connect attempt is stored as the single in-flight promise with a fresh id. |
| LightningService.Connect | src/myWallet/wallet-lightning.service.js:45-65 | With a live instance, a known mnemonic gets its mapped instance, an empty one the live instance, and a new non-empty one starts a fresh attempt that replaces the stored promise. Without an instance, a pending promise is shared, and with no promise either a new attempt starts. A lookup never changes the instance, map or prepared slot. |
| LightningService.Complete | src/myWallet/wallet-lightning.service.js:13-42 | A built instance becomes current and is mapped for the attempt's mnemonic while the promise stays stored; a failure clears both the instance and the promise. |
| LightningService.ConnectPreservesValid | src/myWallet/wallet-lightning.service.js:45-65 | A lookup keeps the invariant: the instance is one the map knows, and the pending promise was created by an earlier connect. |
| LightningService.CompletePreservesValid | src/myWallet/wallet-lightning.service.js:13-42 | Settling a connect keeps the same invariant. |
| LightningService.SessionReuse | src/myWallet/wallet-lightning.service.js:45-65 | A second connect with the same mnemonic reuses the first instance without a new build. |
| LightningService.InFlightAliasing | src/myWallet/wallet-lightning.service.js:45-64 | While one connect is pending, a caller with another mnemonic receives the first mnemonic's instance. |
| LightningService.FailureRestartsConnect | src/myWallet/wallet-lightning.service.js:37-42 | After a failed connect, the next call starts a fresh attempt. |
| LightningService.MapIgnoredWithoutInstance | src/myWallet/wallet-lightning.service.js:47-64 | Without a live instance, even a mapped mnemonic triggers a new build. |
| LightningService.FeeOf | src/myWallet/wallet-lightning.service.js:79-102 | The Lightning fee comes from the payment method's own fee field (bitcoin address, spark address or bolt11). Any other or missing method gives `{}`. |
| LightningService.PrepareAndSend | src/myWallet/wallet-lightning.service.js:67-106 | Returns undefined and leaves the slot alone without an SDK or request, or when the amount conversion or the prepare throws. Otherwise it stores the prepare response in the slot and returns its fee. |
| LightningService.SendLightning | src/myWallet/wallet-lightning.service.js:220-240 | The SDK is asked to send the stored prepare response exactly when connected and something is prepared; that send returns its payment id or rethrows the send error. Without an SDK or a prepare it returns undefined, and a connect error is rethrown. |
| LightningService.LaterPrepareWins | src/myWallet/wallet-lightning.service.js:67-106 | The prepared slot is global, so a second prepare replaces the first and the send uses the later one. |
| LightningService.SendNeedsPrepare | src/myWallet/wallet-lightning.service.js:223-226 | Without a prepare, sending never reaches the SDK. |
| LightningService.IsLightningAddressValid | src/myWallet/wallet-lightning.service.js:118-138 | True exactly for a parsed bitcoin address, spark address or bolt11 invoice; undefined exactly when there is no SDK; a failed connect or a throwing parse is caught and answered with false. |
| LightningConfirm.WaitForPolledConfirmation | src/myWallet/wallet-lightning.service.js:242-281 | The interval loop agrees with the tick-by-tick reference definition. It resolves on `completed`, and rejects on `failed` or on a thrown error. It resolves pending after exactly `retries` non-terminal polls. |
| LightningConfirm.SettleAt | src/myWallet/wallet-lightning.service.js:263-277 | A thrown call rejects with its error, `completed` resolves with the reply, and `failed` rejects. A non-terminal reply resolves pending only when the counter equals `retries`. |
| LightningConfirm.PollFrom | src/myWallet/wallet-lightning.service.js:256-279 | The reference definition of the poll: tick by tick from tick k, the first tick that settles decides. |
| LightningConfirm.FirstSettlingTick | src/myWallet/wallet-lightning.service.js:256-279 | The poll keeps running exactly when no tick settles. Otherwise it ends at the first tick that settles, with that tick's settlement. |
| LightningConfirm.PendingForeverWhenRetriesMissed | src/myWallet/wallet-lightning.service.js:256-273 | Once the counter passes `retries` (or `retries` is missing), only a terminal reply ends the poll. |
| LightningConfirm.BudgetExhaustion | src/myWallet/wallet-lightning.service.js:256-273 | With enough non-terminal replies, the poll resolves pending exactly at the budget. |
| LightningConfirm.Settle | src/myWallet/wallet.lightning.service.js:284-324 | With no event before the 90-second timer, the waiter times out. Events are taken in the order they arrive, so their times never decrease. |
| LightningConfirm.SettleConfirmedIff | src/myWallet/wallet.lightning.service.js:284-324 | The waiter confirms exactly when a confirming event arrives before 90000 ms and before any later timer. |
| LightningConfirm.LaterEventsIgnored | src/myWallet/wallet.lightning.service.js:287-314 | The waiter settles once; events after the deciding one change nothing. |
| LightningConfirm.WaitForEventConfirmation | src/myWallet/wallet.lightning.service.js:276-339 | Resolves confirmed exactly when connected, the listener is registered and settling confirms; undefined exactly without an SDK; a throwing connect and a throwing `addEventListener` each reject. |
| LightningConfirm.SyncedEventConfirms | src/myWallet/wallet.lightning.service.js:290-305 | Any in-time `synced` event resolves the waiter, even one unrelated to the payment. |
| LightningConfirm.LateConfirmationIsPending | src/myWallet/wallet.lightning.service.js:310-324 | A success arriving at 90 s or later loses to the timer. |
| LightningHistory.TxHash | src/myWallet/wallet-lightning.service.js:303-307 | The first truthy id among the transaction id, payment hash and payment id, else "N/A". |
| LightningHistory.Normalize | src/myWallet/wallet-lightning.service.js:302-318 | Status is SUCCESS exactly for a `completed` payment (any letter case) and Pending otherwise. The date is in milliseconds, the link is the hash head plus "...", and the own address is the sender of sends and the receiver otherwise. |
| LightningHistory.GetLightningTransactions | src/myWallet/wallet-lightning.service.js:283-326 | Undefined exactly without an SDK. The result is an empty list when the connect, `listPayments`, or the `receivePayment` call for the spark address throws; otherwise it is the normalized rows, one per payment. |
| LightningHistory.AddressOnEveryRow | src/myWallet/wallet-lightning.service.js:292-318 | The spark address appears on every row, on the side the payment type picks. |
| LightningHistory.ClaimOnchainDeposit | src/myWallet/wallet-lightning.service.js:328-355 | Undefined exactly without an SDK; the rows of all deposits, with their required fee, when every one carries a claim error; otherwise an empty list. |
| LightningHistory.RequiredFee | src/myWallet/wallet-lightning.service.js:339 | A missing required fee counts as 0. |
| LightningHistory.FirstClaimable | src/myWallet/wallet.lightning.service.js:410-428 | The first deposit with the given txid and vout whose required fee fits the fastest rate. |
| LightningHistory.ApproveClaimBySelection | src/myWallet/wallet.lightning.service.js:404-434 | A claim is requested exactly when some deposit with that txid and vout has a fee within the fastest rate; the deposit's own required fee is the maximum fee. True exactly when it was requested and succeeded. |
| LightningHistory.TooExpensiveNotClaimed | src/myWallet/wallet.lightning.service.js:410-429 | A deposit whose fee exceeds the fastest rate is never claimed. |
| LightningHistory.ApproveClaimWithFee | src/myWallet/wallet-lightning.service.js:357-374 | The claim is requested exactly when connected and the fee converts, with that fee; true exactly on success. |
| LightningHistory.RefundClaim | src/myWallet/wallet.lightning.service.js:436-466 | The refund is requested exactly when connected and fees are available, always at the `fast` fee; true exactly on success. |
| DecimalUnits.DecimalStringToBigInt | src/myWallet/wallet.lightning.service.js:16-25 | Succeeds exactly for digits with an optional dot and more digits, and the result is never negative; anything else throws "Invalid decimal string". |
| DecimalUnits.PatternIffDecimal | src/myWallet/wallet.lightning.service.js:17 | The scan for the first dot accepts exactly the strings of the pattern `^\d+(\.\d+)?$`. |
| DecimalUnits.WholeScaled | src/myWallet/wallet.lightning.service.js:16-25 | A whole number is scaled by 10^decimals. |
| DecimalUnits.ExactScaling | src/myWallet/wallet.lightning.service.js:16-25 | With no more fractional digits than decimals, the conversion is exact: the integer and fraction digits are shifted by the missing places. |
| DecimalUnits.Truncation | src/myWallet/wallet.lightning.service.js:16-25 | Extra fractional digits are dropped, never rounded: the result is the floor of the exact value. |
| DecimalUnits.NatRoundTrip | src/myWallet/wallet.lightning.service.js:16-25 | The decimal notation of a natural number n converts to n·10^decimals. |
| DecimalUnits.Rejections | src/myWallet/wallet.lightning.service.js:17-19 | "1.", ".5", "-1", "1.2.3" and "" are all refused. |
| DecimalUnits.SatoshiExample | src/myWallet/wallet.lightning.service.js:16-25 | "0.001" at 8 decimals is 100000 satoshis. |
| PageCommon.Toggle | src/app/settings/restore/page.jsx:134-141 | After a toggle the id is selected exactly when it was not before; no other id changes. |
| PageCommon.ClientId | src/app/settings/restore/page.jsx:90 | `w.clientId`, with an absent id read as `null`. |
| PageCommon.Ids | src/app/settings/restore/page.jsx:90 | `wallets.map(w => w.clientId)`: one id per wallet, in order. |
| PageCommon.Without | src/app/settings/restore/page.jsx:136-137 | Filtering an id out leaves exactly the other ids, and changes nothing when the id was absent. |
| PageCommon.AllSelected | src/app/settings/restore/page.jsx:122-124 | `isAllSelected`: a non-empty list with as many selected ids as entries. |
| PageCommon.ToggleTwice | src/app/settings/restore/page.jsx:134-141 | Toggling twice restores the selection; the list itself is restored when the id was absent. |
| PageCommon.ToggleAll | src/app/settings/restore/page.jsx:122-132 | Select-all clears a fully selected list and otherwise selects every clientId. |
| PageCommon.ToggleAllFlips | src/app/settings/restore/page.jsx:122-132 | On a non-empty list, select-all flips the all-selected state. |
| PageCommon.SelectedIn | src/app/settings/restore/page.jsx:150-152 | Exactly the wallets whose clientId is selected, in list order. |
| PageCommon.SelectAllKeepsAll | src/app/settings/backup/page.jsx:154-156 | Selecting every id keeps the whole list. |
| RestorePage.RestorableOf | src/app/settings/restore/page.jsx:88 | Exactly the backed-up objects that carry a phrase or a private key. |
| RestorePage.Restorable | src/app/settings/restore/page.jsx:88 | An entry with a truthy phrase or private key. |
| RestorePage.Catch | src/app/settings/restore/page.jsx:98-116 | Sign-in errors ask to sign in again; other errors toast their message, or the download-failed text when there is none. |
| RestorePage.FetchBackup | src/app/settings/restore/page.jsx:81-120 | Loads exactly for a truthy document whose wallets field is an array without `null` entries, and then loads exactly its entries with a truthy phrase or private key, all selected. Without such an array the list is cleared with the "No valid wallet found." warning; a `null` entry throws its TypeError into the catch, as does a failed download. |
| RestorePage.EmptyBackupWarns | src/app/settings/restore/page.jsx:87-97 | A document without wallets, or `null`, loads nothing and warns. |
| RestorePage.Exists | src/app/settings/restore/page.jsx:155-157 | `existingWallets.some(…)`: some device wallet has the same clientId. |
| RestorePage.ExistsById | src/app/settings/restore/page.jsx:155-157 | A wallet is a duplicate exactly when its clientId is among the device wallets' ids. |
| RestorePage.DuplicateCount | src/app/settings/restore/page.jsx:154-161 | Front to back: how many selected wallets are already on the device. |
| RestorePage.NewWallets | src/app/settings/restore/page.jsx:154-167 | Front to back: the selected wallets not on the device, each flagged as from backup. |
| RestorePage.NewWalletsMembers | src/app/settings/restore/page.jsx:154-167 | The restored wallets are exactly the flagged copies of the selected wallets that are not on the device. |
| RestorePage.Partition | src/app/settings/restore/page.jsx:154-167 | The duplicate count and the restored list equal the front-to-back reference definitions, so they add up to the selection. Each wallet that is not already on the device is restored, flagged as from backup, in selection order. |
| RestorePage.NoDuplicateRestored | src/app/settings/restore/page.jsx:154-167 | No wallet already on the device is restored again, and every restored wallet carries the backup flag. |
| RestorePage.HandleRestorePress | src/app/settings/restore/page.jsx:143-203 | Nothing happens with no selection. The batch is exactly the non-duplicate selected wallets, and it is sent whenever it is non-empty. Without a batch only the all-exist warning may show, exactly when every selected wallet is a duplicate. After a batch: created wallets give the "Restored n wallets." toast and reopen settings; none created but some failed gives the "Failed to restore n wallets." error; nothing created or failed shows nothing; a rejected batch shows its message, or the generic one when empty. |
| BackupPage.InitSelection | src/app/settings/backup/page.jsx:48-61 | Acts exactly when mounted, with wallets and an empty selection. With no saved selection it selects every wallet. Saved text is handed to `JSON.parse` unguarded: the effect throws exactly when the text is malformed, and otherwise sets the selection to whatever value it parses to. |
| BackupPage.HandleLogin | src/app/settings/backup/page.jsx:117-133 | Sets the pending and skip-lock flags and saves the selection as JSON; other storage keys are unchanged. |
| BackupPage.AutoBackup | src/app/settings/backup/page.jsx:63-77 | Starts exactly when mounted, signed in, the pending flag is "true" and there are wallets and a selection. It then removes the pending flag and the saved selection; otherwise storage is unchanged. |
| BackupPage.SignInRoundTrip | src/app/settings/backup/page.jsx:48-133 | The sign-in detour keeps the user's choice: the selection set after the redirect is the array saved before it. The backup then starts once and not again. |
| BackupPage.ToggleAllMounted | src/app/settings/backup/page.jsx:79-99 | Select-all clears a fully selected mounted list and otherwise selects every wallet; once mounted, it agrees with the shared rule. |
| BackupPage.HandleBackupPress | src/app/settings/backup/page.jsx:101-110 | The warning modal opens exactly when something is selected; otherwise the "select one" error is shown. |
| BackupPage.Format | src/app/settings/backup/page.jsx:158-166 | Every sent wallet has the defaulted identity fields and keeps its other fields. The chain name falls back to the first coin's. |
| BackupPage.FormatAll | src/app/settings/backup/page.jsx:158-166 | Formats each wallet, in order. |
| BackupPage.BackupPayload | src/app/settings/backup/page.jsx:151-171 | Only the selected wallets, formatted and in device order, with the master id or an empty string. |
| BackupPage.ChainFromFirstCoin | src/app/settings/backup/page.jsx:165 | A wallet without a chain name takes its first coin's. |
| BackupPage.FinishBackup | src/app/settings/backup/page.jsx:173-200 | The spinner always stops. Success toasts "backed up"; a sign-in error asks to sign in again; other errors toast their message. |
| WalletsPage.NewCurrentIndex | src/app/wallets/page.jsx:140-156 | The moved wallet's index becomes `to`. A wallet the move jumps over shifts by one toward the gap, and the index is undefined otherwise. |
| WalletsPage.MoveTracksCurrent | src/app/wallets/page.jsx:137-156 | Whenever the formula gives an index, it points at the same wallet in the reordered list. |
| WalletsPage.OnDragEnd | src/app/wallets/page.jsx:127-158 | The list is reordered exactly when the drop lands on another row; a drop outside the list or on itself dispatches nothing. The reorder is a permutation, with the new current index. |
| WalletsPage.MovePermutes | src/app/wallets/page.jsx:137 | Reordering keeps exactly the same wallets. |
| WalletsPage.MoveItem | src/app/wallets/page.jsx:137 | The reordered list has the same length, and the moved wallet sits at `to`. |
| WalletsPage.Filter | src/app/wallets/page.jsx:109-111 | Exactly the named wallets whose name contains the text, with ASCII letter case ignored. |
| WalletsPage.NameMatches | src/app/wallets/page.jsx:110 | An empty text matches every named wallet, and a name equal to the text up to letter case matches. A match needs a name at least as long as the text. |
| WalletsPage.Search | src/app/wallets/page.jsx:104-118 | An empty text clears the results; otherwise they are the filtered wallets. |
| WalletsPage.EmptyQueryShowsAll | src/app/wallets/page.jsx:160 | Without a query, every wallet is shown. |
| WalletsPage.Shown | src/app/wallets/page.jsx:160 | `walletList`: the results while a query is typed, else every wallet. |
| WalletsPage.FilterAppend | src/app/wallets/page.jsx:109-111 | The filter keeps relative order. |
| WalletsPage.FindByName | src/app/wallets/page.jsx:275-278 | The first wallet with the same name, or none. |
| WalletsPage.ChooseRow | src/app/wallets/page.jsx:274-284 | Without a query the row's own index is chosen. With one, the first index of a wallet sharing the row's name, and no index exactly when no wallet has that name. |
| WalletsPage.SameNameSelectsFirst | src/app/wallets/page.jsx:274-281 | When names repeat, search mode selects the first wallet of that name, at or before the pressed one, whichever same-named row was pressed. |
| WalletsPage.HandleSortSelect | src/app/wallets/page.jsx:94-102 | The option is always stored; the wallets are sorted by it exactly when it is not `default`. |
| UnclaimedView.HandleApprove | src/components/BtcLightningUnclaimedData/index.jsx:36-57 | The approve call, for the row's txid and vout, is made exactly when the chain was built. The modal closes exactly on a truthy answer, and the loading row is always cleared. |
| UnclaimedView.HandleReject | src/components/BtcLightningUnclaimedData/index.jsx:59-61 | Opens the refund form of that row and changes nothing else. |
| UnclaimedView.HandleCancel | src/components/BtcLightningUnclaimedData/index.jsx:63-67 | Closes the form and clears the address and the error. |
| UnclaimedView.HandleRefund | src/components/BtcLightningUnclaimedData/index.jsx:78-110 | An invalid address only flags the error. With a valid one the error is cleared, and the refund to the typed address is made exactly when the chain was built. The modal closes exactly on a truthy answer. |
| UnclaimedView.InvalidThenCancel | src/components/BtcLightningUnclaimedData/index.jsx:63-110 | A rejected address stays for correction until cancel clears the form. |
| UnclaimedView.ShortTx | src/components/BtcLightningUnclaimedData/index.jsx:153-154 | The head of up to six characters, then "...", then the tail of up to six characters. |
| UnclaimedView.ShortTxShowsEnds | src/components/BtcLightningUnclaimedData/index.jsx:153-154 | A txid of six characters or more shows its first six, "...", and its last six: 15 characters. |
| UnclaimedView.ShortTxExample | src/components/BtcLightningUnclaimedData/index.jsx:153-154 | A short txid shows overlapping head and tail. |
| UnclaimedView.CountHeader | src/components/BtcLightningUnclaimedData/index.jsx:142-145 | The count, 0 when the list is missing, labelled "Claim" exactly for one. |
| UnclaimedView.RowView | src/components/BtcLightningUnclaimedData/index.jsx:156-160 | A busy row shows the loading card. Otherwise it shows the form exactly when it is the active row and the buttons otherwise; the address error shows only inside the form. |
| UnclaimedView.OneFormAtATime | src/components/BtcLightningUnclaimedData/index.jsx:156 | At most one row shows the refund form. |
| BatchBanner.Distinct | src/components/BatchTransactionBanner/index.jsx:33-37 | `new Set` keeps every name that occurs, and nothing else, each exactly once. |
| BatchBanner.DistinctFirstOrder | src/components/BatchTransactionBanner/index.jsx:33-37 | The names are listed in the order of their first occurrence in the transactions. |
| BatchBanner.DistinctSnoc | src/components/BatchTransactionBanner/index.jsx:33-37 | A name seen before adds nothing to the set; a new name is appended at the end. |
| BatchBanner.DistinctPair | src/components/BatchTransactionBanner/index.jsx:33-37 | A name given twice is listed once. |
| BatchBanner.OneChainExample | src/components/BatchTransactionBanner/index.jsx:33-37 | Two transactions on the same chain name list that chain once. |
| BatchBanner.Named | src/components/BatchTransactionBanner/index.jsx:33-37 | Exactly the present, non-empty names. |
| BatchBanner.NamedKeepsDistinct | src/components/BatchTransactionBanner/index.jsx:33-37 | Filtering after de-duplicating keeps the names distinct. |
| BatchBanner.ChainText | src/components/BatchTransactionBanner/index.jsx:38-43 | Nothing for no chain, " on X" for one, " across N chains (a, b)" for more. |
| BatchBanner.Noun | src/components/BatchTransactionBanner/index.jsx:45-47 | Singular exactly for one transaction. |
| BatchBanner.Summarize | src/components/BatchTransactionBanner/index.jsx:19-55 | No summary exactly when the batches, the client id or the wallet's transactions are missing; otherwise their count, their distinct non-empty chain names, and the banner text built from them. |
| BatchBanner.ChainsComplete | src/components/BatchTransactionBanner/index.jsx:33-37 | Every named chain of the wallet's transactions is listed. |
| BatchBanner.TextExample | src/components/BatchTransactionBanner/index.jsx:38-52 | Two transactions on one chain read "2 transactions pending  on Tron. Tap to view details." (two spaces). |
| BatchBanner.ShowDetails | src/components/BatchTransactionBanner/index.jsx:78-86 | With no transactions the details view is closed. |
| SearchParams.Get | src/app/auth/login/page.jsx:69-82 | `get` finds a value exactly when the key occurs, and returns the first occurrence's value. |
| SearchParams.Drop | src/app/auth/login/page.jsx:69-82 | Exactly the pairs with other keys, never more pairs than before. |
| SearchParams.Decode | src/app/auth/login/page.jsx:69-75 | The form-urlencoded reading of a query string: every pair it yields can be written back without encoding, and there are no more pairs than characters. |
| SearchParams.Serialize | src/components/AppRouting/index.jsx:105-115 | `toString()`: the empty text exactly for the empty query. |
| SearchParams.SerializeRoundTrip | src/components/AppRouting/index.jsx:105-115 | The query text of clean pairs reads back as the same pairs. |
| SearchParams.SerializeAppend | src/components/AppRouting/index.jsx:105-115 | Query text extended by `&` and more text reads back as the pairs followed by the extra pairs. |
| LoginPage.Forwarded | src/app/auth/login/page.jsx:69-82 | The forwarded text is empty exactly when no pair other than `redirectRoute` exists. |
| LoginPage.QueryString | src/app/auth/login/page.jsx:70-75 | The forwarded query text is empty exactly when no pair other than `redirectRoute` exists. |
| LoginPage.Base | src/app/auth/login/page.jsx:69-82 | The `redirectRoute` value when present and non-empty, and `/home` exactly otherwise. |
| LoginPage.RedirectTarget | src/app/auth/login/page.jsx:69-82 | The target page, followed by `?` and the forwarded query when there is one. |
| LoginPage.OnClickLogin | src/app/auth/login/page.jsx:61-116 | Navigates exactly when the typed password is the stored one. |
| LoginPage.LoggedIn | src/app/auth/login/page.jsx:63-86 | Logs in first. It resets the attempts exactly under the rate limit and refreshes coins exactly when there are wallets. It goes to the target page, or to wallet reset without wallets, and shows no warning. |
| LoginPage.Refused | src/app/auth/login/page.jsx:87-115 | Marks the field wrong and ends loading last. Attempts are counted exactly under the rate limit. The last-attempt modal, the wallet-deleted toast and the attempts-left toast each show exactly in their case. |
| LoginPage.ForwardedRoundTrip | src/app/auth/login/page.jsx:69-82 | The forwarded query reads back as exactly the pairs other than `redirectRoute`, in order. |
| LoginPage.LoginForwardsQuery | src/app/auth/login/page.jsx:63-86 | After a correct password the user lands on the requested page (or `/home`), and every other parameter reaches it. |
| LoginPage.RepeatedKeyRepeatsFirstValue | src/app/auth/login/page.jsx:71-80 | A repeated key is forwarded twice, both times with its first value. |
| AuthErrorPage.RedirectPath | src/app/auth/error/page.jsx:14-26 | A missing or empty callback goes to login. A value starting with `http` keeps only its path and query, or goes to login when it does not parse. Anything else, `//host` included, is used as it is. |
| AuthErrorPage.ErrorPage | src/app/auth/error/page.jsx:30-53 | Redirects exactly when there is no error. The card's back button uses the same path, and the "Callback" error is shown as the Google sign-in problem. |
| AuthErrorPage.RedirectSettles | src/app/auth/error/page.jsx:14-26 | For a callback that is missing, relative, or an `http:`/`https:` URL, the chosen path is a fixed point: feeding it back as the callback leads to the same place. |
| AuthErrorPage.OpaquePathDoesNotSettle | src/app/auth/error/page.jsx:14-26 | The fixed point needs the `http:`/`https:` condition. Take a parser that gives `httpx:http` the opaque path `http` and rejects `http`. Then the page redirects to `http`, and fed back, `http` leads to login. |
| AppRouting.SearchString | src/components/AppRouting/index.jsx:105-115 | The page's query text, ending in `redirectRoute=<pathname>` exactly on a protected page. |
| AppRouting.LastAidIndex | src/components/AppRouting/index.jsx:116-120 | The position of the last key that lower-cases to `aid`, none exactly when no key does. |
| AppRouting.StoredAid | src/components/AppRouting/index.jsx:116-120 | Without an `aid` key (in any letter case) the stored id is unchanged. Otherwise it is the `get` value of the last such key. |
| AppRouting.Redirect | src/components/AppRouting/index.jsx:151-169 | No redirect exactly on a public page, or on registration without a password. Otherwise the target is login with a password and `/` without one, followed by `?` and the query when the query is not empty. |
| AppRouting.StoreLoadedEffect | src/components/AppRouting/index.jsx:101-173 | Nothing happens before the store loads; afterwards the query text, the affiliate id and the redirect above are applied together. |
| AppRouting.SearchStringReadsBack | src/components/AppRouting/index.jsx:105-115 | The query text reads back as the page's own pairs, followed by the `redirectRoute` tag exactly on a protected page. |
| AppRouting.AidAnyCase | src/components/AppRouting/index.jsx:116-120 | `AID=x` stores `x`. |
| AppRouting.LastAidWins | src/components/AppRouting/index.jsx:116-120 | Each `aid` key overwrites the stored id, so the last one wins. |
| AppRouting.RoutedToLogin | src/components/AppRouting/index.jsx:105-169 | A signed-out visitor with a password on a protected page is sent to login with the query tagged by the page. |
| AppRouting.TaggedQuery | src/components/AppRouting/index.jsx:105-115 | The login screen reads the tag as the page to return to, and sees the page's own pairs as the rest. |
| AppRouting.RoutingThenLogin | src/components/AppRouting/index.jsx:101-173 | Routing and login compose: after a correct password the visitor returns to the protected page with exactly its own query. |

## Left out

- Percent-encoding and decoding of query strings are not modelled. The query lemmas assume keys without `=` or `&` and values without `&`.
- `src/utils/common.js` is not part of this model. Its `publicRoutes`, `allPublicRoutes` and `masterClickHost` are parameters, and the master host is taken as a list of hosts.
- The app shell's timers, intervals and other dispatch glue (RPC URL fetch, WalletConnect set-up, balance refresh) are not modelled.
- The reorder helper `moveItem` is outside the core; it is modelled as remove-then-insert.
- Drag indices while a search filter is active are not modelled; the drag model uses indices into the full list.
- Floating-point display conversions (`satoshiToBtc`, balance parsing, `convertToSmallAmount`) are left out because the model has no floating point.
- `getLightningBalance`, the invoice and receive-address generators and `prepareLightning` are left out. They are thin SDK calls or float conversions.
- The second service file's `getLightningTransactions` is left out. The model covers the first file's version.
- DriveBackup.ParseContent: the exact text of the SyntaxError thrown by `JSON.parse` is abstracted to one constant.
- BackupPage.InitSelection: a selection set to a value that is not an array is carried as that JSON value; what the page later does with it (reading `.length` of a number or object) is not modelled.
- BackupMerge.Matches: every object or array field is taken to be its own reference. The same object shared by two entries of one payload, which `JSON.parse` never produces, is not modelled.
- PageCommon.Ids: an undefined and a `null` clientId are not distinguished; both read as `null`.
- BackupMerge.Fields: a stored string or array entry that matches contributes no fields to the merged wallet. The source's spread would also copy its characters or items under index keys.
- BackupMerge.Merge: the record merge takes every stored entry as an object; stored entries of other types are handled by BackupMerge.MergeStored, which the backup uses.
- BackupEnvelope.Decrypt: that a wrong password makes AES-GCM fail is a property of the cipher, not of this code; the model takes the open's result as a parameter.
- AuthErrorPage.ErrorPage: the card's fallback text for a falsy error is unreachable, since the card only renders for a truthy error.
- AppRouting.StoreLoadedEffect: `searchParams` is assumed present and the pathname a string.
- Modal, toast and page rendering are out of scope; only their triggers and texts are modelled.
- Concurrency between several tabs and the real timing of the caller's poll `interval` are not modelled. The poll is a sequence of ticks and the event waiter a sequence of timed events.
- LightningConfirm.WaitForPolledConfirmation: the ticks are taken one at a time, each reply arriving before the next tick starts. When `getPayment` is slower than the interval, the source's ticks overlap: each raises the counter before its await, so the reply that sees `retries` can be skipped, and replies that arrive after the promise settled are ignored. That interleaving is not modelled.
- WalletsPage.Filter: letter case is folded for ASCII letters only. JavaScript's `toLowerCase` also folds other letters (`É` to `é`), so a search that differs from a name only in such letters matches in the source but not here.
- WalletsPage.NameMatches: the same ASCII-only case folding as WalletsPage.Filter.
- SearchParams.Decode: `+` is not read as a space, because form-urlencoded decoding as a whole (with percent-decoding) is left out.
- HTTP response bodies are taken to be JSON. A body that does not parse is not modelled; the key fetch's error path would read it as `{}`, and the other calls would throw a SyntaxError.
