/** The Drive restore page (`settings/restore/page.jsx`): loading the backup,
    choosing wallets, and restoring the chosen ones that are not on the device yet. */
module RestorePage {
  import opened Wrappers
  import opened Text
  import opened Json
  import opened PageCommon

  const NoValidWallet := "No valid wallet found."
  const DownloadFailed := "Failed to download backup."
  const AllExist := "All selected wallets already exist on this device."
  const BatchFailed := "Batch restore process failed."
  /** The message of the TypeError thrown by `w.phrase` on a `null` entry. */
  const NullEntryError := "Cannot read properties of null (reading 'phrase')"

  /** A backed-up wallet that can be restored: it carries a phrase or a private key. */
  predicate Restorable(j: Json) {
    Present(Get(j, "phrase")) || Present(Get(j, "privateKey"))
  }

  function RestorableOf(items: seq<Json>): (r: seq<Record>)
    ensures |r| <= |items|
    ensures forall w :: w in r <==> JObj(w) in items && Restorable(JObj(w))
  {
    if items == [] then []
    else (if items[0].JObj? && Restorable(items[0]) then [items[0].fields] else []) + RestorableOf(items[1..])
  }

  datatype FetchOutcome =
    | Loaded(wallets: seq<Record>, selected: seq<Id>)
    | NothingValid                       // list cleared, warning toast
    | SignInAgain(toast: Toast)          // sign out, then sign in again
    | FetchFailed(toast: Toast)          // error kept and shown

  function Catch(message: string): (r: FetchOutcome)
    ensures NeedsSignIn(message) ==> r == SignInAgain(Toast(Error, message))
    ensures !NeedsSignIn(message) ==> r == FetchFailed(Toast(Error, if message != "" then message else DownloadFailed))
  {
    if NeedsSignIn(message) then SignInAgain(Toast(Error, message))
    else FetchFailed(Toast(Error, if message != "" then message else DownloadFailed))
  }

  /** `fetchBackup()`; `data` is what `restoreWalletsFromDrive` resolved to, or the
      message it threw. */
  function FetchBackup(data: Result<Json>): (r: FetchOutcome)
    ensures r.Loaded? ==> forall w :: w in r.wallets ==> Restorable(JObj(w))
    ensures r.Loaded? ==> r.selected == Ids(r.wallets)
    ensures r.Loaded? <==> data.Ok? && Truthy(data.value) && Present(Get(data.value, "wallets"))
                           && Get(data.value, "wallets").value.JArr? && JNull !in Get(data.value, "wallets").value.items
    ensures r.Loaded? ==> r.wallets == RestorableOf(Get(data.value, "wallets").value.items)
    ensures data.Ok? && !(Truthy(data.value) && Present(Get(data.value, "wallets")) && Get(data.value, "wallets").value.JArr?) ==>
              r == NothingValid
    ensures (&& data.Ok? && Truthy(data.value) && Present(Get(data.value, "wallets"))
             && Get(data.value, "wallets").value.JArr? && JNull in Get(data.value, "wallets").value.items)
            ==> r == Catch(NullEntryError)
    ensures data.Err? ==> r == Catch(data.message)
  {
    match data
    case Err(message) => Catch(message)
    case Ok(doc) =>
      if !Truthy(doc) || !Present(Get(doc, "wallets")) || !Get(doc, "wallets").value.JArr? then NothingValid
      else
        var items := Get(doc, "wallets").value.items;
        if JNull in items then Catch(NullEntryError)
        else
          var ws := RestorableOf(items);
          Loaded(ws, Ids(ws))
  }

  /** An envelope with no wallet array loads nothing and warns. */
  lemma EmptyBackupWarns()
    ensures FetchBackup(Ok(JObj(map[]))) == NothingValid
    ensures FetchBackup(Ok(JNull)) == NothingValid
  {
  }

  /** Partition of the selected wallets into those to restore and duplicates. */
  datatype Plan = Plan(toRestore: seq<Record>, duplicates: nat)

  /** `existingWallets.some(e => e.clientId === wallet.clientId)` */
  predicate Exists(existing: seq<Record>, w: Record)
  {
    exists e :: e in existing && ClientId(e) == ClientId(w)
  }

  /** A duplicate is exactly a wallet whose clientId is among the device wallets' ids. */
  lemma ExistsById(existing: seq<Record>, w: Record)
    ensures Exists(existing, w) <==> ClientId(w) in Ids(existing)
  {
    if ClientId(w) in Ids(existing) {
      var i :| 0 <= i < |existing| && Ids(existing)[i] == ClientId(w);
      assert existing[i] in existing;
    }
  }

  const FromBackupFlag: Record := map["isFromBackup" := JBool(true)]

  /** How many of `selected` are already on the device, counted front to back. */
  function DuplicateCount(selected: seq<Record>, existing: seq<Record>): nat {
    if selected == [] then 0
    else (if Exists(existing, selected[0]) then 1 else 0) + DuplicateCount(selected[1..], existing)
  }

  /** The wallets of `selected` not on the device, flagged, in their order. */
  function NewWallets(selected: seq<Record>, existing: seq<Record>): seq<Record> {
    if selected == [] then []
    else (if Exists(existing, selected[0]) then [] else [Spread(selected[0], FromBackupFlag)]) + NewWallets(selected[1..], existing)
  }

  /** Both front-to-back readings extend by the last wallet as the loop does. */
  lemma {:induction false} SnocCounts(selected: seq<Record>, w: Record, existing: seq<Record>)
    ensures DuplicateCount(selected + [w], existing) == DuplicateCount(selected, existing) + (if Exists(existing, w) then 1 else 0)
    ensures NewWallets(selected + [w], existing)
            == NewWallets(selected, existing) + (if Exists(existing, w) then [] else [Spread(w, FromBackupFlag)])
    decreases |selected|
  {
    if selected == [] {
      assert [w][1..] == [];
    } else {
      assert (selected + [w])[1..] == selected[1..] + [w];
      SnocCounts(selected[1..], w, existing);
    }
  }

  /** The flagged new wallets are exactly the flagged copies of the selected wallets
      that are not on the device. */
  lemma {:induction false} NewWalletsMembers(selected: seq<Record>, existing: seq<Record>)
    ensures forall r :: r in NewWallets(selected, existing) ==>
              exists w :: w in selected && !Exists(existing, w) && r == Spread(w, FromBackupFlag)
    ensures forall w :: w in selected && !Exists(existing, w) ==> Spread(w, FromBackupFlag) in NewWallets(selected, existing)
  {
    if selected != [] {
      NewWalletsMembers(selected[1..], existing);
      assert selected == [selected[0]] + selected[1..];
    }
  }

  /** The `for … of selectedWallets` loop: each wallet already on the device (same
      clientId) counts as a duplicate, every other one is restored once, flagged,
      in selection order. */
  function Partition(selected: seq<Record>, existing: seq<Record>): (p: Plan)
    ensures |p.toRestore| + p.duplicates == |selected|
    ensures p.duplicates == DuplicateCount(selected, existing)
    ensures p.toRestore == NewWallets(selected, existing)
    ensures forall r :: r in p.toRestore ==> exists w :: w in selected && !Exists(existing, w) && r == Spread(w, FromBackupFlag)
    ensures forall w :: w in selected && !Exists(existing, w) ==> Spread(w, FromBackupFlag) in p.toRestore
  {
    if selected == [] then Plan([], 0)
    else
      var init := selected[..|selected| - 1];
      var rest := Partition(init, existing);
      var w := selected[|selected| - 1];
      SnocCounts(init, w, existing);
      assert init + [w] == selected;
      NewWalletsMembers(selected, existing);
      if Exists(existing, w) then Plan(rest.toRestore, rest.duplicates + 1)
      else Plan(rest.toRestore + [Spread(w, FromBackupFlag)], rest.duplicates)
  }

  /** No wallet already on the device is restored again. */
  lemma NoDuplicateRestored(selected: seq<Record>, existing: seq<Record>)
    ensures forall r :: r in Partition(selected, existing).toRestore ==>
              r["isFromBackup"] == JBool(true) && !Exists(existing, r)
  {
    var p := Partition(selected, existing);
    forall r | r in p.toRestore
      ensures r["isFromBackup"] == JBool(true) && !Exists(existing, r)
    {
      var w :| w in selected && !Exists(existing, w) && r == Spread(w, FromBackupFlag);
      assert ClientId(r) == ClientId(w);
    }
  }

  /** What `createWalletsBatch` reported: the lengths of `newWallets` and `failedWallets`. */
  datatype BatchReport = BatchReport(created: nat, failed: nat)

  datatype PressOutcome = PressOutcome(batch: Option<seq<Record>>, toast: Option<Toast>, openSettings: bool)

  /** `handleRestorePress()`; `report` is the batch result, or the message it threw. */
  function HandleRestorePress(restorable: seq<Record>, selectedIds: seq<Id>, existing: seq<Record>,
                              report: Result<BatchReport>): (r: PressOutcome)
    ensures selectedIds == [] ==> r == PressOutcome(None, None, false)
    ensures r.batch.Some? ==> selectedIds != [] && r.batch.value == Partition(SelectedIn(restorable, selectedIds), existing).toRestore && r.batch.value != []
    ensures r.openSettings ==> r.batch.Some? && report.Ok? && report.value.created > 0
    ensures r.toast == Some(Toast(Warning, AllExist)) <==>
              selectedIds != [] && var p := Partition(SelectedIn(restorable, selectedIds), existing);
              p.toRestore == [] && p.duplicates > 0
    ensures selectedIds != [] && Partition(SelectedIn(restorable, selectedIds), existing).toRestore != [] ==>
              r.batch == Some(Partition(SelectedIn(restorable, selectedIds), existing).toRestore)
    ensures r.batch.None? ==> !r.openSettings && (r.toast.None? || r.toast == Some(Toast(Warning, AllExist)))
    ensures r.batch.Some? && report.Ok? && report.value.created > 0 ==>
              r.openSettings && r.toast == Some(Toast(Success, "Restored " + NatToString(report.value.created) + " wallets."))
    ensures r.batch.Some? && report.Ok? && report.value.created == 0 && report.value.failed > 0 ==>
              !r.openSettings && r.toast == Some(Toast(Error, "Failed to restore " + NatToString(report.value.failed) + " wallets."))
    ensures r.batch.Some? && report == Ok(BatchReport(0, 0)) ==> !r.openSettings && r.toast.None?
    ensures r.batch.Some? && report.Err? ==>
              !r.openSettings && r.toast == Some(Toast(Error, if report.message != "" then report.message else BatchFailed))
  {
    if selectedIds == [] then PressOutcome(None, None, false)
    else
      var plan := Partition(SelectedIn(restorable, selectedIds), existing);
      if plan.toRestore != [] then
        var batch := Some(plan.toRestore);
        match report
        case Ok(BatchReport(created, failed)) =>
          if created > 0 then PressOutcome(batch, Some(Toast(Success, "Restored " + NatToString(created) + " wallets.")), true)
          else if failed > 0 then PressOutcome(batch, Some(Toast(Error, "Failed to restore " + NatToString(failed) + " wallets.")), false)
          else PressOutcome(batch, None, false)
        case Err(message) =>
          PressOutcome(batch, Some(Toast(Error, if message != "" then message else BatchFailed)), false)
      else if plan.duplicates > 0 then PressOutcome(None, Some(Toast(Warning, AllExist)), false)
      else PressOutcome(None, None, false)
  }
}
