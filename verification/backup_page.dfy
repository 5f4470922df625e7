/** The Drive backup page (`settings/backup/page.jsx`): which wallets are selected,
    the sign-in round trip through `sessionStorage`, the automatic backup after
    it, and the request handed to `backupWalletsToDrive`. */
module BackupPage {
  import opened Wrappers
  import opened Json
  import opened Primitives
  import opened PageCommon
  import DriveBackup

  const PendingKey := "backup_pending"
  const SelectionKey := "backup_selected_wallet_ids"
  const SkipLockKey := "skip_lock_screen"
  const SelectOne := "Please select at least one wallet to backup."
  const BackedUp := "Your wallets have been safely backed up to Google Drive."
  const UnexpectedError := "An unexpected error occurred during backup."

  type Storage = map<string, string>

  /** What the selection-initialising effect does to the selection state: nothing,
      a `setSelectedWalletIds` with the given value (whatever `JSON.parse` produced,
      array or not), or an uncaught `SyntaxError` out of `JSON.parse`. */
  datatype SelectionInit = Keep | SetTo(value: Json) | ParseThrows

  /** Selection initialisation: only once mounted, with wallets, while nothing is
      selected; saved ids (any non-empty text) win over "all wallets", and the saved
      text goes to `JSON.parse` unguarded. */
  function InitSelection(p: Suite, hasMounted: bool, wallets: seq<Record>, current: seq<Id>,
                         storage: Storage): (r: SelectionInit)
    ensures r.Keep? <==> !(hasMounted && |wallets| > 0 && |current| == 0)
    ensures hasMounted && |wallets| > 0 && |current| == 0 && (SelectionKey !in storage || storage[SelectionKey] == "") ==>
              r == SetTo(JArr(Ids(wallets)))
    ensures r.ParseThrows? <==> hasMounted && |wallets| > 0 && |current| == 0 && SelectionKey in storage
                                && storage[SelectionKey] != "" && p.parse(storage[SelectionKey]).None?
    ensures r.SetTo? && SelectionKey in storage && storage[SelectionKey] != "" ==>
              p.parse(storage[SelectionKey]) == Some(r.value)
  {
    if !(hasMounted && |wallets| > 0 && |current| == 0) then Keep
    else if SelectionKey in storage && storage[SelectionKey] != "" then
      match p.parse(storage[SelectionKey])
      case Some(v) => SetTo(v)
      case None => ParseThrows
    else SetTo(JArr(Ids(wallets)))
  }

  /** `handleLogin()` before the Google redirect. */
  function HandleLogin(p: Suite, storage: Storage, selected: seq<Id>): (r: Storage)
    ensures PendingKey in r && SkipLockKey in r && SelectionKey in r
    ensures r[PendingKey] == "true" && r[SkipLockKey] == "true"
    ensures r[SelectionKey] == p.stringify(JArr(selected))
    ensures forall k :: k in storage && k !in {PendingKey, SelectionKey, SkipLockKey} ==> k in r && r[k] == storage[k]
  {
    storage[SkipLockKey := "true"][PendingKey := "true"][SelectionKey := p.stringify(JArr(selected))]
  }

  datatype AutoStep = AutoStep(start: bool, storage: Storage)

  /** The automatic backup after the redirect: both flags are removed before it starts. */
  function AutoBackup(hasMounted: bool, authenticated: bool, storage: Storage, walletCount: nat,
                      selectedCount: nat): (r: AutoStep)
    ensures r.start <==> hasMounted && authenticated && PendingKey in storage && storage[PendingKey] == "true"
                         && walletCount > 0 && selectedCount > 0
    ensures r.start ==> r.storage == storage - {PendingKey, SelectionKey}
    ensures !r.start ==> r.storage == storage
  {
    if hasMounted && authenticated && PendingKey in storage && storage[PendingKey] == "true"
       && walletCount > 0 && selectedCount > 0
    then AutoStep(true, storage - {PendingKey, SelectionKey})
    else AutoStep(false, storage)
  }

  /** The sign-in detour keeps the user's choice: after the redirect the page
      selects exactly what was selected before, and the backup then starts once. */
  lemma SignInRoundTrip(p: Suite, storage: Storage, selected: seq<Id>, wallets: seq<Record>)
    requires Sound(p) && |wallets| > 0 && |selected| > 0
    ensures var saved := HandleLogin(p, storage, selected);
            var restored := InitSelection(p, true, wallets, [], saved);
            var auto := AutoBackup(true, true, saved, |wallets|, |selected|);
            restored == SetTo(JArr(selected)) && auto.start && PendingKey !in auto.storage
            && !AutoBackup(true, true, auto.storage, |wallets|, |selected|).start
  {
    var saved := HandleLogin(p, storage, selected);
    assert p.parse(saved[SelectionKey]) == Some(JArr(selected));
  }

  /** `isAllSelected` of this page also waits for the mount. */
  predicate AllSelectedMounted(hasMounted: bool, wallets: seq<Record>, selected: seq<Id>) {
    hasMounted && AllSelected(wallets, selected)
  }

  /** `toggleSelectAll` of this page. */
  function ToggleAllMounted(hasMounted: bool, wallets: seq<Record>, selected: seq<Id>): (r: seq<Id>)
    ensures AllSelectedMounted(hasMounted, wallets, selected) ==> r == []
    ensures !AllSelectedMounted(hasMounted, wallets, selected) ==> r == Ids(wallets)
    ensures hasMounted ==> r == ToggleAll(wallets, selected)
  {
    if AllSelectedMounted(hasMounted, wallets, selected) then [] else Ids(wallets)
  }

  datatype PressOutcome = ErrorToast(toast: Toast) | ShowWarningModal

  /** `handleBackupPress()` */
  function HandleBackupPress(selected: seq<Id>): (r: PressOutcome)
    ensures r.ShowWarningModal? <==> |selected| > 0
    ensures r.ErrorToast? ==> r.toast == Toast(Error, SelectOne)
  {
    if |selected| == 0 then ErrorToast(Toast(Error, SelectOne)) else ShowWarningModal
  }

  /** `v || fallback` */
  function Or(v: Option<Json>, fallback: Json): (r: Json)
    ensures Present(v) ==> r == v.value
    ensures !Present(v) ==> r == fallback
  {
    if Present(v) then v.value else fallback
  }

  /** `w?.coins?.[0]?.chain_name` */
  function FirstCoinChain(w: Record): Option<Json> {
    match Field(w, "coins")
    case Some(JArr(coins)) => if |coins| > 0 then Get(coins[0], "chain_name") else None
    case Some(JObj(coins)) => if "0" in coins then Get(coins["0"], "chain_name") else None
    case _ => None
  }

  const Empty: Json := JStr("")

  /** The fields every sent wallet carries. */
  const Defaulted: set<string> := {"coins", "clientId", "walletName", "phrase", "privateKey", "chain_name"}

  function Defaults(w: Record): (d: Record)
    ensures d.Keys == Defaulted
  {
    map[
      "coins" := Or(Field(w, "coins"), JArr([])),
      "clientId" := Or(Field(w, "clientId"), Empty),
      "walletName" := Or(Field(w, "walletName"), Empty),
      "phrase" := Or(Field(w, "phrase"), Empty),
      "privateKey" := Or(Field(w, "privateKey"), Empty),
      "chain_name" := Or(Field(w, "chain_name"), Or(FirstCoinChain(w), Empty))]
  }

  /** One wallet as it is sent: the record with its identity fields defaulted. */
  function Format(w: Record): (r: Record)
    ensures r.Keys == w.Keys + Defaulted
    ensures forall k :: k in w && k !in Defaulted ==> r[k] == w[k]
    ensures forall k :: k in {"clientId", "walletName", "phrase", "privateKey"} ==>
              r[k] == (if Present(Field(w, k)) then w[k] else Empty)
    ensures r["chain_name"] == (if Present(Field(w, "chain_name")) then w["chain_name"]
                                else if Present(FirstCoinChain(w)) then FirstCoinChain(w).value else Empty)
  {
    var d := Defaults(w);
    var r := Spread(w, d);
    assert forall k :: k in Defaulted ==> r[k] == d[k];
    r
  }

  function FormatAll(ws: seq<Record>): (r: seq<Record>)
    ensures |r| == |ws|
    ensures forall i :: 0 <= i < |ws| ==> r[i] == Format(ws[i])
  {
    seq(|ws|, i requires 0 <= i < |ws| => Format(ws[i]))
  }

  /** The payload of `startBackupProcess()`: only the selected wallets, in device order. */
  function BackupPayload(all: seq<Record>, selected: seq<Id>, masterClientId: Option<Json>): (r: DriveBackup.BackupRequest)
    ensures |r.wallets| == |SelectedIn(all, selected)|
    ensures forall i :: 0 <= i < |r.wallets| ==> r.wallets[i] == Format(SelectedIn(all, selected)[i])
    ensures r.masterClientId == Some(Or(masterClientId, Empty))
  {
    DriveBackup.BackupRequest(FormatAll(SelectedIn(all, selected)), Some(Or(masterClientId, Empty)))
  }

  /** A wallet without a chain name takes its first coin's. */
  lemma ChainFromFirstCoin(w: Record, chain: string)
    requires !Present(Field(w, "chain_name")) && chain != ""
    requires "coins" in w && w["coins"].JArr? && |w["coins"].items| > 0
    requires w["coins"].items[0] == JObj(map["chain_name" := JStr(chain)])
    ensures Format(w)["chain_name"] == JStr(chain)
  {
  }

  datatype BackupOutcome = BackupOutcome(toast: Toast, signInAgain: bool, backingUp: bool)

  /** How `startBackupProcess()` ends, given how `backupWalletsToDrive` settled. */
  function FinishBackup(outcome: Result<Json>): (r: BackupOutcome)
    ensures !r.backingUp
    ensures r.signInAgain <==> outcome.Err? && NeedsSignIn(outcome.message)
    ensures outcome.Ok? <==> r.toast == Toast(Success, BackedUp)
    ensures outcome.Err? && !NeedsSignIn(outcome.message) ==>
              r.toast == Toast(Error, if outcome.message != "" then outcome.message else UnexpectedError)
  {
    match outcome
    case Ok(_) => BackupOutcome(Toast(Success, BackedUp), false, false)
    case Err(message) =>
      if NeedsSignIn(message) then BackupOutcome(Toast(Error, message), true, false)
      else BackupOutcome(Toast(Error, if message != "" then message else UnexpectedError), false, false)
  }
}
