/** The password screen: what one press of "Log in" dispatches, where it navigates
    and which warning it shows, and the query string it forwards to the page the
    user was originally sent away from. Redux actions are recorded by name; their
    reducers live outside this model. */
module LoginPage {
  import opened Wrappers
  import opened Text
  import opened SearchParams

  const RedirectKey := "redirectRoute"
  const Home := "/home"
  const ResetWallet := "/auth/reset-wallet"
  const WalletDeleted := "Wallet Deleted"
  const TooManyFailures := "Too many failed login attempts"
  const InvalidPassword := "Invalid password"
  const AttemptsLeft := " Attempts left"

  /** The store slices the screen reads. `walletCount` is `allWallets?.length`
      (None while the wallet list is undefined). */
  datatype LoginState = LoginState(
    storePassword: Option<string>,
    walletCount: Option<nat>,
    rateLimit: bool,
    failures: nat,
    maxAttempt: int,
    locked: bool)

  /** Redux actions dispatched by the screen. */
  datatype Action = LogInSuccess(password: string) | ResetAttempts | RefreshCoins | HandleAttempts | LoadingOff

  /** A warning toast (every toast of this screen is of the warning type). */
  datatype Toast = Toast(title: string, message: string)

  /** Everything one press causes: dispatched actions in order, the `router.replace`
      target, whether the last-attempt modal opens, the toast, and the `wrong` flag. */
  datatype Outcome = Outcome(actions: seq<Action>, navigate: Option<string>, lastAttempt: bool,
                             toast: Option<Toast>, wrong: bool)

  /** `allWallets?.length !== 0`: an undefined list counts as having wallets. */
  predicate HasWallet(walletCount: Option<nat>) {
    walletCount != Some(0)
  }

  /** `${value}` of what `get` returned: a missing value prints as `null`. */
  function ValueText(o: Option<string>): string {
    if o.Some? then o.value else "null"
  }

  /** The loop over `searchParams.keys()`: `key=value&` for every pair of `rest`
      whose key is not `redirectRoute`, where the value is what `get(key)` returns
      on the whole query `all`. */
  function Forwarded(all: Query, rest: Query): (r: string)
    ensures r == "" <==> Drop(rest, RedirectKey) == []
  {
    if rest == [] then ""
    else
      var tail := Forwarded(all, rest[1..]);
      if rest[0].key == RedirectKey then tail
      else
        var r := rest[0].key + "=" + ValueText(Get(all, rest[0].key)) + "&" + tail;
        assert r[|rest[0].key|] == '=';
        r
  }

  /** The query text appended to the login target. */
  function QueryString(q: Query): (r: string)
    ensures r == "" <==> Drop(q, RedirectKey) == []
  {
    Forwarded(q, q)
  }

  /** The page the login press returns to: the `redirectRoute` parameter when it is
      present and non-empty, otherwise `/home`. */
  function Base(q: Query): (r: string)
    ensures r == Home || Get(q, RedirectKey) == Some(r)
    ensures Get(q, RedirectKey).Some? && Get(q, RedirectKey).value != "" ==> r == Get(q, RedirectKey).value
    ensures Get(q, RedirectKey).None? || Get(q, RedirectKey) == Some("") ==> r == Home
    ensures r != ""
  {
    var route := Get(q, RedirectKey);
    if route.Some? && route.value != "" then route.value else Home
  }

  /** The `router.replace` target on a successful login with wallets. */
  function RedirectTarget(q: Query): (r: string)
    ensures StartsWith(r, Base(q))
    ensures QueryString(q) == "" ==> r == Base(q)
    ensures QueryString(q) != "" ==> r == Base(q) + "?" + QueryString(q)
  {
    var qs := QueryString(q);
    var suffix := if qs != "" then "?" + qs else "";
    assert (Base(q) + suffix)[..|Base(q)|] == Base(q);
    Base(q) + suffix
  }

  /** `onClickLogin` for the typed password. */
  function OnClickLogin(st: LoginState, password: string, q: Query): (r: Outcome)
    ensures r.navigate.Some? <==> st.storePassword == Some(password)
    ensures st.storePassword == Some(password) ==> r == LoggedIn(st, password, q)
    ensures st.storePassword != Some(password) ==> r == Refused(st)
  {
    if st.storePassword == Some(password) then LoggedIn(st, password, q) else Refused(st)
  }

  /** The correct-password branch: log in, reset attempts only under the rate
      limit, and leave for the requested page, or for wallet reset without wallets. */
  function LoggedIn(st: LoginState, password: string, q: Query): (r: Outcome)
    ensures |r.actions| >= 1 && r.actions[0] == LogInSuccess(password)
    ensures ResetAttempts in r.actions <==> st.rateLimit
    ensures RefreshCoins in r.actions <==> HasWallet(st.walletCount)
    ensures r.navigate == Some(if HasWallet(st.walletCount) then RedirectTarget(q) else ResetWallet)
    ensures !r.wrong && !r.lastAttempt && r.toast.None?
    ensures HandleAttempts !in r.actions && LoadingOff !in r.actions
  {
    var actions :=
      if st.rateLimit && HasWallet(st.walletCount) then [LogInSuccess(password), ResetAttempts, RefreshCoins]
      else if st.rateLimit then [LogInSuccess(password), ResetAttempts]
      else if HasWallet(st.walletCount) then [LogInSuccess(password), RefreshCoins]
      else [LogInSuccess(password)];
    Outcome(actions, Some(if HasWallet(st.walletCount) then RedirectTarget(q) else ResetWallet), false, None, false)
  }

  /** The wrong-password branch: the field is marked, loading ends last, the
      attempt is counted under the rate limit, and the warning depends on how many
      attempts are left. */
  function Refused(st: LoginState): (r: Outcome)
    ensures r.navigate.None? && r.wrong
    ensures |r.actions| >= 1 && r.actions[|r.actions| - 1] == LoadingOff
    ensures HandleAttempts in r.actions <==> st.rateLimit
    ensures forall a :: a in r.actions ==> a == HandleAttempts || a == LoadingOff
    ensures r.lastAttempt <==> st.rateLimit && st.maxAttempt - st.failures == 1
    ensures (r.toast == Some(Toast(WalletDeleted, TooManyFailures)))
              <==> (st.rateLimit && st.maxAttempt - st.failures <= 0 && st.locked)
    ensures (r.toast == Some(Toast(InvalidPassword, IntToString(st.maxAttempt - st.failures) + AttemptsLeft)))
              <==> (st.rateLimit && st.maxAttempt - st.failures != 1 && !(st.maxAttempt - st.failures <= 0 && st.locked))
    ensures !st.rateLimit ==> r.toast.None?
  {
    if st.rateLimit then
      var left := st.maxAttempt - st.failures;
      if left == 1 then
        Outcome([HandleAttempts, LoadingOff], None, true, None, true)
      else if left <= 0 && st.locked then
        Outcome([HandleAttempts, LoadingOff], None, false, Some(Toast(WalletDeleted, TooManyFailures)), true)
      else
        Outcome([LoadingOff, HandleAttempts, LoadingOff], None, false,
                Some(Toast(InvalidPassword, IntToString(left) + AttemptsLeft)), true)
    else
      Outcome([LoadingOff], None, false, None, true)
  }

  /** Forwarding the query: reading the forwarded text back gives exactly the pairs
      other than `redirectRoute`, in order (keys unique, nothing to percent-encode). */
  lemma {:induction false} ForwardedRoundTrip(all: Query, n: nat)
    requires Clean(all) && UniqueKeys(all) && n <= |all|
    ensures Decode(Forwarded(all, all[n..])) == Drop(all[n..], RedirectKey)
    decreases |all| - n
  {
    if n < |all| {
      var rest := all[n..];
      assert rest[1..] == all[n + 1..];
      ForwardedRoundTrip(all, n + 1);
      if rest[0].key != RedirectKey {
        GetUnique(all, n);
        DecodeCons(all[n].key, all[n].value, Forwarded(all, all[n + 1..]));
      }
    }
  }

  /** After a correct password, the user lands on the requested page (or `/home`)
      and every other parameter of the login URL reaches it. */
  lemma LoginForwardsQuery(st: LoginState, password: string, q: Query)
    requires st.storePassword == Some(password) && HasWallet(st.walletCount)
    requires Clean(q) && UniqueKeys(q)
    ensures var t := OnClickLogin(st, password, q).navigate.value;
            && StartsWith(t, Base(q))
            && (Drop(q, RedirectKey) == [] ==> t == Base(q))
            && (Drop(q, RedirectKey) != [] ==>
                  |t| > |Base(q)| && t[|Base(q)|] == '?' && Decode(t[|Base(q)| + 1..]) == Drop(q, RedirectKey))
  {
    ForwardedRoundTrip(q, 0);
    assert q[0..] == q;
    var t := RedirectTarget(q);
    if QueryString(q) != "" {
      assert t[|Base(q)| + 1..] == QueryString(q);
    }
  }

  /** With a repeated key every occurrence is forwarded with the FIRST value, since
      the loop runs over all keys but reads each through `get`. */
  lemma RepeatedKeyRepeatsFirstValue()
    ensures QueryString([Param("a", "1"), Param("a", "2")]) == "a=1&a=1&"
  {
    var q := [Param("a", "1"), Param("a", "2")];
    assert q[1..][1..] == [];
    assert Get(q, "a") == Some("1");
  }
}
