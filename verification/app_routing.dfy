/** The app shell's set-up effect once the persisted store has loaded: the query
    text it builds (tagging protected pages with `redirectRoute`), the affiliate id
    it stores from any `aid` parameter, and where it sends a visitor who is not
    signed in. The route lists and master hosts live in a settings file outside
    this model, so they are parameters; so is the browser's hostname. */
module AppRouting {
  import opened Wrappers
  import opened Text
  import opened SearchParams
  import LoginPage

  const Root := "/"
  const AuthSegment := "/auth"
  const Registration := "/auth/registration"
  const LoginPath := "/auth/login"
  const AidKey := "aid"

  datatype Routes = Routes(publicRoutes: seq<string>, allPublicRoutes: seq<string>, masterHosts: seq<string>)

  /** What the effect does: nothing before the store is loaded; afterwards the
      stored affiliate id, the query text built, and the `routing.replace` target
      (None when the routing is done without leaving the page). */
  datatype Setup = NotLoaded | Loaded(aid: Option<string>, searchString: string, redirect: Option<string>)

  /** A page whose address is remembered for after sign-in. */
  predicate Protected(pathname: string, routes: Routes) {
    !Contains(pathname, AuthSegment) && pathname != Root && pathname !in routes.publicRoutes
  }

  /** A page anyone may stay on without signing in. */
  predicate Public(pathname: string, routes: Routes, hostname: string) {
    pathname in routes.allPublicRoutes
    || (pathname in routes.publicRoutes && hostname in routes.masterHosts)
  }

  /** `searchParams.toString()`, extended by `redirectRoute=<pathname>` on a protected page. */
  function SearchString(pathname: string, q: Query, routes: Routes): (r: string)
    ensures !Protected(pathname, routes) ==> r == Serialize(q)
    ensures Protected(pathname, routes) ==> TakeLast(r, |LoginPage.RedirectKey| + 1 + |pathname|) == LoginPage.RedirectKey + "=" + pathname
  {
    var s := Serialize(q);
    var tag := LoginPage.RedirectKey + "=" + pathname;
    if Protected(pathname, routes) then
      var r := if s != "" then s + "&" + tag else tag;
      assert r[|r| - |tag|..] == tag;
      r
    else s
  }

  /** `key?.toLowerCase() === 'aid'`. */
  predicate IsAidKey(key: string) {
    Lower(key) == AidKey
  }

  /** The position of the last `aid` key (in any letter case), if there is one. */
  function LastAidIndex(rest: Query): (k: Option<nat>)
    ensures k.None? <==> forall i :: 0 <= i < |rest| ==> !IsAidKey(rest[i].key)
    ensures k.Some? ==> k.value < |rest| && IsAidKey(rest[k.value].key)
                        && forall j :: k.value < j < |rest| ==> !IsAidKey(rest[j].key)
    decreases |rest|
  {
    if rest == [] then None
    else if IsAidKey(rest[|rest| - 1].key) then Some(|rest| - 1)
    else
      var k := LastAidIndex(rest[..|rest| - 1]);
      assert forall i :: 0 <= i < |rest| - 1 ==> rest[..|rest| - 1][i] == rest[i];
      k
  }

  /** The loop over the keys: every `aid` key, in any letter case, writes what
      `get(key)` returns over the stored id; the last one wins. */
  function StoredAid(prior: Option<string>, all: Query, rest: Query): (r: Option<string>)
    ensures (forall i :: 0 <= i < |rest| ==> !IsAidKey(rest[i].key)) ==> r == prior
    ensures r != prior ==> exists i :: 0 <= i < |rest| && IsAidKey(rest[i].key) && r == Get(all, rest[i].key)
    ensures LastAidIndex(rest).Some? ==> r == Get(all, rest[LastAidIndex(rest).value].key)
    decreases |rest|
  {
    if rest == [] then prior
    else
      var last := rest[|rest| - 1];
      if IsAidKey(last.key) then Get(all, last.key)
      else
        var r := StoredAid(prior, all, rest[..|rest| - 1]);
        assert forall i :: 0 <= i < |rest| - 1 ==> rest[..|rest| - 1][i] == rest[i];
        r
  }

  /** Where a visitor is sent: nowhere on a public page; to the start page (with
      the query) without a password, unless already registering; to the login
      screen (with the query) with one. */
  function Redirect(pathname: string, password: Option<string>, routes: Routes, hostname: string, search: string)
    : (r: Option<string>)
    ensures r.None? <==> Public(pathname, routes, hostname)
                         || ((password.None? || password == Some("")) && pathname == Registration)
    ensures r.Some? && password.Some? && password.value != "" ==>
              r.value == LoginPath + (if search != "" then "?" + search else "")
    ensures r.Some? && (password.None? || password == Some("")) ==>
              r.value == Root + (if search != "" then "?" + search else "")
  {
    if Public(pathname, routes, hostname) then None
    else if password.None? || password == Some("") then
      if pathname != Registration then Some(if search != "" then "/?" + search else Root) else None
    else Some(if search != "" then LoginPath + "?" + search else LoginPath)
  }

  /** The store-loaded effect. */
  function StoreLoadedEffect(loaded: bool, pathname: string, q: Query, password: Option<string>,
                             routes: Routes, hostname: string, priorAid: Option<string>): (r: Setup)
    ensures r.Loaded? <==> loaded
    ensures r.Loaded? ==> r.searchString == SearchString(pathname, q, routes)
                          && r.aid == StoredAid(priorAid, q, q)
                          && r.redirect == Redirect(pathname, password, routes, hostname, r.searchString)
  {
    if !loaded then NotLoaded
    else
      var search := SearchString(pathname, q, routes);
      Loaded(StoredAid(priorAid, q, q), search, Redirect(pathname, password, routes, hostname, search))
  }

  /** The query text the effect builds reads back as the page's own parameters,
      followed by `redirectRoute=<pathname>` exactly when the page is protected. */
  lemma SearchStringReadsBack(pathname: string, q: Query, routes: Routes)
    requires Clean(q) && CleanValue(pathname)
    ensures Decode(SearchString(pathname, q, routes))
              == q + (if Protected(pathname, routes) then [Param(LoginPage.RedirectKey, pathname)] else [])
  {
    var tag := LoginPage.RedirectKey + "=" + pathname;
    if Protected(pathname, routes) {
      assert CleanKey(LoginPage.RedirectKey);
      DecodeLast(LoginPage.RedirectKey, pathname);
      if q != [] {
        SerializeAppend(q, tag);
        assert SearchString(pathname, q, routes) == Serialize(q) + "&" + tag;
      } else {
        assert SearchString(pathname, q, routes) == tag;
      }
    } else {
      SerializeRoundTrip(q);
    }
  }

  /** The `aid` key is matched in any letter case: a lone `AID=x` stores `x`. */
  lemma AidAnyCase(prior: Option<string>, v: string)
    ensures StoredAid(prior, [Param("AID", v)], [Param("AID", v)]) == Some(v)
  {
    assert Lower("AID") == "aid";
  }

  /** Each `aid` key overwrites the stored id, whatever was stored before: the
      later of two keys wins. */
  lemma LastAidWins(prior: Option<string>, a: string, b: string)
    ensures StoredAid(prior, [Param("aid", a), Param("Aid", b)], [Param("aid", a), Param("Aid", b)]) == Some(b)
  {
    assert Lower("Aid") == "aid";
  }

  /** A signed-out visitor to a protected page is sent to the login screen, and a
      correct password there brings them back to that page with its own query. */
  lemma RoutingThenLogin(pathname: string, q: Query, password: string, routes: Routes, hostname: string,
                         priorAid: Option<string>, st: LoginPage.LoginState)
    requires Protected(pathname, routes) && pathname !in routes.allPublicRoutes
    requires password != "" && CleanValue(pathname) && pathname != ""
    requires Clean(q) && UniqueKeys(q) && forall i :: 0 <= i < |q| ==> q[i].key != LoginPage.RedirectKey
    requires st.storePassword == Some(password) && LoginPage.HasWallet(st.walletCount)
    ensures var setup := StoreLoadedEffect(true, pathname, q, Some(password), routes, hostname, priorAid);
            && setup.redirect == Some(LoginPath + "?" + setup.searchString)
            && var t := LoginPage.OnClickLogin(st, password, Decode(setup.searchString)).navigate.value;
               && StartsWith(t, pathname)
               && (q == [] ==> t == pathname)
               && (q != [] ==> |t| > |pathname| && t[|pathname|] == '?' && Decode(t[|pathname| + 1..]) == q)
  {
    var lq := q + [Param(LoginPage.RedirectKey, pathname)];
    RoutedToLogin(pathname, q, password, routes, hostname, priorAid);
    TaggedQuery(pathname, q);
    LoginPage.LoginForwardsQuery(st, password, lq);
  }

  /** The first half: the visitor is sent to the login screen with the page's
      query tagged by its own address. */
  lemma RoutedToLogin(pathname: string, q: Query, password: string, routes: Routes, hostname: string,
                      priorAid: Option<string>)
    requires Protected(pathname, routes) && pathname !in routes.allPublicRoutes
    requires password != "" && CleanValue(pathname) && Clean(q)
    ensures var setup := StoreLoadedEffect(true, pathname, q, Some(password), routes, hostname, priorAid);
            && setup.redirect == Some(LoginPath + "?" + setup.searchString)
            && Decode(setup.searchString) == q + [Param(LoginPage.RedirectKey, pathname)]
  {
    var search := SearchString(pathname, q, routes);
    assert search != "" by {
      assert |TakeLast(search, |LoginPage.RedirectKey| + 1 + |pathname|)| > 0;
    }
    SearchStringReadsBack(pathname, q, routes);
  }

  /** The login screen's view of the tagged query: the tag names the page, and the
      other pairs are the page's own. */
  lemma TaggedQuery(pathname: string, q: Query)
    requires CleanValue(pathname) && pathname != ""
    requires Clean(q) && UniqueKeys(q) && forall i :: 0 <= i < |q| ==> q[i].key != LoginPage.RedirectKey
    ensures var lq := q + [Param(LoginPage.RedirectKey, pathname)];
            && Clean(lq) && UniqueKeys(lq)
            && LoginPage.Base(lq) == pathname
            && Drop(lq, LoginPage.RedirectKey) == q
  {
    var tag := Param(LoginPage.RedirectKey, pathname);
    var lq := q + [tag];
    assert forall i :: 0 <= i < |q| ==> lq[i] == q[i];
    assert lq[|q|] == tag;
    assert CleanKey(LoginPage.RedirectKey);
    GetUnique(lq, |q|);
    DropAppend(q, [tag], LoginPage.RedirectKey);
    DropAbsent(q, LoginPage.RedirectKey);
    assert [tag][1..] == [];
  }
}
