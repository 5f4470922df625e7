/** The sign-in error page: where it sends the user and which message it shows.
    A `callbackUrl` that starts with `http` is cut down to its path and query (which
    may itself start with `//`); any other, `//host` included, is passed through as
    written, so the result is not confined to this origin. URL parsing
    is a parameter: it returns the pathname and search of an absolute URL, or None
    where `new URL` throws. */
module AuthErrorPage {
  import opened Wrappers
  import opened Text

  const LoginPath := "/auth/login"
  const CallbackError := "Callback"
  const GoogleProblem := "There was a problem signing in with Google. Please try again."

  /** What `new URL(u)` yields: `pathname` and `search`. */
  datatype Url = Url(pathname: string, search: string)

  type Parser = string -> Option<Url>

  /** An `http:` or `https:` URL the parser accepts has a rooted pathname, as the
      URL standard gives for special schemes. Other schemes that merely start with
      "http" (`httpx:`) may have an opaque path that does not start with "/". */
  ghost predicate SpecialRooted(parse: Parser) {
    forall u :: (StartsWith(u, "http:") || StartsWith(u, "https:")) && parse(u).Some? ==>
      StartsWith(parse(u).value.pathname, "/")
  }

  /** The callback is absent, not an absolute-looking URL, or an `http:`/`https:` one. */
  predicate SpecialOrRelative(callbackUrl: Option<string>) {
    callbackUrl.None? || !StartsWith(callbackUrl.value, "http")
    || StartsWith(callbackUrl.value, "http:") || StartsWith(callbackUrl.value, "https:")
  }

  /** `getRedirectPath`. `callbackUrl` is what `searchParams.get` returned. */
  function RedirectPath(callbackUrl: Option<string>, parse: Parser): (r: string)
    // missing or empty: back to the login screen
    ensures callbackUrl.None? || callbackUrl == Some("") ==> r == LoginPath
    // an absolute URL keeps only its path and query; an unparsable one falls back to login
    ensures callbackUrl.Some? && StartsWith(callbackUrl.value, "http") ==>
              r == (if parse(callbackUrl.value).Some?
                    then parse(callbackUrl.value).value.pathname + parse(callbackUrl.value).value.search
                    else LoginPath)
    // anything else is used as it is
    ensures callbackUrl.Some? && callbackUrl.value != "" && !StartsWith(callbackUrl.value, "http") ==>
              r == callbackUrl.value
  {
    match callbackUrl
    case None => LoginPath
    case Some(u) =>
      if u == "" then LoginPath
      else if StartsWith(u, "http") then
        match parse(u)
        case Some(url) => url.pathname + url.search
        case None => LoginPath
      else u
  }

  /** What the page renders: a redirect in progress, or the error card whose
      "Go Back" button pushes `back`. */
  datatype View = Redirecting(target: string) | ErrorCard(message: string, back: string)

  /** The page for the `error` and `callbackUrl` parameters. The card's fallback
      text for a falsy error cannot show, since the card is only rendered for a
      truthy error. */
  function ErrorPage(error: Option<string>, callbackUrl: Option<string>, parse: Parser): (v: View)
    ensures v.Redirecting? <==> error.None? || error == Some("")
    ensures v.Redirecting? ==> v.target == RedirectPath(callbackUrl, parse)
    ensures v.ErrorCard? ==> v.back == RedirectPath(callbackUrl, parse)
    ensures v.ErrorCard? ==> v.message == (if error == Some(CallbackError) then GoogleProblem else error.value)
  {
    var path := RedirectPath(callbackUrl, parse);
    match error
    case None => Redirecting(path)
    case Some(e) =>
      if e == "" then Redirecting(path)
      else ErrorCard(if e == CallbackError then GoogleProblem else e, path)
  }

  /** The path the page settles on for an `http:`/`https:` or relative callback is a
      fixed point: handing it back as the `callbackUrl` sends the user to the same place. */
  lemma {:induction false} RedirectSettles(callbackUrl: Option<string>, parse: Parser)
    requires SpecialRooted(parse)
    requires SpecialOrRelative(callbackUrl)
    ensures RedirectPath(Some(RedirectPath(callbackUrl, parse)), parse) == RedirectPath(callbackUrl, parse)
  {
    var r := RedirectPath(callbackUrl, parse);
    assert r != "" && !StartsWith(r, "http") by {
      if callbackUrl.Some? && callbackUrl.value != "" && StartsWith(callbackUrl.value, "http")
         && parse(callbackUrl.value).Some? {
        var url := parse(callbackUrl.value).value;
        assert StartsWith(url.pathname, "/");
        assert r[0] == '/';
      } else if callbackUrl.Some? && callbackUrl.value != "" && !StartsWith(callbackUrl.value, "http") {
        assert r == callbackUrl.value;
      } else {
        assert r == LoginPath;
        assert r[0] == '/';
      }
    }
  }

  /** A non-special scheme breaks the fixed point: `new URL("httpx:http")` has the
      opaque path "http", which is sent on as it is, and handed back it is an
      unparsable absolute-looking URL that falls back to the login screen. */
  lemma OpaquePathDoesNotSettle(parse: Parser)
    requires parse("httpx:http") == Some(Url("http", "")) && parse("http").None?
    ensures RedirectPath(Some("httpx:http"), parse) == "http"
    ensures RedirectPath(Some(RedirectPath(Some("httpx:http"), parse)), parse) == LoginPath
  {
    assert StartsWith("httpx:http", "http");
    assert StartsWith("http", "http");
  }
}
