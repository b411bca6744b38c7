/** The request dispatch of `handler` in api/index.js: which handler a
    request reaches, given its method, its URL and whether its bearer token
    verified. The handlers themselves are modelled in their own modules;
    here a request ends at the name of the handler it reaches. */
module Router {
  import opened Wrappers
  import opened JsText
  import Store
  import opened Processes

  /** Where a request ends. A digit route carries the digits it captured. */
  datatype Handler =
    | Preflight          // `OPTIONS`: an empty 200 response
    | AuthLogin
    | AuthBranches
    | Health
    | DebugSync
    | Unauthorized       // `requireAuth` answered 401
    | CategoriesList
    | ProcessList
    | Sync
    | Chat
    | TestGenerate(id: string)
    | TestQuestions(id: string)
    | TestSubmit(id: string)
    | TestAttempts(id: string)
    | TestLeaderboard(id: string)
    | GlobalLeaderboard
    | ProcessById(id: string)
    | NotFound           // 404 `{ error: 'Not found' }`

  /** The handlers reachable without a verified token. */
  predicate IsPublic(h: Handler) {
    h.Preflight? || h.AuthLogin? || h.AuthBranches? || h.Health? || h.DebugSync? || h.Unauthorized?
  }

  /** `url.match(/^prefix(\d+)$/)`: the captured digits, if the whole URL
      is the prefix followed by one or more ASCII digits. */
  function DigitRoute(url: string, prefix: string): (r: Option<string>)
    ensures r.Some? <==>
      |url| > |prefix| && url[..|prefix|] == prefix && AllDigits(url[|prefix|..])
    ensures r.Some? ==> url == prefix + r.value && r.value != [] && AllDigits(r.value)
  {
    if |url| > |prefix| && url[..|prefix|] == prefix && AllDigits(url[|prefix|..]) then
      assert url == url[..|prefix|] + url[|prefix|..];
      Some(url[|prefix|..])
    else None
  }

  /** `req.url.split('?')[0]` */
  function PathOf(rawUrl: string): string {
    SplitOn(rawUrl, '?')[0]
  }

  /** The routes after authentication, in the order they are tried. */
  function Protected(m: string, url: string): Handler {
    if url == "/api/processes/categories" then CategoriesList
    else if url == "/api/processes" && m == "GET" then ProcessList
    else if url == "/api/sync" && m == "POST" then Sync
    else if url == "/api/chat" && m == "POST" then Chat
    else if DigitRoute(url, "/api/tests/generate/").Some? && m == "POST" then
      TestGenerate(DigitRoute(url, "/api/tests/generate/").value)
    else if DigitRoute(url, "/api/tests/questions/").Some? && m == "GET" then
      TestQuestions(DigitRoute(url, "/api/tests/questions/").value)
    else if DigitRoute(url, "/api/tests/submit/").Some? && m == "POST" then
      TestSubmit(DigitRoute(url, "/api/tests/submit/").value)
    else if DigitRoute(url, "/api/tests/attempts/").Some? && m == "GET" then
      TestAttempts(DigitRoute(url, "/api/tests/attempts/").value)
    else if DigitRoute(url, "/api/tests/leaderboard/").Some? && m == "GET" then
      TestLeaderboard(DigitRoute(url, "/api/tests/leaderboard/").value)
    else if url == "/api/tests/leaderboard" && m == "GET" then GlobalLeaderboard
    else if DigitRoute(url, "/api/processes/").Some? then
      ProcessById(DigitRoute(url, "/api/processes/").value)
    else NotFound
  }

  /** `handler(req, res)`: preflight first, then the public routes, then
      `requireAuth`, then the protected routes. */
  function Dispatch(m: string, rawUrl: string, authorized: bool): Handler {
    if m == "OPTIONS" then Preflight
    else
      var url := PathOf(rawUrl);
      if url == "/api/auth/login" && m == "POST" then AuthLogin
      else if url == "/api/auth/branches" then AuthBranches
      else if url == "/api/health" then Health
      else if url == "/api/debug-sync" && m == "POST" then DebugSync
      else if !authorized then Unauthorized
      else Protected(m, url)
  }

  // ---------------------------------------------------------------------------
  // What the dispatch promises

  /** A preflight request is answered whatever its URL and token. */
  lemma OptionsAlwaysAnswered(rawUrl: string, authorized: bool)
    ensures Dispatch("OPTIONS", rawUrl, authorized) == Preflight
  {
  }

  /** The query string plays no part in routing. */
  lemma QueryIgnored(m: string, path: string, query: string, authorized: bool)
    requires '?' !in path
    ensures Dispatch(m, path + "?" + query, authorized) == Dispatch(m, path, authorized)
  {
    SplitOnFirst(path, query, '?');
    SplitOnWithout(path, '?');
  }

  /** A protected handler is reached only with a verified token, and
      without one a request ends at a public route or at the 401. */
  lemma ProtectedNeedsAuth(m: string, rawUrl: string, authorized: bool)
    ensures !IsPublic(Dispatch(m, rawUrl, authorized)) ==> authorized
    ensures !authorized ==> IsPublic(Dispatch(m, rawUrl, authorized))
  {
  }

  /** With a verified token, every request that is not a preflight and not
      for a public route reaches the protected routes. */
  lemma AuthorizedReachesProtected(m: string, path: string)
    requires m != "OPTIONS" && '?' !in path
    requires path != "/api/auth/login" && path != "/api/auth/branches"
    requires path != "/api/health" && path != "/api/debug-sync"
    ensures Dispatch(m, path, true) == Protected(m, path)
  {
    SplitOnWithout(path, '?');
  }

  /** Each handler is reached only with the method it serves; the
      categories, branches, health and process-by-id routes accept any
      method but `OPTIONS`. */
  lemma MethodsRespected(m: string, rawUrl: string, authorized: bool)
    ensures var h := Dispatch(m, rawUrl, authorized);
      && (h.AuthLogin? || h.DebugSync? || h.Sync? || h.Chat? || h.TestGenerate? || h.TestSubmit? ==> m == "POST")
      && (h.ProcessList? || h.TestQuestions? || h.TestAttempts? || h.TestLeaderboard? || h.GlobalLeaderboard? ==> m == "GET")
      && (h.Preflight? <==> m == "OPTIONS")
  {
  }

  /** A route made of a prefix and a decimal numeral captures the numeral,
      and the handler's `parseInt` of it gives the number back. */
  lemma DigitRouteRoundTrip(prefix: string, n: nat)
    ensures DigitRoute(prefix + DecimalString(n), prefix) == Some(DecimalString(n))
    ensures ParseInt(DecimalString(n)) == Store.Num(n)
  {
    var url := prefix + DecimalString(n);
    assert url[..|prefix|] == prefix;
    assert url[|prefix|..] == DecimalString(n);
    ParseIntOfDecimal(n);
  }

  /** A URL that differs from `lit` at position `i` neither equals `lit`
      nor starts with it. */
  lemma DiffersAt(url: string, lit: string, i: nat)
    requires i < |url| && i < |lit| && url[i] != lit[i]
    ensures url != lit && DigitRoute(url, lit).None?
  {
    if |url| > |lit| {
      assert url[..|lit|][i] == url[i];
    }
  }

  /** `prefix + id` for a numeral `id`, as the router sees it. */
  lemma NumeralPath(prefix: string, id: string)
    requires id != [] && AllDigits(id) && '?' !in prefix
    ensures PathOf(prefix + id) == prefix + id
    ensures DigitRoute(prefix + id, prefix) == Some(id)
  {
    var url := prefix + id;
    assert forall k :: 0 <= k < |id| ==> id[k] != '?';
    assert '?' !in url;
    SplitOnWithout(url, '?');
    assert url[..|prefix|] == prefix;
    assert url[|prefix|..] == id;
  }

  /** A path below "/api/tests/" or "/api/processes/" passes the public
      routes and, with a verified token, reaches the protected ones. */
  lemma PastPublicRoutes(m: string, url: string)
    requires m != "OPTIONS" && |url| > 5 && (url[5] == 't' || url[5] == 'p')
    requires PathOf(url) == url
    ensures Dispatch(m, url, true) == Protected(m, url)
  {
    DiffersAt(url, "/api/auth/login", 5);
    DiffersAt(url, "/api/auth/branches", 5);
    DiffersAt(url, "/api/health", 5);
    DiffersAt(url, "/api/debug-sync", 5);
  }

  /** A path below "/api/tests/" passes the fixed protected routes. */
  lemma PastFixedRoutes(url: string)
    requires |url| > 11 && url[5] == 't' && url[..11] == "/api/tests/"
    ensures url != "/api/processes/categories" && url != "/api/processes"
    ensures url != "/api/sync" && url != "/api/chat"
    ensures DigitRoute(url, "/api/processes/").None?
  {
    DiffersAt(url, "/api/processes/categories", 5);
    DiffersAt(url, "/api/processes", 5);
    DiffersAt(url, "/api/sync", 5);
    DiffersAt(url, "/api/chat", 5);
    DiffersAt(url, "/api/processes/", 5);
  }

  /** `POST /api/tests/generate/<n>` reaches the generator with the id. */
  lemma GenerateRouteReached(id: string)
    requires id != [] && AllDigits(id)
    ensures Dispatch("POST", "/api/tests/generate/" + id, true) == TestGenerate(id)
  {
    var url := "/api/tests/generate/" + id;
    NumeralPath("/api/tests/generate/", id);
    assert url[..11] == "/api/tests/" && url[5] == 't';
    PastPublicRoutes("POST", url);
    PastFixedRoutes(url);
  }

  /** `GET /api/tests/questions/<n>` reaches the question view. */
  lemma QuestionsRouteReached(id: string)
    requires id != [] && AllDigits(id)
    ensures Dispatch("GET", "/api/tests/questions/" + id, true) == TestQuestions(id)
  {
    var url := "/api/tests/questions/" + id;
    NumeralPath("/api/tests/questions/", id);
    assert url[..11] == "/api/tests/" && url[5] == 't' && url[11] == 'q';
    PastPublicRoutes("GET", url);
    PastFixedRoutes(url);
  }

  /** `POST /api/tests/submit/<n>` reaches the test submission handler. */
  lemma SubmitRouteReached(id: string)
    requires id != [] && AllDigits(id)
    ensures Dispatch("POST", "/api/tests/submit/" + id, true) == TestSubmit(id)
  {
    var url := "/api/tests/submit/" + id;
    NumeralPath("/api/tests/submit/", id);
    assert url[..11] == "/api/tests/" && url[5] == 't' && url[11] == 's';
    PastPublicRoutes("POST", url);
    PastFixedRoutes(url);
    DiffersAt(url, "/api/tests/generate/", 11);
  }

  /** `GET /api/tests/attempts/<n>` reaches the attempt history. */
  lemma AttemptsRouteReached(id: string)
    requires id != [] && AllDigits(id)
    ensures Dispatch("GET", "/api/tests/attempts/" + id, true) == TestAttempts(id)
  {
    var url := "/api/tests/attempts/" + id;
    NumeralPath("/api/tests/attempts/", id);
    assert url[..11] == "/api/tests/" && url[5] == 't' && url[11] == 'a';
    PastPublicRoutes("GET", url);
    PastFixedRoutes(url);
    DiffersAt(url, "/api/tests/questions/", 11);
  }

  /** `GET /api/tests/leaderboard/<n>` reaches the per-document leaderboard. */
  lemma LeaderboardRouteReached(id: string)
    requires id != [] && AllDigits(id)
    ensures Dispatch("GET", "/api/tests/leaderboard/" + id, true) == TestLeaderboard(id)
  {
    var url := "/api/tests/leaderboard/" + id;
    NumeralPath("/api/tests/leaderboard/", id);
    assert url[..11] == "/api/tests/" && url[5] == 't' && url[11] == 'l';
    PastPublicRoutes("GET", url);
    PastFixedRoutes(url);
    DiffersAt(url, "/api/tests/questions/", 11);
    DiffersAt(url, "/api/tests/attempts/", 11);
  }

  /** `/api/processes/<n>` reaches the document view, whatever the method
      (other than `OPTIONS`). */
  lemma ProcessRouteReached(m: string, id: string)
    requires m != "OPTIONS" && id != [] && AllDigits(id)
    ensures Dispatch(m, "/api/processes/" + id, true) == ProcessById(id)
  {
    var url := "/api/processes/" + id;
    NumeralPath("/api/processes/", id);
    assert url[5] == 'p' && url[15] == id[0];
    PastPublicRoutes(m, url);
    PastTestRoutes(url);
  }

  /** A path below "/api/processes/" with a digit after the slash passes
      every other protected route. */
  lemma PastTestRoutes(url: string)
    requires |url| > 15 && url[5] == 'p' && IsDigit(url[15])
    ensures url != "/api/processes/categories" && url != "/api/sync" && url != "/api/chat"
    ensures url != "/api/tests/leaderboard"
    ensures DigitRoute(url, "/api/tests/generate/").None?
    ensures DigitRoute(url, "/api/tests/questions/").None?
    ensures DigitRoute(url, "/api/tests/submit/").None?
    ensures DigitRoute(url, "/api/tests/attempts/").None?
    ensures DigitRoute(url, "/api/tests/leaderboard/").None?
  {
    DiffersAt(url, "/api/processes/categories", 15);
    DiffersAt(url, "/api/sync", 5);
    DiffersAt(url, "/api/chat", 5);
    DiffersAt(url, "/api/tests/generate/", 5);
    DiffersAt(url, "/api/tests/questions/", 5);
    DiffersAt(url, "/api/tests/submit/", 5);
    DiffersAt(url, "/api/tests/attempts/", 5);
    DiffersAt(url, "/api/tests/leaderboard/", 5);
    DiffersAt(url, "/api/tests/leaderboard", 5);
  }

  /** "/api/processes/categories" is the categories list for every method,
      never a process id. */
  lemma CategoriesRoute(m: string)
    requires m != "OPTIONS"
    ensures Dispatch(m, "/api/processes/categories", true) == CategoriesList
  {
    SplitOnWithout("/api/processes/categories", '?');
  }
}
