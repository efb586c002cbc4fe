/**
 * The Mastodon API client: handle parsing, the base URL and query
 * parameters of the two endpoints, the mapping of HTTP failures to errors,
 * the year pagination loop and the front door `getUserData`. The network
 * is a pair of functions from request to response.
 */
module MastodonApi {
  import opened Wrappers
  import opened Text
  import opened Posts

  // ---------------------------------------------------------------------------
  // parseHandle

  datatype Handle = Handle(username: string, instance: string)

  /**
   * One leading `@` is dropped; the rest must split on `@` into exactly two
   * non-empty parts. No check is made on the instance part.
   */
  function ParseHandle(handle: string): Option<Handle> {
    var clean := if StartsWith(handle, "@") then handle[1..] else handle;
    var parts := Split(clean, "@");
    if |parts| == 2 && parts[0] != "" && parts[1] != "" then Some(Handle(parts[0], parts[1]))
    else None
  }

  lemma CharOccurs(s: string, k: nat)
    requires k < |s|
    ensures OccursAt(s, [s[k]], k)
  {
    assert s[k..k + 1] == [s[k]];
  }

  lemma NoAtNotContains(s: string)
    requires '@' !in s
    ensures !Contains(s, "@")
  {
    forall i: nat | i <= |s| ensures !OccursAt(s, "@", i) {
      if i < |s| {
        CharOccurs(s, i);
      }
    }
  }

  lemma ContainsAt(s: string)
    requires !Contains(s, "@")
    ensures '@' !in s
  {
    forall k | 0 <= k < |s| ensures s[k] != '@' {
      CharOccurs(s, k);
    }
  }

  lemma SplitTwo(u: string, i: string)
    requires '@' !in u && '@' !in i
    ensures Split(u + "@" + i, "@") == [u, i]
  {
    var s := u + "@" + i;
    assert OccursAt(s, "@", |u|) by { assert s[|u|..|u| + 1] == "@"; }
    forall j: nat | j < |u| ensures !OccursAt(s, "@", j) {
      assert s[j] == u[j];
      CharOccurs(s, j);
    }
    assert IndexOf(s, "@") == Some(|u|);
    assert s[..|u|] == u;
    assert s[|u| + 1..] == i;
    NoAtNotContains(i);
    NotContainsNoOccurrence(i, "@");
  }

  /** `u@i` and `@u@i` both parse to user `u` at instance `i`. */
  lemma ParseRoundTrip(u: string, i: string)
    requires u != "" && i != "" && '@' !in u && '@' !in i
    ensures ParseHandle(u + "@" + i) == Some(Handle(u, i))
    ensures ParseHandle("@" + u + "@" + i) == Some(Handle(u, i))
  {
    SplitTwo(u, i);
    assert (u + "@" + i)[0] == u[0];
    var h := "@" + u + "@" + i;
    assert StartsWith(h, "@");
    assert h[1..] == u + "@" + i;
  }

  lemma JoinTwo(a: string, b: string)
    ensures Join([a, b], "@") == a + "@" + b
  {
    assert [a, b][1..] == [b];
  }

  /**
   * Conversely, a parsed handle is the two parts joined by `@`, with or
   * without a leading `@`, and neither part holds an `@`.
   */
  lemma ParseSound(handle: string)
    requires ParseHandle(handle).Some?
    ensures var h := ParseHandle(handle).value;
      && h.username != "" && h.instance != ""
      && '@' !in h.username && '@' !in h.instance
      && (handle == h.username + "@" + h.instance || handle == "@" + h.username + "@" + h.instance)
  {
    var clean := if StartsWith(handle, "@") then handle[1..] else handle;
    var parts := Split(clean, "@");
    JoinTwo(parts[0], parts[1]);
    assert parts == [parts[0], parts[1]];
    ContainsAt(parts[0]);
    ContainsAt(parts[1]);
    if StartsWith(handle, "@") {
      assert handle == "@" + clean;
    }
  }

  /** A handle with no instance part, or with a second `@`, is refused. */
  lemma ParseRejects(u: string, i: string, j: string)
    requires '@' !in u && '@' !in i
    ensures ParseHandle(u).None?
    ensures u != "" ==> ParseHandle(u + "@" + i + "@" + j).None?
  {
    NoAtNotContains(u);
    NotContainsNoOccurrence(u, "@");
    if u != "" {
      var s := u + "@" + i + "@" + j;
      assert s == u + "@" + (i + "@" + j);
      SplitTwoOrMore(u, i, j);
      assert s[0] == u[0];
    }
  }

  lemma SplitTwoOrMore(u: string, i: string, j: string)
    requires '@' !in u && '@' !in i
    ensures |Split(u + "@" + (i + "@" + j), "@")| >= 3
  {
    var t := i + "@" + j;
    var s := u + "@" + t;
    assert OccursAt(s, "@", |u|) by { assert s[|u|..|u| + 1] == "@"; }
    forall k: nat | k < |u| ensures !OccursAt(s, "@", k) {
      assert s[k] == u[k];
      CharOccurs(s, k);
    }
    assert IndexOf(s, "@") == Some(|u|);
    assert s[|u| + 1..] == t;
    assert OccursAt(t, "@", |i|) by { assert t[|i|..|i| + 1] == "@"; }
    forall k: nat | k < |i| ensures !OccursAt(t, "@", k) {
      assert t[k] == i[k];
      CharOccurs(t, k);
    }
    assert IndexOf(t, "@") == Some(|i|);
  }

  /** A non-empty run of decimal digits: one part of a dotted IPv4 address. */
  predicate Octet(s: string) {
    |s| > 0 && forall k :: 0 <= k < |s| ==> '0' <= s[k] <= '9'
  }

  /** Any instance text is accepted, a dotted IPv4 address literal included: no host check is made. */
  lemma NoHostCheck(user: string, a: string, b: string, c: string, d: string)
    requires user != "" && '@' !in user
    requires Octet(a) && Octet(b) && Octet(c) && Octet(d)
    ensures ParseHandle(user + "@" + (a + "." + b + "." + c + "." + d))
      == Some(Handle(user, a + "." + b + "." + c + "." + d))
  {
    var ip := a + "." + b + "." + c + "." + d;
    assert '@' !in a && '@' !in b && '@' !in c && '@' !in d;
    assert '@' !in ip;
    ParseRoundTrip(user, ip);
  }

  // ---------------------------------------------------------------------------
  // Base URL

  /** The base URL as written: an instance starting with `http` is used unchanged. */
  function BaseUrlAsWritten(instance: string): string {
    if StartsWith(instance, "http") then instance else "https://" + instance
  }

  /** A host name that merely begins with `http` is left without a scheme. */
  lemma BaseUrlAsWrittenDropsScheme()
    ensures BaseUrlAsWritten("httpbin.org") == "httpbin.org"
    ensures !StartsWith(BaseUrlAsWritten("httpbin.org"), "http://")
    ensures !StartsWith(BaseUrlAsWritten("httpbin.org"), "https://")
  {
    var h := "httpbin.org";
    assert h[..4] == "http";
    assert h[..7][4] == 'b' != "http://"[4];
    assert h[..8][4] == 'b' != "https://"[4];
  }

  /** The base URL: an instance given with a scheme is kept, a bare host gets `https://`. */
  function BaseUrl(instance: string): string {
    if StartsWith(instance, "http://") || StartsWith(instance, "https://") then instance
    else "https://" + instance
  }

  /** Every base URL carries an `http` or `https` scheme, and a given scheme is kept. */
  lemma BaseUrlHasScheme(instance: string)
    ensures StartsWith(BaseUrl(instance), "http://") || StartsWith(BaseUrl(instance), "https://")
    ensures StartsWith(instance, "http://") || StartsWith(instance, "https://") ==> BaseUrl(instance) == instance
  {
    var url := "https://" + instance;
    assert url[..8] == "https://";
  }

  /** The correction only differs from the code on hosts that begin with `http` but carry no scheme. */
  lemma BaseUrlAgrees(instance: string)
    requires !StartsWith(instance, "http") || StartsWith(instance, "http://") || StartsWith(instance, "https://")
    ensures BaseUrl(instance) == BaseUrlAsWritten(instance)
  {
    if StartsWith(instance, "http://") {
      assert instance[..4] == instance[..7][..4] == "http://"[..4] == "http";
    } else if StartsWith(instance, "https://") {
      assert instance[..4] == instance[..8][..4] == "https://"[..4] == "http";
    }
  }

  // ---------------------------------------------------------------------------
  // Responses and errors

  datatype ApiError =
    | InvalidHandle
    | UserNotFound
    | ApiStatus(code: int)
    | StatusesFetchFailed(code: int)

  predicate Ok(status: int) { 200 <= status <= 299 }

  /** The account lookup request: base URL and the (unencoded) account name. */
  datatype LookupRequest = LookupRequest(base: string, acct: string)
  datatype LookupResponse = LookupResponse(status: int, account: Account)

  /** `lookupAccount`: the account on success, not-found for 404, the status code otherwise. */
  function LookupOutcome(resp: LookupResponse): (r: Result<Account, ApiError>)
    ensures r.Success? <==> Ok(resp.status)
    ensures r.Success? ==> r.value == resp.account
    ensures r == Failure(UserNotFound) <==> resp.status == 404
    ensures !Ok(resp.status) && resp.status != 404 ==> r == Failure(ApiStatus(resp.status))
  {
    if Ok(resp.status) then Success(resp.account)
    else if resp.status == 404 then Failure(UserNotFound)
    else Failure(ApiStatus(resp.status))
  }

  // ---------------------------------------------------------------------------
  // getAccountStatuses

  /** The options object; a missing or zero `limit` means 40, a missing or empty `maxId` means none. */
  datatype StatusOptions = StatusOptions(limit: Option<nat>, excludeReplies: bool, excludeReblogs: bool, maxId: Option<string>)

  /** The query parameters, in the order `URLSearchParams` writes them. */
  datatype Query = Query(limit: nat, excludeReplies: string, excludeReblogs: string, maxId: Option<string>)

  datatype Request = Request(endpoint: string, query: Query)
  datatype Response = Response(status: int, page: seq<Status>)

  function Flag(b: bool): (s: string)
    ensures s == "true" <==> b
    ensures s == "false" <==> !b
  {
    if b then "true" else "false"
  }

  function BuildQuery(opts: StatusOptions): (q: Query)
    ensures q.limit == if opts.limit.Some? && opts.limit.value != 0 then opts.limit.value else 40
    ensures q.maxId.Some? <==> opts.maxId.Some? && opts.maxId.value != ""
    ensures q.maxId.Some? ==> q.maxId == opts.maxId
    ensures q.excludeReplies == Flag(opts.excludeReplies) && q.excludeReblogs == Flag(opts.excludeReblogs)
  {
    Query(
      if opts.limit.Some? && opts.limit.value != 0 then opts.limit.value else 40,
      Flag(opts.excludeReplies),
      Flag(opts.excludeReblogs),
      if opts.maxId.Some? && opts.maxId.value != "" then opts.maxId else None)
  }

  /** The statuses endpoint of an account under the base URL `base`. */
  function StatusesEndpoint(base: string, accountId: string): string {
    base + "/api/v1/accounts/" + accountId + "/statuses"
  }

  /** The request the year loop makes: 40 per page, boosts included, before `maxId` when set. */
  function PageRequest(base: string, accountId: string, maxId: Option<string>): Request {
    Request(StatusesEndpoint(base, accountId), BuildQuery(StatusOptions(Some(40), false, false, maxId)))
  }

  // ---------------------------------------------------------------------------
  // fetchYearStatuses

  /** The year's bounds in milliseconds: local midnight of 1 January and 23:59:59.000 of 31 December. */
  datatype Window = Window(start: int, end: int)

  /** Kept: not after the end and not before the start. */
  predicate InWindow(s: Status, w: Window) {
    !(s.createdAt > w.end) && s.createdAt >= w.start
  }

  /** Seen before the start (and not skipped as being after the end): the year is exhausted. */
  predicate TooOld(s: Status, w: Window) {
    !(s.createdAt > w.end) && !(s.createdAt >= w.start)
  }

  function Kept(page: seq<Status>, w: Window): seq<Status>
    decreases |page|
  {
    if page == [] then []
    else Kept(page[..|page| - 1], w) + (if InWindow(page[|page| - 1], w) then [page[|page| - 1]] else [])
  }

  /** The kept statuses are the in-window statuses of the page, in page order. */
  lemma {:induction false} KeptIsWindow(page: seq<Status>, w: Window)
    ensures |Kept(page, w)| <= |page|
    ensures forall s :: s in Kept(page, w) <==> s in page && InWindow(s, w)
    decreases |page|
  {
    if page != [] {
      var init := page[..|page| - 1];
      KeptIsWindow(init, w);
      assert page == init + [page[|page| - 1]];
    }
  }

  predicate HasTooOld(page: seq<Status>, w: Window) {
    exists k :: 0 <= k < |page| && TooOld(page[k], w)
  }

  /** The inner `for … of` over one page. */
  method ScanPage(page: seq<Status>, w: Window) returns (relevant: seq<Status>, sawOld: bool)
    ensures relevant == Kept(page, w)
    ensures sawOld <==> HasTooOld(page, w)
  {
    relevant := [];
    sawOld := false;
    for i := 0 to |page|
      invariant relevant == Kept(page[..i], w)
      invariant sawOld <==> HasTooOld(page[..i], w)
    {
      assert page[..i + 1][..i] == page[..i];
      var status := page[i];
      if status.createdAt > w.end {
        continue;
      }
      if status.createdAt >= w.start {
        relevant := relevant + [status];
      } else {
        sawOld := true;
      }
    }
    assert page[..|page|] == page;
  }

  /** The cursor after a page: the id of its last status. */
  function CursorAfter(page: seq<Status>): Option<string> {
    if page == [] then None else Some(page[|page| - 1].id)
  }

  /** The statuses kept from the pages answering `reqs`, in request order. */
  function Collected(server: Request -> Response, reqs: seq<Request>, w: Window): seq<Status>
    decreases |reqs|
  {
    if reqs == [] then []
    else Collected(server, reqs[..|reqs| - 1], w) + Kept(server(reqs[|reqs| - 1]).page, w)
  }

  /** A page after which the loop asks for the next one. */
  predicate Continues(server: Request -> Response, req: Request, w: Window) {
    Ok(server(req).status) && |server(req).page| > 0 && !HasTooOld(server(req).page, w)
  }

  /**
   * The first `n` requests of the loop: the first without a cursor, each
   * later one with the id of the last status of the page before it.
   */
  function PageRequests(server: Request -> Response, base: string, accountId: string, n: nat): (reqs: seq<Request>)
    ensures |reqs| == n
    ensures n > 0 ==> reqs[0] == PageRequest(base, accountId, None)
    decreases n
  {
    if n == 0 then []
    else if n == 1 then [PageRequest(base, accountId, None)]
    else
      var before := PageRequests(server, base, accountId, n - 1);
      before + [PageRequest(base, accountId, CursorAfter(server(before[n - 2]).page))]
  }

  /** The loop's requests, every page but the last one continuing the loop. */
  predicate CursorChain(server: Request -> Response, base: string, accountId: string, w: Window, reqs: seq<Request>) {
    && reqs == PageRequests(server, base, accountId, |reqs|)
    && forall k :: 0 <= k < |reqs| - 1 ==> Continues(server, reqs[k], w)
  }

  /**
   * Every page request asks for 40 statuses with replies and boosts
   * included, and carries `max_id` exactly when the cursor is set.
   */
  lemma PageRequestShape(base: string, accountId: string, maxId: Option<string>)
    ensures var q := PageRequest(base, accountId, maxId).query;
      && q.limit == 40 && q.excludeReblogs == "false" && q.excludeReplies == "false"
      && (maxId.None? ==> q.maxId.None?)
      && (maxId.Some? && maxId.value != "" ==> q.maxId == maxId)
  {
  }

  /** Each request after the first carries the id of the last status of the page before it. */
  lemma {:induction false} CursorDiscipline(server: Request -> Response, base: string, accountId: string, n: nat, k: nat)
    requires 0 < k < n
    ensures PageRequests(server, base, accountId, n)[k]
      == PageRequest(base, accountId, CursorAfter(server(PageRequests(server, base, accountId, n)[k - 1]).page))
    decreases n
  {
    if k < n - 1 {
      CursorDiscipline(server, base, accountId, n - 1, k);
    }
  }

  /** The report after each page answering `reqs`: statuses kept through it and `pages * 40`. */
  function Reports(server: Request -> Response, reqs: seq<Request>, w: Window): seq<(nat, nat)>
    decreases |reqs|
  {
    if reqs == [] then []
    else Reports(server, reqs[..|reqs| - 1], w) + [(|Collected(server, reqs, w)|, 40 * |reqs|)]
  }

  /** One progress report per page processed so far, in order. */
  predicate ProgressOf(server: Request -> Response, reqs: seq<Request>, w: Window, progress: seq<(nat, nat)>) {
    |progress| <= |reqs| && progress == Reports(server, reqs[..|progress|], w)
  }

  lemma {:induction false} CollectedGrows(server: Request -> Response, reqs: seq<Request>, w: Window, i: nat, j: nat)
    requires i <= j <= |reqs|
    ensures |Collected(server, reqs[..i], w)| <= |Collected(server, reqs[..j], w)|
    decreases j - i
  {
    if i < j {
      CollectedGrows(server, reqs, w, i, j - 1);
      var a := reqs[..j];
      assert a[..|a| - 1] == reqs[..j - 1];
      assert Collected(server, a, w) == Collected(server, reqs[..j - 1], w) + Kept(server(a[|a| - 1]).page, w);
    }
  }

  lemma CollectedStep(server: Request -> Response, reqs: seq<Request>, req: Request, w: Window)
    ensures Collected(server, reqs + [req], w) == Collected(server, reqs, w) + Kept(server(req).page, w)
  {
    assert (reqs + [req])[..|reqs|] == reqs;
  }

  /**
   * The loop's state before a request: every page so far continued the
   * loop, the statuses kept so far, and one progress report per page.
   */
  predicate SoFar(server: Request -> Response, base: string, accountId: string, w: Window,
                  requests: seq<Request>, collected: seq<Status>, progress: seq<(nat, nat)>) {
    && requests == PageRequests(server, base, accountId, |requests|)
    && (forall k :: 0 <= k < |requests| ==> Continues(server, requests[k], w))
    && collected == Collected(server, requests, w)
    && ProgressOf(server, requests, w, progress) && |progress| == |requests|
  }

  /**
   * What `fetchYearStatuses` did: between 1 and 100 requests chained by the
   * cursor; a failed request ends it with that status; otherwise it stops
   * after a page that does not continue, or after 100 pages, and returns the
   * in-window statuses of every page in order; one progress report per
   * non-empty page.
   */
  predicate Fetched(server: Request -> Response, base: string, accountId: string, w: Window,
                    r: Result<seq<Status>, ApiError>, requests: seq<Request>, progress: seq<(nat, nat)>) {
    && 1 <= |requests| <= 100
    && CursorChain(server, base, accountId, w, requests)
    && var last := server(requests[|requests| - 1]);
    && (r.Failure? <==> !Ok(last.status))
    && (r.Failure? ==> r.error == StatusesFetchFailed(last.status))
    && (r.Success? ==> !Continues(server, requests[|requests| - 1], w) || |requests| == 100)
    && (r.Success? ==> r.value == Collected(server, requests, w))
    && ProgressOf(server, requests, w, progress)
    && |progress| == (if Ok(last.status) && |last.page| > 0 then |requests| else |requests| - 1)
  }

  /**
   * A request has been sent after the pages `before`: the chain so far and
   * its reports, extended by the new request.
   */
  predicate Pending(server: Request -> Response, base: string, accountId: string, w: Window,
                    before: seq<Request>, collected: seq<Status>, progress: seq<(nat, nat)>, requests: seq<Request>) {
    && SoFar(server, base, accountId, w, before, collected, progress) && |before| < 100
    && |requests| == |before| + 1 && requests == before + [requests[|before|]]
    && requests == PageRequests(server, base, accountId, |requests|)
    && ProgressOf(server, requests, w, progress)
  }

  /** The next request extends the chain. */
  lemma NextRequest(server: Request -> Response, base: string, accountId: string, w: Window,
                    requests: seq<Request>, collected: seq<Status>, progress: seq<(nat, nat)>, maxId: Option<string>)
    requires SoFar(server, base, accountId, w, requests, collected, progress) && |requests| < 100
    requires maxId == if |requests| == 0 then None else CursorAfter(server(requests[|requests| - 1]).page)
    ensures Pending(server, base, accountId, w, requests, collected, progress,
                    requests + [PageRequest(base, accountId, maxId)])
  {
    var reqs := requests + [PageRequest(base, accountId, maxId)];
    assert reqs[..|reqs| - 1] == requests;
    ProgressPrefix(server, reqs, w, progress);
  }

  /** A failed request ends the loop with its status. */
  lemma StopFailed(server: Request -> Response, base: string, accountId: string, w: Window,
                   before: seq<Request>, collected: seq<Status>, progress: seq<(nat, nat)>,
                   requests: seq<Request>, r: Result<seq<Status>, ApiError>)
    requires Pending(server, base, accountId, w, before, collected, progress, requests)
    requires !Ok(server(requests[|before|]).status)
    requires r == Failure(StatusesFetchFailed(server(requests[|before|]).status))
    ensures Fetched(server, base, accountId, w, r, requests, progress)
  {
    assert forall k :: 0 <= k < |before| ==> requests[k] == before[k];
  }

  /** An empty page ends the loop with the statuses kept so far. */
  lemma StopEmpty(server: Request -> Response, base: string, accountId: string, w: Window,
                  before: seq<Request>, collected: seq<Status>, progress: seq<(nat, nat)>, requests: seq<Request>)
    requires Pending(server, base, accountId, w, before, collected, progress, requests)
    requires Ok(server(requests[|before|]).status) && |server(requests[|before|]).page| == 0
    ensures Fetched(server, base, accountId, w, Success(collected), requests, progress)
  {
    assert forall k :: 0 <= k < |before| ==> requests[k] == before[k];
    assert Kept(server(requests[|before|]).page, w) == [];
  }

  /** Keeping and reporting one more page. */
  lemma Extend(server: Request -> Response, base: string, accountId: string, w: Window,
               before: seq<Request>, collected0: seq<Status>, progress0: seq<(nat, nat)>,
               requests: seq<Request>, collected: seq<Status>, progress: seq<(nat, nat)>)
    requires SoFar(server, base, accountId, w, before, collected0, progress0)
    requires |requests| == |before| + 1 && requests == before + [requests[|before|]]
    requires ProgressOf(server, requests, w, progress0)
    requires collected == collected0 + Kept(server(requests[|before|]).page, w)
    requires progress == progress0 + [(|collected|, 40 * |requests|)]
    ensures forall k :: 0 <= k < |before| ==> requests[k] == before[k]
    ensures collected == Collected(server, requests, w)
    ensures ProgressOf(server, requests, w, progress) && |progress| == |requests|
  {
    CollectedStep(server, before, requests[|before|], w);
    ProgressExtend(server, requests, w, progress0);
  }

  /** A page holding a status from before the window is kept, reported, and ends the loop. */
  lemma StopOld(server: Request -> Response, base: string, accountId: string, w: Window,
                before: seq<Request>, collected0: seq<Status>, progress0: seq<(nat, nat)>,
                requests: seq<Request>, collected: seq<Status>, progress: seq<(nat, nat)>)
    requires Pending(server, base, accountId, w, before, collected0, progress0, requests)
    requires Ok(server(requests[|before|]).status) && |server(requests[|before|]).page| > 0
    requires HasTooOld(server(requests[|before|]).page, w)
    requires collected == collected0 + Kept(server(requests[|before|]).page, w)
    requires progress == progress0 + [(|collected|, 40 * |requests|)]
    ensures Fetched(server, base, accountId, w, Success(collected), requests, progress)
  {
    Extend(server, base, accountId, w, before, collected0, progress0, requests, collected, progress);
  }

  /** A page that continues the loop is kept and reported. */
  lemma Advance(server: Request -> Response, base: string, accountId: string, w: Window,
                before: seq<Request>, collected0: seq<Status>, progress0: seq<(nat, nat)>,
                requests: seq<Request>, collected: seq<Status>, progress: seq<(nat, nat)>)
    requires Pending(server, base, accountId, w, before, collected0, progress0, requests)
    requires Continues(server, requests[|before|], w)
    requires collected == collected0 + Kept(server(requests[|before|]).page, w)
    requires progress == progress0 + [(|collected|, 40 * |requests|)]
    ensures SoFar(server, base, accountId, w, requests, collected, progress)
  {
    Extend(server, base, accountId, w, before, collected0, progress0, requests, collected, progress);
  }

  /** After 100 continuing pages the loop stops with what it collected. */
  lemma Ceiling(server: Request -> Response, base: string, accountId: string, w: Window,
                requests: seq<Request>, collected: seq<Status>, progress: seq<(nat, nat)>)
    requires SoFar(server, base, accountId, w, requests, collected, progress) && |requests| == 100
    ensures Fetched(server, base, accountId, w, Success(collected), requests, progress)
  {
  }

  /** What the year loop returns and what it did: the requests sent and the progress reported. */
  datatype Outcome = Outcome(result: Result<seq<Status>, ApiError>, requests: seq<Request>, progress: seq<(nat, nat)>)

  /**
   * The year loop from a given state: `requests` sent so far, `collected`
   * statuses kept so far, `progress` reported so far, `maxId` the cursor.
   */
  function Walk(server: Request -> Response, base: string, accountId: string, w: Window,
                requests: seq<Request>, collected: seq<Status>, progress: seq<(nat, nat)>, maxId: Option<string>): (o: Outcome)
    requires |requests| <= 100
    ensures o.result.Failure? ==> o.result.error.StatusesFetchFailed?
    decreases 100 - |requests|
  {
    if |requests| == 100 then Outcome(Success(collected), requests, progress)
    else
      var req := PageRequest(base, accountId, maxId);
      var response := server(req);
      var sent := requests + [req];
      if !Ok(response.status) then Outcome(Failure(StatusesFetchFailed(response.status)), sent, progress)
      else if |response.page| == 0 then Outcome(Success(collected), sent, progress)
      else
        var kept := collected + Kept(response.page, w);
        var reported := progress + [(|kept|, 40 * |sent|)];
        if HasTooOld(response.page, w) then Outcome(Success(kept), sent, reported)
        else Walk(server, base, accountId, w, sent, kept, reported, CursorAfter(response.page))
  }

  /** The whole year loop: no request sent, nothing kept, no cursor. */
  function YearPages(server: Request -> Response, base: string, accountId: string, w: Window): Outcome {
    Walk(server, base, accountId, w, [], [], [], None)
  }

  /** From a state the loop can reach, walking on satisfies `Fetched`. */
  lemma {:induction false} WalkFetched(server: Request -> Response, base: string, accountId: string, w: Window,
                   requests: seq<Request>, collected: seq<Status>, progress: seq<(nat, nat)>, maxId: Option<string>)
    requires SoFar(server, base, accountId, w, requests, collected, progress) && |requests| <= 100
    requires maxId == if |requests| == 0 then None else CursorAfter(server(requests[|requests| - 1]).page)
    ensures var o := Walk(server, base, accountId, w, requests, collected, progress, maxId);
            Fetched(server, base, accountId, w, o.result, o.requests, o.progress)
    decreases 100 - |requests|, 1
  {
    if |requests| == 100 {
      Ceiling(server, base, accountId, w, requests, collected, progress);
    } else {
      NextRequest(server, base, accountId, w, requests, collected, progress, maxId);
      WalkPage(server, base, accountId, w, requests, collected, progress, maxId);
    }
  }

  /** The page answering the next request decides how the walk goes on. */
  lemma {:induction false} WalkPage(server: Request -> Response, base: string, accountId: string, w: Window,
                   requests: seq<Request>, collected: seq<Status>, progress: seq<(nat, nat)>, maxId: Option<string>)
    requires Pending(server, base, accountId, w, requests, collected, progress,
                     requests + [PageRequest(base, accountId, maxId)])
    requires maxId == if |requests| == 0 then None else CursorAfter(server(requests[|requests| - 1]).page)
    ensures var o := Walk(server, base, accountId, w, requests, collected, progress, maxId);
            Fetched(server, base, accountId, w, o.result, o.requests, o.progress)
    decreases 100 - |requests|, 0
  {
    var response := server(PageRequest(base, accountId, maxId));
    if !Ok(response.status) {
      WalkFailed(server, base, accountId, w, requests, collected, progress, maxId);
    } else if |response.page| == 0 {
      WalkEmpty(server, base, accountId, w, requests, collected, progress, maxId);
    } else if HasTooOld(response.page, w) {
      WalkOld(server, base, accountId, w, requests, collected, progress, maxId);
    } else {
      var sent := requests + [PageRequest(base, accountId, maxId)];
      var kept := collected + Kept(response.page, w);
      var reported: seq<(nat, nat)> := progress + [(|kept|, 40 * |sent|)];
      assert sent[|requests|] == PageRequest(base, accountId, maxId);
      Advance(server, base, accountId, w, requests, collected, progress, sent, kept, reported);
      WalkFetched(server, base, accountId, w, sent, kept, reported, CursorAfter(response.page));
    }
  }

  lemma WalkFailed(server: Request -> Response, base: string, accountId: string, w: Window,
                   requests: seq<Request>, collected: seq<Status>, progress: seq<(nat, nat)>, maxId: Option<string>)
    requires Pending(server, base, accountId, w, requests, collected, progress,
                     requests + [PageRequest(base, accountId, maxId)])
    requires !Ok(server(PageRequest(base, accountId, maxId)).status)
    ensures var o := Walk(server, base, accountId, w, requests, collected, progress, maxId);
            Fetched(server, base, accountId, w, o.result, o.requests, o.progress)
  {
    var sent := requests + [PageRequest(base, accountId, maxId)];
    assert sent[|requests|] == PageRequest(base, accountId, maxId);
    StopFailed(server, base, accountId, w, requests, collected, progress, sent,
               Failure(StatusesFetchFailed(server(PageRequest(base, accountId, maxId)).status)));
  }

  lemma WalkEmpty(server: Request -> Response, base: string, accountId: string, w: Window,
                   requests: seq<Request>, collected: seq<Status>, progress: seq<(nat, nat)>, maxId: Option<string>)
    requires Pending(server, base, accountId, w, requests, collected, progress,
                     requests + [PageRequest(base, accountId, maxId)])
    requires Ok(server(PageRequest(base, accountId, maxId)).status)
    requires |server(PageRequest(base, accountId, maxId)).page| == 0
    ensures var o := Walk(server, base, accountId, w, requests, collected, progress, maxId);
            Fetched(server, base, accountId, w, o.result, o.requests, o.progress)
  {
    var sent := requests + [PageRequest(base, accountId, maxId)];
    assert sent[|requests|] == PageRequest(base, accountId, maxId);
    StopEmpty(server, base, accountId, w, requests, collected, progress, sent);
  }

  lemma WalkOld(server: Request -> Response, base: string, accountId: string, w: Window,
                   requests: seq<Request>, collected: seq<Status>, progress: seq<(nat, nat)>, maxId: Option<string>)
    requires Pending(server, base, accountId, w, requests, collected, progress,
                     requests + [PageRequest(base, accountId, maxId)])
    requires Ok(server(PageRequest(base, accountId, maxId)).status)
    requires |server(PageRequest(base, accountId, maxId)).page| > 0
    requires HasTooOld(server(PageRequest(base, accountId, maxId)).page, w)
    ensures var o := Walk(server, base, accountId, w, requests, collected, progress, maxId);
            Fetched(server, base, accountId, w, o.result, o.requests, o.progress)
  {
    var sent := requests + [PageRequest(base, accountId, maxId)];
    var page := server(PageRequest(base, accountId, maxId)).page;
    var kept := collected + Kept(page, w);
    var reported: seq<(nat, nat)> := progress + [(|kept|, 40 * |sent|)];
    assert sent[|requests|] == PageRequest(base, accountId, maxId);
    StopOld(server, base, accountId, w, requests, collected, progress, sent, kept, reported);
  }

  /**
   * The year loop does what `fetchYearStatuses` promises: between 1 and 100
   * requests chained by the cursor, stopping after a failed request, an
   * empty page or a page holding a status from before the window, with the
   * in-window statuses of every page in order and one report per page.
   */
  lemma YearPagesFetched(server: Request -> Response, base: string, accountId: string, w: Window)
    ensures var o := YearPages(server, base, accountId, w);
            Fetched(server, base, accountId, w, o.result, o.requests, o.progress)
  {
    WalkFetched(server, base, accountId, w, [], [], [], None);
  }

  /** Every page request goes to the account's statuses endpoint under `base`. */
  lemma {:induction false} PageRequestsEndpoint(server: Request -> Response, base: string, accountId: string, n: nat)
    ensures forall k :: 0 <= k < n ==> PageRequests(server, base, accountId, n)[k].endpoint == StatusesEndpoint(base, accountId)
    decreases n
  {
    if n > 1 {
      PageRequestsEndpoint(server, base, accountId, n - 1);
    }
  }

  /** The year loop asks only for the account's statuses endpoint under its base URL. */
  lemma YearPagesEndpoint(server: Request -> Response, base: string, accountId: string, w: Window)
    ensures var o := YearPages(server, base, accountId, w);
      forall k :: 0 <= k < |o.requests| ==> o.requests[k].endpoint == StatusesEndpoint(base, accountId)
  {
    var o := YearPages(server, base, accountId, w);
    YearPagesFetched(server, base, accountId, w);
    PageRequestsEndpoint(server, base, accountId, |o.requests|);
  }

  lemma PrefixKept(a: string, b: string, p: string)
    requires StartsWith(a, p)
    ensures StartsWith(a + b, p)
  {
    assert (a + b)[..|p|] == a[..|p|];
  }

  /**
   * With the base URL as written, the instance `httpbin.org` sends its very
   * first page request to a URL without a scheme.
   */
  lemma AsWrittenRequestLacksScheme(server: Request -> Response, accountId: string, w: Window)
    ensures var o := YearPages(server, BaseUrlAsWritten("httpbin.org"), accountId, w);
      && |o.requests| >= 1
      && !StartsWith(o.requests[0].endpoint, "http://") && !StartsWith(o.requests[0].endpoint, "https://")
  {
    var base := BaseUrlAsWritten("httpbin.org");
    BaseUrlAsWrittenDropsScheme();
    YearPagesEndpoint(server, base, accountId, w);
    YearPagesFetched(server, base, accountId, w);
    var url := StatusesEndpoint(base, accountId);
    assert url[..7] == "httpbin";
    assert url[..8] == "httpbin.";
  }

  /** With the corrected base URL, every page request of the year loop carries a scheme. */
  lemma CorrectedRequestsHaveScheme(server: Request -> Response, instance: string, accountId: string, w: Window)
    ensures var o := YearPages(server, BaseUrl(instance), accountId, w);
      forall k :: 0 <= k < |o.requests| ==>
        StartsWith(o.requests[k].endpoint, "http://") || StartsWith(o.requests[k].endpoint, "https://")
  {
    var base := BaseUrl(instance);
    YearPagesEndpoint(server, base, accountId, w);
    BaseUrlHasScheme(instance);
    var rest := "/api/v1/accounts/" + accountId + "/statuses";
    assert StatusesEndpoint(base, accountId) == base + rest;
    if StartsWith(base, "http://") {
      PrefixKept(base, rest, "http://");
    } else {
      PrefixKept(base, rest, "https://");
    }
  }

  /** For every instance not merely starting with `http`, the loop as written makes the corrected requests. */
  lemma AsWrittenRequestsAgree(server: Request -> Response, instance: string, accountId: string, w: Window)
    requires !StartsWith(instance, "http") || StartsWith(instance, "http://") || StartsWith(instance, "https://")
    ensures YearPages(server, BaseUrlAsWritten(instance), accountId, w) == YearPages(server, BaseUrl(instance), accountId, w)
  {
    BaseUrlAgrees(instance);
  }

  /**
   * `fetchYearStatuses` over `server`, with `onProgress` recorded as the list
   * of its reports. Every page request is built on the base URL as written.
   */
  method FetchYearStatuses(instance: string, accountId: string, w: Window, server: Request -> Response)
    returns (r: Result<seq<Status>, ApiError>, requests: seq<Request>, progress: seq<(nat, nat)>)
    ensures Outcome(r, requests, progress) == YearPages(server, BaseUrlAsWritten(instance), accountId, w)
  {
    var base := BaseUrlAsWritten(instance);
    var allStatuses: seq<Status> := [];
    var maxId: Option<string> := None;
    var hasMore := true;
    var fetchCount: nat := 0;
    requests := [];
    progress := [];
    while hasMore && fetchCount < 100
      invariant fetchCount <= 100 && |requests| == fetchCount && hasMore
      invariant Walk(server, base, accountId, w, requests, allStatuses, progress, maxId)
             == YearPages(server, base, accountId, w)
      decreases 100 - fetchCount
    {
      var req := PageRequest(base, accountId, maxId);
      requests := requests + [req];
      var response := server(req);
      if !Ok(response.status) {
        return Failure(StatusesFetchFailed(response.status)), requests, progress;
      }
      var statuses := response.page;
      if |statuses| == 0 {
        hasMore := false;
        return Success(allStatuses), requests, progress;
      }
      var relevant, sawOld := ScanPage(statuses, w);
      if sawOld {
        hasMore := false;
      }
      allStatuses := allStatuses + relevant;
      maxId := Some(statuses[|statuses| - 1].id);
      fetchCount := fetchCount + 1;
      progress := progress + [(|allStatuses|, 40 * fetchCount)];
      if !hasMore {
        return Success(allStatuses), requests, progress;
      }
    }
    r := Success(allStatuses);
  }

  /** The report for a new page: the statuses collected through it and forty per page. */
  lemma ProgressExtend(server: Request -> Response, reqs: seq<Request>, w: Window, progress: seq<(nat, nat)>)
    requires |progress| == |reqs| - 1 && ProgressOf(server, reqs, w, progress)
    ensures ProgressOf(server, reqs, w, progress + [(|Collected(server, reqs, w)|, 40 * |reqs|)])
  {
    assert reqs[..|reqs|] == reqs;
  }

  /** Progress entries stay valid when the request list grows. */
  lemma ProgressPrefix(server: Request -> Response, reqs: seq<Request>, w: Window, progress: seq<(nat, nat)>)
    requires |reqs| > 0 && ProgressOf(server, reqs[..|reqs| - 1], w, progress)
    ensures ProgressOf(server, reqs, w, progress)
  {
    assert reqs[..|reqs| - 1][..|progress|] == reqs[..|progress|];
  }

  /** The `k`-th report counts the statuses kept through page `k + 1`, and estimates `40 * (k + 1)`. */
  lemma {:induction false} ReportAt(server: Request -> Response, reqs: seq<Request>, w: Window, k: nat)
    requires k < |reqs|
    ensures |Reports(server, reqs, w)| == |reqs|
    ensures Reports(server, reqs, w)[k] == (|Collected(server, reqs[..k + 1], w)|, 40 * (k + 1))
    decreases |reqs|
  {
    var init := reqs[..|reqs| - 1];
    if k < |init| {
      ReportAt(server, init, w, k);
      assert init[..k + 1] == reqs[..k + 1];
    } else {
      assert reqs[..k + 1] == reqs;
      if init != [] {
        ReportAt(server, init, w, 0);
      }
    }
  }

  lemma MonotoneProgress(server: Request -> Response, reqs: seq<Request>, w: Window, progress: seq<(nat, nat)>)
    requires ProgressOf(server, reqs, w, progress)
    ensures forall i, j :: 0 <= i <= j < |progress| ==> progress[i].0 <= progress[j].0
  {
    var pre := reqs[..|progress|];
    forall i, j | 0 <= i <= j < |progress| ensures progress[i].0 <= progress[j].0 {
      ReportAt(server, pre, w, i);
      ReportAt(server, pre, w, j);
      CollectedGrows(server, pre, w, i + 1, j + 1);
    }
  }

  /** A post half a second after the last whole second of the year is dropped; one at that second is kept. */
  lemma WindowEdges(s: Status, w: Window)
    requires w.start <= w.end
    ensures s.createdAt == w.end + 500 ==> Kept([s], w) == [] && !HasTooOld([s], w)
    ensures s.createdAt == w.end ==> Kept([s], w) == [s]
  {
    assert [s][..0] == [];
  }

  /** One status from before the window, anywhere in a page, ends the pagination. */
  lemma TooOldAnywhereStops(server: Request -> Response, req: Request, w: Window, k: nat)
    requires k < |server(req).page| && TooOld(server(req).page[k], w)
    ensures !Continues(server, req, w)
  {
  }

  // ---------------------------------------------------------------------------
  // getUserData

  /** The progress messages shown while loading. */
  datatype Notice = LookingUp | Fetching | FetchedSoFar(count: nat)

  datatype UserData = UserData(account: Account, statuses: seq<Status>, instance: string)

  function Notices(progress: seq<(nat, nat)>): (r: seq<Notice>)
    ensures |r| == |progress|
    ensures forall k :: 0 <= k < |r| ==> r[k] == FetchedSoFar(progress[k].0)
  {
    seq(|progress|, k requires 0 <= k < |progress| => FetchedSoFar(progress[k].0))
  }

  /**
   * What loading a parsed handle did: one lookup at the handle's instance,
   * then, if it found the account, the year's statuses fetched for the
   * account's id, with the progress reports and the notices shown along
   * the way.
   */
  predicate Loaded(h: Handle, w: Window, lookup: LookupRequest -> LookupResponse, server: Request -> Response,
                   r: Result<UserData, ApiError>, lookups: seq<LookupRequest>, requests: seq<Request>,
                   progress: seq<(nat, nat)>, notices: seq<Notice>) {
    && lookups == [LookupRequest(BaseUrlAsWritten(h.instance), h.username)]
    && var outcome := LookupOutcome(lookup(lookups[0]));
    && (outcome.Failure? ==> r == Failure(outcome.error) && requests == [] && progress == [] && notices == [LookingUp])
    && (outcome.Success? ==>
          && var fetched := YearPages(server, BaseUrlAsWritten(h.instance), outcome.value.id, w);
          && (fetched.result.Failure? ==> r == Failure(fetched.result.error))
          && (fetched.result.Success? ==> r == Success(UserData(outcome.value, fetched.result.value, h.instance)))
          && requests == fetched.requests && progress == fetched.progress
          && notices == [LookingUp, Fetching] + Notices(progress))
  }

  /** The part of `getUserData` after the handle has been parsed. */
  method LoadUser(h: Handle, w: Window, lookup: LookupRequest -> LookupResponse, server: Request -> Response)
    returns (r: Result<UserData, ApiError>, lookups: seq<LookupRequest>, requests: seq<Request>,
             progress: seq<(nat, nat)>, notices: seq<Notice>)
    ensures Loaded(h, w, lookup, server, r, lookups, requests, progress, notices)
  {
    requests, progress := [], [];
    notices := [LookingUp];
    var lookupRequest := LookupRequest(BaseUrlAsWritten(h.instance), h.username);
    lookups := [lookupRequest];
    var account := LookupOutcome(lookup(lookupRequest));
    if account.Failure? {
      return Failure(account.error), lookups, requests, progress, notices;
    }
    notices := notices + [Fetching];
    var statuses;
    statuses, requests, progress := FetchYearStatuses(h.instance, account.value.id, w, server);
    notices := notices + Notices(progress);
    if statuses.Failure? {
      r := Failure(statuses.error);
    } else {
      r := Success(UserData(account.value, statuses.value, h.instance));
    }
  }

  /**
   * `getUserData`: an unparsable handle fails before anything is requested
   * or shown; otherwise the account is looked up at the handle's instance
   * and its year of statuses fetched.
   */
  method GetUserData(handle: string, w: Window, lookup: LookupRequest -> LookupResponse, server: Request -> Response)
    returns (r: Result<UserData, ApiError>, lookups: seq<LookupRequest>, requests: seq<Request>,
             progress: seq<(nat, nat)>, notices: seq<Notice>)
    ensures ParseHandle(handle).None? ==>
      r == Failure(InvalidHandle) && lookups == [] && requests == [] && progress == [] && notices == []
    ensures ParseHandle(handle).Some? ==>
      Loaded(ParseHandle(handle).value, w, lookup, server, r, lookups, requests, progress, notices)
    ensures r == Failure(InvalidHandle) <==> ParseHandle(handle).None?
  {
    var parsed := ParseHandle(handle);
    if parsed.None? {
      return Failure(InvalidHandle), [], [], [], [];
    }
    r, lookups, requests, progress, notices := LoadUser(parsed.value, w, lookup, server);
  }
}
