/** Image download: `downloadToFile`, a streaming GET that follows at most
    three redirects, and `fastDownload`, a single buffered `fetch` that
    falls back to it on any failure.

    The server is a function from URL to the reply `http(s).get` sees;
    `fetch` follows redirects on its own, so the fast path's result is one
    abstract outcome. */
module Download {
  import opened Options

  /** What one `http(s).get` yields: a status code and a `Location`
      header, or an error (connection failure, the 30-second timeout). */
  datatype Reply = Response(status: int, location: Option<string>) | NetError

  datatype DownloadError =
    | TooManyRedirects          // 'too many redirects'
    | HttpStatus(status: int)   // `HTTP ${statusCode}: ${statusMessage}`
    | NetworkError              // the request's 'error' event

  datatype Result<T> = Success(value: T) | Failure(error: DownloadError)

  /** Redirect hops `downloadToFile` accepts: it gives up once `depth > 3`. */
  const MAX_DEPTH: nat := 3

  /** A 3xx with a Location header that is present and non-empty (an
      empty string is falsy in JavaScript). */
  predicate IsRedirect(reply: Reply) {
    reply.Response? && 300 <= reply.status < 400 && reply.location.Some? && reply.location.value != ""
  }

  /** `downloadToFile(url, filePath, depth)`. A 200 response is streamed
      to `filePath`, which is what the promise resolves with. */
  function DownloadToFile(server: string -> Reply, url: string, filePath: string, depth: nat): (r: Result<string>)
    ensures r.Success? ==> r.value == filePath
    ensures depth > MAX_DEPTH ==> r == Failure(TooManyRedirects)
    decreases MAX_DEPTH + 1 - depth
  {
    if depth > MAX_DEPTH then Failure(TooManyRedirects)
    else
      var reply := server(url);
      if IsRedirect(reply) then DownloadToFile(server, reply.location.value, filePath, depth + 1)
      else if reply.NetError? then Failure(NetworkError)
      else if reply.status != 200 then Failure(HttpStatus(reply.status))
      else Success(filePath)
  }

  /** What the fast path's `fetch` (10-second abort) ends with: the final
      status, and whether the body was read and written to the file; or an
      error. */
  datatype FastOutcome = Fetched(status: int, written: bool) | FetchError

  /** `response.ok`: any 2xx status. */
  predicate FastOk(fast: FastOutcome) {
    fast.Fetched? && 200 <= fast.status <= 299 && fast.written
  }

  /** `fastDownload(url, filePath)`. */
  function FastDownload(fast: FastOutcome, server: string -> Reply, url: string, filePath: string): (r: Result<string>)
    ensures r.Success? ==> r.value == filePath
    ensures r.Success? <==> FastOk(fast) || DownloadToFile(server, url, filePath, 0).Success?
    ensures r.Failure? ==> r == DownloadToFile(server, url, filePath, 0)
  {
    if FastOk(fast) then Success(filePath) else DownloadToFile(server, url, filePath, 0)
  }

  // ---------------------------------------------------------------------
  // A second reading of downloadToFile: count the redirects first

  /** How many redirects in a row the server answers from `url`, counting
      at most `limit`. */
  function Redirects(server: string -> Reply, url: string, limit: nat): (n: nat)
    ensures n <= limit
    decreases limit
  {
    if limit == 0 || !IsRedirect(server(url)) then 0
    else 1 + Redirects(server, server(url).location.value, limit - 1)
  }

  /** The URL reached after following `n` redirects from `url`. */
  function Hop(server: string -> Reply, url: string, n: nat): string
    decreases n
  {
    if n == 0 || !IsRedirect(server(url)) then url
    else Hop(server, server(url).location.value, n - 1)
  }

  /** The outcome of a final reply that is not a redirect. */
  function Settle(reply: Reply, filePath: string): Result<string> {
    if reply.NetError? then Failure(NetworkError)
    else if reply.status != 200 then Failure(HttpStatus(reply.status))
    else Success(filePath)
  }

  /** Fewer redirects in a row than the count limit means the chain stops
      at a reply that is not a redirect. */
  lemma {:induction false} RedirectsStop(server: string -> Reply, url: string, limit: nat)
    requires Redirects(server, url, limit) < limit
    ensures !IsRedirect(server(Hop(server, url, Redirects(server, url, limit))))
    decreases limit
  {
    if IsRedirect(server(url)) {
      RedirectsStop(server, server(url).location.value, limit - 1);
    }
  }

  /** From depth d, `downloadToFile` fails with too many redirects exactly
      when the server answers 4 - d redirects in a row; otherwise its
      outcome is that of the reply at the end of the redirect chain. */
  lemma {:induction false} DownloadFollowsChain(server: string -> Reply, url: string, filePath: string, depth: nat)
    requires depth <= MAX_DEPTH + 1
    ensures var budget := MAX_DEPTH + 1 - depth;
            var n := Redirects(server, url, budget);
            DownloadToFile(server, url, filePath, depth) ==
              if n == budget then Failure(TooManyRedirects)
              else Settle(server(Hop(server, url, n)), filePath)
    decreases MAX_DEPTH + 1 - depth
  {
    if depth <= MAX_DEPTH && IsRedirect(server(url)) {
      DownloadFollowsChain(server, server(url).location.value, filePath, depth + 1);
    }
  }

  /** A download from depth 0 succeeds exactly when at most three redirects
      lead to a 200 response. */
  lemma DownloadSucceedsIff(server: string -> Reply, url: string, filePath: string)
    ensures var n := Redirects(server, url, MAX_DEPTH + 1);
            DownloadToFile(server, url, filePath, 0).Success? <==>
              n <= MAX_DEPTH && server(Hop(server, url, n)).Response? && server(Hop(server, url, n)).status == 200
  {
    DownloadFollowsChain(server, url, filePath, 0);
    var n := Redirects(server, url, MAX_DEPTH + 1);
    if n < MAX_DEPTH + 1 {
      RedirectsStop(server, url, MAX_DEPTH + 1);
    }
  }

  /** Four redirects in a row: the fourth is refused without a request. */
  lemma FourRedirectsFail(server: string -> Reply, u0: string, u1: string, u2: string, u3: string, u4: string,
                          filePath: string)
    requires server(u0) == Response(301, Some(u1)) && u1 != ""
    requires server(u1) == Response(301, Some(u2)) && u2 != ""
    requires server(u2) == Response(301, Some(u3)) && u3 != ""
    requires server(u3) == Response(301, Some(u4)) && u4 != ""
    ensures DownloadToFile(server, u0, filePath, 0) == Failure(TooManyRedirects)
  {
    DownloadFollowsChain(server, u0, filePath, 0);
    assert Redirects(server, u3, 1) == 1;
    assert Redirects(server, u2, 2) == 2;
    assert Redirects(server, u1, 3) == 3;
  }

  /** Three redirects and then a 200: the file is written. */
  lemma ThreeRedirectsSucceed(server: string -> Reply, u0: string, u1: string, u2: string, u3: string,
                              location: Option<string>, filePath: string)
    requires server(u0) == Response(301, Some(u1)) && u1 != ""
    requires server(u1) == Response(301, Some(u2)) && u2 != ""
    requires server(u2) == Response(301, Some(u3)) && u3 != ""
    requires server(u3) == Response(200, location)
    ensures DownloadToFile(server, u0, filePath, 0) == Success(filePath)
  {
    DownloadFollowsChain(server, u0, filePath, 0);
    assert Redirects(server, u3, 1) == 0;
    assert Redirects(server, u2, 2) == 1;
    assert Redirects(server, u1, 3) == 2;
    assert Hop(server, u2, 1) == u3;
    assert Hop(server, u1, 2) == u3;
  }

  /** A 3xx without a usable Location is not followed: it fails with its
      status. */
  lemma RedirectWithoutLocationFails(server: string -> Reply, url: string, filePath: string, depth: nat, status: int)
    requires depth <= MAX_DEPTH && 300 <= status < 400
    requires server(url) == Response(status, None) || server(url) == Response(status, Some(""))
    ensures DownloadToFile(server, url, filePath, depth) == Failure(HttpStatus(status))
  {
  }
}
