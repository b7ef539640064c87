/**
 * The web vulnerability scanner's values and the specification of each of its
 * steps as functions: findings and the report, the crawl, the three
 * query-parameter detectors, the security-header audit and the cookie-string
 * parser.  The class in module WebScanner runs these steps imperatively and is
 * proved to compute exactly what these functions say.
 */
module WebModel {

  import opened Wrappers
  import opened Strings
  import opened Http
  import PyInt

  /** One query parameter as `parse_qs` gives it: a name and its values. */
  datatype Param = Param(name: string, values: seq<string>)

  /** A URL as `urlparse` and `parse_qs` split it; `query` keeps the order of the names. */
  datatype ParsedUrl = ParsedUrl(scheme: string, netloc: string, path: string, query: seq<Param>)

  /**
   * The library services the scanner calls: `requests.get` (URL, allow_redirects),
   * `urlparse` + `parse_qs`, `urlencode(..., doseq=True)`, and link extraction
   * (BeautifulSoup's `<a href>` list, each resolved with `urljoin` against the page URL).
   */
  datatype Web = Web(
    get: Client,
    parse: string -> ParsedUrl,
    encode: seq<Param> -> string,
    links: (string, string) -> seq<string>)

  /** One GET the scanner issues. */
  datatype Request = Request(url: string, followRedirects: bool)

  datatype MissingHeader = MissingHeader(header: string, issue: string)

  /** One entry of one of the five result lists. */
  datatype Finding =
    | Xss(url: string, parameter: string, payload: string)
    | Sqli(url: string, parameter: string, payload: string, error: string)
    | OpenRedirect(url: string, parameter: string, payload: string, redirectUrl: string)
    | InsecureHeaders(url: string, missingHeaders: seq<MissingHeader>)
    | DirectoryListing(url: string)
  {
    /** The entry's "details" text. */
    function Details(): string {
      match this
      case Xss(_, _, _) => "Reflected XSS vulnerability detected"
      case Sqli(_, _, _, _) => "Possible SQL injection detected"
      case OpenRedirect(_, _, _, _) => "Open redirect vulnerability detected"
      case InsecureHeaders(_, m) => "Missing " + DecimalString(|m|) + " security headers"
      case DirectoryListing(_) => "Directory listing detected"
    }
  }

  /** The `results` dictionary: five append-only lists. */
  datatype Report = Report(
    xss: seq<Finding>,
    sqli: seq<Finding>,
    openRedirect: seq<Finding>,
    insecureHeaders: seq<Finding>,
    directoryListing: seq<Finding>)
  {
    /** Every list holds entries of its own category only. */
    ghost predicate WellFormed() {
      && (forall f :: f in xss ==> f.Xss?)
      && (forall f :: f in sqli ==> f.Sqli?)
      && (forall f :: f in openRedirect ==> f.OpenRedirect?)
      && (forall f :: f in insecureHeaders ==> f.InsecureHeaders?)
      && (forall f :: f in directoryListing ==> f.DirectoryListing?)
    }
  }

  const EmptyReport := Report([], [], [], [], [])

  /** What one detector produces for one URL or one parameter: entries and the GETs it issued. */
  datatype Probe = Probe(findings: seq<Finding>, requests: seq<Request>) {
    function Then(next: Probe): Probe {
      Probe(findings + next.findings, requests + next.requests)
    }
  }

  const NoProbe := Probe([], [])

  // ---------------------------------------------------------------------------
  // Constants of the detectors

  const XssPayloads: seq<string> := [
    "<script>alert('XSS')</script>",
    "<img src=x onerror=alert('XSS')>",
    "';alert('XSS');//"
  ]

  const SqlPayloads: seq<string> := [
    "'",
    "' OR '1'='1",
    "1' OR '1'='1' --",
    "' UNION SELECT 1,2,3,4 --"
  ]

  const SqlErrors: seq<string> := [
    "SQL syntax",
    "mysql_fetch_array",
    "ORA-01756",
    "SQLSTATE[42000]",
    "Microsoft SQL Native Client error",
    "PostgreSQL query failed"
  ]

  const RedirectPayloads: seq<string> := ["//example.com", "https://example.com", "http://example.com"]

  const RedirectParams: seq<string> := [
    "redirect", "url", "next", "goto", "target", "destination",
    "redirect_uri", "redirect_url", "returnUrl"
  ]

  const RedirectStatuses: seq<int> := [301, 302, 303, 307, 308]

  /** The audited headers and their messages, in the dictionary's order. */
  const SecurityHeaders: seq<(string, string)> := [
    ("Strict-Transport-Security", "Missing HSTS header"),
    ("Content-Security-Policy", "Missing CSP header"),
    ("X-Frame-Options", "Missing X-Frame-Options header"),
    ("X-XSS-Protection", "Missing X-XSS-Protection header"),
    ("X-Content-Type-Options", "Missing X-Content-Type-Options header")
  ]

  const ListingMarker := "Index of /"

  /** The crawl depth `scan` starts `_crawl_site` with (its default). */
  const DefaultDepth: nat := 2

  // ---------------------------------------------------------------------------
  // Test URLs

  /** The query parameters with the one at index `i` replaced by the single value `payload`. */
  function Substitute(q: seq<Param>, i: nat, payload: string): (r: seq<Param>)
    requires i < |q|
    ensures |r| == |q|
    ensures r[i].name == q[i].name && r[i].values == [payload]
    ensures forall k :: 0 <= k < |q| && k != i ==> r[k] == q[k]
  {
    q[i := Param(q[i].name, [payload])]
  }

  /** `f"{scheme}://{netloc}{path}?{urlencode(test_params, doseq=True)}"`. */
  function TestUrl(w: Web, pu: ParsedUrl, i: nat, payload: string): (u: string)
    requires i < |pu.query|
    ensures var prefix := pu.scheme + "://" + pu.netloc + pu.path + "?";
      prefix <= u && u[|prefix|..] == w.encode(Substitute(pu.query, i, payload))
  {
    pu.scheme + "://" + pu.netloc + pu.path + "?" + w.encode(Substitute(pu.query, i, payload))
  }

  /** The GETs for the first `n` of `payloads` on parameter `i`. */
  function TestRequests(w: Web, pu: ParsedUrl, i: nat, payloads: seq<string>, n: nat, follow: bool): (r: seq<Request>)
    requires i < |pu.query| && n <= |payloads|
    ensures |r| == n
  {
    if n == 0 then [] else TestRequests(w, pu, i, payloads, n - 1, follow) + [Request(TestUrl(w, pu, i, payloads[n - 1]), follow)]
  }

  /** The `j`-th test GET is for the `j`-th payload. */
  lemma {:induction false} TestRequestsAt(w: Web, pu: ParsedUrl, i: nat, payloads: seq<string>, n: nat, follow: bool, j: nat)
    requires i < |pu.query| && n <= |payloads| && j < n
    ensures TestRequests(w, pu, i, payloads, n, follow)[j] == Request(TestUrl(w, pu, i, payloads[j]), follow)
  {
    if j < n - 1 {
      TestRequestsAt(w, pu, i, payloads, n - 1, follow, j);
    }
  }

  // ---------------------------------------------------------------------------
  // XSS

  /** The test page for `payload` on parameter `i` loads and echoes the payload verbatim. */
  predicate Reflected(w: Web, pu: ParsedUrl, i: nat, payload: string)
    requires i < |pu.query|
  {
    match w.get(TestUrl(w, pu, i, payload), true)
    case Failed(_) => false
    case Got(r) => Contains(r.body, payload)
  }

  /** The index of the first reflected XSS payload from index `k` on. */
  function XssHit(w: Web, pu: ParsedUrl, i: nat, k: nat): (r: Option<nat>)
    requires i < |pu.query|
    ensures r.Some? ==> k <= r.value < |XssPayloads| && Reflected(w, pu, i, XssPayloads[r.value])
    ensures r.Some? ==> forall j :: k <= j < r.value ==> !Reflected(w, pu, i, XssPayloads[j])
    ensures r.None? ==> forall j :: k <= j < |XssPayloads| ==> !Reflected(w, pu, i, XssPayloads[j])
    decreases |XssPayloads| - k
  {
    if k >= |XssPayloads| then None
    else if Reflected(w, pu, i, XssPayloads[k]) then Some(k)
    else XssHit(w, pu, i, k + 1)
  }

  /** The XSS probe of parameter `i`: payloads in order until the first one reflected. */
  function XssParam(w: Web, url: string, pu: ParsedUrl, i: nat): (p: Probe)
    requires i < |pu.query|
    ensures |p.findings| <= 1
    ensures forall f :: f in p.findings ==> f.Xss? && f.url == url && f.parameter == pu.query[i].name
  {
    match XssHit(w, pu, i, 0)
    case None => Probe([], TestRequests(w, pu, i, XssPayloads, |XssPayloads|, true))
    case Some(k) => Probe([Xss(url, pu.query[i].name, XssPayloads[k])], TestRequests(w, pu, i, XssPayloads, k + 1, true))
  }

  /**
   * A parameter yields an XSS entry exactly when some payload is reflected; the
   * entry names the first reflected payload, and the payloads after it are
   * not sent; without an entry all three were sent.
   */
  lemma XssParamHit(w: Web, url: string, pu: ParsedUrl, i: nat)
    requires i < |pu.query|
    ensures var p := XssParam(w, url, pu, i);
      |p.findings| == 1 <==> exists k :: 0 <= k < |XssPayloads| && Reflected(w, pu, i, XssPayloads[k])
    ensures var p := XssParam(w, url, pu, i);
      |p.findings| == 0 ==> p.requests == TestRequests(w, pu, i, XssPayloads, |XssPayloads|, true)
    ensures var p := XssParam(w, url, pu, i);
      |p.findings| == 1 ==>
        exists k :: 0 <= k < |XssPayloads| && Reflected(w, pu, i, XssPayloads[k])
          && (forall j :: 0 <= j < k ==> !Reflected(w, pu, i, XssPayloads[j]))
          && p.findings[0] == Xss(url, pu.query[i].name, XssPayloads[k])
          && p.requests == TestRequests(w, pu, i, XssPayloads, k + 1, true)
  {
    match XssHit(w, pu, i, 0)
    case None =>
    case Some(k) =>
  }

  /** `name` is the name of one of the first `n` parameters. */
  predicate NamedAmong(name: string, q: seq<Param>, n: nat) {
    exists m :: 0 <= m < n && m < |q| && name == q[m].name
  }

  /** The XSS probes of the first `n` parameters, in order. */
  function XssSweep(w: Web, url: string, pu: ParsedUrl, n: nat): (p: Probe)
    requires n <= |pu.query|
    ensures |p.findings| <= n
    ensures forall f :: f in p.findings ==> f.Xss? && f.url == url
  {
    if n == 0 then NoProbe else XssSweep(w, url, pu, n - 1).Then(XssParam(w, url, pu, n - 1))
  }

  /** Every entry of the sweep names one of the first `n` parameters. */
  lemma XssSweepNamed(w: Web, url: string, pu: ParsedUrl, n: nat)
    requires n <= |pu.query|
    ensures forall f :: f in XssSweep(w, url, pu, n).findings ==> NamedAmong(f.parameter, pu.query, n)
  {
    XssSweepFlatten(w, url, pu, n);
    var parts := XssParts(w, url, pu, n);
    forall f | f in XssSweep(w, url, pu, n).findings ensures NamedAmong(f.parameter, pu.query, n) {
      var i :| 0 <= i < n && f in parts[i];
    }
  }

  lemma XssSweepStep(w: Web, url: string, pu: ParsedUrl, n: nat)
    requires n < |pu.query|
    ensures XssSweep(w, url, pu, n + 1).findings == XssSweep(w, url, pu, n).findings + XssParam(w, url, pu, n).findings
    ensures XssSweep(w, url, pu, n + 1).requests == XssSweep(w, url, pu, n).requests + XssParam(w, url, pu, n).requests
  {
  }

  /** `_check_xss(url)`: every parameter of the URL's query, in order. */
  function XssOf(w: Web, url: string): (p: Probe)
    ensures forall f :: f in p.findings ==> f.Xss? && f.url == url
  {
    var pu := w.parse(url);
    XssSweep(w, url, pu, |pu.query|)
  }

  // ---------------------------------------------------------------------------
  // SQL injection

  /** The first signature, in list order from index `k` on, found in the body. */
  function SqlErrorIn(body: string, k: nat): (r: Option<nat>)
    ensures r.Some? ==> k <= r.value < |SqlErrors| && Contains(body, SqlErrors[r.value])
    ensures r.Some? ==> forall j :: k <= j < r.value ==> !Contains(body, SqlErrors[j])
    ensures r.None? ==> forall j :: k <= j < |SqlErrors| ==> !Contains(body, SqlErrors[j])
    decreases |SqlErrors| - k
  {
    if k >= |SqlErrors| then None
    else if Contains(body, SqlErrors[k]) then Some(k)
    else SqlErrorIn(body, k + 1)
  }

  /** The probe of parameter `i` with payload `j`: one GET, and an entry when the body shows a signature. */
  function SqliPayload(w: Web, url: string, pu: ParsedUrl, i: nat, j: nat): (p: Probe)
    requires i < |pu.query| && j < |SqlPayloads|
    ensures p.requests == [Request(TestUrl(w, pu, i, SqlPayloads[j]), true)]
    ensures |p.findings| <= 1
    ensures |p.findings| == 1 <==>
      var f := w.get(TestUrl(w, pu, i, SqlPayloads[j]), true); f.Got? && SqlErrorIn(f.response.body, 0).Some?
    ensures |p.findings| == 1 ==>
      var f := w.get(TestUrl(w, pu, i, SqlPayloads[j]), true);
      p.findings[0] == Sqli(url, pu.query[i].name, SqlPayloads[j], SqlErrors[SqlErrorIn(f.response.body, 0).value])
  {
    var t := TestUrl(w, pu, i, SqlPayloads[j]);
    var found :=
      match w.get(t, true)
      case Failed(_) => []
      case Got(r) =>
        (match SqlErrorIn(r.body, 0)
         case None => []
         case Some(e) => [Sqli(url, pu.query[i].name, SqlPayloads[j], SqlErrors[e])]);
    Probe(found, [Request(t, true)])
  }

  /** The SQL-injection probes of parameter `i` with the first `m` payloads. */
  function SqliPayloads(w: Web, url: string, pu: ParsedUrl, i: nat, m: nat): (p: Probe)
    requires i < |pu.query| && m <= |SqlPayloads|
    ensures p.requests == TestRequests(w, pu, i, SqlPayloads, m, true)
    ensures |p.findings| <= m
    ensures forall f :: f in p.findings ==> f.Sqli? && f.url == url && f.parameter == pu.query[i].name
  {
    if m == 0 then NoProbe
    else
      SqliPayloads(w, url, pu, i, m - 1).Then(SqliPayload(w, url, pu, i, m - 1))
  }

  lemma SqliPayloadsStep(w: Web, url: string, pu: ParsedUrl, i: nat, m: nat)
    requires i < |pu.query| && m < |SqlPayloads|
    ensures SqliPayloads(w, url, pu, i, m + 1).findings == SqliPayloads(w, url, pu, i, m).findings + SqliPayload(w, url, pu, i, m).findings
    ensures SqliPayloads(w, url, pu, i, m + 1).requests == SqliPayloads(w, url, pu, i, m).requests + SqliPayload(w, url, pu, i, m).requests
  {
  }

  /** The payload loop for parameter `i`: all four payloads, whatever the earlier ones found. */
  function SqliParam(w: Web, url: string, pu: ParsedUrl, i: nat): (p: Probe)
    requires i < |pu.query|
    ensures |p.requests| == |SqlPayloads|
    ensures |p.findings| <= |SqlPayloads|
    ensures forall f :: f in p.findings ==> f.Sqli? && f.url == url && f.parameter == pu.query[i].name
  {
    SqliPayloads(w, url, pu, i, |SqlPayloads|)
  }

  function SqliSweep(w: Web, url: string, pu: ParsedUrl, n: nat): (p: Probe)
    requires n <= |pu.query|
    ensures forall f :: f in p.findings ==> f.Sqli? && f.url == url
  {
    if n == 0 then NoProbe else SqliSweep(w, url, pu, n - 1).Then(SqliParam(w, url, pu, n - 1))
  }

  lemma SqliSweepStep(w: Web, url: string, pu: ParsedUrl, n: nat)
    requires n < |pu.query|
    ensures SqliSweep(w, url, pu, n + 1).findings == SqliSweep(w, url, pu, n).findings + SqliParam(w, url, pu, n).findings
    ensures SqliSweep(w, url, pu, n + 1).requests == SqliSweep(w, url, pu, n).requests + SqliParam(w, url, pu, n).requests
  {
  }

  /** `_check_sql_injection(url)`: every parameter of the URL's query, in order. */
  function SqliOf(w: Web, url: string): (p: Probe)
    ensures forall f :: f in p.findings ==> f.Sqli? && f.url == url
  {
    var pu := w.parse(url);
    SqliSweep(w, url, pu, |pu.query|)
  }

  // ---------------------------------------------------------------------------
  // Open redirect

  /** Only names that look like redirect targets are tested. */
  predicate IsRedirectParam(name: string) {
    var l := Lower(name);
    l in RedirectParams || Contains(l, "redir") || Contains(l, "url")
  }

  function Location(r: Response): string {
    HeaderOr(r, "Location", "")
  }

  /** The name filter lower-cases the name first, so the letter case of a name never matters. */
  lemma RedirectParamIgnoresCase(name: string)
    ensures IsRedirectParam(name) == IsRedirectParam(Lower(name))
  {
    LowerIdempotent(name);
  }

  /** The test page for `payload`, fetched without following redirects, redirects to example.com. */
  predicate Redirected(w: Web, pu: ParsedUrl, i: nat, payload: string)
    requires i < |pu.query|
  {
    match w.get(TestUrl(w, pu, i, payload), false)
    case Failed(_) => false
    case Got(r) => r.status in RedirectStatuses && Contains(Location(r), "example.com")
  }

  /** A redirect that counts is a 3xx answer that carries a `Location` header. */
  lemma RedirectedHasLocation(w: Web, pu: ParsedUrl, i: nat, payload: string)
    requires i < |pu.query| && Redirected(w, pu, i, payload)
    ensures var f := w.get(TestUrl(w, pu, i, payload), false);
      && f.Got?
      && 300 <= f.response.status < 400
      && HasHeader(f.response, "Location")
      && Contains(f.response.headers[Lower("Location")], "example.com")
  {
  }

  /** The index of the first payload, from index `k` on, whose test page redirects to example.com. */
  function RedirectHit(w: Web, pu: ParsedUrl, i: nat, k: nat): (r: Option<nat>)
    requires i < |pu.query|
    ensures r.Some? ==> k <= r.value < |RedirectPayloads| && Redirected(w, pu, i, RedirectPayloads[r.value])
    ensures r.Some? ==> forall j :: k <= j < r.value ==> !Redirected(w, pu, i, RedirectPayloads[j])
    ensures r.None? ==> forall j :: k <= j < |RedirectPayloads| ==> !Redirected(w, pu, i, RedirectPayloads[j])
    decreases |RedirectPayloads| - k
  {
    if k >= |RedirectPayloads| then None
    else if Redirected(w, pu, i, RedirectPayloads[k]) then Some(k)
    else RedirectHit(w, pu, i, k + 1)
  }

  /** The scan stops at `j` exactly when `j` redirects and no payload before it did. */
  lemma RedirectHitFirst(w: Web, pu: ParsedUrl, i: nat, j: nat)
    requires i < |pu.query| && j < |RedirectPayloads|
    requires Redirected(w, pu, i, RedirectPayloads[j])
    requires forall k :: 0 <= k < j ==> !Redirected(w, pu, i, RedirectPayloads[k])
    ensures RedirectHit(w, pu, i, 0) == Some(j)
  {
  }

  /** The open-redirect probe of parameter `i`: only for redirect-like names, payloads in order until the first that redirects. */
  function RedirectParam(w: Web, url: string, pu: ParsedUrl, i: nat): (p: Probe)
    requires i < |pu.query|
    ensures |p.findings| <= 1
    ensures !IsRedirectParam(pu.query[i].name) ==> p == NoProbe
    ensures forall f :: f in p.findings ==> f.OpenRedirect? && f.url == url && f.parameter == pu.query[i].name
  {
    if !IsRedirectParam(pu.query[i].name) then NoProbe
    else
      match RedirectHit(w, pu, i, 0)
      case None => Probe([], TestRequests(w, pu, i, RedirectPayloads, |RedirectPayloads|, false))
      case Some(k) =>
        var f := w.get(TestUrl(w, pu, i, RedirectPayloads[k]), false);
        Probe([OpenRedirect(url, pu.query[i].name, RedirectPayloads[k], Location(f.response))],
              TestRequests(w, pu, i, RedirectPayloads, k + 1, false))
  }

  /**
   * A redirect-like parameter yields an entry exactly when some payload's test
   * page redirects to example.com; the entry names the first such payload and
   * the Location it redirected to, and only the payloads up to it were sent.
   */
  lemma RedirectParamHit(w: Web, url: string, pu: ParsedUrl, i: nat)
    requires i < |pu.query| && IsRedirectParam(pu.query[i].name)
    ensures var p := RedirectParam(w, url, pu, i);
      |p.findings| == 1 <==> exists k :: 0 <= k < |RedirectPayloads| && Redirected(w, pu, i, RedirectPayloads[k])
    ensures var p := RedirectParam(w, url, pu, i);
      |p.findings| == 0 ==> p.requests == TestRequests(w, pu, i, RedirectPayloads, |RedirectPayloads|, false)
    ensures var p := RedirectParam(w, url, pu, i);
      |p.findings| == 1 ==>
        exists k :: 0 <= k < |RedirectPayloads| && Redirected(w, pu, i, RedirectPayloads[k])
          && (forall j :: 0 <= j < k ==> !Redirected(w, pu, i, RedirectPayloads[j]))
          && p.findings[0] == OpenRedirect(url, pu.query[i].name, RedirectPayloads[k],
                                           Location(w.get(TestUrl(w, pu, i, RedirectPayloads[k]), false).response))
          && p.requests == TestRequests(w, pu, i, RedirectPayloads, k + 1, false)
  {
    match RedirectHit(w, pu, i, 0)
    case None =>
    case Some(k) =>
  }

  function RedirectSweep(w: Web, url: string, pu: ParsedUrl, n: nat): (p: Probe)
    requires n <= |pu.query|
    ensures forall f :: f in p.findings ==> f.OpenRedirect? && f.url == url
  {
    if n == 0 then NoProbe else RedirectSweep(w, url, pu, n - 1).Then(RedirectParam(w, url, pu, n - 1))
  }

  lemma RedirectSweepStep(w: Web, url: string, pu: ParsedUrl, n: nat)
    requires n < |pu.query|
    ensures RedirectSweep(w, url, pu, n + 1).findings == RedirectSweep(w, url, pu, n).findings + RedirectParam(w, url, pu, n).findings
    ensures RedirectSweep(w, url, pu, n + 1).requests == RedirectSweep(w, url, pu, n).requests + RedirectParam(w, url, pu, n).requests
  {
  }

  /** `_check_open_redirect(url)`: every parameter of the URL's query, in order. */
  function RedirectOf(w: Web, url: string): (p: Probe)
    ensures forall f :: f in p.findings ==> f.OpenRedirect? && f.url == url
  {
    var pu := w.parse(url);
    RedirectSweep(w, url, pu, |pu.query|)
  }

  // ---------------------------------------------------------------------------
  // Properties of the three detectors

  /** A URL without query parameters is skipped by all three detectors: no GET, no entry. */
  lemma NoQueryNoProbe(w: Web, url: string)
    requires w.parse(url).query == []
    ensures XssOf(w, url) == NoProbe && SqliOf(w, url) == NoProbe && RedirectOf(w, url) == NoProbe
  {
  }

  predicate DistinctNames(q: seq<Param>) {
    forall a, b :: 0 <= a < b < |q| ==> q[a].name != q[b].name
  }

  /** Parameter `i` yields at most one XSS entry, and it names that parameter. */
  lemma XssParamName(w: Web, url: string, pu: ParsedUrl, i: nat)
    requires i < |pu.query|
    ensures |XssParam(w, url, pu, i).findings| <= 1
    ensures AllXssNamed(XssParam(w, url, pu, i).findings, pu.query[i].name)
  {
  }

  /** XSS entries, no two for the same parameter. */
  predicate OnePerParam(fs: seq<Finding>) {
    forall a, b :: 0 <= a < b < |fs| ==> fs[a].Xss? && fs[b].Xss? && fs[a].parameter != fs[b].parameter
  }

  /** With distinct parameter names (as `parse_qs` gives them), a URL has at most one XSS entry per parameter. */
  lemma XssOnePerParam(w: Web, url: string, pu: ParsedUrl, n: nat)
    requires n <= |pu.query| && DistinctNames(pu.query)
    ensures OnePerParam(XssSweep(w, url, pu, n).findings)
  {
    XssSweepFlatten(w, url, pu, n);
    var parts := XssParts(w, url, pu, n);
    var names := seq(n, i requires 0 <= i < n => pu.query[i].name);
    forall i | 0 <= i < n ensures |parts[i]| <= 1 && AllXssNamed(parts[i], names[i]) {
      XssParamName(w, url, pu, i);
    }
    FlattenOnePerParam(parts, names);
  }

  /** Every entry is an XSS entry, and its parameter is (or is not) `name`. */
  predicate AllXssNamed(fs: seq<Finding>, name: string) {
    forall f :: f in fs ==> f.Xss? && f.parameter == name
  }

  predicate NoXssNamed(fs: seq<Finding>, name: string) {
    forall f :: f in fs ==> f.Xss? && f.parameter != name
  }

  /** The entries of several probes, one after the other. */
  function Flatten(parts: seq<seq<Finding>>): (fs: seq<Finding>)
    ensures forall f :: f in fs ==> exists i :: 0 <= i < |parts| && f in parts[i]
  {
    if parts == [] then []
    else
      var init := parts[..|parts| - 1];
      var fs := Flatten(init) + parts[|parts| - 1];
      assert forall f :: f in Flatten(init) ==> exists i :: 0 <= i < |parts| && f in parts[i] by {
        forall f | f in Flatten(init) ensures exists i :: 0 <= i < |parts| && f in parts[i] {
          var i :| 0 <= i < |init| && f in init[i];
          assert f in parts[i];
        }
      }
      fs
  }

  /** The XSS entries of each of the first `n` parameters. */
  function XssParts(w: Web, url: string, pu: ParsedUrl, n: nat): (parts: seq<seq<Finding>>)
    requires n <= |pu.query|
    ensures |parts| == n
    ensures forall i :: 0 <= i < n ==> parts[i] == XssParam(w, url, pu, i).findings
  {
    seq(n, i requires 0 <= i < n => XssParam(w, url, pu, i).findings)
  }

  /** The sweep's entries are the per-parameter entries, parameter by parameter. */
  lemma {:induction false} XssSweepFlatten(w: Web, url: string, pu: ParsedUrl, n: nat)
    requires n <= |pu.query|
    ensures XssSweep(w, url, pu, n).findings == Flatten(XssParts(w, url, pu, n))
  {
    if n > 0 {
      XssSweepFlatten(w, url, pu, n - 1);
      assert XssParts(w, url, pu, n)[..n - 1] == XssParts(w, url, pu, n - 1);
    }
  }

  /** Groups of at most one XSS entry each, for distinct names, never repeat a name. */
  lemma {:induction false} FlattenOnePerParam(parts: seq<seq<Finding>>, names: seq<string>)
    requires |parts| == |names|
    requires forall i :: 0 <= i < |parts| ==> |parts[i]| <= 1 && AllXssNamed(parts[i], names[i])
    requires forall a, b :: 0 <= a < b < |names| ==> names[a] != names[b]
    ensures OnePerParam(Flatten(parts))
  {
    if parts != [] {
      var k := |parts| - 1;
      var init := parts[..k];
      FlattenOnePerParam(init, names[..k]);
      forall f | f in Flatten(init) ensures f.Xss? && f.parameter != names[k] {
        var i :| 0 <= i < |init| && f in init[i];
        assert f in parts[i];
      }
      OnePerParamAppend(Flatten(init), parts[k], names[k]);
    }
  }

  lemma OnePerParamAppend(prev: seq<Finding>, last: seq<Finding>, name: string)
    requires OnePerParam(prev) && NoXssNamed(prev, name)
    requires |last| <= 1 && AllXssNamed(last, name)
    ensures OnePerParam(prev + last)
  {
    var fs := prev + last;
    forall a, b | 0 <= a < b < |fs| ensures fs[a].Xss? && fs[b].Xss? && fs[a].parameter != fs[b].parameter {
      if b >= |prev| {
        assert fs[b] == last[b - |prev|] && fs[a] == prev[a];
        assert prev[a] in prev && last[b - |prev|] in last;
      } else {
        assert fs[a] == prev[a] && fs[b] == prev[b];
      }
    }
  }


  /** SQL-injection entries, each for one of the first `m` payloads, no payload twice. */
  predicate DistinctSqlPayloads(fs: seq<Finding>, m: nat) {
    && (forall a :: 0 <= a < |fs| ==> fs[a].Sqli? && exists j :: 0 <= j < m && j < |SqlPayloads| && fs[a].payload == SqlPayloads[j])
    && (forall a, b :: 0 <= a < b < |fs| ==> fs[a].Sqli? && fs[b].Sqli? && fs[a].payload != fs[b].payload)
  }

  /**
   * The SQL `break` leaves only the signature loop: every parameter is sent all
   * four payloads, whatever the earlier ones found, and yields at most one
   * entry per payload, each for a different payload.
   */
  lemma SqliAllPayloads(w: Web, url: string, pu: ParsedUrl, i: nat)
    requires i < |pu.query|
    ensures SqliParam(w, url, pu, i).requests == TestRequests(w, pu, i, SqlPayloads, |SqlPayloads|, true)
    ensures |SqliParam(w, url, pu, i).findings| <= |SqlPayloads|
    ensures DistinctSqlPayloads(SqliParam(w, url, pu, i).findings, |SqlPayloads|)
  {
    SqliPayloadsDistinct(w, url, pu, i, |SqlPayloads|);
  }

  /** The four SQL payloads are pairwise different (their lengths already differ). */
  lemma SqlPayloadsDistinct(a: nat, b: nat)
    requires a < b < |SqlPayloads|
    ensures SqlPayloads[a] != SqlPayloads[b]
  {
    assert |SqlPayloads[0]| == 1 && |SqlPayloads[1]| == 11 && |SqlPayloads[2]| == 16 && |SqlPayloads[3]| == 25;
  }

  /** The entries for the first `m` payloads each carry one of those payloads, no payload twice. */
  lemma {:induction false} SqliPayloadsDistinct(w: Web, url: string, pu: ParsedUrl, i: nat, m: nat)
    requires i < |pu.query| && m <= |SqlPayloads|
    ensures DistinctSqlPayloads(SqliPayloads(w, url, pu, i, m).findings, m)
  {
    if m > 0 {
      SqliPayloadsDistinct(w, url, pu, i, m - 1);
      var prev := SqliPayloads(w, url, pu, i, m - 1).findings;
      var last := SqliPayload(w, url, pu, i, m - 1).findings;
      var fs := SqliPayloads(w, url, pu, i, m).findings;
      assert fs == prev + last;
      forall a | 0 <= a < |fs| ensures fs[a].Sqli? && exists j :: 0 <= j < m && j < |SqlPayloads| && fs[a].payload == SqlPayloads[j] {
        if a < |prev| {
          assert fs[a] == prev[a];
        } else {
          assert fs[a] == last[0];
        }
      }
      forall a, b | 0 <= a < b < |fs| ensures fs[a].Sqli? && fs[b].Sqli? && fs[a].payload != fs[b].payload {
        if b >= |prev| {
          assert fs[b] == last[b - |prev|] && b - |prev| == 0;
          assert fs[b].payload == SqlPayloads[m - 1];
          assert fs[a] == prev[a];
          var j :| 0 <= j < m - 1 && prev[a].payload == SqlPayloads[j];
          SqlPayloadsDistinct(j, m - 1);
        } else {
          assert fs[a] == prev[a] && fs[b] == prev[b];
        }
      }
    }
  }

  // ---------------------------------------------------------------------------
  // Security headers

  /** The entries of `hs` whose header the response lacks, in the order of `hs`. */
  function MissingAmong(r: Response, hs: seq<(string, string)>): (m: seq<MissingHeader>)
    ensures |m| <= |hs|
  {
    if hs == [] then []
    else
      var h := hs[|hs| - 1];
      MissingAmong(r, hs[..|hs| - 1]) + (if HasHeader(r, h.0) then [] else [MissingHeader(h.0, h.1)])
  }

  /** Checking a longer header list appends the misses of the extra part: the fixed order is kept. */
  lemma {:induction false} MissingAmongAppend(r: Response, a: seq<(string, string)>, b: seq<(string, string)>)
    ensures MissingAmong(r, a + b) == MissingAmong(r, a) + MissingAmong(r, b)
    decreases |b|
  {
    if b == [] {
      assert a + b == a;
    } else {
      assert (a + b)[..|a + b| - 1] == a + b[..|b| - 1];
      assert (a + b)[|a + b| - 1] == b[|b| - 1];
      MissingAmongAppend(r, a, b[..|b| - 1]);
    }
  }

  /** A header is reported missing exactly when the response lacks it. */
  lemma {:induction false} MissingAmongMembers(r: Response, hs: seq<(string, string)>, h: string, msg: string)
    ensures MissingHeader(h, msg) in MissingAmong(r, hs) <==> (h, msg) in hs && !HasHeader(r, h)
  {
    if hs != [] {
      MissingAmongMembers(r, hs[..|hs| - 1], h, msg);
      assert hs == hs[..|hs| - 1] + [hs[|hs| - 1]];
    }
  }

  /** When the response has every listed header, nothing is missing. */
  lemma {:induction false} MissingAmongNone(r: Response, hs: seq<(string, string)>)
    requires forall k :: 0 <= k < |hs| ==> HasHeader(r, hs[k].0)
    ensures MissingAmong(r, hs) == []
  {
    if hs != [] {
      MissingAmongNone(r, hs[..|hs| - 1]);
    }
  }

  /** The audit: one GET of the target URL, and at most one entry listing every missing header. */
  function HeaderAudit(w: Web, target: string): (p: Probe)
    ensures p.requests == [Request(target, true)]
    ensures |p.findings| <= 1
  {
    match w.get(target, true)
    case Failed(_) => Probe([], [Request(target, true)])
    case Got(r) =>
      var m := MissingAmong(r, SecurityHeaders);
      Probe(if m == [] then [] else [InsecureHeaders(target, m)], [Request(target, true)])
  }

  /**
   * When the target answers, the audit appends exactly one entry when at least
   * one of the five headers is absent, and none when all are present.
   */
  lemma HeaderAuditEntry(w: Web, target: string, r: Response)
    requires w.get(target, true) == Got(r)
    ensures |HeaderAudit(w, target).findings| == 1 <==> exists k :: 0 <= k < |SecurityHeaders| && !HasHeader(r, SecurityHeaders[k].0)
  {
    var m := MissingAmong(r, SecurityHeaders);
    if exists k :: 0 <= k < |SecurityHeaders| && !HasHeader(r, SecurityHeaders[k].0) {
      var k :| 0 <= k < |SecurityHeaders| && !HasHeader(r, SecurityHeaders[k].0);
      assert SecurityHeaders[k] in SecurityHeaders;
      MissingAmongMembers(r, SecurityHeaders, SecurityHeaders[k].0, SecurityHeaders[k].1);
    } else {
      MissingAmongNone(r, SecurityHeaders);
    }
  }

  /** The entry lists precisely the absent headers, each with its message, in the fixed order. */
  lemma HeaderAuditContents(w: Web, target: string, r: Response)
    requires w.get(target, true) == Got(r) && |HeaderAudit(w, target).findings| == 1
    ensures HeaderAudit(w, target).findings == [InsecureHeaders(target, MissingAmong(r, SecurityHeaders))]
    ensures 1 <= |MissingAmong(r, SecurityHeaders)| <= |SecurityHeaders|
    ensures forall h, msg :: MissingHeader(h, msg) in MissingAmong(r, SecurityHeaders) <==> (h, msg) in SecurityHeaders && !HasHeader(r, h)
  {
    forall h, msg ensures MissingHeader(h, msg) in MissingAmong(r, SecurityHeaders) <==> (h, msg) in SecurityHeaders && !HasHeader(r, h) {
      MissingAmongMembers(r, SecurityHeaders, h, msg);
    }
  }

  /** The count in an InsecureHeaders entry's details reads back with `int` as the number of missing headers. */
  lemma DetailsCount(url: string, m: seq<MissingHeader>)
    ensures var d := InsecureHeaders(url, m).Details();
      PyInt.ParseInt(d[|"Missing "|..|"Missing "| + |DecimalString(|m|)|], 10) == Some(|m|)
  {
    var digits := DecimalString(|m|);
    var d := InsecureHeaders(url, m).Details();
    assert d == "Missing " + digits + " security headers";
    assert d[|"Missing "|..|"Missing "| + |digits|] == digits;
    PyInt.DecimalRoundTrip(|m|);
  }

  // ---------------------------------------------------------------------------
  // Cookie string

  /** One `;`-separated chunk: ignored without '='; else the stripped chunk split at its first '='. */
  function CookiePair(chunk: string): (r: Option<(string, string)>)
    ensures r.Some? <==> '=' in chunk
    ensures r.Some? ==> Strip(chunk) == r.value.0 + "=" + r.value.1 && '=' !in r.value.0
  {
    if '=' !in chunk then None
    else
      var t := Strip(chunk);
      StripKeeps(chunk, '=');
      var i := IndexOf(t, '=');
      assert t == t[..i] + "=" + t[i + 1..];
      Some((t[..i], t[i + 1..]))
  }

  /** The cookie dictionary after the loop has seen `chunks`. */
  function CookiesFrom(chunks: seq<string>): (m: map<string, string>)
    ensures forall name :: name in m ==> '=' !in name
  {
    if chunks == [] then map[]
    else
      var m := CookiesFrom(chunks[..|chunks| - 1]);
      var c := CookiePair(chunks[|chunks| - 1]);
      if c.None? then m else m[c.value.0 := c.value.1]
  }

  /** A chunk holding '=' is the stripped chunk cut at its first '='. */
  lemma CookiePairSplit(chunk: string)
    requires '=' in chunk
    ensures '=' in Strip(chunk)
    ensures var t := Strip(chunk); var i := IndexOf(t, '=');
      CookiePair(chunk) == Some((t[..i], t[i + 1..]))
  {
    StripKeeps(chunk, '=');
  }

  /** One more chunk: the dictionary so far, updated by that chunk's pair if it has one. */
  lemma CookiesFromStep(chunks: seq<string>, i: nat)
    requires i < |chunks|
    ensures var m := CookiesFrom(chunks[..i]); var c := CookiePair(chunks[i]);
      CookiesFrom(chunks[..i + 1]) == if c.None? then m else m[c.value.0 := c.value.1]
  {
    assert chunks[..i + 1][..i] == chunks[..i];
  }

  /** The cookies read from the file's text (None when there is no cookie file or it cannot be read). */
  function ParseCookies(text: Option<string>): (m: map<string, string>)
    ensures text.None? ==> m == map[]
    ensures forall name :: name in m ==> '=' !in name
  {
    match text
    case None => map[]
    case Some(data) => CookiesFrom(Split(Strip(data), ';'))
  }

  /** A chunk that defines `name`. */
  predicate Defines(chunk: string, name: string) {
    CookiePair(chunk).Some? && CookiePair(chunk).value.0 == name
  }

  /** A name is a cookie exactly when some chunk defines it. */
  lemma {:induction false} CookieNames(chunks: seq<string>, name: string)
    ensures name in CookiesFrom(chunks) <==> exists j :: 0 <= j < |chunks| && Defines(chunks[j], name)
  {
    if chunks != [] {
      var init := chunks[..|chunks| - 1];
      var lastDefines := Defines(chunks[|chunks| - 1], name);
      CookieNames(init, name);
      assert name in CookiesFrom(chunks) <==> name in CookiesFrom(init) || lastDefines;
      assert forall j :: 0 <= j < |init| ==> init[j] == chunks[j];
    }
  }

  /** A cookie's value is the one given by the LAST chunk that defines its name. */
  lemma {:induction false} CookieLastWins(chunks: seq<string>, name: string, j: nat)
    requires j < |chunks| && Defines(chunks[j], name)
    requires forall l :: j < l < |chunks| ==> !Defines(chunks[l], name)
    ensures name in CookiesFrom(chunks) && CookiesFrom(chunks)[name] == CookiePair(chunks[j]).value.1
  {
    var init := chunks[..|chunks| - 1];
    if j < |chunks| - 1 {
      assert !Defines(chunks[|chunks| - 1], name);
      assert init[j] == chunks[j];
      forall l | j < l < |init| ensures !Defines(init[l], name) {
        assert init[l] == chunks[l];
      }
      CookieLastWins(init, name, j);
    }
  }

  // ---------------------------------------------------------------------------
  // Crawl

  /** What the crawl changes: the visited set, the GETs issued and the directory-listing list. */
  datatype CrawlState = CrawlState(visited: set<string>, requests: seq<Request>, listings: seq<Finding>)

  predicate IsListingPage(r: Response) {
    Contains(r.body, ListingMarker) && r.status == 200
  }

  /** The crawler's fetch of `url` succeeds with a directory-listing page. */
  predicate ListedAt(w: Web, url: string) {
    var f := w.get(url, true);
    f.Got? && IsListingPage(f.response)
  }

  /** A link the crawler follows: same prefix as the base URL and no '#'. */
  predicate Followable(base: string, link: string) {
    base <= link && '#' !in link
  }

  /** `_crawl_site(url, depth)`. */
  function Visit(w: Web, base: string, s: CrawlState, url: string, depth: nat): CrawlState
    decreases depth, 1, 0
  {
    if depth == 0 || url in s.visited || !(base <= url) then s
    else
      var s1 := CrawlState(s.visited + {url}, s.requests + [Request(url, true)], s.listings);
      match w.get(url, true)
      case Failed(_) => s1
      case Got(r) =>
        var s2 := if IsListingPage(r) then s1.(listings := s1.listings + [DirectoryListing(url)]) else s1;
        Follow(w, base, s2, w.links(url, r.body), depth - 1)
  }

  /** The loop over a page's links, recursing at the given (already reduced) depth. */
  function Follow(w: Web, base: string, s: CrawlState, links: seq<string>, depth: nat): CrawlState
    decreases depth + 1, 0, |links|
  {
    if links == [] then s
    else
      var s' := if Followable(base, links[0]) && links[0] !in s.visited then Visit(w, base, s, links[0], depth) else s;
      Follow(w, base, s', links[1..], depth)
  }

  /**
   * How the crawl state may grow from `s` to `t`: nothing is lost; every new
   * GET fetches (following redirects) a newly visited URL, no URL twice, and
   * every newly visited URL starts with the base URL and was fetched; the new
   * directory-listing entries are exactly the newly visited URLs whose page
   * is a listing, each once.
   */
  ghost predicate Grows(w: Web, base: string, s: CrawlState, t: CrawlState) {
    && s.visited <= t.visited
    && s.requests <= t.requests
    && s.listings <= t.listings
    && (forall k :: |s.requests| <= k < |t.requests| ==>
          t.requests[k].followRedirects && t.requests[k].url in t.visited && t.requests[k].url !in s.visited)
    && (forall j, k :: |s.requests| <= j < k < |t.requests| ==> t.requests[j].url != t.requests[k].url)
    && (forall u :: u in t.visited && u !in s.visited ==> base <= u && Request(u, true) in t.requests[|s.requests|..])
    && (forall k :: |s.listings| <= k < |t.listings| ==>
          t.listings[k].DirectoryListing? && t.listings[k].url in t.visited && t.listings[k].url !in s.visited
          && ListedAt(w, t.listings[k].url))
    && (forall j, k :: |s.listings| <= j < k < |t.listings| ==> t.listings[j].url != t.listings[k].url)
    && (forall u :: u in t.visited && u !in s.visited && ListedAt(w, u) ==> DirectoryListing(u) in t.listings[|s.listings|..])
  }

  lemma GrowsRefl(w: Web, base: string, s: CrawlState)
    ensures Grows(w, base, s, s)
  {
  }

  lemma {:induction false} GrowsTrans(w: Web, base: string, s: CrawlState, t: CrawlState, u: CrawlState)
    requires Grows(w, base, s, t) && Grows(w, base, t, u)
    ensures Grows(w, base, s, u)
  {
    assert u.requests[|s.requests|..] == t.requests[|s.requests|..] + u.requests[|t.requests|..];
    assert u.listings[|s.listings|..] == t.listings[|s.listings|..] + u.listings[|t.listings|..];
    forall k | |s.requests| <= k < |t.requests| ensures u.requests[k] == t.requests[k] { }
    forall k | |s.listings| <= k < |t.listings| ensures u.listings[k] == t.listings[k] { }
  }

  /** One page visit: the URL joins the visited set, is fetched, and is listed when its page is a listing. */
  lemma {:induction false} VisitStepGrows(w: Web, base: string, s: CrawlState, url: string, s2: CrawlState)
    requires url !in s.visited && base <= url
    requires s2.visited == s.visited + {url} && s2.requests == s.requests + [Request(url, true)]
    requires s2.listings == s.listings + (if ListedAt(w, url) then [DirectoryListing(url)] else [])
    ensures Grows(w, base, s, s2)
  {
    assert s2.requests[|s.requests|..] == [Request(url, true)];
  }

  /**
   * A visit keeps the growth guarantees, and every URL it adds besides its
   * start `url` came from the link filter, so holds no '#'.
   */
  lemma {:induction false} VisitGrows(w: Web, base: string, s: CrawlState, url: string, depth: nat)
    ensures Grows(w, base, s, Visit(w, base, s, url, depth))
    ensures var t := Visit(w, base, s, url, depth);
      forall u :: u in t.visited && u !in s.visited && u != url ==> '#' !in u
    decreases depth, 1, 0
  {
    VisitNoHash(w, base, s, url, depth);
    if depth == 0 || url in s.visited || !(base <= url) {
      GrowsRefl(w, base, s);
    } else {
      var s1 := CrawlState(s.visited + {url}, s.requests + [Request(url, true)], s.listings);
      match w.get(url, true)
      case Failed(_) =>
        VisitStepGrows(w, base, s, url, s1);
      case Got(r) =>
        var s2 := if IsListingPage(r) then s1.(listings := s1.listings + [DirectoryListing(url)]) else s1;
        VisitStepGrows(w, base, s, url, s2);
        FollowGrows(w, base, s2, w.links(url, r.body), depth - 1);
        GrowsTrans(w, base, s, s2, Visit(w, base, s, url, depth));
    }
  }

  /** The link loop keeps the growth guarantees; every URL it adds passes the link filter. */
  lemma {:induction false} FollowGrows(w: Web, base: string, s: CrawlState, links: seq<string>, depth: nat)
    ensures Grows(w, base, s, Follow(w, base, s, links, depth))
    ensures var t := Follow(w, base, s, links, depth);
      forall u :: u in t.visited && u !in s.visited ==> Followable(base, u)
    decreases depth + 1, 0, |links|
  {
    FollowNoHash(w, base, s, links, depth);
    if links == [] {
      GrowsRefl(w, base, s);
    } else {
      var s' := if Followable(base, links[0]) && links[0] !in s.visited then Visit(w, base, s, links[0], depth) else s;
      if Followable(base, links[0]) && links[0] !in s.visited {
        VisitGrows(w, base, s, links[0], depth);
      } else {
        GrowsRefl(w, base, s);
      }
      FollowGrows(w, base, s', links[1..], depth);
      GrowsTrans(w, base, s, s', Follow(w, base, s, links, depth));
    }
  }

  /**
   * The visited set only grows; every URL a visit adds starts with the base
   * URL, and every one besides its start holds no '#'.
   */
  lemma {:induction false} VisitNoHash(w: Web, base: string, s: CrawlState, url: string, depth: nat)
    ensures var t := Visit(w, base, s, url, depth);
      && s.visited <= t.visited
      && forall u :: u in t.visited && u !in s.visited ==> base <= u && (u != url ==> '#' !in u)
    decreases depth, 1, 0
  {
    if !(depth == 0 || url in s.visited || !(base <= url)) {
      var s1 := CrawlState(s.visited + {url}, s.requests + [Request(url, true)], s.listings);
      match w.get(url, true)
      case Failed(_) =>
      case Got(r) =>
        var s2 := if IsListingPage(r) then s1.(listings := s1.listings + [DirectoryListing(url)]) else s1;
        FollowNoHash(w, base, s2, w.links(url, r.body), depth - 1);
    }
  }

  /** The visited set only grows, and every URL the link loop adds passed the link filter. */
  lemma {:induction false} FollowNoHash(w: Web, base: string, s: CrawlState, links: seq<string>, depth: nat)
    ensures var t := Follow(w, base, s, links, depth);
      && s.visited <= t.visited
      && forall u :: u in t.visited && u !in s.visited ==> Followable(base, u)
    decreases depth + 1, 0, |links|
  {
    if links != [] {
      var s' := if Followable(base, links[0]) && links[0] !in s.visited then Visit(w, base, s, links[0], depth) else s;
      if Followable(base, links[0]) && links[0] !in s.visited {
        VisitNoHash(w, base, s, links[0], depth);
      }
      FollowNoHash(w, base, s', links[1..], depth);
    }
  }

  /** The URLs within `depth` link hops of `url` (`url` itself at hop 0), following every extracted link. */
  ghost function Reach(w: Web, url: string, depth: nat): set<string>
    decreases depth, 1, 0
  {
    if depth == 0 then {}
    else
      {url} + match w.get(url, true)
              case Failed(_) => {}
              case Got(r) => ReachAll(w, w.links(url, r.body), depth - 1)
  }

  ghost function ReachAll(w: Web, links: seq<string>, depth: nat): set<string>
    decreases depth + 1, 0, |links|
  {
    if links == [] then {} else Reach(w, links[0], depth) + ReachAll(w, links[1..], depth)
  }

  /** The depth bound: a visit adds only URLs within `depth - 1` hops of its start. */
  lemma {:induction false} VisitWithin(w: Web, base: string, s: CrawlState, url: string, depth: nat)
    ensures Visit(w, base, s, url, depth).visited <= s.visited + Reach(w, url, depth)
    decreases depth, 1, 0
  {
    if !(depth == 0 || url in s.visited || !(base <= url)) {
      var s1 := CrawlState(s.visited + {url}, s.requests + [Request(url, true)], s.listings);
      match w.get(url, true)
      case Failed(_) =>
      case Got(r) =>
        var s2 := if IsListingPage(r) then s1.(listings := s1.listings + [DirectoryListing(url)]) else s1;
        FollowWithin(w, base, s2, w.links(url, r.body), depth - 1);
    }
  }

  lemma {:induction false} FollowWithin(w: Web, base: string, s: CrawlState, links: seq<string>, depth: nat)
    ensures Follow(w, base, s, links, depth).visited <= s.visited + ReachAll(w, links, depth)
    decreases depth + 1, 0, |links|
  {
    if links != [] {
      var s' := if Followable(base, links[0]) && links[0] !in s.visited then Visit(w, base, s, links[0], depth) else s;
      if Followable(base, links[0]) && links[0] !in s.visited {
        VisitWithin(w, base, s, links[0], depth);
      }
      FollowWithin(w, base, s', links[1..], depth);
    }
  }

  lemma {:induction false} ReachAllZero(w: Web, links: seq<string>)
    ensures ReachAll(w, links, 0) == {}
  {
    if links != [] {
      ReachAllZero(w, links[1..]);
    }
  }

  lemma {:induction false} ReachAllOne(w: Web, links: seq<string>)
    ensures ReachAll(w, links, 1) == set l | l in links
  {
    if links != [] {
      var first := links[0];
      match w.get(first, true) {
        case Failed(_) =>
        case Got(r) => ReachAllZero(w, w.links(first, r.body));
      }
      ReachAllOne(w, links[1..]);
      assert links == [first] + links[1..];
    }
  }

  /** From the default depth 2 the crawl reaches only the seed and the links on the seed page. */
  lemma {:induction false} DefaultDepthOneHop(w: Web, base: string, s: CrawlState, seed: string)
    ensures var t := Visit(w, base, s, seed, DefaultDepth);
      forall u :: u in t.visited && u !in s.visited ==>
        u == seed || (w.get(seed, true).Got? && u in w.links(seed, w.get(seed, true).response.body))
  {
    VisitWithin(w, base, s, seed, DefaultDepth);
    match w.get(seed, true)
    case Failed(_) =>
    case Got(r) => ReachAllOne(w, w.links(seed, r.body));
  }

  // ---------------------------------------------------------------------------
  // The probing phase over a list of URLs

  /** The three detectors' output over `urls`, in that order, category by category. */
  datatype Batch = Batch(xss: seq<Finding>, sqli: seq<Finding>, openRedirect: seq<Finding>, requests: seq<Request>)

  /** `_scan_url(url)`: XSS, then SQL injection, then open redirect. */
  function ScanUrlOf(w: Web, url: string): (b: Batch)
    ensures forall f :: f in b.xss ==> f.Xss? && f.url == url
    ensures forall f :: f in b.sqli ==> f.Sqli? && f.url == url
    ensures forall f :: f in b.openRedirect ==> f.OpenRedirect? && f.url == url
  {
    var x := XssOf(w, url);
    var q := SqliOf(w, url);
    var o := RedirectOf(w, url);
    Batch(x.findings, q.findings, o.findings, x.requests + q.requests + o.requests)
  }

  function ScanAll(w: Web, urls: seq<string>): (b: Batch)
    ensures forall f :: f in b.xss ==> f.Xss? && f.url in urls
    ensures forall f :: f in b.sqli ==> f.Sqli? && f.url in urls
    ensures forall f :: f in b.openRedirect ==> f.OpenRedirect? && f.url in urls
  {
    if urls == [] then Batch([], [], [], [])
    else
      var prev := ScanAll(w, urls[..|urls| - 1]);
      var last := ScanUrlOf(w, urls[|urls| - 1]);
      Batch(prev.xss + last.xss, prev.sqli + last.sqli, prev.openRedirect + last.openRedirect, prev.requests + last.requests)
  }

  /** One more URL: each list and the request log grow by that URL's batch. */
  lemma ScanAllStep(w: Web, urls: seq<string>, u: string)
    ensures var a := ScanAll(w, urls); var b := ScanAll(w, urls + [u]); var c := ScanUrlOf(w, u);
      && b.xss == a.xss + c.xss && b.sqli == a.sqli + c.sqli && b.openRedirect == a.openRedirect + c.openRedirect
      && b.requests == a.requests + c.requests
  {
    assert (urls + [u])[..|urls|] == urls;
  }
}
