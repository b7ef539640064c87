/**
 * The `WebVulnScanner` object: the target, the base URL every crawled page
 * must start with, the visited set, the cookies and the five result lists,
 * updated in place by the crawl, the three query-parameter detectors and the
 * header audit.  Each method is proved to leave the object in the state the
 * matching function of module WebModel describes; `requests` is a ghost log of
 * the GETs issued, in order.
 */
module WebScanner {

  import opened Wrappers
  import opened Strings
  import opened Http
  import opened WebModel
  import opened Seqs

  class WebVulnScanner {
    const web: Web
    const targetUrl: string
    const baseUrl: string
    var visited: set<string>
    var cookies: map<string, string>
    var results: Report
    ghost var requests: seq<Request>

    /**
     * What the scanner keeps true: every list holds its own kind of entry,
     * only URLs under the base URL are ever visited, and every directory
     * listing was found on a visited page.
     */
    ghost predicate Valid()
      reads this
    {
      && results.WellFormed()
      && (forall u :: u in visited ==> baseUrl <= u)
      && (forall f :: f in results.directoryListing ==> f.DirectoryListing? && f.url in visited)
    }

    /** The part of the state the crawl changes. */
    ghost function State(): CrawlState
      reads this
    {
      CrawlState(visited, requests, results.directoryListing)
    }

    /**
     * `__init__`: the base URL is scheme and host of the target; `cookieText`
     * is the cookie file's content when a file was given and could be read.
     */
    constructor(web: Web, url: string, cookieText: Option<string>)
      ensures this.web == web && targetUrl == url
      ensures baseUrl == web.parse(url).scheme + "://" + web.parse(url).netloc
      ensures visited == {} && results == EmptyReport && requests == []
      ensures cookies == ParseCookies(cookieText)
      ensures Valid()
    {
      this.web := web;
      targetUrl := url;
      var pu := web.parse(url);
      baseUrl := pu.scheme + "://" + pu.netloc;
      visited := {};
      results := EmptyReport;
      requests := [];
      var jar := LoadCookies(cookieText);
      cookies := jar;
    }

    /** `_crawl_site(url, depth)`. */
    method Crawl(url: string, depth: nat)
      modifies this
      ensures State() == Visit(web, baseUrl, old(State()), url, depth)
      ensures results == old(results).(directoryListing := results.directoryListing)
      ensures cookies == old(cookies)
      ensures old(Valid()) ==> Valid()
      decreases depth
    {
      ghost var s0 := State();
      VisitGrows(web, baseUrl, s0, url, depth);
      if depth == 0 || url in visited || !(baseUrl <= url) {
        return;
      }
      visited := visited + {url};
      requests := requests + [Request(url, true)];
      var fetched := web.get(url, true);
      if fetched.Failed? {
        return;
      }
      var response := fetched.response;
      if Contains(response.body, ListingMarker) && response.status == 200 {
        results := results.(directoryListing := results.directoryListing + [DirectoryListing(url)]);
      }
      var links := web.links(url, response.body);
      ghost var s2 := State();
      var i := 0;
      while i < |links|
        invariant 0 <= i <= |links|
        invariant Follow(web, baseUrl, State(), links[i..], depth - 1) == Follow(web, baseUrl, s2, links, depth - 1)
        invariant results == old(results).(directoryListing := results.directoryListing)
        invariant cookies == old(cookies)
      {
        var link := links[i];
        assert links[i..][0] == link && links[i..][1..] == links[i + 1..];
        if baseUrl <= link && '#' !in link {
          if link !in visited {
            Crawl(link, depth - 1);
          }
        }
        i := i + 1;
      }
    }

    /** `_check_xss(url)`: appends the XSS entries for `url`. */
    method CheckXss(url: string)
      modifies this
      ensures results == old(results).(xss := old(results).xss + XssOf(web, url).findings)
      ensures requests == old(requests) + XssOf(web, url).requests
      ensures visited == old(visited) && cookies == old(cookies)
    {
      var found;
      ghost var sent;
      found, sent := ProbeXss(web, url);
      results := results.(xss := results.xss + found);
      requests := requests + sent;
    }

    /** `_check_sql_injection(url)`: appends the SQL-injection entries for `url`. */
    method CheckSqlInjection(url: string)
      modifies this
      ensures results == old(results).(sqli := old(results).sqli + SqliOf(web, url).findings)
      ensures requests == old(requests) + SqliOf(web, url).requests
      ensures visited == old(visited) && cookies == old(cookies)
    {
      var found;
      ghost var sent;
      found, sent := ProbeSqli(web, url);
      results := results.(sqli := results.sqli + found);
      requests := requests + sent;
    }

    /** `_check_open_redirect(url)`: appends the open-redirect entries for `url`. */
    method CheckOpenRedirect(url: string)
      modifies this
      ensures results == old(results).(openRedirect := old(results).openRedirect + RedirectOf(web, url).findings)
      ensures requests == old(requests) + RedirectOf(web, url).requests
      ensures visited == old(visited) && cookies == old(cookies)
    {
      var found;
      ghost var sent;
      found, sent := ProbeRedirect(web, url);
      results := results.(openRedirect := results.openRedirect + found);
      requests := requests + sent;
    }

    /** `_scan_url(url)`: the three detectors in turn. */
    method ScanUrl(url: string)
      modifies this
      ensures results.xss == old(results).xss + ScanUrlOf(web, url).xss
      ensures results.sqli == old(results).sqli + ScanUrlOf(web, url).sqli
      ensures results.openRedirect == old(results).openRedirect + ScanUrlOf(web, url).openRedirect
      ensures results.insecureHeaders == old(results).insecureHeaders
      ensures results.directoryListing == old(results).directoryListing
      ensures requests == old(requests) + ScanUrlOf(web, url).requests
      ensures visited == old(visited) && cookies == old(cookies)
    {
      CheckXss(url);
      CheckSqlInjection(url);
      CheckOpenRedirect(url);
      AppendThree(old(requests), XssOf(web, url).requests, SqliOf(web, url).requests, RedirectOf(web, url).requests);
    }

    /** `_check_security_headers()`: appends at most one entry for the target URL. */
    method CheckSecurityHeaders()
      modifies this
      ensures results == old(results).(insecureHeaders := old(results).insecureHeaders + HeaderAudit(web, targetUrl).findings)
      ensures requests == old(requests) + HeaderAudit(web, targetUrl).requests
      ensures visited == old(visited) && cookies == old(cookies)
    {
      var found;
      ghost var sent;
      found, sent := AuditHeaders(web, targetUrl);
      results := results.(insecureHeaders := results.insecureHeaders + found);
      requests := requests + sent;
    }

    /**
     * `scan()`: crawl from the target at the default depth, run the three
     * detectors on every visited URL (in the order `order` returns), then
     * audit the target's headers.
     */
    method Scan() returns (ghost order: seq<string>)
      requires Valid()
      modifies this
      ensures Valid()
      ensures var t := Visit(web, baseUrl, old(State()), targetUrl, DefaultDepth);
        visited == t.visited && results.directoryListing == t.listings
      ensures (forall u :: u in order <==> u in visited) && (forall a, b :: 0 <= a < b < |order| ==> order[a] != order[b])
      ensures var b := ScanAll(web, order);
        && results.xss == old(results).xss + b.xss
        && results.sqli == old(results).sqli + b.sqli
        && results.openRedirect == old(results).openRedirect + b.openRedirect
      ensures results.insecureHeaders == old(results).insecureHeaders + HeaderAudit(web, targetUrl).findings
      ensures requests == Visit(web, baseUrl, old(State()), targetUrl, DefaultDepth).requests
                          + ScanAll(web, order).requests + HeaderAudit(web, targetUrl).requests
      ensures cookies == old(cookies)
    {
      Crawl(targetUrl, DefaultDepth);
      order := ScanVisited();
      CheckSecurityHeaders();
    }

    /** The loop of `scan()` over the visited set, in the order the set is iterated. */
    method ScanVisited() returns (ghost order: seq<string>)
      modifies this
      ensures visited == old(visited) && cookies == old(cookies)
      ensures (forall u :: u in order <==> u in visited) && (forall a, b :: 0 <= a < b < |order| ==> order[a] != order[b])
      ensures results.xss == old(results).xss + ScanAll(web, order).xss
      ensures results.sqli == old(results).sqli + ScanAll(web, order).sqli
      ensures results.openRedirect == old(results).openRedirect + ScanAll(web, order).openRedirect
      ensures results.insecureHeaders == old(results).insecureHeaders
      ensures results.directoryListing == old(results).directoryListing
      ensures requests == old(requests) + ScanAll(web, order).requests
    {
      var left := visited;
      order := [];
      while left != {}
        invariant left <= visited
        invariant forall u :: u in visited <==> u in left || u in order
        invariant forall u :: u in order ==> u !in left
        invariant forall a, b :: 0 <= a < b < |order| ==> order[a] != order[b]
        invariant visited == old(visited) && cookies == old(cookies)
        invariant results.xss == old(results).xss + ScanAll(web, order).xss
        invariant results.sqli == old(results).sqli + ScanAll(web, order).sqli
        invariant results.openRedirect == old(results).openRedirect + ScanAll(web, order).openRedirect
        invariant results.insecureHeaders == old(results).insecureHeaders
        invariant results.directoryListing == old(results).directoryListing
        invariant requests == old(requests) + ScanAll(web, order).requests
        decreases left
      {
        var url :| url in left;
        ScanUrl(url);
        ScanAllStep(web, order, url);
        ghost var now := ScanAll(web, order);
        ghost var step := ScanUrlOf(web, url);
        Assoc(old(results).xss, now.xss, step.xss);
        Assoc(old(results).sqli, now.sqli, step.sqli);
        Assoc(old(results).openRedirect, now.openRedirect, step.openRedirect);
        Assoc(old(requests), now.requests, step.requests);
        order := order + [url];
        left := left - {url};
      }
    }
  }

  /** The cookie loop of `__init__`: every `;`-separated chunk holding '=' sets one cookie. */
  method LoadCookies(cookieText: Option<string>) returns (jar: map<string, string>)
    ensures jar == ParseCookies(cookieText)
  {
    jar := map[];
    if cookieText.Some? {
      var pairs := Split(Strip(cookieText.value), ';');
      var i := 0;
      while i < |pairs|
        invariant 0 <= i <= |pairs|
        invariant jar == CookiesFrom(pairs[..i])
      {
        var pair := pairs[i];
        CookiesFromStep(pairs, i);
        if '=' in pair {
          CookiePairSplit(pair);
          var t := Strip(pair);
          var k := IndexOf(t, '=');
          jar := jar[t[..k] := t[k + 1..]];
        }
        i := i + 1;
      }
      assert pairs[..|pairs|] == pairs;
    }
  }

  /** The loops of `_check_xss`: every parameter in turn. */
  method ProbeXss(web: Web, url: string) returns (found: seq<Finding>, ghost sent: seq<Request>)
    ensures found == XssOf(web, url).findings && sent == XssOf(web, url).requests
  {
    var pu := web.parse(url);
    found, sent := [], [];
    var n := 0;
    while n < |pu.query|
      invariant 0 <= n <= |pu.query|
      invariant found == XssSweep(web, url, pu, n).findings && sent == XssSweep(web, url, pu, n).requests
    {
      var more;
      ghost var moreSent;
      more, moreSent := ProbeXssParam(web, url, pu, n);
      XssSweepStep(web, url, pu, n);
      found, sent := found + more, sent + moreSent;
      n := n + 1;
    }
  }

  /** The payload loop of `_check_xss` for parameter `n`: payloads in order up to the first reflected one. */
  method ProbeXssParam(web: Web, url: string, pu: ParsedUrl, n: nat) returns (found: seq<Finding>, ghost sent: seq<Request>)
    requires n < |pu.query|
    ensures found == XssParam(web, url, pu, n).findings && sent == XssParam(web, url, pu, n).requests
  {
    var name := pu.query[n].name;
    found, sent := [], [];
    var j := 0;
    while j < |XssPayloads|
      invariant 0 <= j <= |XssPayloads|
      invariant forall k :: 0 <= k < j ==> !Reflected(web, pu, n, XssPayloads[k])
      invariant found == [] && sent == TestRequests(web, pu, n, XssPayloads, j, true)
    {
      var payload := XssPayloads[j];
      var testUrl := pu.scheme + "://" + pu.netloc + pu.path + "?" + web.encode(pu.query[n := Param(name, [payload])]);
      assert testUrl == TestUrl(web, pu, n, payload);
      sent := sent + [Request(testUrl, true)];
      var fetched := web.get(testUrl, true);
      if fetched.Got? && Contains(fetched.response.body, payload) {
        found := found + [Xss(url, name, payload)];
        assert XssHit(web, pu, n, 0) == Some(j);
        return;
      }
      j := j + 1;
    }
    assert XssHit(web, pu, n, 0) == None;
  }

  /** The loops of `_check_sql_injection`: every parameter in turn. */
  method ProbeSqli(web: Web, url: string) returns (found: seq<Finding>, ghost sent: seq<Request>)
    ensures found == SqliOf(web, url).findings && sent == SqliOf(web, url).requests
  {
    var pu := web.parse(url);
    found, sent := [], [];
    var n := 0;
    while n < |pu.query|
      invariant 0 <= n <= |pu.query|
      invariant found == SqliSweep(web, url, pu, n).findings && sent == SqliSweep(web, url, pu, n).requests
    {
      var more;
      ghost var moreSent;
      more, moreSent := ProbeSqliParam(web, url, pu, n);
      SqliSweepStep(web, url, pu, n);
      found, sent := found + more, sent + moreSent;
      n := n + 1;
    }
  }

  /** The payload loop of `_check_sql_injection` for parameter `n`: every payload, whatever the earlier ones found. */
  method ProbeSqliParam(web: Web, url: string, pu: ParsedUrl, n: nat) returns (found: seq<Finding>, ghost sent: seq<Request>)
    requires n < |pu.query|
    ensures found == SqliParam(web, url, pu, n).findings && sent == SqliParam(web, url, pu, n).requests
  {
    found, sent := [], [];
    var j := 0;
    while j < |SqlPayloads|
      invariant 0 <= j <= |SqlPayloads|
      invariant found == SqliPayloads(web, url, pu, n, j).findings && sent == SqliPayloads(web, url, pu, n, j).requests
    {
      var more;
      ghost var moreSent;
      more, moreSent := ProbeSqlPayload(web, url, pu, n, j);
      SqliPayloadsStep(web, url, pu, n, j);
      found, sent := found + more, sent + moreSent;
      j := j + 1;
    }
  }

  /**
   * One payload of `_check_sql_injection`: one GET, and at most the first
   * matching error signature recorded; the `break` leaves only the signature
   * loop, so the caller goes on with the next payload.
   */
  method ProbeSqlPayload(web: Web, url: string, pu: ParsedUrl, n: nat, j: nat) returns (found: seq<Finding>, ghost sent: seq<Request>)
    requires n < |pu.query| && j < |SqlPayloads|
    ensures found == SqliPayload(web, url, pu, n, j).findings && sent == SqliPayload(web, url, pu, n, j).requests
  {
    var name := pu.query[n].name;
    var payload := SqlPayloads[j];
    var testUrl := pu.scheme + "://" + pu.netloc + pu.path + "?" + web.encode(pu.query[n := Param(name, [payload])]);
    assert testUrl == TestUrl(web, pu, n, payload);
    found, sent := [], [Request(testUrl, true)];
    var fetched := web.get(testUrl, true);
    if fetched.Got? {
      var body := fetched.response.body;
      var e := 0;
      while e < |SqlErrors|
        invariant 0 <= e <= |SqlErrors|
        invariant forall k :: 0 <= k < e ==> !Contains(body, SqlErrors[k])
        invariant found == []
      {
        if Contains(body, SqlErrors[e]) {
          found := found + [Sqli(url, name, payload, SqlErrors[e])];
          assert SqlErrorIn(body, 0) == Some(e);
          return;
        }
        e := e + 1;
      }
      assert SqlErrorIn(body, 0) == None;
    }
  }

  /** The loops of `_check_open_redirect`: every parameter in turn. */
  method ProbeRedirect(web: Web, url: string) returns (found: seq<Finding>, ghost sent: seq<Request>)
    ensures found == RedirectOf(web, url).findings && sent == RedirectOf(web, url).requests
  {
    var pu := web.parse(url);
    found, sent := [], [];
    var n := 0;
    while n < |pu.query|
      invariant 0 <= n <= |pu.query|
      invariant found == RedirectSweep(web, url, pu, n).findings && sent == RedirectSweep(web, url, pu, n).requests
    {
      var more;
      ghost var moreSent;
      more, moreSent := ProbeRedirectParam(web, url, pu, n);
      RedirectSweepStep(web, url, pu, n);
      found, sent := found + more, sent + moreSent;
      n := n + 1;
    }
  }

  /** Parameter `n` of `_check_open_redirect`: skipped unless its name looks like a redirect target, else payloads in order up to the first that redirects. */
  method ProbeRedirectParam(web: Web, url: string, pu: ParsedUrl, n: nat) returns (found: seq<Finding>, ghost sent: seq<Request>)
    requires n < |pu.query|
    ensures found == RedirectParam(web, url, pu, n).findings && sent == RedirectParam(web, url, pu, n).requests
  {
    var lowered := Lower(pu.query[n].name);
    if !(lowered in RedirectParams || Contains(lowered, "redir") || Contains(lowered, "url")) {
      return [], [];
    }
    found, sent := ProbeRedirectPayloads(web, url, pu, n);
  }

  /** The payload loop of `_check_open_redirect` for a parameter whose name looks like a redirect target. */
  method ProbeRedirectPayloads(web: Web, url: string, pu: ParsedUrl, n: nat) returns (found: seq<Finding>, ghost sent: seq<Request>)
    requires n < |pu.query| && IsRedirectParam(pu.query[n].name)
    ensures found == RedirectParam(web, url, pu, n).findings && sent == RedirectParam(web, url, pu, n).requests
  {
    var name := pu.query[n].name;
    found, sent := [], [];
    var j := 0;
    while j < |RedirectPayloads|
      invariant 0 <= j <= |RedirectPayloads|
      invariant forall k :: 0 <= k < j ==> !Redirected(web, pu, n, RedirectPayloads[k])
      invariant found == [] && sent == TestRequests(web, pu, n, RedirectPayloads, j, false)
    {
      var payload := RedirectPayloads[j];
      var testUrl := pu.scheme + "://" + pu.netloc + pu.path + "?" + web.encode(pu.query[n := Param(name, [payload])]);
      assert testUrl == TestUrl(web, pu, n, payload);
      sent := sent + [Request(testUrl, false)];
      var fetched := web.get(testUrl, false);
      if fetched.Got? && fetched.response.status in RedirectStatuses {
        var location := HeaderOr(fetched.response, "Location", "");
        if Contains(location, "example.com") {
          found := found + [OpenRedirect(url, name, payload, location)];
          RedirectHitFirst(web, pu, n, j);
          return;
        }
      }
      j := j + 1;
    }
    assert RedirectHit(web, pu, n, 0) == None;
  }

  /** The body of `_check_security_headers`: one GET of the target, then the five headers in order. */
  method AuditHeaders(web: Web, target: string) returns (found: seq<Finding>, ghost sent: seq<Request>)
    ensures found == HeaderAudit(web, target).findings && sent == HeaderAudit(web, target).requests
  {
    found := [];
    sent := [Request(target, true)];
    var fetched := web.get(target, true);
    if fetched.Got? {
      var response := fetched.response;
      var missing: seq<MissingHeader> := [];
      var k := 0;
      while k < |SecurityHeaders|
        invariant 0 <= k <= |SecurityHeaders|
        invariant missing == MissingAmong(response, SecurityHeaders[..k])
      {
        var (header, message) := SecurityHeaders[k];
        assert SecurityHeaders[..k + 1][..k] == SecurityHeaders[..k];
        if !HasHeader(response, header) {
          missing := missing + [MissingHeader(header, message)];
        }
        k := k + 1;
      }
      assert SecurityHeaders[..k] == SecurityHeaders;
      if missing != [] {
        found := [InsecureHeaders(target, missing)];
      }
    }
  }
}
