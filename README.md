# pysec-toolkit in Dafny

A model of the six offensive-security command-line tools of pysec-toolkit.
Each tool gets one Dafny module, and its properties are proved.

- **Web vulnerability scanner** (`WebModel`, `WebScanner`).
  - `WebVulnScanner` is a class whose visited set, cookie jar and five result lists are updated in place.
  - The crawl follows same-site links to depth 2 and records directory-listing pages.
  - Three query-parameter detectors run on every visited URL: reflected XSS, SQL error signatures, open redirect.
  - The target's five security headers are then audited.
  - Each method is proved to leave the object in the state a specification function describes.
  - Lemmas state what those functions guarantee.
- **Hash cracker** (`HashCracker`).
  - `validate_hash` checks the length per algorithm and requires `int(s, 16)` to succeed.
  - `crack_hash` runs a dictionary search over stripped, non-blank wordlist lines.
  - It returns the first line whose hex digest equals the target, ignoring case.
- **Directory enumeration** (`DirectoryEnumeration`).
  - Target clean-up and the `-x` extension list.
  - `check_directory`: the bare directory when `""` is an extension, then each non-empty extension, keeping every non-404 answer.
  - The collection loop.
- **Subdomain enumeration** (`SubdomainEnumeration`).
  - `check_domain`'s result record.
  - The protocol choice.
  - The nested submission loop (one task per subdomain and protocol).
  - The collection of answered hosts.
- **Port scanner** (`PortScanner`).
  - The `start-end` range argument.
  - `probe_port`.
  - `scan_port`'s counter and open-port list, modelled as a class.
  - The sorted summary.
- **SSH brute force** (`SshBruteForce`).
  - The mapping of exceptions to codes 0–3.
  - The message for each code.
  - The `--resume` offset.
  - The submission of non-blank password lines: `passwords_tried` is the file line number of the last submitted password.
  - The result loop, which prints the qualifying messages and stops at the first success.

Shared modules:

| module | what it models |
|---|---|
| `Wrappers` | `Option` |
| `Strings` | Python's `str.strip`, ASCII `lower`, `find`, `in`, `split`, decimal formatting, and the stripped-non-blank-lines comprehension |
| `PyInt` | `int(s, base)` for bases 10 and 16 |
| `Http` | the `requests` client as an oracle, with its exception classes |
| `Html` | `extract_title`, which the directory and subdomain tools define identically |

Library calls are parameters of the model: HTTP GET, `urlparse`/`parse_qs`, `urlencode`, BeautifulSoup link extraction with `urljoin`, socket `connect_ex`, paramiko's `connect`, and the `hashlib` digests. Thread pools run their tasks one at a time in submission order; `scan`'s pool runs over the visited set in an arbitrary order.

Three details of the code the model keeps:
- In `_check_sql_injection` the `break` leaves only the loop over error signatures. Every parameter is sent all four payloads, and one parameter can yield up to one entry per payload.
- The detectors append to the scanner's shared result lists.
- The open-redirect check looks for the literal text `example.com` in the `Location` header. All three payloads use that host.

## Model

| member | source | states |
|---|---|---|
| WebModel.Substitute | web-vuln-scanner/web_vuln_scanner.py:145-146 | the test parameters equal the original ones, except that the tested parameter has the single value `payload` |
| WebModel.TestUrl | web-vuln-scanner/web_vuln_scanner.py:132-149 | the test URL is `scheme://netloc path?` followed by the encoding of the substituted query |
| WebModel.Reflected | web-vuln-scanner/web_vuln_scanner.py:151-159 | the test page for a payload loads and its text contains the payload (the condition of line 159); XssHit and XssParamHit use it |
| WebModel.TestRequestsAt | web-vuln-scanner/web_vuln_scanner.py:144-157 | the j-th GET sent for a parameter carries the j-th payload substituted into that parameter |
| WebModel.XssHit | web-vuln-scanner/web_vuln_scanner.py:144-167 | the chosen payload is reflected and no earlier one was; `None` only when no payload from `k` on is reflected |
| WebModel.XssParam | web-vuln-scanner/web_vuln_scanner.py:143-167 | a parameter yields at most one XSS entry, for this URL and this parameter |
| WebModel.XssParamHit | web-vuln-scanner/web_vuln_scanner.py:144-167 | an entry exists iff some payload is reflected; it carries the first reflected payload; the payloads after it are not sent; without an entry all three are sent |
| WebModel.XssSweep | web-vuln-scanner/web_vuln_scanner.py:142-167 | the first n parameters yield at most n entries, all XSS entries for this URL |
| WebModel.XssOf | web-vuln-scanner/web_vuln_scanner.py:129-169 | `_check_xss` on one URL: every entry is an XSS entry for this URL (the no-query case is NoQueryNoProbe) |
| WebModel.XssSweepNamed | web-vuln-scanner/web_vuln_scanner.py:143-165 | every XSS entry names one of the parameters probed so far |
| WebModel.XssParamName | web-vuln-scanner/web_vuln_scanner.py:159-167 | one parameter's entries (at most one) all name that parameter |
| WebModel.XssOnePerParam | web-vuln-scanner/web_vuln_scanner.py:143-167 | with distinct parameter names, no two XSS entries of a URL share a parameter |
| WebModel.SqlErrorIn | web-vuln-scanner/web_vuln_scanner.py:212-222 | the signature found is in the body and no earlier signature in the list is; `None` only when none of them is |
| WebModel.SqliPayload | web-vuln-scanner/web_vuln_scanner.py:197-224 | exactly one GET; an entry iff the page loads and shows a signature; the entry names the first such signature |
| WebModel.SqliPayloads | web-vuln-scanner/web_vuln_scanner.py:196-224 | m payloads send exactly the m test GETs, in order, and yield at most m entries, each for this URL and parameter |
| WebModel.SqliParam | web-vuln-scanner/web_vuln_scanner.py:196-224 | one parameter sends exactly four GETs and yields at most four entries, each a SQL-injection entry for this URL and parameter |
| WebModel.SqliSweep | web-vuln-scanner/web_vuln_scanner.py:194-224 | every entry is a SQL-injection entry for this URL |
| WebModel.SqliOf | web-vuln-scanner/web_vuln_scanner.py:171-224 | `_check_sql_injection` on one URL: every entry is a SQL-injection entry for this URL |
| WebModel.SqliAllPayloads | web-vuln-scanner/web_vuln_scanner.py:196-222 | every parameter is sent all four payloads; it yields at most four entries, each for a different payload |
| WebModel.SqlPayloadsDistinct | web-vuln-scanner/web_vuln_scanner.py:177-182 | the four SQL payloads are pairwise different |
| WebModel.SqliPayloadsDistinct | web-vuln-scanner/web_vuln_scanner.py:196-222 | the entries for the first m payloads each carry one of those payloads, no payload twice |
| WebModel.RedirectHit | web-vuln-scanner/web_vuln_scanner.py:248-275 | the chosen payload's page is a 3xx whose Location contains example.com, and no earlier payload's page is; `None` only when none is |
| WebModel.IsRedirectParam | web-vuln-scanner/web_vuln_scanner.py:238-247 | the name filter: the lower-cased name is one of the listed redirect names or contains "redir" or "url" |
| WebModel.RedirectParamIgnoresCase | web-vuln-scanner/web_vuln_scanner.py:247 | the filter lower-cases the name first, so a name and its lower-cased form are treated alike |
| WebModel.Location | web-vuln-scanner/web_vuln_scanner.py:265 | the `Location` header of a response, or "" when it has none |
| WebModel.Redirected | web-vuln-scanner/web_vuln_scanner.py:255-266 | the non-following GET of the test page answers with one of the five redirect codes and a Location containing example.com |
| WebModel.RedirectedHasLocation | web-vuln-scanner/web_vuln_scanner.py:264-266 | a redirect that counts is a 3xx answer that carries a Location header holding example.com |
| WebModel.RedirectHitFirst | web-vuln-scanner/web_vuln_scanner.py:248-275 | the scan stops at payload j exactly when j redirects and none before it did |
| WebModel.RedirectParam | web-vuln-scanner/web_vuln_scanner.py:245-277 | a parameter whose name does not look like a redirect target is not probed at all; any other yields at most one open-redirect entry, naming it |
| WebModel.RedirectParamHit | web-vuln-scanner/web_vuln_scanner.py:247-277 | for a redirect-like name: an entry iff some payload redirects to example.com; the entry carries the first such payload and its Location; only the payloads up to it are sent |
| WebModel.RedirectSweep | web-vuln-scanner/web_vuln_scanner.py:244-277 | every entry is an open-redirect entry for this URL |
| WebModel.RedirectOf | web-vuln-scanner/web_vuln_scanner.py:226-277 | `_check_open_redirect` on one URL: every entry is an open-redirect entry for this URL |
| WebModel.NoQueryNoProbe | web-vuln-scanner/web_vuln_scanner.py:142 | a URL without query parameters gets no GET and no entry from any of the three detectors (the same guard is at lines 194 and 244) |
| WebModel.MissingAmong | web-vuln-scanner/web_vuln_scanner.py:297-303 | no more missing headers are reported than are audited |
| WebModel.MissingAmongAppend | web-vuln-scanner/web_vuln_scanner.py:298-303 | auditing two header lists in a row lists the missing ones of each, in dictionary order |
| WebModel.MissingAmongMembers | web-vuln-scanner/web_vuln_scanner.py:298-303 | a header is listed, with its message, exactly when the response lacks it |
| WebModel.MissingAmongNone | web-vuln-scanner/web_vuln_scanner.py:297-305 | a response with every audited header lists nothing |
| WebModel.HeaderAudit | web-vuln-scanner/web_vuln_scanner.py:289-313 | the audit issues exactly one GET, of the target URL, and appends at most one entry |
| WebModel.HeaderAuditEntry | web-vuln-scanner/web_vuln_scanner.py:305-310 | when the target answers, one entry is appended iff at least one of the five headers is absent |
| WebModel.HeaderAuditContents | web-vuln-scanner/web_vuln_scanner.py:297-310 | the entry lists 1 to 5 headers, precisely the absent ones, each with its message |
| WebModel.DetailsCount | web-vuln-scanner/web_vuln_scanner.py:309 | the count in the entry's details text reads back as the number of missing headers |
| WebModel.Finding.Details | web-vuln-scanner/web_vuln_scanner.py:305-310 | the details text of an entry; for a header audit it is "Missing n security headers" (DetailsCount reads n back) |
| WebModel.CookiePair | web-vuln-scanner/web_vuln_scanner.py:46-47 | a chunk gives a pair iff it holds '='; the pair is the stripped chunk cut at its first '=' (the name has no '=') |
| WebModel.CookiePairSplit | web-vuln-scanner/web_vuln_scanner.py:46-47 | stripping keeps the '=', and the pair is the text before and after its first occurrence |
| WebModel.CookiesFrom | web-vuln-scanner/web_vuln_scanner.py:44-48 | the cookie dictionary after the loop over the chunks; no cookie name holds '=' |
| WebModel.ParseCookies | web-vuln-scanner/web_vuln_scanner.py:40-48 | no cookie file gives no cookies; no cookie name holds '=' |
| WebModel.CookieNames | web-vuln-scanner/web_vuln_scanner.py:44-48 | a name is a cookie exactly when some chunk defines it |
| WebModel.CookieLastWins | web-vuln-scanner/web_vuln_scanner.py:45-48 | a cookie's value is the one given by the last chunk defining its name |
| WebModel.VisitStepGrows | web-vuln-scanner/web_vuln_scanner.py:87-106 | one page visit adds the URL to the visited set, fetches it, and lists it iff its page is a listing |
| WebModel.Visit | web-vuln-scanner/web_vuln_scanner.py:85-121 | `_crawl_site` as a function on the crawl state: stop at depth 0, on a visited URL or one outside the base URL; else mark, fetch, list a listing page, and follow its links at depth - 1. VisitGrows, VisitNoHash and VisitWithin state its properties |
| WebModel.Follow | web-vuln-scanner/web_vuln_scanner.py:110-118 | the loop over a page's links, visiting each followable, unvisited one in order. FollowGrows, FollowNoHash and FollowWithin state its properties |
| WebModel.VisitGrows | web-vuln-scanner/web_vuln_scanner.py:85-121 | a crawl loses nothing. Every new GET fetches a newly visited URL, no URL twice, and every newly visited URL starts with the base URL. The new listing entries are exactly the newly visited listing pages, each once. Every URL added besides the start holds no '#' |
| WebModel.FollowGrows | web-vuln-scanner/web_vuln_scanner.py:110-118 | the link loop keeps the same growth guarantees, and every URL it adds passes the link filter: it starts with the base URL and holds no '#' |
| WebModel.VisitNoHash | web-vuln-scanner/web_vuln_scanner.py:85-118 | the visited set only grows; every URL a visit adds starts with the base URL, and every one besides the start holds no '#' |
| WebModel.FollowNoHash | web-vuln-scanner/web_vuln_scanner.py:110-118 | the visited set only grows; every URL the link loop adds passed the filter of line 115 (base-URL prefix, no '#') |
| WebModel.VisitWithin | web-vuln-scanner/web_vuln_scanner.py:85-118 | a visit at depth d adds only URLs within d-1 link hops of its start |
| WebModel.FollowWithin | web-vuln-scanner/web_vuln_scanner.py:110-118 | the link loop adds only URLs reachable from the links within the remaining depth |
| WebModel.ReachAllZero | web-vuln-scanner/web_vuln_scanner.py:87-88 | at depth 0 nothing is reachable |
| WebModel.DefaultDepthOneHop | web-vuln-scanner/web_vuln_scanner.py:85-118 | from the default depth 2 the crawl visits only the seed and the links found on the seed page |
| WebModel.ScanAll | web-vuln-scanner/web_vuln_scanner.py:69-71 | every entry of the probing phase is of its list's kind and is for one of the scanned URLs |
| WebModel.ScanUrlOf | web-vuln-scanner/web_vuln_scanner.py:123-127 | `_scan_url`: the XSS, SQL-injection and open-redirect entries, each of its kind and for this URL, and their GETs in that order |
| WebScanner.WebVulnScanner.constructor | web-vuln-scanner/web_vuln_scanner.py:23-55 | empty visited set and result lists; the base URL is `scheme://netloc` of the target; the cookies are those parsed from the cookie file's text |
| WebScanner.WebVulnScanner.Crawl | web-vuln-scanner/web_vuln_scanner.py:85-121 | the crawl state becomes `Visit` of the old state; only the directory-listing list changes among the results; the invariant is kept |
| WebScanner.WebVulnScanner.CheckXss | web-vuln-scanner/web_vuln_scanner.py:129-169 | appends exactly the URL's XSS entries and GETs; nothing else changes |
| WebScanner.WebVulnScanner.CheckSqlInjection | web-vuln-scanner/web_vuln_scanner.py:171-224 | appends exactly the URL's SQL-injection entries and GETs; nothing else changes |
| WebScanner.WebVulnScanner.CheckOpenRedirect | web-vuln-scanner/web_vuln_scanner.py:226-277 | appends exactly the URL's open-redirect entries and GETs; nothing else changes |
| WebScanner.WebVulnScanner.ScanUrl | web-vuln-scanner/web_vuln_scanner.py:123-127 | XSS, then SQL injection, then open redirect, appended to their lists; the header and listing lists are untouched |
| WebScanner.WebVulnScanner.CheckSecurityHeaders | web-vuln-scanner/web_vuln_scanner.py:279-313 | appends the audit's entry (if any) and its one GET; nothing else changes |
| WebScanner.WebVulnScanner.Scan | web-vuln-scanner/web_vuln_scanner.py:57-75 | crawl from the target at depth 2; probe every visited URL once; then audit the headers. The request log is crawl, probes, audit, in that order; the invariant is kept |
| WebScanner.WebVulnScanner.ScanVisited | web-vuln-scanner/web_vuln_scanner.py:69-71 | each visited URL is probed exactly once, in some order, and the lists grow by the batches of that order |
| WebScanner.LoadCookies | web-vuln-scanner/web_vuln_scanner.py:40-48 | the cookie loop builds exactly `ParseCookies` of the file's text |
| WebScanner.ProbeXss | web-vuln-scanner/web_vuln_scanner.py:142-169 | the loops produce exactly the specified XSS entries and GETs |
| WebScanner.ProbeXssParam | web-vuln-scanner/web_vuln_scanner.py:144-169 | the payload loop with its `break` produces exactly `XssParam` |
| WebScanner.ProbeSqli | web-vuln-scanner/web_vuln_scanner.py:194-224 | the loops produce exactly the specified SQL-injection entries and GETs |
| WebScanner.ProbeSqliParam | web-vuln-scanner/web_vuln_scanner.py:196-224 | the payload loop produces exactly `SqliParam` |
| WebScanner.ProbeSqlPayload | web-vuln-scanner/web_vuln_scanner.py:197-224 | one payload: the signature loop with its `break` produces exactly `SqliPayload` |
| WebScanner.ProbeRedirect | web-vuln-scanner/web_vuln_scanner.py:244-277 | the loops produce exactly the specified open-redirect entries and GETs |
| WebScanner.ProbeRedirectParam | web-vuln-scanner/web_vuln_scanner.py:245-277 | the name filter, then the payload loop, produce exactly `RedirectParam` |
| WebScanner.ProbeRedirectPayloads | web-vuln-scanner/web_vuln_scanner.py:248-277 | for a redirect-like name, the payload loop with its `break` produces exactly `RedirectParam` |
| WebScanner.AuditHeaders | web-vuln-scanner/web_vuln_scanner.py:289-313 | the audit loop produces exactly `HeaderAudit` |
| HashCracker.ExpectedLength | hash-cracker/hash_cracker.py:18-25 | 0 exactly for a type not in the table (matched as given); any other length is a multiple of 8 between 32 and 128 |
| HashCracker.ValidateHash | hash-cracker/hash_cracker.py:16-33 | an accepted hash has a type from the table (as given) and 32 to 128 characters |
| HashCracker.WrongLengthRejected | hash-cracker/hash_cracker.py:25-26 | a string of the wrong length is rejected |
| HashCracker.UnknownTypeRejected | hash-cracker/hash_cracker.py:18-33 | an unknown type, including a known one in other letter case, rejects every string |
| HashCracker.HexDigestAccepted | hash-cracker/hash_cracker.py:25-31 | a hex string of the expected length is accepted |
| HashCracker.PrefixedMd5Accepted | hash-cracker/hash_cracker.py:25-31 | `0x` followed by 30 hex digits passes as MD5, though it is not a hex digest |
| HashCracker.IsHexDigest | hash-cracker/hash_cracker.py:16-33 | the intended check (all characters hex digits): anything it accepts names a known type, has that type's length, parses as the value of its digits, and passes `validate_hash` |
| HashCracker.FirstCrack | hash-cracker/hash_cracker.py:59-82 | a result is non-blank and hashes to the target; `None` exactly when no line from k on does |
| HashCracker.FirstCrackIsFirst | hash-cracker/hash_cracker.py:59-79 | a result is the stripped text of the first line that hits |
| HashCracker.CrackIgnoresCase | hash-cracker/hash_cracker.py:47-77 | the type and the target hash are both matched in any letter case |
| HashCracker.FirstCrackSameTarget | hash-cracker/hash_cracker.py:77 | targets that agree when lower-cased give the same result |
| HashCracker.Crack | hash-cracker/hash_cracker.py:35-93 | a result needs a supported type (lower-cased) and a readable wordlist, is non-blank, and hashes to the target |
| HashCracker.UnsupportedTypeFindsNothing | hash-cracker/hash_cracker.py:47-51 | an unsupported type returns `None` |
| HashCracker.CrackFound | hash-cracker/hash_cracker.py:35-84 | a returned password is non-blank, hashes to the target, and is the stripped text of the first line that does |
| HashCracker.NoHitNothingFound | hash-cracker/hash_cracker.py:59-84 | without a hit in the wordlist nothing is returned |
| HashCracker.CrackHash | hash-cracker/hash_cracker.py:35-93 | the loop with its skip of blank lines and its early return computes `Crack` |
| Html.CloseAfterOpen | directory-enumeration/directory_enumeration.py:53-57 | the first `</title>` after `<title>` starts after the whole opening tag, so the slice is well formed |
| Html.ExtractTitle | directory-enumeration/directory_enumeration.py:50-60 | a title is found only when both tags occur |
| Html.TitleBetween | directory-enumeration/directory_enumeration.py:53-57 | the title is the stripped text between the first `<title>` and the first `</title>` after it |
| Html.NoOpenTag | subdomain-enumeration/subdomain_enumeration.py:35-42 | no `<title>` means no title |
| Html.NoCloseTag | subdomain-enumeration/subdomain_enumeration.py:35-42 | no `</title>` after the first `<title>` means no title |
| Http.HeaderOr | web-vuln-scanner/web_vuln_scanner.py:265 | a present header gives its value; a missing one gives the default |
| Http.HasHeader | web-vuln-scanner/web_vuln_scanner.py:299 | `header not in response.headers`, with the name looked up lower-cased |
| Http.HeaderNameCase | web-vuln-scanner/web_vuln_scanner.py:299 | lookup ignores the letter case of the name asked for: the name and its lower-cased form give the same answer and value |
| Http.IsConnectionError | subdomain-enumeration/subdomain_enumeration.py:25-26 | the requests exceptions caught as `ConnectionError`: a refused connection and a connect timeout |
| Http.IsTimeout | subdomain-enumeration/subdomain_enumeration.py:27-28 | the requests exceptions caught as `Timeout`: a connect timeout and a read timeout |
| DirectoryEnumeration.MakeRequest | directory-enumeration/directory_enumeration.py:30-48 | a record iff the GET answers with a status other than 404. It carries the URL, the status and the content length, and the title only for 200 |
| DirectoryEnumeration.NonEmptyExtensions | directory-enumeration/directory_enumeration.py:22 | exactly the extensions other than `""`, each non-empty one as many times as it is listed |
| DirectoryEnumeration.NonEmptyExtensionsAppend | directory-enumeration/directory_enumeration.py:22 | the filter keeps list order: filtering two lists in a row gives the filtered lists in a row |
| DirectoryEnumeration.NonEmptyExtensionsKeep | directory-enumeration/directory_enumeration.py:22 | a list without `""` is requested exactly as listed, order and repeats included |
| DirectoryEnumeration.Root | directory-enumeration/directory_enumeration.py:16 | the root candidates are resolved against, `protocol://base/` |
| DirectoryEnumeration.ExtensionUrls | directory-enumeration/directory_enumeration.py:22-23 | one URL per extension, in order, each `urljoin(root, directory + ext)` |
| DirectoryEnumeration.CandidateUrls | directory-enumeration/directory_enumeration.py:15-23 | one URL for the bare directory when `""` is an extension (and then it comes first), plus one per non-empty extension |
| DirectoryEnumeration.Records | directory-enumeration/directory_enumeration.py:17-26 | at most one record per URL |
| DirectoryEnumeration.RecordsMembers | directory-enumeration/directory_enumeration.py:17-26 | a record is kept exactly when it is the record of one of the URLs |
| DirectoryEnumeration.RecordsAppend | directory-enumeration/directory_enumeration.py:17-26 | the records of two URL lists in a row are the records of each, in order |
| DirectoryEnumeration.CheckDirectory | directory-enumeration/directory_enumeration.py:10-28 | `check_directory` returns the records of its candidate URLs, in order |
| DirectoryEnumeration.CheckExtensions | directory-enumeration/directory_enumeration.py:22-26 | the extension loop returns the records of the extension URLs |
| DirectoryEnumeration.CheckDirectoryBound | directory-enumeration/directory_enumeration.py:10-28 | at most 1 + (number of non-empty extensions) records per directory |
| DirectoryEnumeration.NormalizeTarget | directory-enumeration/directory_enumeration.py:86-94 | no trailing '/' is left; HTTPS is on iff requested or the target starts with `https://` (and not `http://`) |
| DirectoryEnumeration.BareHostKept | directory-enumeration/directory_enumeration.py:86-94 | a bare host followed by any number of '/' comes out as the host, the protocol unchanged |
| DirectoryEnumeration.HttpHostKept | directory-enumeration/directory_enumeration.py:87-94 | `http://host///` becomes `host`, the protocol unchanged |
| DirectoryEnumeration.HttpsHostKept | directory-enumeration/directory_enumeration.py:89-94 | `https://host///` becomes `host` with HTTPS switched on |
| DirectoryEnumeration.StripSlashes | directory-enumeration/directory_enumeration.py:94 | `rstrip('/')` removes exactly the trailing slashes |
| DirectoryEnumeration.SplitExtensions | directory-enumeration/directory_enumeration.py:105 | one stripped entry per comma-separated part |
| DirectoryEnumeration.FirstIndex | directory-enumeration/directory_enumeration.py:107 | `list.remove` removes the first occurrence |
| DirectoryEnumeration.Extensions | directory-enumeration/directory_enumeration.py:105-108 | the processed `-x` list as a value; ExtensionsSlash and ExtensionsNoSlash state what it holds |
| DirectoryEnumeration.NormalizeExtensions | directory-enumeration/directory_enumeration.py:105-108 | the processing of `-x` computes `Extensions` |
| DirectoryEnumeration.ExtensionsSlash | directory-enumeration/directory_enumeration.py:106-108 | with "/" present, the list keeps its length, loses one "/", gains one "" and ends with "" |
| DirectoryEnumeration.SlashReplaced | directory-enumeration/directory_enumeration.py:107-108 | removing the first "/" and appending "" changes the multiset accordingly |
| DirectoryEnumeration.ExtensionsNoSlash | directory-enumeration/directory_enumeration.py:105-106 | without "/" the list is the stripped parts |
| DirectoryEnumeration.AllRecords | directory-enumeration/directory_enumeration.py:141-166 | at most `len(directories) * (1 + non-empty extensions)` records in all |
| DirectoryEnumeration.Enumerate | directory-enumeration/directory_enumeration.py:121-168 | every record of every directory is collected, directory by directory; `processed` ends equal to the number of directories |
| SubdomainEnumeration.ProbeUrl | subdomain-enumeration/subdomain_enumeration.py:11 | the URL starts with `protocol://`, ends with `.domain`, and has the expected length |
| SubdomainEnumeration.CheckDomain | subdomain-enumeration/subdomain_enumeration.py:9-30 | valid iff the GET answers; the status of the answer; a title only for 200. No error text exactly for connection errors (a connect timeout included); "Timeout" for a read timeout; the exception text otherwise |
| SubdomainEnumeration.Protocols | subdomain-enumeration/subdomain_enumeration.py:77-83 | 1 or 2 distinct protocols; https iff `--https` or both; http iff not `--https` |
| SubdomainEnumeration.Row | subdomain-enumeration/subdomain_enumeration.py:105-108 | one task per protocol for a subdomain, in protocol order |
| SubdomainEnumeration.Tasks | subdomain-enumeration/subdomain_enumeration.py:104-108 | `len(subdomains) * len(protocols)` tasks |
| SubdomainEnumeration.TasksMembers | subdomain-enumeration/subdomain_enumeration.py:104-108 | a task exists exactly for each listed subdomain and selected protocol |
| SubdomainEnumeration.SubmitTasks | subdomain-enumeration/subdomain_enumeration.py:104-108 | the nested loop submits exactly `Tasks`, `total_checks` of them |
| SubdomainEnumeration.Answers | subdomain-enumeration/subdomain_enumeration.py:110-113 | only answered records are kept, at most one per task |
| SubdomainEnumeration.AnswersMembers | subdomain-enumeration/subdomain_enumeration.py:110-113 | a record is collected exactly when it is the answered record of some task |
| SubdomainEnumeration.Collect | subdomain-enumeration/subdomain_enumeration.py:110-117 | the collection loop keeps `Answers` and counts every task |
| SubdomainEnumeration.Enumerate | subdomain-enumeration/subdomain_enumeration.py:77-117 | `processed` ends equal to `total_checks`; the valid list is the answered records of all tasks |
| PortScanner.Service | port-scanner/port_scanner.py:85 | the table's name for a listed port, "Unknown" otherwise |
| PortScanner.UnknownMeansUnlisted | port-scanner/port_scanner.py:85 | the label is "Unknown" exactly for an unlisted port |
| PortScanner.ParsePortRange | port-scanner/port_scanner.py:47-49 | the start is `int` of the first '-'-part; the end is `int` of the second, or the start when there is none. An error exactly when one of them is not a number |
| PortScanner.Ports | port-scanner/port_scanner.py:50-51 | `range(start, end + 1)`: its length and its k-th port |
| PortScanner.PortsMembers | port-scanner/port_scanner.py:50 | the range holds exactly the ports from start to end |
| PortScanner.PortsAscending | port-scanner/port_scanner.py:50 | the range is strictly ascending |
| PortScanner.RangeRoundTrip | port-scanner/port_scanner.py:47-49 | "a-b" in decimal reads back as a to b |
| PortScanner.SinglePortRoundTrip | port-scanner/port_scanner.py:47-50 | a single decimal port reads back as the one-port range |
| PortScanner.ProbePort | port-scanner/port_scanner.py:54-66 | the result is 0 or 1, and 0 exactly when `connect_ex` returned 0 |
| PortScanner.OpenPorts | port-scanner/port_scanner.py:82-84 | no more open ports than scanned ports |
| PortScanner.OpenPortsMembers | port-scanner/port_scanner.py:82-84 | a port is recorded exactly when it was scanned and probed open |
| PortScanner.OpenPortsAscending | port-scanner/port_scanner.py:82-84 | scanning in ascending order records ascending ports, each once |
| PortScanner.Insert | port-scanner/port_scanner.py:105 | insertion keeps every element |
| PortScanner.InsertSorted | port-scanner/port_scanner.py:105 | insertion into a sorted list keeps it sorted |
| PortScanner.Sort | port-scanner/port_scanner.py:105 | `sort()` gives a sorted permutation |
| PortScanner.SortAscending | port-scanner/port_scanner.py:105 | sorting a sorted list leaves it unchanged |
| PortScanner.Summarize | port-scanner/port_scanner.py:103-111 | "no open ports" exactly for an empty list; otherwise one `port: service` line per port, in order, and the total |
| PortScanner.RangeOpenPorts | port-scanner/port_scanner.py:95-105 | the open ports of a range scan after `sort()`: sorted, and no more than the range holds |
| PortScanner.RangeOpenPortsExact | port-scanner/port_scanner.py:47-105 | after a range scan the sorted list holds exactly the range's open ports, strictly ascending |
| PortScanner.NoOpenPortsExact | port-scanner/port_scanner.py:103-111 | "No open ports found." exactly when no port of the range probed open |
| PortScanner.Scanner.constructor | port-scanner/port_scanner.py:42-52 | counter 0, empty open-port list |
| PortScanner.Scanner.ScanPort | port-scanner/port_scanner.py:68-86 | the counter goes up by one; the port is appended iff its probe returned 0 |
| PortScanner.Scanner.ScanAll | port-scanner/port_scanner.py:95-96 | after the map, the counter grew by the number of ports and the open ones were appended in order |
| PortScanner.Scanner.Report | port-scanner/port_scanner.py:103-111 | the list is sorted in place and the summary is that of the sorted list |
| PortScanner.ScanRange | port-scanner/port_scanner.py:47-111 | `ports_scanned` ends equal to `total_ports`, and the summary is that of the sorted open ports of the range |
| SshBruteForce.SshConnect | ssh-brute-force/ssh_brute_force.py:24-40 | 0 when connect returns; 1 for the authentication family; 2 for other SSH exceptions; 3 for anything else |
| SshBruteForce.FailedLine | ssh-brute-force/ssh_brute_force.py:54 | the verbose line for a rejected password starts with "[-] FAILED: " and ends with the password |
| SshBruteForce.AttemptLogin | ssh-brute-force/ssh_brute_force.py:42-60 | the code and password come back unchanged. The message is absent iff the code is 1 outside verbose mode, ends with the password, and is the one fixed for each code |
| SshBruteForce.SuccessMarked | ssh-brute-force/ssh_brute_force.py:50-58 | a message starts with "[+]" exactly when the code is 0 |
| SshBruteForce.ResumeLine | ssh-brute-force/ssh_brute_force.py:112-114 | a non-zero start only for an all-digit argument, and then it is the argument's `int` value |
| SshBruteForce.ResumeRoundTrip | ssh-brute-force/ssh_brute_force.py:113-114 | a decimal line number is resumed from exactly |
| SshBruteForce.ResumeIgnored | ssh-brute-force/ssh_brute_force.py:113 | an argument with a non-digit is ignored |
| SshBruteForce.Skip | ssh-brute-force/ssh_brute_force.py:126-128 | the lines left after `start` calls of `next(file, None)` |
| SshBruteForce.NothingAfter | ssh-brute-force/ssh_brute_force.py:131-134 | when the lines up to `last` give all the passwords, every later line is blank |
| SshBruteForce.SubmitStep | ssh-brute-force/ssh_brute_force.py:131-146 | a non-blank line is submitted and becomes the last; a blank one changes nothing |
| SshBruteForce.SubmitPasswords | ssh-brute-force/ssh_brute_force.py:126-146 | the stripped non-blank lines after the skip are submitted in file order. `current_password` is the last one. `passwords_tried` is its 1-based line number in the file, and every later line is blank |
| SshBruteForce.SubmitFrom | ssh-brute-force/ssh_brute_force.py:131-146 | the loop keeps the submitted list, the last position and `current_password` in step; `passwords_tried` exceeds the skipped lines |
| SshBruteForce.SubmittedLast | ssh-brute-force/ssh_brute_force.py:131-146 | the loop's end state gives every password, and the last one's line number is counted from the start of the file |
| SshBruteForce.Attempts | ssh-brute-force/ssh_brute_force.py:135-155 | one result per submitted password, in order |
| SshBruteForce.FirstSuccess | ssh-brute-force/ssh_brute_force.py:154-169 | the first result with code 0; `None` when there is none |
| SshBruteForce.Examined | ssh-brute-force/ssh_brute_force.py:154-169 | the results looked at form a prefix of the results |
| SshBruteForce.Shown | ssh-brute-force/ssh_brute_force.py:157-158 | at most one printed line per result |
| SshBruteForce.ShownMembers | ssh-brute-force/ssh_brute_force.py:157-158 | a line is printed exactly when it is a result's message and verbose mode is on or the code is 0 |
| SshBruteForce.QuietShowsOnlySuccess | ssh-brute-force/ssh_brute_force.py:157-169 | outside verbose mode at most one line is printed: the first success's message |
| SshBruteForce.QuietNothing | ssh-brute-force/ssh_brute_force.py:157-158 | without a success, nothing is printed outside verbose mode |
| SshBruteForce.ProcessResults | ssh-brute-force/ssh_brute_force.py:154-173 | a password is reported exactly when some result has code 0; it is the first such one; the printed lines are those of the results up to it |
| SshBruteForce.FirstSuccessAt | ssh-brute-force/ssh_brute_force.py:161-169 | the loop returns at the first code 0 |
| SshBruteForce.NoSuccess | ssh-brute-force/ssh_brute_force.py:171-173 | with no code 0 the loop runs through every result |
| SshBruteForce.FoundIsFirstWorking | ssh-brute-force/ssh_brute_force.py:154-169 | a password is found iff some submitted password logs in; it is the first one, and every earlier one raised |
| SshBruteForce.BruteForce | ssh-brute-force/ssh_brute_force.py:112-173 | `main` returns True iff some submitted password logs in. It prints the qualifying lines up to the first success. `passwords_tried` and `current_password` are as left by the submission |
| Strings.Strip | hash-cracker/hash_cracker.py:60 | `strip()` is empty exactly for an all-whitespace string; otherwise it starts and ends with non-whitespace |
| Strings.StripWindow | hash-cracker/hash_cracker.py:60 | the stripped text is a window of the string with only whitespace around it |
| Strings.StripKeeps | web-vuln-scanner/web_vuln_scanner.py:46-47 | stripping keeps a non-whitespace character |
| Strings.RStripChar | directory-enumeration/directory_enumeration.py:94 | `rstrip(c)` is a prefix followed only by c, and does not end with c |
| Strings.Lower | hash-cracker/hash_cracker.py:47 | `lower()` maps every character and keeps the length |
| Strings.LowerIdempotent | hash-cracker/hash_cracker.py:77 | lower-casing twice is lower-casing once |
| Strings.Find | directory-enumeration/directory_enumeration.py:53-55 | `find` gives the first occurrence from `start`, or none |
| Strings.FindFirst | directory-enumeration/directory_enumeration.py:53-55 | the first occurrence is what `find` returns |
| Strings.IndexOf | web-vuln-scanner/web_vuln_scanner.py:47 | the first position of a character, or the length when it is absent |
| Strings.Split | web-vuln-scanner/web_vuln_scanner.py:44 | `split(c)` gives at least one part, none holding c, and joining them back gives the string |
| Strings.SplitJoin | port-scanner/port_scanner.py:47 | joining parts without c and splitting again gives the parts |
| Strings.NonBlankLines | subdomain-enumeration/subdomain_enumeration.py:68 | the kept lines are non-empty, at most one per line |
| Strings.NonBlankLinesMembers | directory-enumeration/directory_enumeration.py:99 | a text is kept exactly when it is the stripped, non-blank form of some line |
| Strings.NonBlankLinesAppend | directory-enumeration/directory_enumeration.py:99 | the comprehension over two blocks of lines is the concatenation of the two |
| PyInt.DecimalDigitsParse | port-scanner/port_scanner.py:48 | `int(s)` of plain decimal digits is their value |
| PyInt.HexDigitsParse | hash-cracker/hash_cracker.py:30 | `int(s, 16)` of plain hex digits is their value |
| PyInt.PrefixedHexParses | hash-cracker/hash_cracker.py:30 | `int("0x" + h, 16)` succeeds for hex digits h |
| PyInt.EmptyNotInt | hash-cracker/hash_cracker.py:29-33 | `int("", base)` raises |
| PyInt.ParseInt | hash-cracker/hash_cracker.py:30 | `int(s, base)`: surrounding whitespace, an optional sign, for base 16 an optional `0x` prefix, then digits with single underscores; `None` where Python raises. DecimalDigitsParse, HexDigitsParse, PrefixedHexParses and EmptyNotInt state its values |
| PyInt.DecimalRoundTrip | port-scanner/port_scanner.py:48 | a number written in decimal reads back as itself |

## Left out

- The network, sockets, SSH, HTTP, hashing, HTML parsing and URL parsing are not modelled. Each is an oracle, passed in as a function value, and the model states nothing about those libraries beyond the exception classes the handlers tell apart.
- Cookies, request headers, the User-Agent string and timeouts sent with each request are not inputs of the HTTP oracle.
- Thread pools are run one task at a time, in submission order. Interleavings, `as_completed` order, locks and the order of `set` iteration are not modelled; `scan`'s visited-set loop runs in an unspecified order.
- Printing, progress lines, colours, timestamps, timing, `time.sleep` (the SSH `--delay`), argparse, `input()` prompts and `sys.exit` are left out.
- Writing output files, `save_progress`, `_save_results` and `_print_summary` are left out. So are the password-file existence check, the line count used only for progress, and reading files; a file's content is given as its list of lines, or `None` when it cannot be read.
- KeyboardInterrupt and `handle_interrupt` are left out. `BruteForce` exposes the two values that handler prints.
- The network scanner tool is not part of this model.
- Http.HasHeader: the HTTP oracle's responses are taken to hold header names already folded to lower case. A response holding "X-Frame-Options" under that exact spelling would be reported missing, where the case-insensitive header dictionary of requests finds it.
- Strings.Lower: only ASCII letters are lower-cased; Python also folds non-ASCII letters.
- SshBruteForce.AllDigits: `str.isdigit` is modelled on ASCII digits only. Python also accepts other Unicode digits, and `int` then raises for some of them, such as superscripts.
- PyInt: non-ASCII decimal digits, which `int` accepts, are not modelled.
- Decoding with `errors='ignore'` or `latin-1` is left out; lines are already characters.
- DirectoryEnumeration.MakeRequest: `len(response.content)` is an oracle on the response, not derived from its text.
- The `except Exception` around the crawl, the detectors and the audit is modelled only as a failed GET. The oracles are total, so nothing else raises.
- PortScanner.Sort: `list.sort()` in place is specified by an insertion-sort function on values; `Report` reassigns the field to it.

## Findings

| source | as written | input that shows it | evidently intended | confidence | as-written member | corrected member |
|---|---|---|---|---|---|---|
| hash-cracker/hash_cracker.py:29-31 | the hex check is `int(hash_string, 16)`, which also accepts a `0x` prefix, a sign, underscores and surrounding whitespace | `"0x" + "0" * 30` with type md5: 32 characters, accepted although only 30 are hex digits | accept only strings made entirely of hex digits | not executed | HashCracker.PrefixedMd5Accepted | HashCracker.IsHexDigest |
