/**
 * Directory enumeration: for every wordlist entry, request the bare
 * directory (when the extension list holds the empty extension) and then the
 * entry with each non-empty extension appended, keeping every answer that is
 * not a 404.  The HTTP client, `urljoin` and the byte length of a response's
 * raw content are oracles.
 */
module DirectoryEnumeration {

  import opened Wrappers
  import opened Strings
  import opened Http
  import opened Html
  import opened Seqs

  /** The services the tool uses: GET (always following redirects), `urljoin`, `len(response.content)`. */
  datatype Env = Env(get: Client, join: (string, string) -> string, contentLength: Response -> nat)

  /** One reported resource: URL, status, content length, and the page title for a 200. */
  datatype Resource = Resource(url: string, status: int, contentLength: nat, title: Option<string>)

  /** `make_request`: a record for any answer but 404; nothing when the GET raises. */
  function MakeRequest(env: Env, url: string): (r: Option<Resource>)
    ensures r.Some? <==> env.get(url, true).Got? && env.get(url, true).response.status != 404
    ensures r.Some? ==> var resp := env.get(url, true).response;
      && r.value.url == url && r.value.status == resp.status
      && r.value.contentLength == env.contentLength(resp)
      && r.value.title == (if resp.status == 200 then ExtractTitle(resp.body) else None)
  {
    match env.get(url, true)
    case Failed(_) => None
    case Got(resp) =>
      if resp.status != 404 then
        Some(Resource(url, resp.status, env.contentLength(resp),
                      if resp.status == 200 then ExtractTitle(resp.body) else None))
      else None
  }

  /** The extensions other than the empty one, in list order, repeated ones as often as they are listed. */
  function NonEmptyExtensions(extensions: seq<string>): (r: seq<string>)
    ensures |r| <= |extensions|
    ensures forall e :: e in r <==> e in extensions && e != ""
    ensures forall e :: e != "" ==> multiset(r)[e] == multiset(extensions)[e]
  {
    if extensions == [] then []
    else
      var rest := NonEmptyExtensions(extensions[..|extensions| - 1]);
      var last := extensions[|extensions| - 1];
      assert extensions == extensions[..|extensions| - 1] + [last];
      if last == "" then rest else rest + [last]
  }

  /** Filtering two lists in a row keeps each one's extensions, in order. */
  lemma {:induction false} NonEmptyExtensionsAppend(a: seq<string>, b: seq<string>)
    ensures NonEmptyExtensions(a + b) == NonEmptyExtensions(a) + NonEmptyExtensions(b)
    decreases |b|
  {
    if b == [] {
      assert a + b == a;
    } else {
      var init := b[..|b| - 1];
      assert (a + b)[..|a + b| - 1] == a + init;
      NonEmptyExtensionsAppend(a, init);
    }
  }

  /** A list without the empty extension is requested as it is: same order, repeats kept. */
  lemma {:induction false} NonEmptyExtensionsKeep(extensions: seq<string>)
    requires "" !in extensions
    ensures NonEmptyExtensions(extensions) == extensions
  {
    if extensions != [] {
      var init := extensions[..|extensions| - 1];
      NonEmptyExtensionsKeep(init);
      assert extensions == init + [extensions[|extensions| - 1]];
    }
  }

  /** The root every candidate is resolved against: `f"{protocol}://{base_url}/"`. */
  function Root(protocol: string, base: string): string {
    protocol + "://" + base + "/"
  }

  /** The URLs for `directory` with each of `exts` appended, in order. */
  function ExtensionUrls(env: Env, root: string, directory: string, exts: seq<string>): (r: seq<string>)
    ensures |r| == |exts|
    ensures forall k :: 0 <= k < |exts| ==> r[k] == env.join(root, directory + exts[k])
  {
    if exts == [] then [] else ExtensionUrls(env, root, directory, exts[..|exts| - 1]) + [env.join(root, directory + exts[|exts| - 1])]
  }

  /** The URLs `check_directory` requests for `directory`, in order. */
  function CandidateUrls(env: Env, base: string, directory: string, protocol: string, extensions: seq<string>): (r: seq<string>)
    ensures |r| == (if "" in extensions then 1 else 0) + |NonEmptyExtensions(extensions)|
    ensures "" in extensions ==> r[0] == env.join(Root(protocol, base), directory)
  {
    var root := Root(protocol, base);
    var bare := if "" in extensions then [env.join(root, directory)] else [];
    bare + ExtensionUrls(env, root, directory, NonEmptyExtensions(extensions))
  }

  /** The records for `urls`, in order, skipping the requests that gave none. */
  function Records(env: Env, urls: seq<string>): (r: seq<Resource>)
    ensures |r| <= |urls|
  {
    if urls == [] then []
    else Records(env, urls[..|urls| - 1]) + ToSeq(MakeRequest(env, urls[|urls| - 1]))
  }

  /** A record is kept exactly when it is the record of one of the URLs. */
  lemma {:induction false} RecordsMembers(env: Env, urls: seq<string>, x: Resource)
    ensures x in Records(env, urls) <==> exists k :: 0 <= k < |urls| && MakeRequest(env, urls[k]) == Some(x)
  {
    if urls != [] {
      var init := urls[..|urls| - 1];
      RecordsMembers(env, init, x);
      if exists k :: 0 <= k < |urls| && MakeRequest(env, urls[k]) == Some(x) {
        var k :| 0 <= k < |urls| && MakeRequest(env, urls[k]) == Some(x);
        if k < |urls| - 1 {
          assert init[k] == urls[k];
        }
      }
      if exists k :: 0 <= k < |init| && MakeRequest(env, init[k]) == Some(x) {
        var k :| 0 <= k < |init| && MakeRequest(env, init[k]) == Some(x);
        assert urls[k] == init[k];
      }
    }
  }

  lemma RecordsSnoc(env: Env, urls: seq<string>, url: string)
    ensures Records(env, urls + [url]) == Records(env, urls) + ToSeq(MakeRequest(env, url))
  {
    assert (urls + [url])[..|urls|] == urls;
  }

  /** Records of `a + b` are those of `a` followed by those of `b`. */
  lemma {:induction false} RecordsAppend(env: Env, a: seq<string>, b: seq<string>)
    ensures Records(env, a + b) == Records(env, a) + Records(env, b)
    decreases |b|
  {
    if b == [] {
      assert a + b == a;
    } else {
      var init := b[..|b| - 1];
      assert a + b == (a + init) + [b[|b| - 1]];
      RecordsSnoc(env, a + init, b[|b| - 1]);
      RecordsAppend(env, a, init);
    }
  }

  lemma ExtensionUrlsSnoc(env: Env, root: string, directory: string, exts: seq<string>, i: nat)
    requires i < |exts|
    ensures ExtensionUrls(env, root, directory, exts[..i + 1])
      == ExtensionUrls(env, root, directory, exts[..i]) + [env.join(root, directory + exts[i])]
  {
    assert exts[..i + 1][..i] == exts[..i];
  }

  /** `check_directory`: the bare directory first when "" is an extension, then each non-empty extension. */
  method CheckDirectory(env: Env, base: string, directory: string, protocol: string, extensions: seq<string>)
    returns (results: seq<Resource>)
    ensures results == Records(env, CandidateUrls(env, base, directory, protocol, extensions))
  {
    var root := protocol + "://" + base + "/";
    ghost var bare: seq<string> := [];
    results := [];
    if "" in extensions {
      var url := env.join(root, directory);
      var result := MakeRequest(env, url);
      if result.Some? {
        results := results + [result.value];
      }
      bare := [url];
      RecordsSnoc(env, [], url);
    }
    var more := CheckExtensions(env, root, directory, NonEmptyExtensions(extensions));
    results := results + more;
    RecordsAppend(env, bare, ExtensionUrls(env, root, directory, NonEmptyExtensions(extensions)));
  }

  /** The extension loop of `check_directory`, in list order. */
  method CheckExtensions(env: Env, root: string, directory: string, exts: seq<string>) returns (results: seq<Resource>)
    ensures results == Records(env, ExtensionUrls(env, root, directory, exts))
  {
    results := [];
    for i := 0 to |exts|
      invariant results == Records(env, ExtensionUrls(env, root, directory, exts[..i]))
    {
      var url := env.join(root, directory + exts[i]);
      ExtensionUrlsSnoc(env, root, directory, exts, i);
      RecordsSnoc(env, ExtensionUrls(env, root, directory, exts[..i]), url);
      var result := MakeRequest(env, url);
      if result.Some? {
        results := results + [result.value];
      }
    }
    assert exts[..|exts|] == exts;
  }

  /** At most one record for the bare directory and one per non-empty extension, each for a candidate URL. */
  lemma CheckDirectoryBound(env: Env, base: string, directory: string, protocol: string, extensions: seq<string>)
    ensures var r := Records(env, CandidateUrls(env, base, directory, protocol, extensions));
      |r| <= 1 + |NonEmptyExtensions(extensions)|
  {
  }

  /**
   * The target as given on the command line, cleaned: a leading `http://` is
   * dropped, or a leading `https://` is dropped and HTTPS switched on; then
   * trailing '/' characters go.
   */
  function NormalizeTarget(target: string, https: bool): (r: (string, bool))
    ensures r.0 == [] || r.0[|r.0| - 1] != '/'
    ensures r.1 <==> https || (!("http://" <= target) && "https://" <= target)
  {
    if "http://" <= target then (RStripChar(target[7..], '/'), https)
    else if "https://" <= target then (RStripChar(target[8..], '/'), true)
    else (RStripChar(target, '/'), https)
  }

  /** A bare host followed by any number of slashes comes out as the host, the protocol unchanged. */
  lemma {:induction false} BareHostKept(host: string, slashes: nat, https: bool)
    requires host == [] || host[|host| - 1] != '/'
    requires !("http://" <= host + Slashes(slashes)) && !("https://" <= host + Slashes(slashes))
    ensures NormalizeTarget(host + Slashes(slashes), https) == (host, https)
  {
    StripSlashes(host, slashes);
  }

  /** A host behind `http://` and any number of trailing slashes comes out as the host, the protocol unchanged. */
  lemma {:induction false} HttpHostKept(host: string, slashes: nat, https: bool)
    requires host == [] || host[|host| - 1] != '/'
    ensures NormalizeTarget("http://" + host + Slashes(slashes), https) == (host, https)
  {
    var p := "http://" + host + Slashes(slashes);
    assert p[..7] == "http://" && p[7..] == host + Slashes(slashes);
    StripSlashes(host, slashes);
  }

  /** A host behind `https://` and any number of trailing slashes comes out as the host, with HTTPS on. */
  lemma {:induction false} HttpsHostKept(host: string, slashes: nat, https: bool)
    requires host == [] || host[|host| - 1] != '/'
    ensures NormalizeTarget("https://" + host + Slashes(slashes), https) == (host, true)
  {
    var q := "https://" + host + Slashes(slashes);
    assert q[..8] == "https://" && q[8..] == host + Slashes(slashes);
    assert q[4] == 's' && "http://"[4] == ':';
    StripSlashes(host, slashes);
  }

  function Slashes(n: nat): (r: string)
    ensures |r| == n && forall k :: 0 <= k < n ==> r[k] == '/'
  {
    if n == 0 then [] else Slashes(n - 1) + "/"
  }

  lemma {:induction false} StripSlashes(host: string, n: nat)
    requires host == [] || host[|host| - 1] != '/'
    ensures RStripChar(host + Slashes(n), '/') == host
  {
    if n > 0 {
      var s := host + Slashes(n);
      assert s[..|s| - 1] == host + Slashes(n - 1);
      StripSlashes(host, n - 1);
    } else {
      assert host + Slashes(0) == host;
    }
  }

  /** `[ext.strip() for ext in spec.split(',')]`. */
  function SplitExtensions(spec: string): (r: seq<string>)
    ensures |r| == |Split(spec, ',')|
    ensures forall k :: 0 <= k < |r| ==> r[k] == Strip(Split(spec, ',')[k])
  {
    var parts := Split(spec, ',');
    seq(|parts|, k requires 0 <= k < |parts| => Strip(parts[k]))
  }

  /** Index of the first occurrence of `x` in `s`, which must hold it. */
  function FirstIndex(s: seq<string>, x: string): (i: nat)
    requires x in s
    ensures i < |s| && s[i] == x && x !in s[..i]
  {
    if s[0] == x then 0
    else
      var i := 1 + FirstIndex(s[1..], x);
      assert s[..i] == [s[0]] + s[1..][..i - 1];
      i
  }

  /** The extension list after processing, as a value. */
  function Extensions(spec: string): seq<string> {
    var exts := SplitExtensions(spec);
    if "/" in exts then
      var i := FirstIndex(exts, "/");
      exts[..i] + exts[i + 1..] + [""]
    else exts
  }

  /**
   * The list `main` builds from `-x`: split on ',', each part stripped; when
   * "/" is present its first occurrence is removed and "" appended at the
   * end.
   */
  method NormalizeExtensions(spec: string) returns (extensions: seq<string>)
    ensures extensions == Extensions(spec)
  {
    extensions := SplitExtensions(spec);
    if "/" in extensions {
      var i := FirstIndex(extensions, "/");
      extensions := extensions[..i] + extensions[i + 1..];
      extensions := extensions + [""];
    }
  }

  /**
   * With "/" among the parts, the processed list has the same length, holds
   * one "/" fewer and one "" more, and ends with "".
   */
  lemma ExtensionsSlash(spec: string)
    requires "/" in SplitExtensions(spec)
    ensures var exts := SplitExtensions(spec); var r := Extensions(spec);
      && multiset(r) == multiset(exts) - multiset{"/"} + multiset{""}
      && |r| == |exts| && r[|r| - 1] == ""
  {
    SlashReplaced(SplitExtensions(spec));
  }

  lemma SlashReplaced(exts: seq<string>)
    requires "/" in exts
    ensures var i := FirstIndex(exts, "/"); var r := exts[..i] + exts[i + 1..] + [""];
      && multiset(r) == multiset(exts) - multiset{"/"} + multiset{""}
      && |r| == |exts| && r[|r| - 1] == ""
  {
    var i := FirstIndex(exts, "/");
    assert exts == exts[..i] + [exts[i]] + exts[i + 1..];
    assert multiset(exts) == multiset(exts[..i]) + multiset{"/"} + multiset(exts[i + 1..]);
  }

  /** Without "/" among the parts, the processed list is the stripped parts. */
  lemma ExtensionsNoSlash(spec: string)
    requires "/" !in SplitExtensions(spec)
    ensures Extensions(spec) == SplitExtensions(spec)
  {
  }

  /** The enumeration over the wordlist entries, in submission order. */
  datatype Enumeration = Enumeration(results: seq<Resource>, processed: nat)

  /** Every record of every directory, directory by directory. */
  function AllRecords(env: Env, base: string, directories: seq<string>, protocol: string, extensions: seq<string>): (r: seq<Resource>)
    ensures |r| <= |directories| * (1 + |NonEmptyExtensions(extensions)|)
  {
    if directories == [] then []
    else
      var init := directories[..|directories| - 1];
      var last := Records(env, CandidateUrls(env, base, directories[|directories| - 1], protocol, extensions));
      MulStep(|directories|, 1 + |NonEmptyExtensions(extensions)|);
      AllRecords(env, base, init, protocol, extensions) + last
  }

  /** One more directory of the loop adds its records at the end. */
  lemma AllRecordsStep(env: Env, base: string, directories: seq<string>, protocol: string, extensions: seq<string>, i: nat)
    requires i < |directories|
    ensures AllRecords(env, base, directories[..i + 1], protocol, extensions)
      == AllRecords(env, base, directories[..i], protocol, extensions)
        + Records(env, CandidateUrls(env, base, directories[i], protocol, extensions))
  {
    assert directories[..i + 1][..i] == directories[..i];
  }

  /**
   * The work loop of `main` with the thread pool run one directory at a
   * time: every record of every directory is collected and `processed`
   * counts the directories.
   */
  method Enumerate(env: Env, base: string, directories: seq<string>, protocol: string, extensions: seq<string>)
    returns (e: Enumeration)
    ensures e.results == AllRecords(env, base, directories, protocol, extensions)
    ensures e.processed == |directories|
  {
    var valid: seq<Resource> := [];
    var processed := 0;
    for i := 0 to |directories|
      invariant valid == AllRecords(env, base, directories[..i], protocol, extensions)
      invariant processed == i
    {
      var results := CheckDirectory(env, base, directories[i], protocol, extensions);
      AllRecordsStep(env, base, directories, protocol, extensions, i);
      valid := AppendAll(valid, results);
      processed := processed + 1;
    }
    assert directories[..|directories|] == directories;
    e := Enumeration(valid, processed);
  }
}
