/**
 * Subdomain enumeration: one GET of `protocol://subdomain.domain` per
 * wordlist entry and protocol, shaped into a result record, keeping the
 * records of the hosts that answered.  The HTTP client is an oracle; the
 * thread pool is run one task at a time, in submission order.
 */
module SubdomainEnumeration {

  import opened Wrappers
  import opened Strings
  import opened Http
  import opened Html
  import opened Seqs

  /**
   * The record `check_domain` returns: a host that answered (`valid` True,
   * with status and, for a 200, the page title), or one that did not
   * (`valid` False, with an `error` text unless the failure was a
   * connection error).
   */
  datatype DomainResult =
    | Answered(url: string, status: int, title: Option<string>)
    | Unanswered(url: string, error: Option<string>)
  {
    predicate Valid() {
      Answered?
    }
  }

  /** `f"{protocol}://{subdomain}.{domain}"`. */
  function ProbeUrl(protocol: string, subdomain: string, domain: string): (url: string)
    ensures protocol + "://" <= url
    ensures |url| == |protocol| + 3 + |subdomain| + 1 + |domain|
    ensures url[|url| - |domain| - 1..] == "." + domain
  {
    protocol + "://" + subdomain + "." + domain
  }

  /**
   * `check_domain`: the handlers are tried in order, so a connect timeout,
   * which the requests library raises as both a connection error and a
   * timeout, counts as a connection error and carries no error text.
   */
  function CheckDomain(get: Client, subdomain: string, domain: string, protocol: string): (r: DomainResult)
    ensures r.url == ProbeUrl(protocol, subdomain, domain)
    ensures r.Valid() <==> get(r.url, true).Got?
    ensures r.Answered? ==> r.status == get(r.url, true).response.status
    ensures r.Answered? ==> (r.title.Some? ==> r.status == 200)
    ensures r.Answered? && r.status == 200 ==> r.title == ExtractTitle(get(r.url, true).response.body)
    ensures r.Unanswered? ==> (r.error.None? <==> IsConnectionError(get(r.url, true).error))
    ensures r.Unanswered? && get(r.url, true).error.ReadTimeout? ==> r.error == Some("Timeout")
    ensures r.Unanswered? && get(r.url, true).error.OtherError? ==> r.error == Some(get(r.url, true).error.message)
  {
    var url := ProbeUrl(protocol, subdomain, domain);
    match get(url, true)
    case Got(response) =>
      Answered(url, response.status, if response.status == 200 then ExtractTitle(response.body) else None)
    case Failed(e) =>
      if IsConnectionError(e) then Unanswered(url, None)
      else if IsTimeout(e) then Unanswered(url, Some("Timeout"))
      else Unanswered(url, Some(e.message))
  }

  /** The protocol list: `--https` wins over `--both-protocols`; plain HTTP otherwise. */
  function Protocols(https: bool, both: bool): (ps: seq<string>)
    ensures 1 <= |ps| <= 2
    ensures "https" in ps <==> https || both
    ensures "http" in ps <==> !https
    ensures forall a, b :: 0 <= a < b < |ps| ==> ps[a] != ps[b]
  {
    if https then ["https"] else if both then ["http", "https"] else ["http"]
  }

  /** The tasks for one subdomain: one per protocol, in protocol order. */
  function Row(subdomain: string, protocols: seq<string>): (r: seq<(string, string)>)
    ensures |r| == |protocols|
    ensures forall k :: 0 <= k < |r| ==> r[k] == (subdomain, protocols[k])
  {
    seq(|protocols|, k requires 0 <= k < |protocols| => (subdomain, protocols[k]))
  }

  /** All (subdomain, protocol) tasks, subdomain by subdomain. */
  function Tasks(subdomains: seq<string>, protocols: seq<string>): (r: seq<(string, string)>)
    ensures |r| == |subdomains| * |protocols|
  {
    if subdomains == [] then []
    else
      MulStep(|subdomains|, |protocols|);
      Tasks(subdomains[..|subdomains| - 1], protocols) + Row(subdomains[|subdomains| - 1], protocols)
  }

  /** A task is submitted exactly for each pair of a listed subdomain and a selected protocol. */
  lemma {:induction false} TasksMembers(subdomains: seq<string>, protocols: seq<string>, t: (string, string))
    ensures t in Tasks(subdomains, protocols) <==> t.0 in subdomains && t.1 in protocols
  {
    if subdomains != [] {
      var init := subdomains[..|subdomains| - 1];
      var last := subdomains[|subdomains| - 1];
      TasksMembers(init, protocols, t);
      assert subdomains == init + [last];
      if t in Row(last, protocols) {
        var k :| 0 <= k < |protocols| && Row(last, protocols)[k] == t;
      }
      if t.0 == last && t.1 in protocols {
        var k :| 0 <= k < |protocols| && protocols[k] == t.1;
        assert Row(last, protocols)[k] == t;
      }
    }
  }

  lemma TasksSnoc(subdomains: seq<string>, protocols: seq<string>, s: string)
    ensures Tasks(subdomains + [s], protocols) == Tasks(subdomains, protocols) + Row(s, protocols)
  {
    assert (subdomains + [s])[..|subdomains|] == subdomains;
  }

  /** The nested submission loop of `main`: one task per subdomain and protocol, `len(subdomains) * len(protocols)` in all. */
  method SubmitTasks(subdomains: seq<string>, protocols: seq<string>) returns (tasks: seq<(string, string)>)
    ensures tasks == Tasks(subdomains, protocols)
    ensures |tasks| == |subdomains| * |protocols|
  {
    tasks := [];
    for i := 0 to |subdomains|
      invariant tasks == Tasks(subdomains[..i], protocols)
    {
      ghost var before := tasks;
      for j := 0 to |protocols|
        invariant tasks == before + Row(subdomains[i], protocols[..j])
      {
        assert Row(subdomains[i], protocols[..j + 1]) == Row(subdomains[i], protocols[..j]) + [(subdomains[i], protocols[j])];
        tasks := tasks + [(subdomains[i], protocols[j])];
      }
      assert protocols[..|protocols|] == protocols;
      assert subdomains[..i + 1] == subdomains[..i] + [subdomains[i]];
      TasksSnoc(subdomains[..i], protocols, subdomains[i]);
    }
    assert subdomains[..|subdomains|] == subdomains;
  }

  /** The records of the tasks whose host answered, in task order. */
  function Answers(get: Client, domain: string, tasks: seq<(string, string)>): (r: seq<DomainResult>)
    ensures |r| <= |tasks|
    ensures forall x :: x in r ==> x.Answered?
  {
    if tasks == [] then []
    else
      var t := tasks[|tasks| - 1];
      var x := CheckDomain(get, t.0, domain, t.1);
      Answers(get, domain, tasks[..|tasks| - 1]) + if x.Valid() then [x] else []
  }

  /** A record is collected exactly when it is the answered record of some task. */
  lemma {:induction false} AnswersMembers(get: Client, domain: string, tasks: seq<(string, string)>, x: DomainResult)
    ensures x in Answers(get, domain, tasks) <==>
      x.Answered? && exists k :: 0 <= k < |tasks| && CheckDomain(get, tasks[k].0, domain, tasks[k].1) == x
  {
    if tasks != [] {
      var init := tasks[..|tasks| - 1];
      AnswersMembers(get, domain, init, x);
      if exists k :: 0 <= k < |tasks| && CheckDomain(get, tasks[k].0, domain, tasks[k].1) == x {
        var k :| 0 <= k < |tasks| && CheckDomain(get, tasks[k].0, domain, tasks[k].1) == x;
        if k < |tasks| - 1 {
          assert init[k] == tasks[k];
        }
      }
      if exists k :: 0 <= k < |init| && CheckDomain(get, init[k].0, domain, init[k].1) == x {
        var k :| 0 <= k < |init| && CheckDomain(get, init[k].0, domain, init[k].1) == x;
        assert tasks[k] == init[k];
      }
    }
  }

  /** The outcome of the collection loop: the answered records and the `processed` count. */
  datatype Collected = Collected(valid: seq<DomainResult>, processed: nat)

  /** The collection loop of `main`, run in submission order: keep the answered records, count every task. */
  method Collect(get: Client, domain: string, tasks: seq<(string, string)>) returns (c: Collected)
    ensures c.valid == Answers(get, domain, tasks)
    ensures c.processed == |tasks|
  {
    var valid: seq<DomainResult> := [];
    var processed := 0;
    for i := 0 to |tasks|
      invariant valid == Answers(get, domain, tasks[..i])
      invariant processed == i
    {
      var result := CheckDomain(get, tasks[i].0, domain, tasks[i].1);
      assert tasks[..i + 1][..i] == tasks[..i];
      if result.Valid() {
        valid := valid + [result];
      }
      processed := processed + 1;
    }
    assert tasks[..|tasks|] == tasks;
    c := Collected(valid, processed);
  }

  /**
   * The work of `main` after reading the wordlist: choose the protocols,
   * submit the tasks, collect the answers; `processed` ends equal to
   * `total_checks`.
   */
  method Enumerate(get: Client, domain: string, subdomains: seq<string>, https: bool, both: bool)
    returns (c: Collected, totalChecks: nat)
    ensures totalChecks == |subdomains| * |Protocols(https, both)|
    ensures c.valid == Answers(get, domain, Tasks(subdomains, Protocols(https, both)))
    ensures c.processed == totalChecks
  {
    var protocols := Protocols(https, both);
    totalChecks := |subdomains| * |protocols|;
    var tasks := SubmitTasks(subdomains, protocols);
    c := Collect(get, domain, tasks);
  }
}
