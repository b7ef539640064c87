/**
 * The SSH dictionary attack: the exception-to-code mapping of one login, the
 * message shown for each code, the resume offset, the submission of the
 * non-blank password lines and the scan of the results for the first
 * success.  The SSH client is an oracle; the thread pool runs the attempts
 * one at a time, in submission order.
 */
module SshBruteForce {

  import opened Wrappers
  import opened Strings
  import PyInt

  // ---------------------------------------------------------------------
  // One login
  // ---------------------------------------------------------------------

  /**
   * The exceptions `SSHClient.connect` may raise, as far as the handlers
   * tell them apart: the authentication family (a subclass of
   * `SSHException`), other `SSHException`s, and everything else.
   */
  datatype Raised =
    | AuthenticationException
    | BadAuthenticationType
    | PartialAuthentication
    | BadHostKeyException
    | OtherSshException
    | SocketError
    | OtherException

  predicate IsAuthentication(e: Raised) {
    e.AuthenticationException? || e.BadAuthenticationType? || e.PartialAuthentication?
  }

  /** `isinstance(e, paramiko.SSHException)`: the authentication family included. */
  predicate IsSshException(e: Raised) {
    IsAuthentication(e) || e.BadHostKeyException? || e.OtherSshException?
  }

  /** The fixed arguments of every attempt. */
  datatype Config = Config(target: string, port: int, username: string, verbose: bool, timeout: int)

  /** The SSH oracle: `None` when `connect(target, port, username, password, timeout)` returns, else what it raised. */
  type Ssh = (Config, string) -> Option<Raised>

  /**
   * `ssh_connect`: 0 when the connection succeeds, 1 for the authentication
   * family (caught before its superclass), 2 for any other `SSHException`,
   * 3 for anything else.
   */
  function SshConnect(ssh: Ssh, cfg: Config, password: string): (code: int)
    ensures 0 <= code <= 3
    ensures code == 0 <==> ssh(cfg, password).None?
    ensures code == 1 <==> ssh(cfg, password).Some? && IsAuthentication(ssh(cfg, password).value)
    ensures code == 2 <==> ssh(cfg, password).Some? && IsSshException(ssh(cfg, password).value) && !IsAuthentication(ssh(cfg, password).value)
    ensures code == 3 <==> ssh(cfg, password).Some? && !IsSshException(ssh(cfg, password).value)
  {
    match ssh(cfg, password)
    case None => 0
    case Some(e) =>
      if IsAuthentication(e) then 1
      else if IsSshException(e) then 2
      else 3
  }

  predicate EndsWith(s: string, suffix: string) {
    |suffix| <= |s| && s[|s| - |suffix|..] == suffix
  }

  /** What `attempt_login` returns: the message (or `None`), the code and the password. */
  datatype Attempt = Attempt(result: Option<string>, response: int, password: string)

  const SuccessPrefix: string := "[+] SUCCESS: Password found: "
  const SshErrorPrefix: string := "[!] ERROR: SSH connection error - "
  const ConnectionErrorPrefix: string := "[!] ERROR: Connection error - "

  /** The verbose-only line for a rejected password. */
  function FailedLine(cfg: Config, password: string): (line: string)
    ensures "[-] FAILED: " <= line
    ensures EndsWith(line, password)
  {
    "[-] FAILED: " + cfg.username + "@" + cfg.target + ":" + IntString(cfg.port) + " - Password: " + password
  }

  /**
   * `attempt_login` (the optional delay left out): a message for every code
   * except a rejected password outside verbose mode; the code and the
   * password come back as they are.
   */
  function AttemptLogin(ssh: Ssh, cfg: Config, password: string): (a: Attempt)
    ensures a.response == SshConnect(ssh, cfg, password) && a.password == password
    ensures a.result.None? <==> a.response == 1 && !cfg.verbose
    ensures a.result.Some? ==> EndsWith(a.result.value, password)
    ensures a.response == 0 ==> a.result == Some(SuccessPrefix + password)
    ensures a.response == 1 && cfg.verbose ==> a.result == Some(FailedLine(cfg, password))
    ensures a.response == 2 ==> a.result == Some(SshErrorPrefix + password)
    ensures a.response == 3 ==> a.result == Some(ConnectionErrorPrefix + password)
  {
    var response := SshConnect(ssh, cfg, password);
    var result :=
      if response == 0 then Some(SuccessPrefix + password)
      else if response == 1 then (if cfg.verbose then Some(FailedLine(cfg, password)) else None)
      else if response == 2 then Some(SshErrorPrefix + password)
      else Some(ConnectionErrorPrefix + password);
    Attempt(result, response, password)
  }

  /** Only a success message starts with "[+]". */
  lemma SuccessMarked(ssh: Ssh, cfg: Config, password: string)
    ensures AttemptLogin(ssh, cfg, password).result.Some? ==>
      (AttemptLogin(ssh, cfg, password).result.value[..3] == "[+]" <==> AttemptLogin(ssh, cfg, password).response == 0)
  {
    var a := AttemptLogin(ssh, cfg, password);
    if a.response == 1 && cfg.verbose {
      assert a.result.value[..3] == "[-]";
    } else if a.response == 2 {
      assert a.result.value[..3] == "[!]";
    } else if a.response == 3 {
      assert a.result.value[..3] == "[!]";
    }
  }

  // ---------------------------------------------------------------------
  // Resume and submission
  // ---------------------------------------------------------------------

  /** `str.isdigit()` on ASCII text: non-empty and all decimal digits. */
  predicate AllDigits(s: string) {
    s != [] && forall k :: 0 <= k < |s| ==> '0' <= s[k] <= '9'
  }

  /** `start_line`: `int(args.resume)` when the argument is given and all digits, else 0. */
  function ResumeLine(resume: Option<string>): (start: nat)
    ensures start > 0 ==> resume.Some? && AllDigits(resume.value)
    ensures resume.Some? && AllDigits(resume.value) ==> PyInt.ParseInt(resume.value, 10) == Some(start as int)
  {
    if resume.Some? && AllDigits(resume.value) then
      PyInt.DecimalDigitsParse(resume.value);
      PyInt.DigitsValue(resume.value, 10)
    else 0
  }

  /** A line number written in decimal is resumed from exactly. */
  lemma {:induction false} ResumeRoundTrip(n: nat)
    ensures ResumeLine(Some(DecimalString(n))) == n
  {
    PyInt.DecimalRoundTrip(n);
  }

  /** An argument with any other character (a sign, a space) is ignored. */
  lemma ResumeIgnored(resume: string, k: nat)
    requires k < |resume| && !('0' <= resume[k] <= '9')
    ensures ResumeLine(Some(resume)) == 0
  {
  }

  /** The lines left after `next(file, None)` was called `start` times. */
  function Skip(lines: seq<string>, start: nat): (rest: seq<string>)
    ensures |rest| == if start < |lines| then |lines| - start else 0
    ensures forall i :: 0 <= i < |rest| ==> rest[i] == lines[start + i]
  {
    if start < |lines| then lines[start..] else []
  }

  /** The submission loop's variables at its end. */
  datatype Submission = Submission(passwords: seq<string>, passwordsTried: nat, currentPassword: string)

  /** `passwords_tried` is the 1-based file line of the last submitted password; every later line is blank. */
  predicate LastSubmittedAt(lines: seq<string>, start: nat, upto: nat, tried: nat, current: string)
    requires upto <= |lines|
  {
    && start < tried <= upto
    && Strip(lines[tried - 1]) == current
    && forall k :: tried <= k < upto ==> Strip(lines[k]) == []
  }

  /**
   * If the lines up to `last` already give every password the whole list
   * gives, every later line is blank.
   */
  lemma {:induction false} NothingAfter(rest: seq<string>, last: nat)
    requires last <= |rest|
    requires NonBlankLines(rest[..last]) == NonBlankLines(rest)
    ensures forall k :: last <= k < |rest| ==> Strip(rest[k]) == []
  {
    assert rest == rest[..last] + rest[last..];
    NonBlankLinesAppend(rest[..last], rest[last..]);
    forall k | last <= k < |rest| ensures Strip(rest[k]) == [] {
      if Strip(rest[k]) != [] {
        assert rest[last..][k - last] == rest[k];
        NonBlankLinesMembers(rest[last..], Strip(rest[k]));
        assert false;
      }
    }
  }

  /**
   * The submission loop's state after the first `i` lines of `rest`: the
   * passwords submitted so far, and `last`, the 1-based position of the
   * most recent one, whose stripped text is `current`.
   */
  ghost predicate SubmittedUpTo(rest: seq<string>, i: nat, passwords: seq<string>, last: nat, current: string) {
    && i <= |rest|
    && passwords == NonBlankLines(rest[..i])
    && (passwords == [] ==> last == 0 && current == "")
    && (passwords != [] ==>
          && 0 < last <= i
          && Strip(rest[last - 1]) == current
          && current == passwords[|passwords| - 1]
          && NonBlankLines(rest[..last]) == passwords)
  }

  /** One more line: a non-blank one is submitted and becomes the last, a blank one changes nothing. */
  lemma SubmitStep(rest: seq<string>, i: nat, passwords: seq<string>, last: nat, current: string)
    requires i < |rest| && SubmittedUpTo(rest, i, passwords, last, current)
    ensures Strip(rest[i]) != [] ==> SubmittedUpTo(rest, i + 1, passwords + [Strip(rest[i])], i + 1, Strip(rest[i]))
    ensures Strip(rest[i]) == [] ==> SubmittedUpTo(rest, i + 1, passwords, last, current)
  {
    NonBlankLinesStep(rest, i);
  }

  /**
   * Lines 126-146: skip `start` lines, then submit the stripped text of
   * every non-blank line in file order; `current_password` is the last one
   * submitted and `passwords_tried` its line number counted from the start
   * of the file.
   */
  method SubmitPasswords(lines: seq<string>, start: nat) returns (s: Submission)
    ensures s.passwords == NonBlankLines(Skip(lines, start))
    ensures s.passwords == [] ==> s.passwordsTried == 0 && s.currentPassword == ""
    ensures s.passwords != [] ==> s.currentPassword == s.passwords[|s.passwords| - 1]
    ensures s.passwords != [] ==> start < |lines| && LastSubmittedAt(lines, start, |lines|, s.passwordsTried, s.currentPassword)
  {
    var rest := Skip(lines, start);
    s := SubmitFrom(rest, start);
    SubmittedLast(lines, start, rest, s.passwords, if s.passwords == [] then 0 else s.passwordsTried - start, s.currentPassword);
  }

  /** The `enumerate` loop over the lines left after the skip; `passwords_tried` counts the skipped lines too. */
  method SubmitFrom(rest: seq<string>, start: nat) returns (s: Submission)
    ensures s.passwords == [] ==> s.passwordsTried == 0 && s.currentPassword == ""
    ensures s.passwords != [] ==> s.passwordsTried > start
    ensures SubmittedUpTo(rest, |rest|, s.passwords, if s.passwords == [] then 0 else s.passwordsTried - start, s.currentPassword)
  {
    var passwords: seq<string> := [];
    var passwordsTried: nat := 0;
    var currentPassword: string := "";
    ghost var last: nat := 0;
    for i := 0 to |rest|
      invariant SubmittedUpTo(rest, i, passwords, last, currentPassword)
      invariant passwordsTried == if passwords == [] then 0 else start + last
    {
      var password := Strip(rest[i]);
      SubmitStep(rest, i, passwords, last, currentPassword);
      if password != [] {
        currentPassword := password;
        passwords := passwords + [password];
        passwordsTried := i + 1 + start;
        last := i + 1;
      }
    }
    s := Submission(passwords, passwordsTried, currentPassword);
  }

  lemma SubmittedLast(lines: seq<string>, start: nat, rest: seq<string>, passwords: seq<string>, last: nat, current: string)
    requires rest == Skip(lines, start)
    requires SubmittedUpTo(rest, |rest|, passwords, last, current)
    ensures passwords == NonBlankLines(rest)
    ensures passwords != [] ==> start < |lines| && LastSubmittedAt(lines, start, |lines|, start + last, current)
  {
    assert rest[..|rest|] == rest;
    if passwords != [] {
      NothingAfter(rest, last);
      forall k | start + last <= k < |lines| ensures Strip(lines[k]) == [] {
        assert rest[k - start] == lines[k];
      }
    }
  }

  // ---------------------------------------------------------------------
  // Results
  // ---------------------------------------------------------------------

  /** The futures' results, in submission order. */
  function Attempts(ssh: Ssh, cfg: Config, passwords: seq<string>): (r: seq<Attempt>)
    ensures |r| == |passwords|
    ensures forall k :: 0 <= k < |r| ==> r[k] == AttemptLogin(ssh, cfg, passwords[k])
  {
    seq(|passwords|, k requires 0 <= k < |passwords| => AttemptLogin(ssh, cfg, passwords[k]))
  }

  /** The index of the first result with code 0. */
  function FirstSuccess(attempts: seq<Attempt>): (r: Option<nat>)
    ensures r.Some? ==> r.value < |attempts| && attempts[r.value].response == 0
    ensures r.Some? ==> forall k :: 0 <= k < r.value ==> attempts[k].response != 0
    ensures r.None? ==> forall k :: 0 <= k < |attempts| ==> attempts[k].response != 0
  {
    if attempts == [] then None
    else if attempts[0].response == 0 then Some(0)
    else
      match FirstSuccess(attempts[1..])
      case None => None
      case Some(i) => Some(i + 1)
  }

  /** The results the loop looks at: up to and including the first success. */
  function Examined(attempts: seq<Attempt>): (r: seq<Attempt>)
    ensures r <= attempts
  {
    match FirstSuccess(attempts)
    case None => attempts
    case Some(i) => attempts[..i + 1]
  }

  /** The lines printed for `attempts`: a result is shown when it is not `None` and verbose mode is on or the code is 0. */
  function Shown(attempts: seq<Attempt>, verbose: bool): (r: seq<string>)
    ensures |r| <= |attempts|
  {
    if attempts == [] then []
    else
      var a := attempts[|attempts| - 1];
      Shown(attempts[..|attempts| - 1], verbose) + if a.result.Some? && (verbose || a.response == 0) then [a.result.value] else []
  }

  /** A line is printed exactly when it is the message of a result that qualifies. */
  lemma {:induction false} ShownMembers(attempts: seq<Attempt>, verbose: bool, m: string)
    ensures m in Shown(attempts, verbose) <==>
      exists k :: 0 <= k < |attempts| && attempts[k].result == Some(m) && (verbose || attempts[k].response == 0)
  {
    if attempts != [] {
      var init := attempts[..|attempts| - 1];
      ShownMembers(init, verbose, m);
      if exists k :: 0 <= k < |attempts| && attempts[k].result == Some(m) && (verbose || attempts[k].response == 0) {
        var k :| 0 <= k < |attempts| && attempts[k].result == Some(m) && (verbose || attempts[k].response == 0);
        if k < |init| {
          assert init[k] == attempts[k];
        }
      }
      if exists k :: 0 <= k < |init| && init[k].result == Some(m) && (verbose || init[k].response == 0) {
        var k :| 0 <= k < |init| && init[k].result == Some(m) && (verbose || init[k].response == 0);
        assert attempts[k] == init[k];
      }
    }
  }

  /** Outside verbose mode at most one line is printed: the first success's message, if any. */
  lemma {:induction false} QuietShowsOnlySuccess(attempts: seq<Attempt>)
    ensures FirstSuccess(attempts).None? ==> Shown(Examined(attempts), false) == []
    ensures FirstSuccess(attempts).Some? ==>
      Shown(Examined(attempts), false) == ToSeq(attempts[FirstSuccess(attempts).value].result)
  {
    match FirstSuccess(attempts)
    case None =>
      QuietNothing(attempts);
    case Some(i) =>
      var e := attempts[..i + 1];
      QuietNothing(e[..i]);
      assert e[..|e| - 1] == attempts[..i];
  }

  lemma {:induction false} QuietNothing(attempts: seq<Attempt>)
    requires forall k :: 0 <= k < |attempts| ==> attempts[k].response != 0
    ensures Shown(attempts, false) == []
  {
    if attempts != [] {
      QuietNothing(attempts[..|attempts| - 1]);
    }
  }

  /** The result loop's outcome: the password it reports (`main` returns True exactly then) and the lines it printed. */
  datatype Outcome = Outcome(found: Option<string>, shown: seq<string>)

  /** Lines 154-169: print each qualifying result in order and return at the first code 0. */
  method ProcessResults(attempts: seq<Attempt>, verbose: bool) returns (o: Outcome)
    ensures o.found.Some? <==> FirstSuccess(attempts).Some?
    ensures o.found.Some? ==> o.found.value == attempts[FirstSuccess(attempts).value].password
    ensures o.shown == Shown(Examined(attempts), verbose)
  {
    var shown: seq<string> := [];
    for i := 0 to |attempts|
      invariant forall k :: 0 <= k < i ==> attempts[k].response != 0
      invariant shown == Shown(attempts[..i], verbose)
    {
      var a := attempts[i];
      ShownStep(attempts, i, verbose);
      if a.result.Some? && (verbose || a.response == 0) {
        shown := shown + [a.result.value];
      }
      if a.response == 0 {
        FirstSuccessAt(attempts, i);
        return Outcome(Some(a.password), shown);
      }
    }
    NoSuccess(attempts);
    o := Outcome(None, shown);
  }

  lemma {:induction false} FirstSuccessAt(attempts: seq<Attempt>, i: nat)
    requires i < |attempts| && attempts[i].response == 0
    requires forall k :: 0 <= k < i ==> attempts[k].response != 0
    ensures FirstSuccess(attempts) == Some(i)
    ensures Examined(attempts) == attempts[..i + 1]
  {
    if i > 0 {
      FirstSuccessAt(attempts[1..], i - 1);
    }
  }

  lemma ShownStep(attempts: seq<Attempt>, i: nat, verbose: bool)
    requires i < |attempts|
    ensures Shown(attempts[..i + 1], verbose) == Shown(attempts[..i], verbose) +
      if attempts[i].result.Some? && (verbose || attempts[i].response == 0) then [attempts[i].result.value] else []
  {
    assert attempts[..i + 1][..i] == attempts[..i];
  }

  lemma NoSuccess(attempts: seq<Attempt>)
    requires forall k :: 0 <= k < |attempts| ==> attempts[k].response != 0
    ensures FirstSuccess(attempts).None?
    ensures Examined(attempts) == attempts[..|attempts|]
  {
  }

  /** The run reports a password exactly when some submitted password logs in, and it reports the first such one. */
  lemma {:induction false} FoundIsFirstWorking(ssh: Ssh, cfg: Config, passwords: seq<string>)
    ensures FirstSuccess(Attempts(ssh, cfg, passwords)).Some? <==>
      exists k :: 0 <= k < |passwords| && SshConnect(ssh, cfg, passwords[k]) == 0
    ensures FirstSuccess(Attempts(ssh, cfg, passwords)).Some? ==>
      var i := FirstSuccess(Attempts(ssh, cfg, passwords)).value;
      Attempts(ssh, cfg, passwords)[i].password == passwords[i] && ssh(cfg, passwords[i]).None? &&
      forall k :: 0 <= k < i ==> ssh(cfg, passwords[k]).Some?
  {
    var attempts := Attempts(ssh, cfg, passwords);
    if exists k :: 0 <= k < |passwords| && SshConnect(ssh, cfg, passwords[k]) == 0 {
      var k :| 0 <= k < |passwords| && SshConnect(ssh, cfg, passwords[k]) == 0;
      assert attempts[k].response == 0;
    }
    match FirstSuccess(attempts)
    case None =>
    case Some(i) =>
      forall k | 0 <= k < i ensures ssh(cfg, passwords[k]).Some? {
        assert attempts[k].response != 0;
      }
  }

  /** The end state of `main` when it returns. */
  datatype Run = Run(success: bool, shown: seq<string>, passwordsTried: nat, currentPassword: string)

  /**
   * `main` from the opened password file on: resume offset, submission,
   * and the scan of the results.  `success` is `main`'s return value.
   */
  method BruteForce(ssh: Ssh, cfg: Config, lines: seq<string>, resume: Option<string>) returns (run: Run)
    ensures var passwords := NonBlankLines(Skip(lines, ResumeLine(resume)));
      run.success <==> exists k :: 0 <= k < |passwords| && SshConnect(ssh, cfg, passwords[k]) == 0
    ensures var passwords := NonBlankLines(Skip(lines, ResumeLine(resume)));
      run.shown == Shown(Examined(Attempts(ssh, cfg, passwords)), cfg.verbose)
    ensures var passwords := NonBlankLines(Skip(lines, ResumeLine(resume)));
      passwords == [] ==> run.passwordsTried == 0 && run.currentPassword == ""
    ensures var passwords := NonBlankLines(Skip(lines, ResumeLine(resume)));
      passwords != [] ==>
        && run.currentPassword == passwords[|passwords| - 1]
        && LastSubmittedAt(lines, ResumeLine(resume), |lines|, run.passwordsTried, run.currentPassword)
  {
    var start := ResumeLine(resume);
    var s := SubmitPasswords(lines, start);
    var attempts := Attempts(ssh, cfg, s.passwords);
    var o := ProcessResults(attempts, cfg.verbose);
    FoundIsFirstWorking(ssh, cfg, s.passwords);
    run := Run(o.found.Some?, o.shown, s.passwordsTried, s.currentPassword);
  }
}
