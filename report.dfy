/** The report driver: credential resolution with prompting, endpoint
    resolution, row emission per site, the all-or-nothing outcome and the
    whole run. */
module Report {
  import opened Wrappers
  import opened Php
  import opened Fetcher
  import opened Loader

  /** A question put at the terminal. */
  datatype Prompt = SiteUrl | Username(key: string) | Password(key: string)

  /** The terminal: the answer typed to the n-th prompt of the run. */
  type Answers = nat -> string

  /** One line of the report: site url, email, comma-joined roles. */
  datatype Row = Row(url: string, email: string, roles: string)

  /** What the script prints on its message and error channels. */
  datatype Message = Retrieving(url: string) | NoSitesFound | Generating | Finished | Failed(error: FetchError)

  /** The script's state while it goes through the sites: `$credentials`,
      the prompts asked so far, `$users`, the messages printed, and the
      exception that stopped the loop, if any. */
  datatype Session = Session(
    credentials: map<string, Credential>,
    asked: seq<Prompt>,
    rows: seq<Row>,
    log: seq<Message>,
    failure: Option<FetchError>)

  /** How the script ends: the value of `$status` it returns, the rows
      handed to the output file (none when no file is written), messages,
      prompts. */
  datatype RunResult = RunResult(status: int, output: Option<seq<Row>>, log: seq<Message>, asked: seq<Prompt>)

  /** `$site['platform'] ?: $url`. */
  function CredentialKey(site: Site): string {
    Elvis(site.platform, site.url)
  }

  /** `$site['staging'] ?: $url`. */
  function Endpoint(site: Site): string {
    Elvis(site.staging, site.url)
  }

  /** The rows one site's accounts add to `$users`, in fetch order. */
  function Rows(url: string, accounts: seq<Account>): (rows: seq<Row>)
    ensures |rows| <= |accounts|
    ensures forall k :: 0 <= k < |rows| ==> rows[k].url == url && Truthy(Some(rows[k].email))
    decreases |accounts|
  {
    if accounts == [] then []
    else
      var account := accounts[|accounts| - 1];
      Rows(url, accounts[..|accounts| - 1])
        + (if Truthy(account.email) then [Row(url, account.email.value, Implode(",", account.roles))] else [])
  }

  lemma {:induction false} RowsAppend(url: string, a: seq<Account>, b: seq<Account>)
    ensures Rows(url, a + b) == Rows(url, a) + Rows(url, b)
    decreases |b|
  {
    if b == [] {
      assert a + b == a;
    } else {
      RowsAppend(url, a, b[..|b| - 1]);
      assert (a + b)[..|a + b| - 1] == a + b[..|b| - 1];
    }
  }

  /** A row is emitted exactly for an account with a truthy email, carrying
      the site url, that email and the joined roles. */
  lemma {:induction false} RowsMembership(url: string, accounts: seq<Account>, row: Row)
    ensures row in Rows(url, accounts) <==>
      exists k :: 0 <= k < |accounts| && Truthy(accounts[k].email)
               && row == Row(url, accounts[k].email.value, Implode(",", accounts[k].roles))
    decreases |accounts|
  {
    if accounts != [] {
      var init := accounts[..|accounts| - 1];
      RowsMembership(url, init, row);
      if exists k :: 0 <= k < |accounts| && Truthy(accounts[k].email)
                  && row == Row(url, accounts[k].email.value, Implode(",", accounts[k].roles)) {
        var k :| 0 <= k < |accounts| && Truthy(accounts[k].email)
                  && row == Row(url, accounts[k].email.value, Implode(",", accounts[k].roles));
        if k < |accounts| - 1 {
          assert init[k] == accounts[k];
        }
      }
    }
  }

  /** The outcome of looking up or prompting for a credential. */
  datatype Resolution = Resolution(login: Credential, credentials: map<string, Credential>, asked: seq<Prompt>)

  /** Lines 160-170: a stored pair is used as it is; a missing key is
      prompted for (username, then password) and stored. */
  function Resolve(credentials: map<string, Credential>, key: string, answers: Answers, asked: seq<Prompt>): (r: Resolution)
    ensures key in r.credentials && r.credentials[key] == r.login
    ensures key in credentials ==> r.login == credentials[key] && r.credentials == credentials && r.asked == asked
    ensures key !in credentials ==>
      && r.asked == asked + [Username(key), Password(key)]
      && r.login == Credential(Some(answers(|asked|)), Some(answers(|asked| + 1)))
    ensures forall k :: k != key ==> (k in r.credentials <==> k in credentials)
    ensures forall k :: k != key && k in credentials ==> r.credentials[k] == credentials[k]
  {
    if key in credentials then Resolution(credentials[key], credentials, asked)
    else
      var login := Credential(Some(answers(|asked|)), Some(answers(|asked| + 1)));
      Resolution(login, credentials[key := login], asked + [Username(key), Password(key)])
  }

  /** Resolving a key a second time asks nothing and yields the same pair. */
  lemma ResolveAgain(credentials: map<string, Credential>, key: string, answers: Answers, asked: seq<Prompt>)
    ensures var r := Resolve(credentials, key, answers, asked);
            Resolve(r.credentials, key, answers, r.asked) == r
  {
  }

  /** The endpoint of `site`, contacted with the login that `site` resolves
      to from `s`, eventually answers with a page that is not full. */
  ghost predicate VisitHalts(remote: Remote, answers: Answers, site: Site, s: Session) {
    Halts(remote, Endpoint(site), Resolve(s.credentials, CredentialKey(site), answers, s.asked).login)
  }

  /** One iteration of the site loop (lines 154-186). */
  ghost function Visit(remote: Remote, answers: Answers, site: Site, s: Session): Session
    requires VisitHalts(remote, answers, site, s)
  {
    var log := s.log + [Retrieving(site.url)];
    var r := Resolve(s.credentials, CredentialKey(site), answers, s.asked);
    match Fetch(remote, Endpoint(site), r.login)
    case Failure(e) => Session(r.credentials, r.asked, s.rows, log, Some(e))
    case Success(accounts) => Session(r.credentials, r.asked, s.rows + Rows(site.url, accounts), log, None)
  }

  /** Every site the loop reaches from `s` halts pagination on the endpoint
      and login it is visited with; sites after a failure are never
      contacted, so they are unconstrained. */
  ghost predicate SitesHalt(remote: Remote, answers: Answers, sites: seq<Site>, s: Session)
    decreases |sites|
  {
    sites == [] || s.failure.Some? ||
    (VisitHalts(remote, answers, sites[0], s) && SitesHalt(remote, answers, sites[1..], Visit(remote, answers, sites[0], s)))
  }

  /** The site loop: sites in order, stopping at the first exception. */
  ghost function VisitAll(remote: Remote, answers: Answers, sites: seq<Site>, s: Session): Session
    requires SitesHalt(remote, answers, sites, s)
    decreases |sites|
  {
    if sites == [] || s.failure.Some? then s
    else VisitAll(remote, answers, sites[1..], Visit(remote, answers, sites[0], s))
  }

  /** The credential key is the platform when truthy, else the url; the
      endpoint is the staging value when truthy, else the url; the rows added
      carry the site url whatever the endpoint was. */
  lemma VisitResolution(remote: Remote, answers: Answers, site: Site, s: Session)
    requires VisitHalts(remote, answers, site, s)
    ensures var key := if Truthy(site.platform) then site.platform.value else site.url;
            var endpoint := if Truthy(site.staging) then site.staging.value else site.url;
            var r := Resolve(s.credentials, key, answers, s.asked);
            var t := Visit(remote, answers, site, s);
            && t.credentials == r.credentials && t.asked == r.asked
            && (t.failure.None? <==> Fetch(remote, endpoint, r.login).Success?)
            && (t.failure.None? ==> t.rows == s.rows + Rows(site.url, Fetch(remote, endpoint, r.login).value))
            && (t.failure.Some? ==> t.rows == s.rows)
            && forall k :: |s.rows| <= k < |t.rows| ==> t.rows[k].url == site.url
  {
  }

  /** Processing a list of sites is processing its prefix, then its suffix
      from the state the prefix left. */
  lemma {:induction false} VisitAllSplit(remote: Remote, answers: Answers, a: seq<Site>, b: seq<Site>, s: Session)
    ensures SitesHalt(remote, answers, a + b, s) <==>
            SitesHalt(remote, answers, a, s) && SitesHalt(remote, answers, b, VisitAll(remote, answers, a, s))
    ensures SitesHalt(remote, answers, a + b, s) ==>
            VisitAll(remote, answers, a + b, s) == VisitAll(remote, answers, b, VisitAll(remote, answers, a, s))
    decreases |a|
  {
    if a == [] {
      assert a + b == b;
    } else if s.failure.None? && VisitHalts(remote, answers, a[0], s) {
      assert (a + b)[1..] == a[1..] + b;
      VisitAllSplit(remote, answers, a[1..], b, Visit(remote, answers, a[0], s));
    }
  }

  /** A site whose fetch throws ends the loop there: nothing after it is
      visited (no prompt, no request, no row), and the run fails. */
  lemma VisitAllStopsAtFailure(remote: Remote, answers: Answers, sites: seq<Site>, s: Session, i: nat)
    requires i < |sites|
    requires SitesHalt(remote, answers, sites[..i], s)
    requires VisitAll(remote, answers, sites[..i], s).failure.None?
    requires VisitHalts(remote, answers, sites[i], VisitAll(remote, answers, sites[..i], s))
    requires Visit(remote, answers, sites[i], VisitAll(remote, answers, sites[..i], s)).failure.Some?
    ensures SitesHalt(remote, answers, sites, s)
    ensures VisitAll(remote, answers, sites, s) == Visit(remote, answers, sites[i], VisitAll(remote, answers, sites[..i], s))
    ensures Outcome(VisitAll(remote, answers, sites, s)).status == 1
    ensures Outcome(VisitAll(remote, answers, sites, s)).output == None
  {
    var m := VisitAll(remote, answers, sites[..i], s);
    assert sites == sites[..i] + sites[i..];
    VisitAllSplit(remote, answers, sites[..i], sites[i..], s);
    assert sites[i..][1..] == sites[i + 1..];
  }

  /** Rows already collected are never touched, and every row added carries
      the url of one of the visited sites. */
  lemma {:induction false} VisitAllRows(remote: Remote, answers: Answers, sites: seq<Site>, s: Session)
    requires SitesHalt(remote, answers, sites, s)
    ensures var t := VisitAll(remote, answers, sites, s);
            && |s.rows| <= |t.rows| && t.rows[..|s.rows|] == s.rows
            && forall k :: |s.rows| <= k < |t.rows| ==> exists i :: 0 <= i < |sites| && t.rows[k].url == sites[i].url
    decreases |sites|
  {
    if sites != [] && s.failure.None? {
      var v := Visit(remote, answers, sites[0], s);
      VisitResolution(remote, answers, sites[0], s);
      VisitAllRows(remote, answers, sites[1..], v);
      var t := VisitAll(remote, answers, sites, s);
      assert t == VisitAll(remote, answers, sites[1..], v);
      forall k | |s.rows| <= k < |t.rows|
        ensures exists i :: 0 <= i < |sites| && t.rows[k].url == sites[i].url
      {
        if k < |v.rows| {
          assert t.rows[k] == v.rows[k];
          assert t.rows[k].url == sites[0].url;
        } else {
          var i :| 0 <= i < |sites[1..]| && t.rows[k].url == sites[1..][i].url;
          assert t.rows[k].url == sites[i + 1].url;
        }
      }
    }
  }

  /** From `before` to `after`: stored pairs are kept, and every key
      prompted for in between was missing from `before` and was prompted for
      once. */
  ghost predicate PromptsOnce(before: Session, after: Session) {
    && |before.asked| <= |after.asked|
    && after.asked[..|before.asked|] == before.asked
    && (forall k :: k in before.credentials ==> k in after.credentials && after.credentials[k] == before.credentials[k])
    && (forall p :: |before.asked| <= p < |after.asked| && after.asked[p].Username? ==>
          after.asked[p].key in after.credentials && after.asked[p].key !in before.credentials)
    && (forall p, q :: |before.asked| <= p < q < |after.asked| && after.asked[p].Username? && after.asked[q].Username? ==>
          after.asked[p].key != after.asked[q].key)
  }

  lemma VisitPromptsOnce(remote: Remote, answers: Answers, site: Site, s0: Session, s: Session)
    requires VisitHalts(remote, answers, site, s)
    requires PromptsOnce(s0, s)
    ensures PromptsOnce(s0, Visit(remote, answers, site, s))
  {
  }

  /** Across the whole loop a key is prompted for at most once, and only if
      the loaded table lacked it: later sites with the same key reuse it. */
  lemma {:induction false} VisitAllPromptsOnce(remote: Remote, answers: Answers, sites: seq<Site>, s0: Session, s: Session)
    requires SitesHalt(remote, answers, sites, s)
    requires PromptsOnce(s0, s)
    ensures PromptsOnce(s0, VisitAll(remote, answers, sites, s))
    decreases |sites|
  {
    if sites != [] && s.failure.None? {
      VisitPromptsOnce(remote, answers, sites[0], s0, s);
      VisitAllPromptsOnce(remote, answers, sites[1..], s0, Visit(remote, answers, sites[0], s));
    }
  }

  /** Lines 176-186: one row per account with a truthy email, appended to
      `users` in fetch order. */
  method AppendRows(url: string, users: seq<Row>, siteUsers: seq<Account>) returns (rows: seq<Row>)
    ensures rows == users + Rows(url, siteUsers)
  {
    rows := users;
    var j := 0;
    while j < |siteUsers|
      invariant 0 <= j <= |siteUsers|
      invariant rows == users + Rows(url, siteUsers[..j])
    {
      var email := siteUsers[j].email;
      if Truthy(email) {
        rows := rows + [Row(url, email.value, Implode(",", siteUsers[j].roles))];
      }
      assert siteUsers[..j + 1][..j] == siteUsers[..j];
      j := j + 1;
    }
    assert siteUsers[..j] == siteUsers;
  }

  /** Lines 154-186 for one site: message, credential lookup or prompt,
      fetch from the endpoint, rows under the site url. */
  method VisitSite(remote: Remote, answers: Answers, site: Site, current: Session) returns (next: Session)
    requires VisitHalts(remote, answers, site, current)
    requires current.failure.None?
    ensures next == Visit(remote, answers, site, current)
  {
    var credentials := current.credentials;
    var asked := current.asked;
    var url := site.url;
    var log := current.log + [Retrieving(url)];
    var key := Elvis(site.platform, url);
    var login: Credential;
    if key !in credentials {
      var username := answers(|asked|);
      asked := asked + [Username(key)];
      var password := answers(|asked|);
      asked := asked + [Password(key)];
      login := Credential(Some(username), Some(password));
      credentials := credentials[key := login];
    } else {
      login := credentials[key];
    }
    assert Resolve(current.credentials, CredentialKey(site), answers, current.asked)
        == Resolution(login, credentials, asked);
    var endpoint := Elvis(site.staging, url);
    assert Halts(remote, endpoint, login);
    var result, _ := GetUsers(remote, endpoint, login);
    if result.Failure? {
      next := Session(credentials, asked, current.rows, log, Some(result.error));
    } else {
      var users := AppendRows(url, current.rows, result.value);
      next := Session(credentials, asked, users, log, None);
    }
  }

  /** The site loop of lines 153-187; an exception from `get_users` leaves
      the loop at once. */
  method ProcessSites(remote: Remote, answers: Answers, sites: seq<Site>, start: Session) returns (s: Session)
    requires SitesHalt(remote, answers, sites, start)
    requires start.failure.None?
    ensures s == VisitAll(remote, answers, sites, start)
  {
    s := start;
    var i := 0;
    while i < |sites|
      invariant 0 <= i <= |sites|
      invariant s.failure.None?
      invariant SitesHalt(remote, answers, sites[i..], s)
      invariant VisitAll(remote, answers, sites[i..], s) == VisitAll(remote, answers, sites, start)
    {
      assert sites[i..][0] == sites[i] && sites[i..][1..] == sites[i + 1..];
      var next := VisitSite(remote, answers, sites[i], s);
      if next.failure.Some? {
        return next;
      }
      s := next;
      i := i + 1;
    }
  }

  /** Lines 189-222: a failure means status 1 and no output; an empty row
      set means no output file but status 0; otherwise all rows, in order,
      go to the output. */
  function Outcome(s: Session): (r: RunResult)
    ensures r.status == (if s.failure.Some? then 1 else 0)
    ensures r.output.Some? <==> s.failure.None? && s.rows != []
    ensures r.output.Some? ==> r.output.value == s.rows
    ensures r.asked == s.asked
    ensures s.failure.None? && s.rows == [] ==> r.log == s.log + [NoSitesFound, Finished]
  {
    if s.failure.Some? then RunResult(1, None, s.log + [Failed(s.failure.value)], s.asked)
    else if s.rows == [] then RunResult(0, None, s.log + [NoSitesFound, Finished], s.asked)
    else RunResult(0, Some(s.rows), s.log + [Generating, Finished], s.asked)
  }

  /** Some answer from the `from`-th on is a truthy url. */
  ghost predicate AnswersUrl(answers: Answers, from: nat) {
    exists n: nat :: from <= n && Truthy(Some(answers(n)))
  }

  ghost function SearchAnswer(answers: Answers, start: nat, from: nat, bound: nat): (n: nat)
    requires start <= from <= bound && Truthy(Some(answers(bound)))
    requires forall k :: start <= k < from ==> !Truthy(Some(answers(k)))
    ensures start <= n && Truthy(Some(answers(n)))
    ensures forall k :: start <= k < n ==> !Truthy(Some(answers(k)))
    decreases bound - from
  {
    if Truthy(Some(answers(from))) then from else SearchAnswer(answers, start, from + 1, bound)
  }

  /** The index of the first truthy answer from the `from`-th on. */
  ghost function FirstUrlAnswer(answers: Answers, from: nat): (n: nat)
    requires AnswersUrl(answers, from)
    ensures from <= n && Truthy(Some(answers(n)))
    ensures forall k :: from <= k < n ==> !Truthy(Some(answers(k)))
  {
    var bound: nat :| from <= bound && Truthy(Some(answers(bound)));
    SearchAnswer(answers, from, from, bound)
  }

  function SiteUrlPrompts(count: nat): seq<Prompt> {
    if count == 0 then [] else SiteUrlPrompts(count - 1) + [SiteUrl]
  }

  /** Lines 117-119: ask for the website URL until the answer is not empty. */
  method AskSiteUrl(answers: Answers, asked0: seq<Prompt>) returns (url: string, asked: seq<Prompt>)
    requires AnswersUrl(answers, |asked0|)
    ensures Truthy(Some(url))
    ensures url == answers(FirstUrlAnswer(answers, |asked0|))
    ensures asked == asked0 + SiteUrlPrompts(FirstUrlAnswer(answers, |asked0|) + 1 - |asked0|)
  {
    ghost var first := FirstUrlAnswer(answers, |asked0|);
    asked := asked0;
    url := "";
    var more := true;
    while more
      invariant |asked0| <= |asked| <= first + 1
      invariant asked == asked0 + SiteUrlPrompts(|asked| - |asked0|)
      invariant more ==> |asked| <= first
      invariant !more ==> |asked| == first + 1 && url == answers(first)
      decreases first + 1 - |asked|
    {
      url := answers(|asked|);
      asked := asked + [SiteUrl];
      more := !Truthy(Some(url));
    }
  }

  /** The site list the loop starts with: the site table when an input file
      is given, otherwise the one site whose URL was typed in. */
  ghost function InitialSites(inputFile: Value, files: string -> seq<CsvRow>, answers: Answers): seq<Site>
    requires Truthy(inputFile) || AnswersUrl(answers, 0)
  {
    if Truthy(inputFile) then SitesOf(files(inputFile.value))
    else [Site(answers(FirstUrlAnswer(answers, 0)), None, None)]
  }

  /** The state the loop starts from: the loaded credential table and the
      URL prompts asked, if any. */
  ghost function InitialSession(inputFile: Value, credentialsFile: Value, files: string -> seq<CsvRow>, answers: Answers): Session
    requires Truthy(inputFile) || AnswersUrl(answers, 0)
  {
    var credentials := if Truthy(credentialsFile) then CredentialsOf(files(credentialsFile.value)) else map[];
    var asked := if Truthy(inputFile) then [] else SiteUrlPrompts(FirstUrlAnswer(answers, 0) + 1);
    Session(credentials, asked, [], [], None)
  }

  /** The whole script (lines 80-222). `files` gives the parsed rows of a
      named CSV file. */
  method Run(inputFile: Value, credentialsFile: Value, files: string -> seq<CsvRow>, answers: Answers, remote: Remote)
    returns (run: RunResult)
    requires Truthy(inputFile) || AnswersUrl(answers, 0)
    requires SitesHalt(remote, answers, InitialSites(inputFile, files, answers),
                       InitialSession(inputFile, credentialsFile, files, answers))
    ensures run == Outcome(VisitAll(remote, answers,
                           InitialSites(inputFile, files, answers),
                           InitialSession(inputFile, credentialsFile, files, answers)))
  {
    ghost var initialSites := InitialSites(inputFile, files, answers);
    ghost var initial := InitialSession(inputFile, credentialsFile, files, answers);
    var sites: seq<Site>;
    var asked: seq<Prompt> := [];
    if Truthy(inputFile) {
      sites := LoadSites(files(inputFile.value));
    } else {
      var url;
      url, asked := AskSiteUrl(answers, []);
      assert asked == SiteUrlPrompts(FirstUrlAnswer(answers, 0) + 1);
      sites := [Site(url, None, None)];
    }
    var credentials: map<string, Credential> := map[];
    if Truthy(credentialsFile) {
      credentials := LoadCredentials(files(credentialsFile.value));
    }
    assert sites == initialSites;
    assert Session(credentials, asked, [], [], None) == initial;
    var s := ProcessSites(remote, answers, sites, Session(credentials, asked, [], [], None));
    run := Outcome(s);
  }
}
