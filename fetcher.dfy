/** `get_users`: the paginated `wp.getUsers` fetch of one site, with the
    script's array-union accumulation of pages. The XML-RPC round trip is an
    oracle from (URL, request) to a response. */
module Fetcher {
  import opened Wrappers
  import opened Php

  /** `$users_per_page`. */
  const PageSize: nat := 100

  /** One entry of a `wp.getUsers` page. */
  datatype Account = Account(email: Value, roles: seq<string>)

  /** A (username, password) pair as stored in `$credentials`. */
  datatype Credential = Credential(username: Value, password: Value)

  /** The parameters of one `wp.getUsers` call. */
  datatype Request = Request(procedure: string, blogId: int, username: Value, password: Value, number: nat, offset: nat)

  /** What one HTTP POST plus `xmlrpc_decode` yields. */
  datatype Response =
    | Unreachable     // file_get_contents returned false
    | Undecodable     // xmlrpc_decode returned null
    | Fault           // xmlrpc_is_fault held
    | Page(accounts: seq<Account>)

  /** The exception `get_users` throws. */
  datatype FetchError = CannotConnect(endpoint: string) | CannotDecode(endpoint: string) | InvalidResponse

  /** The remote side: the response to a request posted to a URL. */
  type Remote = (string, Request) -> Response

  function XmlRpcUrl(endpoint: string): string {
    endpoint + "/xmlrpc.php"
  }

  /** The request of round `round` (counting from 0). */
  function PageRequest(login: Credential, round: nat): Request {
    Request("wp.getUsers", 1, login.username, login.password, PageSize, PageSize * round)
  }

  function Respond(remote: Remote, endpoint: string, login: Credential, round: nat): Response {
    remote(XmlRpcUrl(endpoint), PageRequest(login, round))
  }

  /** The loop goes on exactly when the page holds `PageSize` entries. */
  predicate Continues(r: Response) {
    r.Page? && |r.accounts| == PageSize
  }

  function PageOf(r: Response): seq<Account> {
    if r.Page? then r.accounts else []
  }

  /** Some round ends the loop: the remote does not return full pages forever. */
  ghost predicate Halts(remote: Remote, endpoint: string, login: Credential) {
    exists n: nat :: !Continues(Respond(remote, endpoint, login, n))
  }

  /** PHP's `$a += $b` on lists: keep every index of `a`, add the indices of
      `b` beyond the end of `a`. */
  function Union<T>(a: seq<T>, b: seq<T>): (r: seq<T>)
    ensures |r| == if |a| < |b| then |b| else |a|
    ensures forall i :: 0 <= i < |a| ==> r[i] == a[i]
    ensures forall i :: |a| <= i < |r| ==> r[i] == b[i]
  {
    if |b| > |a| then a + b[|a|..] else a
  }

  /** `$users` after the first `n` rounds. */
  function Collected(remote: Remote, endpoint: string, login: Credential, n: nat): seq<Account>
  {
    if n == 0 then []
    else Union(Collected(remote, endpoint, login, n - 1), PageOf(Respond(remote, endpoint, login, n - 1)))
  }

  lemma {:induction false} CollectedCovers(remote: Remote, endpoint: string, login: Credential, n: nat, j: nat)
    requires j < n
    ensures |PageOf(Respond(remote, endpoint, login, j))| <= |Collected(remote, endpoint, login, n)|
  {
    if j < n - 1 {
      CollectedCovers(remote, endpoint, login, n - 1, j);
    }
  }

  lemma {:induction false} CollectedBounded(remote: Remote, endpoint: string, login: Credential, n: nat, bound: nat)
    requires forall j :: 0 <= j < n ==> |PageOf(Respond(remote, endpoint, login, j))| <= bound
    ensures |Collected(remote, endpoint, login, n)| <= bound
  {
    if n > 0 {
      CollectedBounded(remote, endpoint, login, n - 1, bound);
    }
  }

  /** Index `i` of the accumulated list comes from the earliest page that has
      an index `i`; later pages never overwrite it. */
  lemma {:induction false} CollectedEarliest(remote: Remote, endpoint: string, login: Credential, n: nat, j: nat, i: nat)
    requires j < n
    requires i < |PageOf(Respond(remote, endpoint, login, j))|
    requires forall k :: 0 <= k < j ==> |PageOf(Respond(remote, endpoint, login, k))| <= i
    ensures i < |Collected(remote, endpoint, login, n)|
    ensures Collected(remote, endpoint, login, n)[i] == PageOf(Respond(remote, endpoint, login, j))[i]
  {
    if j < n - 1 {
      CollectedEarliest(remote, endpoint, login, n - 1, j, i);
    } else {
      CollectedBounded(remote, endpoint, login, n - 1, i);
    }
  }

  /** After a run of full pages, the union is the first page extended by the
      tail of the last page beyond index `PageSize`. */
  lemma {:induction false} CollectedFullPages(remote: Remote, endpoint: string, login: Credential, n: nat)
    requires n >= 2
    requires forall j :: 0 <= j < n - 1 ==> Continues(Respond(remote, endpoint, login, j))
    ensures Collected(remote, endpoint, login, n)
         == Union(PageOf(Respond(remote, endpoint, login, 0)), PageOf(Respond(remote, endpoint, login, n - 1)))
  {
    var first := PageOf(Respond(remote, endpoint, login, 0));
    if n == 2 {
      assert Collected(remote, endpoint, login, 1) == first;
    } else {
      CollectedFullPages(remote, endpoint, login, n - 1);
      assert Collected(remote, endpoint, login, n - 1) == first;
    }
  }

  ghost function SearchStop(remote: Remote, endpoint: string, login: Credential, from: nat, bound: nat): (k: nat)
    requires from <= bound
    requires !Continues(Respond(remote, endpoint, login, bound))
    requires forall j :: 0 <= j < from ==> Continues(Respond(remote, endpoint, login, j))
    ensures !Continues(Respond(remote, endpoint, login, k))
    ensures forall j :: 0 <= j < k ==> Continues(Respond(remote, endpoint, login, j))
    decreases bound - from
  {
    if !Continues(Respond(remote, endpoint, login, from)) then from
    else SearchStop(remote, endpoint, login, from + 1, bound)
  }

  /** The round whose response ends the loop: the first one that is not a
      full page. */
  ghost function StopRound(remote: Remote, endpoint: string, login: Credential): (k: nat)
    requires Halts(remote, endpoint, login)
    ensures !Continues(Respond(remote, endpoint, login, k))
    ensures forall j :: 0 <= j < k ==> Continues(Respond(remote, endpoint, login, j))
  {
    var bound: nat :| !Continues(Respond(remote, endpoint, login, bound));
    SearchStop(remote, endpoint, login, 0, bound)
  }

  lemma StopRoundUnique(remote: Remote, endpoint: string, login: Credential, k: nat)
    requires !Continues(Respond(remote, endpoint, login, k))
    requires forall j :: 0 <= j < k ==> Continues(Respond(remote, endpoint, login, j))
    ensures Halts(remote, endpoint, login) && StopRound(remote, endpoint, login) == k
  {
  }

  /** What `get_users` returns or throws. */
  ghost function Fetch(remote: Remote, endpoint: string, login: Credential): Result<seq<Account>, FetchError>
    requires Halts(remote, endpoint, login)
  {
    var k := StopRound(remote, endpoint, login);
    match Respond(remote, endpoint, login, k)
    case Unreachable => Failure(CannotConnect(endpoint))
    case Undecodable => Failure(CannotDecode(endpoint))
    case Fault => Failure(InvalidResponse)
    case Page(_) => Success(Collected(remote, endpoint, login, k + 1))
  }

  /** Whenever a second page was requested and the last page is not longer
      than a full one, the result is exactly the first page: every later page
      is discarded by the union. */
  lemma FetchKeepsFirstPage(remote: Remote, endpoint: string, login: Credential)
    requires Halts(remote, endpoint, login)
    requires StopRound(remote, endpoint, login) >= 1
    requires Fetch(remote, endpoint, login).Success?
    requires |PageOf(Respond(remote, endpoint, login, StopRound(remote, endpoint, login)))| <= PageSize
    ensures Fetch(remote, endpoint, login) == Success(PageOf(Respond(remote, endpoint, login, 0)))
  {
    var k := StopRound(remote, endpoint, login);
    CollectedFullPages(remote, endpoint, login, k + 1);
  }

  /** Pages of 100, 100 and fewer than 100 entries: three rounds, and only the
      first 100 accounts come back. */
  lemma FetchThreePages(remote: Remote, endpoint: string, login: Credential, p0: seq<Account>, p1: seq<Account>, p2: seq<Account>)
    requires Respond(remote, endpoint, login, 0) == Page(p0) && |p0| == PageSize
    requires Respond(remote, endpoint, login, 1) == Page(p1) && |p1| == PageSize
    requires Respond(remote, endpoint, login, 2) == Page(p2) && |p2| < PageSize
    ensures Halts(remote, endpoint, login)
    ensures StopRound(remote, endpoint, login) == 2
    ensures Fetch(remote, endpoint, login) == Success(p0)
  {
    StopRoundUnique(remote, endpoint, login, 2);
    CollectedFullPages(remote, endpoint, login, 3);
  }

  /** `get_users`: requests pages at offsets 0, 100, 200, ... while the last
      page is full, accumulating with array union; any transport, decoding or
      fault response throws. `requests` lists the calls made, in order. */
  method GetUsers(remote: Remote, endpoint: string, login: Credential)
    returns (result: Result<seq<Account>, FetchError>, requests: seq<Request>)
    requires Halts(remote, endpoint, login)
    ensures |requests| == StopRound(remote, endpoint, login) + 1
    ensures forall i :: 0 <= i < |requests| ==> requests[i] == PageRequest(login, i)
    ensures forall i :: 0 <= i < |requests| - 1 ==> Continues(Respond(remote, endpoint, login, i))
    ensures !Continues(Respond(remote, endpoint, login, |requests| - 1))
    ensures result.Failure? <==> !Respond(remote, endpoint, login, |requests| - 1).Page?
    ensures result == Fetch(remote, endpoint, login)
  {
    var offset := 0;
    var users: seq<Account> := [];
    requests := [];
    ghost var bound: nat :| !Continues(Respond(remote, endpoint, login, bound));
    var more := true;
    while more
      invariant more ==> offset == PageSize * |requests|
      invariant |requests| <= bound + 1
      invariant more ==> |requests| <= bound
      invariant forall i :: 0 <= i < |requests| ==> requests[i] == PageRequest(login, i)
      invariant more ==> forall i :: 0 <= i < |requests| ==> Continues(Respond(remote, endpoint, login, i))
      invariant !more ==> |requests| >= 1
      invariant !more ==> forall i :: 0 <= i < |requests| - 1 ==> Continues(Respond(remote, endpoint, login, i))
      invariant !more ==> Respond(remote, endpoint, login, |requests| - 1).Page?
      invariant !more ==> !Continues(Respond(remote, endpoint, login, |requests| - 1))
      invariant users == Collected(remote, endpoint, login, |requests|)
      decreases bound + 1 - |requests|
    {
      var request := Request("wp.getUsers", 1, login.username, login.password, PageSize, offset);
      ghost var round := |requests|;
      assert request == PageRequest(login, round);
      requests := requests + [request];
      match remote(XmlRpcUrl(endpoint), request)
      case Unreachable =>
        StopRoundUnique(remote, endpoint, login, round);
        return Failure(CannotConnect(endpoint)), requests;
      case Undecodable =>
        StopRoundUnique(remote, endpoint, login, round);
        return Failure(CannotDecode(endpoint)), requests;
      case Fault =>
        StopRoundUnique(remote, endpoint, login, round);
        return Failure(InvalidResponse), requests;
      case Page(page) =>
        if |page| == PageSize {
          more := true;
          offset := offset + PageSize;
        } else {
          more := false;
        }
        users := Union(users, page);
    }
    StopRoundUnique(remote, endpoint, login, |requests| - 1);
    result := Success(users);
  }
}
