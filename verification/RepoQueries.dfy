/**
 * Repository results of the GitHub API client: push permission and fork status,
 * the rule that tolerates "not found" GraphQL errors, the repository-ID lookup,
 * the decoding of a multi-repository network query, and the result of a fork.
 */
module RepoQueries {
  import opened Wrappers
  import opened Strings
  import opened Sorting
  import Decimal
  import PrParams

  datatype Repository = Repository(
    id: string, name: string, cloneURL: string, owner: string,
    isPrivate: bool, hasIssuesEnabled: bool, viewerPermission: string,
    defaultBranch: string, parent: Option<Repository>)
  {
    /** The repository has a parent repository. */
    predicate IsFork() { parent.Some? }

    /** The requesting user may push. */
    predicate ViewerCanPush()
    {
      viewerPermission in {"ADMIN", "MAINTAIN", "WRITE"}
    }
  }

  /** Of GitHub's five permission levels, the top three allow pushing; a
    * permission the API did not report (empty) does not. A repository is a fork
    * exactly when it names a parent. */
  lemma RepositoryStatus(r: Repository)
    ensures r.IsFork() <==> r.parent.Some?
    ensures r.viewerPermission in {"ADMIN", "MAINTAIN", "WRITE"} ==> r.ViewerCanPush()
    ensures r.viewerPermission in {"TRIAGE", "READ", ""} ==> !r.ViewerCanPush()
  {
  }

  // ---------------------------------------------------------------------------
  // Errors
  // ---------------------------------------------------------------------------

  const NotFound: string := "NOT_FOUND"

  datatype GraphQLError = GraphQLError(kind: string, message: string)

  /** A failed request: a GraphQL error response carrying typed errors, or any
    * other failure. `text` is the error's rendered message. */
  datatype QueryError =
    | GraphQLErrorResponse(errors: seq<GraphQLError>, text: string)
    | Failure(text: string)

  /** The loop that keeps `tolerated` true while every error is NOT_FOUND. */
  function Tolerated(errors: seq<GraphQLError>): (t: bool)
    ensures t <==> forall i :: 0 <= i < |errors| ==> errors[i].kind == NotFound
  {
    if errors == [] then true
    else
      var rest := Tolerated(errors[1..]);
      assert forall i :: 1 <= i < |errors| ==> errors[i] == errors[1..][i - 1];
      errors[0].kind == NotFound && rest
  }

  /** The error a query leaves once "not found" responses are forgiven. */
  function ClearTolerated(outcome: Option<QueryError>): (r: Option<QueryError>)
    ensures r.None? <==> outcome.None? || (outcome.value.GraphQLErrorResponse? && Tolerated(outcome.value.errors))
    ensures r.Some? ==> r == outcome
  {
    match outcome
    case Some(GraphQLErrorResponse(errors, _)) => if Tolerated(errors) then None else outcome
    case _ => outcome
  }

  /** A failure that is not a GraphQL error response is never forgiven, and an
    * empty error list always is. */
  lemma ToleranceCases(text: string)
    ensures ClearTolerated(Some(Failure(text))) == Some(Failure(text))
    ensures ClearTolerated(Some(GraphQLErrorResponse([], text))) == None
  {
  }

  /** Forgiving twice forgives nothing more, and one error other than NOT_FOUND
    * keeps the whole response, NOT_FOUND errors beside it or not. */
  lemma {:induction false} ClearToleratedStable(errors: seq<GraphQLError>, text: string, i: nat)
    requires i < |errors| && errors[i].kind != NotFound
    ensures ClearTolerated(Some(GraphQLErrorResponse(errors, text))) == Some(GraphQLErrorResponse(errors, text))
    ensures forall o :: ClearTolerated(ClearTolerated(o)) == ClearTolerated(o)
  {
    assert !Tolerated(errors);
  }

  // ---------------------------------------------------------------------------
  // RepoExistsOnGitHub, GitHubRepo, ForkRepo
  // ---------------------------------------------------------------------------

  datatype Existence = Existence(exists_: bool, err: Option<QueryError>)

  /** RepoExistsOnGitHub given the query outcome. */
  function RepoExistsOnGitHub(outcome: Option<QueryError>): (r: Existence)
    ensures r.exists_ <==> outcome.None?
    ensures r.exists_ ==> r.err.None?
    ensures r.err.Some? <==> outcome.Some? && !(outcome.value.GraphQLErrorResponse? && Tolerated(outcome.value.errors))
    ensures r.err.Some? ==> r.err == outcome
  {
    if outcome.None? then Existence(true, None)
    else Existence(false, ClearTolerated(outcome))
  }

  /** GitHubRepo given the owner/name of the repository and the query outcome:
    * an error or an empty ID both fail, the error's text appended when present. */
  function GitHubRepo(fullName: string, outcome: Result<Repository, QueryError>): (r: Result<Repository, string>)
    ensures r.Ok? <==> outcome.Ok? && outcome.value.id != ""
    ensures r.Ok? ==> r.value == outcome.value
    ensures r.Err? ==> HasPrefix(r.error, "failed to determine repository ID for '" + fullName + "'")
    ensures r.Err? && outcome.Err? ==> HasSuffix(r.error, ": " + outcome.error.text)
    ensures r.Err? && outcome.Ok? ==> r.error == "failed to determine repository ID for '" + fullName + "'"
  {
    var base := "failed to determine repository ID for '" + fullName + "'";
    match outcome
    case Err(e) =>
      assert (base + ": " + e.text)[..|base|] == base;
      Err(base + ": " + e.text)
    case Ok(repo) =>
      if repo.id == "" then Err(base) else Ok(repo)
  }

  /** Exactly one of three answers: the repository exists, it does not (a
    * tolerated error), or the query failed. */
  lemma ExistenceAnswers(outcome: Option<QueryError>)
    ensures var r := RepoExistsOnGitHub(outcome);
      && (r.exists_ ==> r.err.None?)
      && (r.exists_ || r.err.Some? || (outcome.Some? && ClearTolerated(outcome).None?))
      && (r.err.Some? ==> ClearTolerated(outcome) == outcome && outcome.Some?)
  {
  }

  /** The error of GitHubRepo carries the query error's text after ": ", so the
    * cause can be read back from the message. */
  lemma {:induction false} GitHubRepoErrorText(fullName: string, e: QueryError, repo: Repository)
    ensures var base := "failed to determine repository ID for '" + fullName + "'";
      var m := GitHubRepo(fullName, Err(e)).error;
      && |m| == |base| + 2 + |e.text|
      && m[|base| + 2..] == e.text
    ensures repo.id == "" ==> GitHubRepo(fullName, Ok(repo)).Err?
    ensures repo.id != "" ==> GitHubRepo(fullName, Ok(repo)) == Ok(repo)
  {
    var base := "failed to determine repository ID for '" + fullName + "'";
    assert GitHubRepo(fullName, Err(e)).error == base + ": " + e.text;
  }

  /** The REST answer to a fork request. */
  datatype RepositoryV3 = RepositoryV3(nodeId: string, name: string, cloneURL: string, ownerLogin: string)

  /** ForkRepo: the fork is reported with write permission and no parent. */
  function ForkRepo(outcome: Result<RepositoryV3, QueryError>): (r: Result<Repository, QueryError>)
    ensures r.Err? <==> outcome.Err?
    ensures r.Err? ==> r.error == outcome.error
    ensures r.Ok? ==> r.value.ViewerCanPush() && !r.value.IsFork()
    ensures r.Ok? ==>
      && r.value.id == outcome.value.nodeId && r.value.name == outcome.value.name
      && r.value.cloneURL == outcome.value.cloneURL && r.value.owner == outcome.value.ownerLogin
  {
    match outcome
    case Err(e) => Err(e)
    case Ok(v) => Ok(Repository(v.nodeId, v.name, v.cloneURL, v.ownerLogin, false, false, "WRITE", "", None))
  }

  // ---------------------------------------------------------------------------
  // RepoNetwork
  // ---------------------------------------------------------------------------

  /** The three digits of `%03d` for a number below 1000. */
  function Digits3(i: nat): (s: string)
    requires i < 1000
    ensures |s| == 3
  {
    [Decimal.DigitChar(i / 100), Decimal.DigitChar(i / 10 % 10), Decimal.DigitChar(i % 10)]
  }

  /** The alias `repo_%03d` under which the i-th repository is requested. */
  function Alias(i: nat): string
  {
    "repo_" + (if i < 1000 then Digits3(i) else Decimal.FormatNat(i))
  }

  const RepoPrefix: string := "repo_"
  const ViewerKey: string := "viewer"

  /** One value of the GraphQL response map: JSON null, or a raw message whose
    * decoding into a viewer or into a repository is given. */
  datatype Raw =
    | Null
    | Json(asViewer: Result<string, string>, asRepository: Result<Repository, string>)

  datatype NetworkResult = NetworkResult(viewerLogin: string, repositories: seq<Option<Repository>>)

  datatype NetworkError =
    | Query(e: QueryError)
    | Decode(message: string)
    | NilViewer
    | UnknownKey(message: string)

  /** The response keys RepoNetwork knows how to handle. */
  predicate KnownKey(k: string)
  {
    k == ViewerKey || HasPrefix(k, RepoPrefix)
  }

  /** The error for a response key RepoNetwork does not know: the key `%q`-quoted. */
  function UnknownKeyError(k: string): NetworkError
  {
    UnknownKey("unknown GraphQL result key " + PrParams.GoQuote(k))
  }

  /** An entry the dispatch loop gets past: a known key whose value decodes as
    * what the key asks for (a repository may be null, the viewer may not). */
  predicate Accepted(e: Keyed<Raw>)
  {
    if e.key == ViewerKey then e.val.Json? && e.val.asViewer.Ok?
    else HasPrefix(e.key, RepoPrefix) && RepoDecodes(e.val)
  }

  /** One turn of the dispatch loop: the entry's key decides how its value is
    * decoded and where it goes. */
  function Dispatch(e: Keyed<Raw>, acc: NetworkResult): (r: Result<NetworkResult, NetworkError>)
    ensures r.Ok? <==> Accepted(e)
    ensures !KnownKey(e.key) ==> r == Err(UnknownKeyError(e.key))
    ensures r.Ok? && e.key == ViewerKey ==> r.value.repositories == acc.repositories
    ensures r.Ok? && e.key != ViewerKey ==>
      exists x :: r.value.repositories == acc.repositories + [x]
  {
    if e.key == ViewerKey then
      match e.val
      case Null => Err(NilViewer)
      case Json(login, _) =>
        if login.Err? then Err(Decode(login.error)) else Ok(acc.(viewerLogin := login.value))
    else if HasPrefix(e.key, RepoPrefix) then
      match e.val
      case Null => Ok(acc.(repositories := acc.repositories + [None]))
      case Json(_, repo) =>
        if repo.Err? then Err(Decode(repo.error))
        else Ok(acc.(repositories := acc.repositories + [Some(repo.value)]))
    else Err(UnknownKeyError(e.key))
  }

  /** The dispatch loop over the sorted response keys; the first failure ends it. */
  function Collect(entries: seq<Keyed<Raw>>, acc: NetworkResult): (r: Result<NetworkResult, NetworkError>)
    ensures r.Ok? <==> forall i :: 0 <= i < |entries| ==> Accepted(entries[i])
    ensures forall i | 0 <= i < |entries| && !KnownKey(entries[i].key) && AcceptedBefore(entries, i) ::
      r == Err(UnknownKeyError(entries[i].key))
  {
    if entries == [] then Ok(acc)
    else
      match Dispatch(entries[0], acc)
      case Err(err) => Err(err)
      case Ok(next) =>
        assert forall i :: 1 <= i < |entries| ==> entries[i] == entries[1..][i - 1];
        Collect(entries[1..], next)
  }

  /** Every entry before the i-th is accepted. */
  predicate AcceptedBefore(entries: seq<Keyed<Raw>>, i: int)
  {
    forall j | 0 <= j < i && j < |entries| :: Accepted(entries[j])
  }

  /** `entries` is one enumeration of the response map: every key once, with its value. */
  predicate Enumerates(entries: seq<Keyed<Raw>>, response: map<string, Raw>)
  {
    && DistinctKeys(entries)
    && (forall i :: 0 <= i < |entries| ==> entries[i].key in response && entries[i].val == response[entries[i].key])
    && (forall k :: k in response ==> exists i :: 0 <= i < |entries| && entries[i].key == k)
  }

  /** RepoNetwork given the query outcome and the decoded response map, seen
    * through any enumeration of it: the keys are sorted, then dispatched. */
  function RepoNetwork(outcome: Option<QueryError>, entries: seq<Keyed<Raw>>): (r: Result<NetworkResult, NetworkError>)
    ensures ClearTolerated(outcome).Some? ==> r == Err(Query(outcome.value))
    ensures ClearTolerated(outcome).None? ==> (r.Ok? <==> forall i :: 0 <= i < |entries| ==> Accepted(entries[i]))
  {
    if ClearTolerated(outcome).Some? then Err(Query(outcome.value))
    else
      var sorted := SortByKey(entries);
      AllAcceptedPermuted(entries, sorted);
      Collect(sorted, NetworkResult("", []))
  }

  /** Whether every entry is accepted does not depend on their order. */
  lemma AllAcceptedPermuted(a: seq<Keyed<Raw>>, b: seq<Keyed<Raw>>)
    requires multiset(a) == multiset(b)
    ensures (forall i :: 0 <= i < |a| ==> Accepted(a[i])) <==> (forall i :: 0 <= i < |b| ==> Accepted(b[i]))
  {
    if forall i :: 0 <= i < |a| ==> Accepted(a[i]) {
      forall i | 0 <= i < |b|
        ensures Accepted(b[i])
      {
        assert b[i] in multiset(a);
      }
    }
    if forall i :: 0 <= i < |b| ==> Accepted(b[i]) {
      forall i | 0 <= i < |a|
        ensures Accepted(a[i])
      {
        assert a[i] in multiset(b);
      }
    }
  }

  /** Which error an unknown key gives: the one that comes first in Go's string
    * order, when every entry whose key sorts before it is accepted. */
  lemma UnknownKeyInKeyOrder(outcome: Option<QueryError>, entries: seq<Keyed<Raw>>, i: nat)
    requires ClearTolerated(outcome).None?
    requires i < |entries| && !KnownKey(entries[i].key)
    requires forall j | 0 <= j < |entries| && Below(entries[j].key, entries[i].key) && entries[j].key != entries[i].key ::
      Accepted(entries[j])
    ensures RepoNetwork(outcome, entries) == Err(UnknownKeyError(entries[i].key))
  {
    var k := entries[i].key;
    var sorted := SortByKey(entries);
    assert entries[i] in multiset(sorted);
    var p :| 0 <= p < |sorted| && sorted[p] == entries[i];
    var m := FirstWithKey(sorted, k, p);
    forall j | 0 <= j < m
      ensures Accepted(sorted[j])
    {
      assert sorted[j] in multiset(entries);
      var q :| 0 <= q < |entries| && entries[q] == sorted[j];
      assert Below(sorted[j].key, sorted[p].key);
    }
    assert AcceptedBefore(sorted, m);
    assert !KnownKey(sorted[m].key);
  }

  /** The first index of `s` holding key `k`, given one that does. */
  lemma FirstWithKey(s: seq<Keyed<Raw>>, k: string, p: nat) returns (m: nat)
    requires p < |s| && s[p].key == k
    ensures m <= p && s[m].key == k
    ensures forall j | 0 <= j < m :: s[j].key != k
  {
    m := 0;
    while s[m].key != k
      invariant m <= p
      invariant forall j | 0 <= j < m :: s[j].key != k
      decreases p - m
    {
      m := m + 1;
    }
  }

  /** The order in which Go's map hands out the keys does not matter. */
  lemma RepoNetworkIndependentOfEnumeration(outcome: Option<QueryError>, a: seq<Keyed<Raw>>, b: seq<Keyed<Raw>>, response: map<string, Raw>)
    requires Enumerates(a, response) && Enumerates(b, response)
    ensures RepoNetwork(outcome, a) == RepoNetwork(outcome, b)
  {
    SameEntriesSameMultiset(a, b, response);
    SortIndependentOfEnumeration(a, b);
  }

  /** Two enumerations of one map are permutations of each other. */
  lemma SameEntriesSameMultiset(a: seq<Keyed<Raw>>, b: seq<Keyed<Raw>>, response: map<string, Raw>)
    requires Enumerates(a, response) && Enumerates(b, response)
    ensures multiset(a) == multiset(b)
  {
    forall x | x in b
      ensures x in a
    {
      var q :| 0 <= q < |b| && b[q] == x;
      var p :| 0 <= p < |a| && a[p].key == x.key;
      assert a[p] == x;
    }
    forall x
      ensures multiset(a)[x] == multiset(b)[x]
    {
      if x in a {
        var p :| 0 <= p < |a| && a[p] == x;
        var q :| 0 <= q < |b| && b[q].key == x.key;
        assert b[q] == x;
        SingleOccurrence(a, p);
        SingleOccurrence(b, q);
      }
    }
    assert multiset(a) == multiset(b);
  }

  // ---------------------------------------------------------------------------
  // Alignment of the result with the requests
  // ---------------------------------------------------------------------------

  /** A repository entry the dispatch loop accepts. */
  predicate RepoDecodes(raw: Raw)
  {
    raw.Null? || raw.asRepository.Ok?
  }

  /** What the dispatch loop appends for an accepted repository entry. */
  function Decoded(raw: Raw): Option<Repository>
    requires RepoDecodes(raw)
  {
    if raw.Null? then None else Some(raw.asRepository.value)
  }

  function DecodedAll(rs: seq<Keyed<Raw>>): (d: seq<Option<Repository>>)
    requires forall i :: 0 <= i < |rs| ==> RepoDecodes(rs[i].val)
  {
    if rs == [] then [] else [Decoded(rs[0].val)] + DecodedAll(rs[1..])
  }

  lemma {:induction false} DecodedAllAt(rs: seq<Keyed<Raw>>)
    requires forall i :: 0 <= i < |rs| ==> RepoDecodes(rs[i].val)
    ensures |DecodedAll(rs)| == |rs|
    ensures forall i :: 0 <= i < |rs| ==> DecodedAll(rs)[i] == Decoded(rs[i].val)
  {
    if rs != [] {
      DecodedAllAt(rs[1..]);
    }
  }

  /** The keys a network query over `n` repositories asks for. */
  function RequestedKeys(n: nat): set<string>
  {
    {ViewerKey} + set i: nat | i < n :: Alias(i)
  }

  lemma {:induction false} BelowCommonPrefix(p: string, x: string, y: string)
    ensures Below(p + x, p + y) == Below(x, y)
  {
    if p != [] {
      assert (p + x)[1..] == p[1..] + x;
      assert (p + y)[1..] == p[1..] + y;
      BelowCommonPrefix(p[1..], x, y);
    } else {
      assert p + x == x && p + y == y;
    }
  }

  /** Three-character strings compare by their first differing character. */
  lemma BelowThree(x: string, y: string)
    requires |x| == 3 && |y| == 3
    requires x[0] < y[0] || (x[0] == y[0] && x[1] < y[1]) || (x[0] == y[0] && x[1] == y[1] && x[2] < y[2])
    ensures Below(x, y) && x != y
  {
    if x[0] == y[0] {
      assert x[1..][0] == x[1] && y[1..][0] == y[1];
      if x[1] == y[1] {
        assert x[1..][1..][0] == x[2] && y[1..][1..][0] == y[2];
      }
    }
  }

  /** For fewer than 1000 repositories the aliases sort in request order. */
  lemma AliasOrder(i: nat, j: nat)
    requires i < j < 1000
    ensures Below(Alias(i), Alias(j)) && Alias(i) != Alias(j)
  {
    var x, y := Digits3(i), Digits3(j);
    DigitsOrder(i, j);
    BelowThree(x, y);
    BelowCommonPrefix(RepoPrefix, x, y);
    assert Alias(i) == RepoPrefix + x && Alias(j) == RepoPrefix + y;
    assert Alias(i)[5..] == x;
  }

  /** Helper for AliasOrder: the first differing digit of i < j is smaller in i. */
  lemma DigitsOrder(i: nat, j: nat)
    requires i < j < 1000
    ensures var x, y := Digits3(i), Digits3(j);
      x[0] < y[0] || (x[0] == y[0] && x[1] < y[1]) || (x[0] == y[0] && x[1] == y[1] && x[2] < y[2])
  {
    ThreeDigits(i);
    ThreeDigits(j);
    DigitChars(i);
    DigitChars(j);
  }

  /** A number below 1000 is the sum of its three digits' place values. */
  lemma ThreeDigits(i: nat)
    requires i < 1000
    ensures i == 100 * (i / 100) + 10 * (i / 10 % 10) + i % 10
  {
    var q := i / 10;
    assert i == 10 * q + i % 10;
    assert q == 10 * (q / 10) + q % 10;
    assert q / 10 == i / 100;
  }

  /** The characters of Digits3 as numbers. */
  lemma DigitChars(i: nat)
    requires i < 1000
    ensures var x := Digits3(i);
      && x[0] as int == i / 100 + '0' as int
      && x[1] as int == i / 10 % 10 + '0' as int
      && x[2] as int == i % 10 + '0' as int
  {
  }

  /** "viewer" comes after every alias. */
  lemma AliasBeforeViewer(i: nat)
    ensures Below(Alias(i), ViewerKey) && Alias(i) != ViewerKey
  {
    assert Alias(i)[0] == 'r';
  }

  /** With a thousand or more repositories `%03d` no longer keeps the order:
    * the 1001st alias sorts before the 102nd. */
  lemma AliasOrderBreaksAtThousand()
    ensures Below(Alias(1000), Alias(101)) && Alias(1000) != Alias(101)
  {
    assert Decimal.FormatNat(1) == "1";
    assert Decimal.FormatNat(10) == "10";
    assert Decimal.FormatNat(100) == "100";
    assert Decimal.FormatNat(1000) == "1000";
    assert Alias(101) == "repo_101";
    assert Alias(1000) == "repo_1000";
  }

  /** The requested keys in sorted order, with their values. */
  function Expected(response: map<string, Raw>, n: nat): (e: seq<Keyed<Raw>>)
    requires RequestedKeys(n) <= response.Keys
    ensures |e| == n + 1
  {
    seq(n, i requires 0 <= i < n => Keyed(Alias(i), response[Alias(i)])) + [Keyed(ViewerKey, response[ViewerKey])]
  }

  lemma ExpectedSorted(response: map<string, Raw>, n: nat)
    requires n < 1000 && response.Keys == RequestedKeys(n)
    ensures SortedByKey(Expected(response, n)) && DistinctKeys(Expected(response, n))
    ensures Enumerates(Expected(response, n), response)
  {
    ExpectedOrdered(response, n);
    ExpectedCovers(response, n);
  }

  lemma ExpectedOrdered(response: map<string, Raw>, n: nat)
    requires n < 1000 && response.Keys == RequestedKeys(n)
    ensures var e := Expected(response, n);
      forall i, j :: 0 <= i < j < |e| ==> Below(e[i].key, e[j].key) && e[i].key != e[j].key
  {
    var e := Expected(response, n);
    forall i, j | 0 <= i < j < |e|
      ensures Below(e[i].key, e[j].key) && e[i].key != e[j].key
    {
      if j < n {
        AliasOrder(i, j);
      } else {
        AliasBeforeViewer(i);
      }
    }
  }

  lemma ExpectedCovers(response: map<string, Raw>, n: nat)
    requires response.Keys == RequestedKeys(n)
    ensures var e := Expected(response, n);
      forall k :: k in response ==> exists i :: 0 <= i < |e| && e[i].key == k
  {
    var e := Expected(response, n);
    forall k | k in response
      ensures exists i :: 0 <= i < |e| && e[i].key == k
    {
      if k == ViewerKey {
        assert e[n].key == k;
      } else {
        var i: nat :| i < n && Alias(i) == k;
        assert e[i].key == k;
      }
    }
  }

  /** One accepted repository entry appends its decoding and moves on. */
  lemma CollectRepoStep(e: Keyed<Raw>, rest: seq<Keyed<Raw>>, acc: NetworkResult)
    requires HasPrefix(e.key, RepoPrefix) && e.key != ViewerKey && RepoDecodes(e.val)
    ensures Collect([e] + rest, acc) == Collect(rest, acc.(repositories := acc.repositories + [Decoded(e.val)]))
  {
    assert ([e] + rest)[0] == e;
    assert ([e] + rest)[1..] == rest;
    assert Dispatch(e, acc) == Ok(acc.(repositories := acc.repositories + [Decoded(e.val)]));
  }

  lemma {:induction false} CollectRepoRun(rs: seq<Keyed<Raw>>, tail: seq<Keyed<Raw>>, acc: NetworkResult)
    requires forall i :: 0 <= i < |rs| ==> HasPrefix(rs[i].key, RepoPrefix) && rs[i].key != ViewerKey
    requires forall i :: 0 <= i < |rs| ==> RepoDecodes(rs[i].val)
    ensures Collect(rs + tail, acc) == Collect(tail, acc.(repositories := acc.repositories + DecodedAll(rs)))
  {
    if rs == [] {
      NoRepos(tail, acc);
    } else {
      var next := acc.(repositories := acc.repositories + [Decoded(rs[0].val)]);
      CollectRepoHead(rs, tail, acc);
      CollectRepoRun(rs[1..], tail, next);
      DecodedAllCons(rs, acc.repositories);
    }
  }

  lemma {:induction false} NoRepos(tail: seq<Keyed<Raw>>, acc: NetworkResult)
    ensures Collect([] + tail, acc) == Collect(tail, acc.(repositories := acc.repositories + DecodedAll([])))
  {
    assert [] + tail == tail;
    assert acc.repositories + DecodedAll([]) == acc.repositories;
  }

  lemma {:induction false} CollectRepoHead(rs: seq<Keyed<Raw>>, tail: seq<Keyed<Raw>>, acc: NetworkResult)
    requires rs != []
    requires forall i :: 0 <= i < |rs| ==> HasPrefix(rs[i].key, RepoPrefix) && rs[i].key != ViewerKey
    requires forall i :: 0 <= i < |rs| ==> RepoDecodes(rs[i].val)
    ensures Collect(rs + tail, acc) == Collect(rs[1..] + tail, acc.(repositories := acc.repositories + [Decoded(rs[0].val)]))
  {
    assert rs + tail == [rs[0]] + (rs[1..] + tail);
    CollectRepoStep(rs[0], rs[1..] + tail, acc);
  }

  lemma {:induction false} DecodedAllCons(rs: seq<Keyed<Raw>>, a: seq<Option<Repository>>)
    requires rs != []
    requires forall i :: 0 <= i < |rs| ==> RepoDecodes(rs[i].val)
    ensures (a + [Decoded(rs[0].val)]) + DecodedAll(rs[1..]) == a + DecodedAll(rs)
  {
    var d, ds := Decoded(rs[0].val), DecodedAll(rs[1..]);
    assert DecodedAll(rs) == [d] + ds;
    assert (a + [d]) + ds == a + ([d] + ds);
  }

  /** Sorting any enumeration of the response gives the requests in order,
    * then the viewer. */
  lemma SortedIsExpected(entries: seq<Keyed<Raw>>, response: map<string, Raw>, n: nat)
    requires n < 1000 && Enumerates(entries, response) && response.Keys == RequestedKeys(n)
    ensures SortByKey(entries) == Expected(response, n)
  {
    var e := Expected(response, n);
    ExpectedSorted(response, n);
    SameEntriesSameMultiset(entries, e, response);
    var sorted := SortByKey(entries);
    DistinctKeysPermutation(e, sorted);
    SortedUnique(sorted, e);
  }

  /** The dispatch loop over the expected entries collects every repository in
    * order and the viewer's login last. */
  lemma CollectExpected(response: map<string, Raw>, n: nat)
    requires n < 1000 && response.Keys == RequestedKeys(n)
    requires forall i :: 0 <= i < n ==> RepoDecodes(response[Alias(i)])
    requires response[ViewerKey].Json? && response[ViewerKey].asViewer.Ok?
    ensures var rs := Expected(response, n)[..n];
      && (forall i :: 0 <= i < |rs| ==> RepoDecodes(rs[i].val))
      && Collect(Expected(response, n), NetworkResult("", []))
        == Ok(NetworkResult(response[ViewerKey].asViewer.value, DecodedAll(rs)))
  {
    var e := Expected(response, n);
    var rs := e[..n];
    assert e == rs + [e[n]];
    forall i | 0 <= i < n
      ensures HasPrefix(rs[i].key, RepoPrefix) && rs[i].key != ViewerKey
      ensures RepoDecodes(rs[i].val)
    {
      assert rs[i].key == Alias(i);
      AliasBeforeViewer(i);
    }
    CollectRepoRun(rs, [e[n]], NetworkResult("", []));
    var acc := NetworkResult("", DecodedAll(rs));
    assert [] + DecodedAll(rs) == DecodedAll(rs);
    assert [e[n]][1..] == [];
    assert Dispatch(e[n], acc) == Ok(acc.(viewerLogin := response[ViewerKey].asViewer.value));
  }

  /** The result is positionally aligned with the requests: the i-th repository
    * answers the i-th request (None when it was not found), as long as fewer
    * than 1000 repositories were requested. */
  lemma NetworkAligned(outcome: Option<QueryError>, entries: seq<Keyed<Raw>>, response: map<string, Raw>, n: nat)
    requires ClearTolerated(outcome).None?
    requires n < 1000 && Enumerates(entries, response) && response.Keys == RequestedKeys(n)
    requires forall i :: 0 <= i < n ==> RepoDecodes(response[Alias(i)])
    requires response[ViewerKey].Json? && response[ViewerKey].asViewer.Ok?
    ensures RepoNetwork(outcome, entries).Ok?
    ensures RepoNetwork(outcome, entries).value.viewerLogin == response[ViewerKey].asViewer.value
    ensures |RepoNetwork(outcome, entries).value.repositories| == n
    ensures forall i :: 0 <= i < n ==>
      RepoNetwork(outcome, entries).value.repositories[i] == Decoded(response[Alias(i)])
  {
    SortedIsExpected(entries, response, n);
    CollectExpected(response, n);
    var rs := Expected(response, n)[..n];
    assert RepoNetwork(outcome, entries) == Ok(NetworkResult(response[ViewerKey].asViewer.value, DecodedAll(rs)));
    DecodedAllAt(rs);
    ExpectedRequests(response, n);
  }

  /** The first n expected entries answer the requests in order. */
  lemma ExpectedRequests(response: map<string, Raw>, n: nat)
    requires RequestedKeys(n) <= response.Keys
    ensures var rs := Expected(response, n)[..n];
      |rs| == n && forall i :: 0 <= i < n ==> rs[i].val == response[Alias(i)]
  {
  }
}
