/** The GitHub App connection (`zubbi/scraper/connections/github.py`): the
    installation map from repository to installation, the per-installation
    token cache, and the lookup that ties them together. The REST calls are
    given responses: the installation listing, the repository pages of each
    installation, and the token each installation is issued. Time is a
    number of seconds. An exception leaves behind the state built so far,
    so every step returns the connection together with its result. */
module GitHubConnection {
  import opened Wrappers
  import opened OrderedMap
  import opened Exceptions
  import opened Utils

  /** What the installation map holds for one repository. */
  datatype Installation = Installation(installationId: Option<int>, defaultBranch: string)

  /** A cached installation token and the moment it is taken to expire. */
  datatype Token = Token(token: string, expiry: int)

  datatype Connection = Connection(
    baseUrl: string,
    apiUrl: string,
    graphqlUrl: string,
    appId: Option<int>,
    installationMap: Dict<string, Installation>,
    tokenCache: map<int, Token>)

  const Provider := "github"

  /** A token is taken to expire this many seconds before GitHub says. */
  const ExpiryMargin := 120

  /** The constructor: API URLs under the base URL, both maps empty. */
  function NewConnection(url: string, appId: Option<int>): (c: Connection)
    ensures c.baseUrl == url && c.appId == appId
    ensures c.apiUrl == Urljoin(url, ["api/v3"]) && c.graphqlUrl == Urljoin(url, ["api/graphql"])
    ensures c.installationMap == [] && c.tokenCache == map[]
  {
    Connection(url, Urljoin(url, ["api/v3"]), Urljoin(url, ["api/graphql"]), appId, [], map[])
  }

  /** One repository of an installation's repository listing. */
  datatype RepoInfo = RepoInfo(fullName: string, defaultBranch: string)

  /** One installation of the app: its id, the pages of its repository
      listing, and the failure of the page after the last one, if any. */
  datatype InstallationListing = InstallationListing(id: Option<int>, pages: seq<seq<RepoInfo>>, pageError: Option<Error>)

  /** The access-token response: the token and its `expires_at`. */
  datatype TokenResponse = TokenResponse(token: string, expiresAt: int)

  /** What GitHub answers: the app's installations, and the token request
      for each installation id. */
  datatype Api = Api(installations: Result<seq<InstallationListing>, Error>, issueToken: int -> Result<TokenResponse, Error>)

  /** The connection after a step, and the step's value or exception. */
  datatype Outcome<T> = Outcome(conn: Connection, result: Result<T, Error>)

  /** An installation id counts only when it is present and not zero. */
  predicate IdTruthy(id: Option<int>) {
    id.Some? && id.value != 0
  }

  /** The installation id to use: the project's entry in the map when a
      project is named, the given id otherwise. */
  function LookupId(m: Dict<string, Installation>, project: Option<string>, installId: Option<int>): (r: Option<int>)
    ensures project.None? ==> r == installId
    ensures project.Some? && Get(m, project.value).None? ==> r.None?
    ensures project.Some? && Get(m, project.value).Some? ==> r == Get(m, project.value).value.installationId
  {
    if project.None? then installId
    else match Get(m, project.value)
      case None => None
      case Some(inst) => inst.installationId
  }

  /** A cached token is used while it is non-empty and not yet expired. */
  predicate TokenValid(c: Connection, id: int, now: int) {
    id in c.tokenCache && c.tokenCache[id].token != "" && now < c.tokenCache[id].expiry
  }

  /** The token of an installation: from the cache while valid, otherwise
      freshly issued and cached with its expiry brought forward. */
  function TokenFor(c: Connection, id: int, now: int, api: Api): (o: Outcome<string>)
    ensures TokenValid(c, id, now) ==> o == Outcome(c, Success(c.tokenCache[id].token))
    ensures !TokenValid(c, id, now) && api.issueToken(id).Failure? ==> o == Outcome(c, Failure(api.issueToken(id).error))
    ensures !TokenValid(c, id, now) && api.issueToken(id).Success? ==>
              var resp := api.issueToken(id).value;
              && o.result == Success(resp.token)
              && o.conn.tokenCache == c.tokenCache[id := Token(resp.token, resp.expiresAt - ExpiryMargin)]
    ensures o.conn.installationMap == c.installationMap
  {
    if TokenValid(c, id, now) then Outcome(c, Success(c.tokenCache[id].token))
    else match api.issueToken(id)
      case Failure(e) => Outcome(c, Failure(e))
      case Success(resp) =>
        Outcome(c.(tokenCache := c.tokenCache[id := Token(resp.token, resp.expiresAt - ExpiryMargin)]), Success(resp.token))
  }

  /** The token for an installation id without a repository: empty when the
      id does not count. */
  function InstallationToken(c: Connection, id: Option<int>, now: int, api: Api): (o: Outcome<string>)
    ensures !IdTruthy(id) ==> o == Outcome(c, Success(""))
    ensures IdTruthy(id) ==> o == TokenFor(c, id.value, now, api)
  {
    if IdTruthy(id) then TokenFor(c, id.value, now, api) else Outcome(c, Success(""))
  }

  /** `d[k] = v` for each write in turn. */
  function Record(m: Dict<string, Installation>, writes: seq<(string, Installation)>): Dict<string, Installation>
    decreases |writes|
  {
    if |writes| == 0 then m
    else
      var last := writes[|writes| - 1];
      Put(Record(m, writes[..|writes| - 1]), last.0, last.1)
  }

  lemma {:induction false} RecordAppend(m: Dict<string, Installation>, ws: seq<(string, Installation)>, vs: seq<(string, Installation)>)
    ensures Record(Record(m, ws), vs) == Record(m, ws + vs)
    decreases |vs|
  {
    if |vs| == 0 {
      assert ws + vs == ws;
    } else {
      assert (ws + vs)[..|ws + vs| - 1] == ws + vs[..|vs| - 1];
      assert (ws + vs)[|ws + vs| - 1] == vs[|vs| - 1];
      RecordAppend(m, ws, vs[..|vs| - 1]);
    }
  }

  /** A key never written keeps what it had. */
  lemma {:induction false} RecordUnwritten(m: Dict<string, Installation>, writes: seq<(string, Installation)>, k: string)
    requires forall i :: 0 <= i < |writes| ==> writes[i].0 != k
    ensures Get(Record(m, writes), k) == Get(m, k)
    decreases |writes|
  {
    if |writes| > 0 {
      var init := writes[..|writes| - 1];
      assert forall i :: 0 <= i < |init| ==> init[i] == writes[i];
      RecordUnwritten(m, init, k);
    }
  }

  /** A written key holds its last write. */
  lemma {:induction false} RecordLastWrite(m: Dict<string, Installation>, writes: seq<(string, Installation)>, i: int)
    requires 0 <= i < |writes|
    requires forall j :: i < j < |writes| ==> writes[j].0 != writes[i].0
    ensures Get(Record(m, writes), writes[i].0) == Some(writes[i].1)
    decreases |writes|
  {
    if i < |writes| - 1 {
      var init := writes[..|writes| - 1];
      assert init[i] == writes[i];
      assert forall j :: i < j < |init| ==> init[j] == writes[j];
      RecordLastWrite(m, init, i);
    }
  }

  /** The writes of all pages of a listing, in order. */
  function PageWrites(id: Option<int>, pages: seq<seq<RepoInfo>>): (ws: seq<(string, Installation)>)
    decreases |pages|
  {
    if |pages| == 0 then []
    else PageWrites(id, pages[..|pages| - 1])
         + seq(|pages[|pages| - 1]|, k requires 0 <= k < |pages[|pages| - 1]| =>
                 (pages[|pages| - 1][k].fullName, Installation(id, pages[|pages| - 1][k].defaultBranch)))
  }

  /** `_prime_install_map` from the given installation on: for each
      installation, its token, then every repository of every page. */
  function PrimeFrom(c: Connection, listings: seq<InstallationListing>, now: int, api: Api): (o: Outcome<()>)
    decreases |listings|
  {
    if |listings| == 0 then Outcome(c, Success(()))
    else
      var inst := listings[0];
      var t := InstallationToken(c, inst.id, now, api);
      if t.result.Failure? then Outcome(t.conn, Failure(t.result.error))
      else
        var c' := t.conn.(installationMap := Record(t.conn.installationMap, PageWrites(inst.id, inst.pages)));
        if inst.pageError.Some? then Outcome(c', Failure(inst.pageError.value))
        else PrimeFrom(c', listings[1..], now, api)
  }

  /** `_prime_install_map`: a failed installation listing changes nothing. */
  function PrimeInstallMap(c: Connection, now: int, api: Api): (o: Outcome<()>)
    ensures api.installations.Failure? ==> o == Outcome(c, Failure(api.installations.error))
    ensures api.installations.Success? ==> o == PrimeFrom(c, api.installations.value, now, api)
  {
    match api.installations
    case Failure(e) => Outcome(c, Failure(e))
    case Success(listings) => PrimeFrom(c, listings, now, api)
  }

  /** The writes of a whole priming, installation by installation. */
  function AllWrites(listings: seq<InstallationListing>): seq<(string, Installation)>
    decreases |listings|
  {
    if |listings| == 0 then [] else PageWrites(listings[0].id, listings[0].pages) + AllWrites(listings[1..])
  }

  /** A priming that succeeds writes every listed repository of every
      installation into the map in listing order, and touches nothing else
      in it. */
  lemma {:induction false} PrimeFromMap(c: Connection, listings: seq<InstallationListing>, now: int, api: Api)
    requires PrimeFrom(c, listings, now, api).result.Success?
    ensures PrimeFrom(c, listings, now, api).conn.installationMap == Record(c.installationMap, AllWrites(listings))
    decreases |listings|
  {
    if |listings| == 0 {
      assert AllWrites(listings) == [];
    } else {
      var inst := listings[0];
      var t := InstallationToken(c, inst.id, now, api);
      var c' := t.conn.(installationMap := Record(t.conn.installationMap, PageWrites(inst.id, inst.pages)));
      PrimeFromMap(c', listings[1..], now, api);
      RecordAppend(c.installationMap, PageWrites(inst.id, inst.pages), AllWrites(listings[1..]));
    }
  }

  /** `_get_installation_key`. With `reprime` and no usable id the map is
      primed once and the lookup repeated without `reprime`. */
  function GetInstallationKey(c: Connection, project: Option<string>, installId: Option<int>, reprime: bool, now: int, api: Api): (o: Outcome<string>)
    ensures IdTruthy(LookupId(c.installationMap, project, installId)) ==>
              o == TokenFor(c, LookupId(c.installationMap, project, installId).value, now, api)
    ensures !IdTruthy(LookupId(c.installationMap, project, installId)) && !reprime ==> o == Outcome(c, Success(""))
    ensures !IdTruthy(LookupId(c.installationMap, project, installId)) && reprime && PrimeInstallMap(c, now, api).result.Failure? ==>
              o == Outcome(PrimeInstallMap(c, now, api).conn, Failure(PrimeInstallMap(c, now, api).result.error))
    decreases if reprime then 1 else 0
  {
    var id := LookupId(c.installationMap, project, installId);
    if IdTruthy(id) then TokenFor(c, id.value, now, api)
    else if !reprime then Outcome(c, Success(""))
    else
      var p := PrimeInstallMap(c, now, api);
      if p.result.Failure? then Outcome(p.conn, Failure(p.result.error))
      else GetInstallationKey(p.conn, project, installId, false, now, api)
  }

  /** The map is primed at most once per call: when the id is still missing
      after priming, the answer is the empty key on the primed connection. */
  lemma PrimeAtMostOnce(c: Connection, project: Option<string>, installId: Option<int>, now: int, api: Api)
    requires !IdTruthy(LookupId(c.installationMap, project, installId))
    requires PrimeInstallMap(c, now, api).result.Success?
    requires !IdTruthy(LookupId(PrimeInstallMap(c, now, api).conn.installationMap, project, installId))
    ensures GetInstallationKey(c, project, installId, true, now, api) == Outcome(PrimeInstallMap(c, now, api).conn, Success(""))
  {
  }

  /** When a project is named, the installation id argument plays no part. */
  lemma ProjectOverridesInstallId(c: Connection, project: string, i1: Option<int>, i2: Option<int>, reprime: bool, now: int, api: Api)
    ensures GetInstallationKey(c, Some(project), i1, reprime, now, api) == GetInstallationKey(c, Some(project), i2, reprime, now, api)
  {
    var p := PrimeInstallMap(c, now, api);
    assert LookupId(c.installationMap, Some(project), i1) == LookupId(c.installationMap, Some(project), i2);
    assert LookupId(p.conn.installationMap, Some(project), i1) == LookupId(p.conn.installationMap, Some(project), i2);
  }

  /** A token fetched once is served from the cache on a later lookup that
      happens before its expiry, without another request. */
  lemma TokenReusedUntilExpiry(c: Connection, id: int, now: int, later: int, api: Api)
    requires id != 0 && api.issueToken(id).Success? && !TokenValid(c, id, now)
    requires api.issueToken(id).value.token != ""
    requires later < api.issueToken(id).value.expiresAt - ExpiryMargin
    ensures var first := TokenFor(c, id, now, api);
            TokenFor(first.conn, id, later, api) == Outcome(first.conn, first.result)
  {
  }

  /** A GitHub client for one repository, when a token can be found. */
  datatype Client = Client(baseUrl: string, token: string)

  /** `create_github_client`: no client when the installation key is
      empty. */
  function CreateGithubClient(c: Connection, project: string, now: int, api: Api): (o: Outcome<Option<Client>>)
    ensures var k := GetInstallationKey(c, Some(project), None, false, now, api);
            && o.conn == k.conn
            && (k.result.Failure? ==> o.result == Failure(k.result.error))
            && (k.result.Success? ==> o.result.Success? && (o.result.value.None? <==> k.result.value == ""))
            && (k.result.Success? && k.result.value != "" ==> o.result.value == Some(Client(c.baseUrl, k.result.value)))
  {
    var k := GetInstallationKey(c, Some(project), None, false, now, api);
    match k.result
    case Failure(e) => Outcome(k.conn, Failure(e))
    case Success(token) => Outcome(k.conn, Success(if token == "" then None else Some(Client(c.baseUrl, token))))
  }

  /** A repository that is not in the installation map gets no client and
      nothing is requested. */
  lemma UnknownRepositoryHasNoClient(c: Connection, project: string, now: int, api: Api)
    requires Get(c.installationMap, project).None?
    ensures CreateGithubClient(c, project, now, api) == Outcome(c, Success(None))
  {
  }

  /** The positions of the installation map whose entry names installation
      `id`: each such position exactly once, in increasing order. */
  function MatchingIndices(m: Dict<string, Installation>, id: Option<int>): (ix: seq<nat>)
    ensures forall j :: 0 <= j < |ix| ==> ix[j] < |m| && m[ix[j]].1.installationId == id
    ensures forall j, k :: 0 <= j < k < |ix| ==> ix[j] < ix[k]
    ensures forall i :: 0 <= i < |m| && m[i].1.installationId == id ==> i in ix
    decreases |m|
  {
    if |m| == 0 then []
    else
      var init := m[..|m| - 1];
      var rest := MatchingIndices(init, id);
      assert forall j :: 0 <= j < |rest| ==> m[rest[j]] == init[rest[j]];
      if m[|m| - 1].1.installationId == id then rest + [|m| - 1] else rest
  }

  /** `get_repos_for_installation`: the repositories of one installation, in
      map order. */
  function GetReposForInstallation(m: Dict<string, Installation>, id: Option<int>): (r: seq<string>)
    ensures forall k :: k in r <==> exists i :: 0 <= i < |m| && m[i].0 == k && m[i].1.installationId == id
    ensures |r| <= |m|
    decreases |m|
  {
    if |m| == 0 then []
    else
      var rest := GetReposForInstallation(m[1..], id);
      assert forall k :: (exists i :: 1 <= i < |m| && m[i].0 == k && m[i].1.installationId == id) <==> k in rest by {
        forall k ensures (exists i :: 1 <= i < |m| && m[i].0 == k && m[i].1.installationId == id) ==> k in rest {
          if exists i :: 1 <= i < |m| && m[i].0 == k && m[i].1.installationId == id {
            var i :| 1 <= i < |m| && m[i].0 == k && m[i].1.installationId == id;
            assert m[1..][i - 1] == m[i];
          }
        }
      }
      if m[0].1.installationId == id then [m[0].0] + rest else rest
  }

  /** Listing the repositories of two maps one after the other lists those
      of their concatenation. */
  lemma {:induction false} ReposOfConcat(a: Dict<string, Installation>, b: Dict<string, Installation>, id: Option<int>)
    ensures GetReposForInstallation(a + b, id) == GetReposForInstallation(a, id) + GetReposForInstallation(b, id)
    decreases |a|
  {
    if |a| > 0 {
      assert (a + b)[1..] == a[1..] + b;
      ReposOfConcat(a[1..], b, id);
    } else {
      assert a + b == b;
    }
  }

  /** The repositories of an installation come in map order, one per
      matching entry: the `j`-th is the key at the `j`-th matching position,
      so no key is reordered, dropped or repeated beyond the map's own. */
  lemma {:induction false} ReposFollowMapOrder(m: Dict<string, Installation>, id: Option<int>)
    ensures |GetReposForInstallation(m, id)| == |MatchingIndices(m, id)|
    ensures forall j :: 0 <= j < |MatchingIndices(m, id)| ==>
              GetReposForInstallation(m, id)[j] == m[MatchingIndices(m, id)[j]].0
    decreases |m|
  {
    if |m| > 0 {
      var init := m[..|m| - 1];
      var last := m[|m| - 1];
      ReposFollowMapOrder(init, id);
      assert m == init + [last];
      ReposOfConcat(init, [last], id);
      assert [last][1..] == [];
      var before := GetReposForInstallation(init, id);
      var rest := MatchingIndices(init, id);
      var ix := MatchingIndices(m, id);
      var r := GetReposForInstallation(m, id);
      forall j | 0 <= j < |rest| ensures before[j] == m[rest[j]].0 {
        assert init[rest[j]] == m[rest[j]];
      }
      if last.1.installationId == id {
        assert ix == rest + [|m| - 1];
        assert r == before + [last.0];
      } else {
        assert ix == rest;
        assert r == before;
      }
    }
  }

  /** In a map built by `Put` the repositories of an installation are exactly
      the keys whose entry names that installation. */
  lemma ReposForInstallationMeaning(m: Dict<string, Installation>, id: Option<int>, k: string)
    requires DistinctKeys(m)
    ensures k in GetReposForInstallation(m, id) <==> Get(m, k).Some? && Get(m, k).value.installationId == id
  {
    GetFindsPair(m, k);
  }

  /** `Get` answers the value of the pair stored under the key. */
  lemma {:induction false} GetFindsPair(m: Dict<string, Installation>, k: string)
    requires DistinctKeys(m)
    ensures forall i :: 0 <= i < |m| && m[i].0 == k ==> Get(m, k) == Some(m[i].1)
    decreases |m|
  {
    if |m| > 0 {
      var tail := m[1..];
      assert DistinctKeys(tail) by {
        forall i, j | 0 <= i < j < |tail| ensures tail[i].0 != tail[j].0 {
          assert tail[i] == m[i + 1] && tail[j] == m[j + 1];
        }
      }
      GetFindsPair(tail, k);
      forall i | 0 <= i < |m| && m[i].0 == k ensures Get(m, k) == Some(m[i].1) {
        if i > 0 { assert tail[i - 1] == m[i]; }
      }
    }
  }

  /** `repos`: the repositories of the installation map. */
  function Repos(c: Connection): (r: set<string>)
    ensures forall k :: k in r <==> Get(c.installationMap, k).Some?
  {
    KeySet(c.installationMap)
  }
}
