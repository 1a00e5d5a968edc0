/** The scraper's reconciliation (`zubbi/scraper/main.py`): which
    repositories a run covers, what it writes to the search index and to the
    in-memory repository cache, what it deletes, and how GitHub events turn
    into runs. The search index is a map from (document kind, id) to the
    document's repository and scrape time, written by upsert and pruned by
    the outdated query. Tenant parsing, scraping a repository and hashing
    its name are given functions; the GitHub connection is the model of
    `connections/github.py`. An exception ends a run and leaves behind
    everything written before it. */
module ScraperMain {
  import opened Wrappers
  import opened Text
  import opened OrderedMap
  import opened Exceptions
  import TenantParser
  import GitHubConnection
  import Views

  /** The three document types a run writes or deletes. */
  datatype Kind = JobDoc | RoleDoc | RepoDoc

  /** What the index keeps of a document besides its kind and id. */
  datatype Doc = Doc(repo: string, scrapeTime: int)

  /** The index: one document per kind and id (`bulk` saves by id). */
  type Index = map<(Kind, string), Doc>

  /** `ZubbiDoc.outdated_query`: documents scraped before `timestamp` that
      pass the extra filter, here a list of repositories; no filter
      matches every document. */
  predicate OutdatedQuery(d: Doc, timestamp: int, extraFilter: Option<seq<string>>) {
    (extraFilter.None? || d.repo in extraFilter.value) && d.scrapeTime < timestamp
  }

  /** `delete_outdated`: every document of the given kinds that the outdated
      query matches is deleted; nothing else changes. */
  function DeleteOutdated(idx: Index, t: int, kinds: set<Kind>, repos: seq<string>): (r: Index)
    ensures forall k :: k in r <==> k in idx && !(k.0 in kinds && OutdatedQuery(idx[k], t, Some(repos)))
    ensures forall k :: k in r ==> r[k] == idx[k]
  {
    map k | k in idx && !(k.0 in kinds && OutdatedQuery(idx[k], t, Some(repos))) :: idx[k]
  }

  /** `bulk_save` of documents of one kind and repository, identified by
      their ids, all scraped at `t`: each is inserted or overwritten. */
  function SaveAll(idx: Index, kind: Kind, ids: seq<string>, repo: string, t: int): (r: Index)
    ensures forall k :: k in r <==> k in idx || (k.0 == kind && k.1 in ids)
    ensures forall k :: k in r && k.0 == kind && k.1 in ids ==> r[k] == Doc(repo, t)
    ensures forall k :: k in idx && !(k.0 == kind && k.1 in ids) ==> r[k] == idx[k]
    decreases |ids|
  {
    if |ids| == 0 then idx
    else SaveAll(idx[(kind, ids[0]) := Doc(repo, t)], kind, ids[1..], repo, t)
  }

  /** `GitRepo.bulk_save` of the repositories a run scraped: one document
      per name, under the id the name hashes to; a later name overwrites an
      earlier one with the same id. */
  function SaveRepos(idx: Index, names: seq<string>, repoId: string -> string, t: int): (r: Index)
    ensures forall k :: k in r <==> k in idx || (k.0 == RepoDoc && HashesTo(names, repoId, k.1))
    ensures forall k :: k in r && k.0 == RepoDoc && HashesTo(names, repoId, k.1) ==>
              r[k].scrapeTime == t && r[k].repo in names && repoId(r[k].repo) == k.1
    ensures forall k :: k in idx && !(k.0 == RepoDoc && HashesTo(names, repoId, k.1)) ==> r[k] == idx[k]
    decreases |names|
  {
    if |names| == 0 then idx
    else
      HashesToCons(names, repoId);
      SaveRepos(idx[(RepoDoc, repoId(names[0])) := Doc(names[0], t)], names[1..], repoId, t)
  }

  /** Some name of the list hashes to `id`. */
  predicate HashesTo(names: seq<string>, repoId: string -> string, id: string) {
    exists n :: n in names && repoId(n) == id
  }

  lemma HashesToCons(names: seq<string>, repoId: string -> string)
    requires |names| > 0
    ensures forall id :: HashesTo(names, repoId, id) <==> repoId(names[0]) == id || HashesTo(names[1..], repoId, id)
    ensures forall n :: n in names[1..] ==> n in names
  {
    forall id | HashesTo(names, repoId, id) ensures repoId(names[0]) == id || HashesTo(names[1..], repoId, id) {
      var n :| n in names && repoId(n) == id;
      if n != names[0] {
        assert n in names[1..];
      }
    }
  }

  /** What the repository cache holds for one repository: when it was last
      scraped, and its provider, `None` when no connection knows it. */
  datatype CacheEntry = CacheEntry(scrapeTime: int, provider: Option<string>)

  type RepoCache = Dict<string, CacheEntry>

  const GitHubProvider := "github"

  /** `_initialize_repo_cache` over the repository documents the index
      returns, as (name, scrape time) pairs in scan order: one entry per
      name, with provider `github` exactly when the GitHub connection lists
      the repository. */
  function InitializeRepoCache(hits: seq<(string, int)>, githubRepos: set<string>): (r: RepoCache)
    ensures DistinctKeys(r)
    decreases |hits|
  {
    if |hits| == 0 then []
    else
      var before := InitializeRepoCache(hits[..|hits| - 1], githubRepos);
      var entry := NewEntry(hits[|hits| - 1], githubRepos);
      PutKeepsDistinct(before, hits[|hits| - 1].0, entry);
      Put(before, hits[|hits| - 1].0, entry)
  }

  /** The entry one repository document makes. */
  function NewEntry(hit: (string, int), githubRepos: set<string>): CacheEntry {
    CacheEntry(hit.1, if hit.0 in githubRepos then Some(GitHubProvider) else None)
  }

  /** The cache holds exactly the names of the repository documents. */
  lemma {:induction false} RepoCacheNames(hits: seq<(string, int)>, githubRepos: set<string>, name: string)
    ensures Get(InitializeRepoCache(hits, githubRepos), name).Some? <==> exists i :: 0 <= i < |hits| && hits[i].0 == name
    decreases |hits|
  {
    if |hits| > 0 {
      var prefix := hits[..|hits| - 1];
      var last := hits[|hits| - 1];
      RepoCacheNames(prefix, githubRepos, name);
      var before := InitializeRepoCache(prefix, githubRepos);
      assert InitializeRepoCache(hits, githubRepos) == Put(before, last.0, NewEntry(last, githubRepos));
      PutName(before, hits, NewEntry(last, githubRepos), name);
    }
  }

  /** The induction step of `RepoCacheNames`: storing the entry of the last
      document adds exactly its name to those of the others. */
  lemma PutName(before: RepoCache, hits: seq<(string, int)>, entry: CacheEntry, name: string)
    requires |hits| > 0
    requires var prefix := hits[..|hits| - 1];
             Get(before, name).Some? <==> exists i :: 0 <= i < |prefix| && prefix[i].0 == name
    ensures Get(Put(before, hits[|hits| - 1].0, entry), name).Some? <==> exists i :: 0 <= i < |hits| && hits[i].0 == name
  {
    var prefix := hits[..|hits| - 1];
    if exists i :: 0 <= i < |prefix| && prefix[i].0 == name {
      var i :| 0 <= i < |prefix| && prefix[i].0 == name;
      assert hits[i] == prefix[i];
    }
    if exists i :: 0 <= i < |hits| - 1 && hits[i].0 == name {
      var i :| 0 <= i < |hits| - 1 && hits[i].0 == name;
      assert prefix[i] == hits[i];
    }
    if hits[|hits| - 1].0 == name {
      assert Get(Put(before, hits[|hits| - 1].0, entry), name).Some?;
    } else {
      assert Get(Put(before, hits[|hits| - 1].0, entry), name) == Get(before, name);
    }
  }

  /** Each cache entry carries the scrape time of one of that name's
      documents, and its provider is `github` exactly for the repositories
      the GitHub connection lists and `None` for the others. */
  lemma {:induction false} RepoCacheEntries(hits: seq<(string, int)>, githubRepos: set<string>, name: string)
    requires Get(InitializeRepoCache(hits, githubRepos), name).Some?
    ensures var e := Get(InitializeRepoCache(hits, githubRepos), name).value;
            && (name in githubRepos ==> e.provider == Some(GitHubProvider))
            && (name !in githubRepos ==> e.provider.None?)
            && exists i :: 0 <= i < |hits| && hits[i] == (name, e.scrapeTime)
    decreases |hits|
  {
    var prefix := hits[..|hits| - 1];
    var e := Get(InitializeRepoCache(hits, githubRepos), name).value;
    var before := InitializeRepoCache(prefix, githubRepos);
    assert InitializeRepoCache(hits, githubRepos) == Put(before, hits[|hits| - 1].0, NewEntry(hits[|hits| - 1], githubRepos));
    if hits[|hits| - 1].0 != name {
      assert Get(InitializeRepoCache(prefix, githubRepos), name) == Some(e);
      RepoCacheEntries(prefix, githubRepos, name);
      var i :| 0 <= i < |prefix| && prefix[i] == (name, e.scrapeTime);
      assert hits[i] == prefix[i];
    } else {
      assert hits[|hits| - 1] == (name, e.scrapeTime);
    }
  }

  /** `scrape_outdated`'s selection: the cached repositories, in cache
      order, scraped before the threshold and with a provider. */
  function Stale(cache: RepoCache, threshold: int): (r: seq<string>)
    ensures forall n :: n in r <==> exists i :: 0 <= i < |cache| && cache[i].0 == n
                                              && cache[i].1.scrapeTime < threshold && cache[i].1.provider.Some?
    decreases |cache|
  {
    if |cache| == 0 then []
    else
      var rest := Stale(cache[1..], threshold);
      assert forall i :: 1 <= i < |cache| ==> cache[1..][i - 1] == cache[i];
      assert forall n :: n in rest ==> exists i :: 0 <= i < |cache| && cache[i].0 == n
                                              && cache[i].1.scrapeTime < threshold && cache[i].1.provider.Some?;
      var (name, e) := cache[0];
      if e.scrapeTime < threshold && e.provider.Some? then [name] + rest else rest
  }

  /** In a cache with one entry per name the selection is exactly the names
      whose entry is older than the threshold and has a provider. */
  lemma StaleMeaning(cache: RepoCache, threshold: int, name: string)
    requires DistinctKeys(cache)
    ensures name in Stale(cache, threshold) <==>
              Get(cache, name).Some? && Get(cache, name).value.scrapeTime < threshold && Get(cache, name).value.provider.Some?
  {
    GetFindsEntry(cache, name);
  }

  /** `Get` answers the entry stored under the name. */
  lemma {:induction false} GetFindsEntry(m: RepoCache, k: string)
    requires DistinctKeys(m)
    ensures Get(m, k).Some? <==> exists i :: 0 <= i < |m| && m[i].0 == k
    ensures forall i :: 0 <= i < |m| && m[i].0 == k ==> Get(m, k) == Some(m[i].1)
    decreases |m|
  {
    if |m| > 0 {
      var tail := m[1..];
      assert DistinctKeys(tail) by {
        forall i, j | 0 <= i < j < |tail| ensures tail[i].0 != tail[j].0 {
          assert tail[i] == m[i + 1] && tail[j] == m[j + 1];
        }
      }
      GetFindsEntry(tail, k);
      forall i | 0 <= i < |m| && m[i].0 == k ensures Get(m, k) == Some(m[i].1) {
        if i > 0 { assert tail[i - 1] == m[i]; }
      }
      if Get(m, k).Some? && m[0].0 != k {
        var i :| 0 <= i < |tail| && tail[i].0 == k;
        assert m[i + 1] == tail[i];
      }
    }
  }

  /** Everything a run reads besides the state it changes: the GitHub
      responses, the tenant configuration (`update_tenant_configuration`:
      the repository map, or the exception it raises), the job and role ids
      scraping a repository saves (`scrape_repo`, or its exception), and
      the hash of a repository name (`sha1`). */
  datatype Env = Env(
    api: GitHubConnection.Api,
    tenantConfig: Result<TenantParser.RepoMap, Error>,
    scrape: (string, TenantParser.RepoEntry) -> Result<(seq<string>, seq<string>), Error>,
    repoId: string -> string)

  /** What runs change: the index, the repository cache, and the GitHub
      connection with its installation map and tokens. */
  datatype State = State(index: Index, cache: RepoCache, github: GitHubConnection.Connection)

  /** The state after a run, and the exception that ended it, if any. */
  datatype Run = Run(state: State, error: Option<Error>)

  /** The scraping loop so far: the index and cache it wrote, the names of
      the repositories it scraped, and the exception that stopped it. */
  datatype Loop = Loop(index: Index, cache: RepoCache, scraped: seq<string>, error: Option<Error>)

  /** The provider a touched cache entry ends up with: the one it had, or
      `github` for a new entry. */
  function TouchedProvider(cache: RepoCache, name: string): Option<string> {
    if Get(cache, name).Some? then Get(cache, name).value.provider else Some(GitHubProvider)
  }

  /** `repo_cache.setdefault(name, {"provider": "github"})` followed by
      setting the scrape time: an existing entry keeps its provider, a new
      one gets `github`, and no other entry changes. */
  function Touch(cache: RepoCache, name: string, t: int): (r: RepoCache)
    ensures Get(r, name) == Some(CacheEntry(t, TouchedProvider(cache, name)))
    ensures Get(cache, name).None? ==> Get(r, name).value.provider == Some(GitHubProvider)
    ensures Get(cache, name).Some? ==> Get(r, name).value.provider == Get(cache, name).value.provider
    ensures forall n :: n != name ==> Get(r, n) == Get(cache, n)
    ensures KeySet(r) == KeySet(cache) + {name}
  {
    Put(cache, name, CacheEntry(t, TouchedProvider(cache, name)))
  }

  /** One repository of the loop: skipped when the tenant configuration does
      not know it; otherwise recorded, its cache entry touched, and
      scraped, its jobs and roles saved. */
  function ScrapeOne(acc: Loop, env: Env, repoMap: TenantParser.RepoMap, name: string, t: int): (r: Loop)
    requires acc.error.None?
    ensures Get(repoMap, name).None? ==> r == acc
    ensures Get(repoMap, name).Some? ==> r.cache == Touch(acc.cache, name, t) && r.scraped == acc.scraped + [name]
    ensures Get(repoMap, name).Some? ==>
              (r.error.Some? <==> env.scrape(name, Get(repoMap, name).value).Failure?)
  {
    match Get(repoMap, name)
    case None => acc
    case Some(tenants) =>
      var cache := Touch(acc.cache, name, t);
      match env.scrape(name, tenants)
      case Failure(e) => Loop(acc.index, cache, acc.scraped + [name], Some(e))
      case Success((jobs, roles)) =>
        Loop(SaveAll(SaveAll(acc.index, JobDoc, jobs, name, t), RoleDoc, roles, name, t), cache, acc.scraped + [name], None)
  }

  /** The loop over the repository list, in order, until an exception. */
  function ScrapeLoop(acc: Loop, env: Env, repoMap: TenantParser.RepoMap, repos: seq<string>, t: int): (r: Loop)
    decreases |repos|
  {
    if |repos| == 0 || acc.error.Some? then acc
    else ScrapeLoop(ScrapeOne(acc, env, repoMap, repos[0], t), env, repoMap, repos[1..], t)
  }

  /** The documents of the Job and Role indices. */
  const BlockKinds: set<Kind> := {JobDoc, RoleDoc}

  /** `scrape_repo_list` with scrape time `t`: prime the installation map;
      then either scrape the listed repositories the tenant configuration
      knows and save their repository documents, or, in delete-only mode,
      delete their outdated repository documents and forget them in the
      cache; in both modes finally delete their outdated jobs and roles. */
  function ScrapeRepoList(st: State, env: Env, repos: seq<string>, t: int, deleteOnly: bool): (r: Run)
  {
    var primed := GitHubConnection.PrimeInstallMap(st.github, t, env.api);
    var st1 := st.(github := primed.conn);
    if primed.result.Failure? then Run(st1, Some(primed.result.error))
    else if !deleteOnly then
      match env.tenantConfig
      case Failure(e) => Run(st1, Some(e))
      case Success(repoMap) =>
        var loop := ScrapeLoop(Loop(st1.index, st1.cache, [], None), env, repoMap, repos, t);
        if loop.error.Some? then Run(State(loop.index, loop.cache, st1.github), loop.error)
        else
          var saved := SaveRepos(loop.index, loop.scraped, env.repoId, t);
          Run(State(DeleteOutdated(saved, t, BlockKinds, repos), loop.cache, st1.github), None)
    else
      var pruned := DeleteOutdated(st1.index, t, {RepoDoc}, repos);
      Run(State(DeleteOutdated(pruned, t, BlockKinds, repos), RemoveAll(st1.cache, repos), st1.github), None)
  }

  // What a run does to the index and the cache.

  /** The loop only adds documents and overwrites them with documents of a
      listed repository the tenant configuration knows, scraped at `t`; it
      scrapes no other repository. */
  lemma {:induction false} LoopIndex(acc: Loop, env: Env, repoMap: TenantParser.RepoMap, repos: seq<string>, t: int)
    requires acc.error.None?
    ensures var r := ScrapeLoop(acc, env, repoMap, repos, t);
            && (forall k :: k in acc.index ==> k in r.index)
            && (forall k :: k in r.index && !(k in acc.index && r.index[k] == acc.index[k]) ==>
                  k.0 in BlockKinds && r.index[k].scrapeTime == t && r.index[k].repo in repos
                  && Get(repoMap, r.index[k].repo).Some?)
            && (forall n :: n in r.scraped ==> n in acc.scraped || (n in repos && Get(repoMap, n).Some?))
    decreases |repos|
  {
    if |repos| > 0 {
      var next := ScrapeOne(acc, env, repoMap, repos[0], t);
      ScrapeOneIndex(acc, env, repoMap, repos[0], t);
      assert forall n :: n in repos[1..] ==> n in repos;
      if next.error.None? {
        LoopIndex(next, env, repoMap, repos[1..], t);
      }
    }
  }

  /** `LoopIndex` for one repository. */
  lemma ScrapeOneIndex(acc: Loop, env: Env, repoMap: TenantParser.RepoMap, name: string, t: int)
    requires acc.error.None?
    ensures var r := ScrapeOne(acc, env, repoMap, name, t);
            && (forall k :: k in acc.index ==> k in r.index)
            && (forall k :: k in r.index && !(k in acc.index && r.index[k] == acc.index[k]) ==>
                  k.0 in BlockKinds && r.index[k] == Doc(name, t) && Get(repoMap, name).Some?)
            && (forall n :: n in r.scraped ==> n in acc.scraped || (n == name && Get(repoMap, n).Some?))
  {
    match Get(repoMap, name)
    case None =>
    case Some(tenants) =>
      match env.scrape(name, tenants)
      case Failure(_) =>
      case Success((jobs, roles)) =>
        var withJobs := SaveAll(acc.index, JobDoc, jobs, name, t);
        var saved := SaveAll(withJobs, RoleDoc, roles, name, t);
        assert ScrapeOne(acc, env, repoMap, name, t).index == saved;
        forall k | k in saved && !(k in acc.index && saved[k] == acc.index[k])
          ensures k.0 in BlockKinds && saved[k] == Doc(name, t)
        {
          if !(k.0 == RoleDoc && k.1 in roles) {
            assert saved[k] == withJobs[k];
          }
        }
  }

  /** The loop leaves the cache entries of names it is not given, or that
      the tenant configuration does not know, as they were. */
  lemma {:induction false} LoopCacheUntouched(acc: Loop, env: Env, repoMap: TenantParser.RepoMap, repos: seq<string>, t: int, n: string)
    requires acc.error.None?
    requires n !in repos || Get(repoMap, n).None?
    ensures Get(ScrapeLoop(acc, env, repoMap, repos, t).cache, n) == Get(acc.cache, n)
    decreases |repos|
  {
    if |repos| > 0 {
      var next := ScrapeOne(acc, env, repoMap, repos[0], t);
      assert n !in repos[1..] || Get(repoMap, n).None? by {
        assert forall m :: m in repos[1..] ==> m in repos;
      }
      if next.error.None? {
        LoopCacheUntouched(next, env, repoMap, repos[1..], t, n);
      }
    }
  }

  /** A loop that ends without an exception has recorded and touched every
      listed repository the tenant configuration knows. */
  lemma {:induction false} LoopCacheTouched(acc: Loop, env: Env, repoMap: TenantParser.RepoMap, repos: seq<string>, t: int, n: string)
    requires acc.error.None?
    requires n in repos && Get(repoMap, n).Some?
    ensures var r := ScrapeLoop(acc, env, repoMap, repos, t);
            r.error.None? ==> Get(r.cache, n) == Some(CacheEntry(t, TouchedProvider(acc.cache, n))) && n in r.scraped
    decreases |repos|
  {
    var next := ScrapeOne(acc, env, repoMap, repos[0], t);
    if next.error.None? {
      if n == repos[0] {
        if n in repos[1..] {
          LoopCacheTouched(next, env, repoMap, repos[1..], t, n);
        } else {
          LoopCacheUntouched(next, env, repoMap, repos[1..], t, n);
          LoopIndex(next, env, repoMap, repos[1..], t);
          ScrapedGrows(next, env, repoMap, repos[1..], t);
        }
      } else {
        assert n in repos[1..];
        LoopCacheTouched(next, env, repoMap, repos[1..], t, n);
        assert TouchedProvider(next.cache, n) == TouchedProvider(acc.cache, n);
      }
    }
  }

  /** The loop never forgets a repository it has scraped. */
  lemma {:induction false} ScrapedGrows(acc: Loop, env: Env, repoMap: TenantParser.RepoMap, repos: seq<string>, t: int)
    requires acc.error.None?
    ensures forall n :: n in acc.scraped ==> n in ScrapeLoop(acc, env, repoMap, repos, t).scraped
    decreases |repos|
  {
    if |repos| > 0 {
      var next := ScrapeOne(acc, env, repoMap, repos[0], t);
      if next.error.None? {
        ScrapedGrows(next, env, repoMap, repos[1..], t);
      }
    }
  }

  /** A loop that ends without an exception has saved, scraped at `t`, every
      job and role scraping a known listed repository returned. */
  lemma {:induction false} LoopSavesScraped(acc: Loop, env: Env, repoMap: TenantParser.RepoMap, repos: seq<string>, t: int,
                                            name: string, jobs: seq<string>, roles: seq<string>)
    requires acc.error.None?
    requires name in repos && Get(repoMap, name).Some? && env.scrape(name, Get(repoMap, name).value) == Success((jobs, roles))
    ensures var r := ScrapeLoop(acc, env, repoMap, repos, t);
            r.error.None? ==>
              && (forall id :: id in jobs ==> (JobDoc, id) in r.index && r.index[(JobDoc, id)].scrapeTime == t)
              && (forall id :: id in roles ==> (RoleDoc, id) in r.index && r.index[(RoleDoc, id)].scrapeTime == t)
    decreases |repos|
  {
    var next := ScrapeOne(acc, env, repoMap, repos[0], t);
    var r := ScrapeLoop(acc, env, repoMap, repos, t);
    if next.error.None? {
      if repos[0] == name {
        LoopIndex(next, env, repoMap, repos[1..], t);
      } else {
        assert name in repos[1..];
        LoopSavesScraped(next, env, repoMap, repos[1..], t, name, jobs, roles);
      }
    }
  }

  /** A scraping run once priming and the tenant configuration succeeded:
      the loop, then the repository documents and the sweep. */
  lemma ScrapeRunShape(st: State, env: Env, repos: seq<string>, t: int)
    requires GitHubConnection.PrimeInstallMap(st.github, t, env.api).result.Success? && env.tenantConfig.Success?
    ensures var loop := ScrapeLoop(Loop(st.index, st.cache, [], None), env, env.tenantConfig.value, repos, t);
            var gh := GitHubConnection.PrimeInstallMap(st.github, t, env.api).conn;
            ScrapeRepoList(st, env, repos, t, false) ==
              if loop.error.Some? then Run(State(loop.index, loop.cache, gh), loop.error)
              else Run(State(DeleteOutdated(SaveRepos(loop.index, loop.scraped, env.repoId, t), t, BlockKinds, repos), loop.cache, gh), None)
  {
  }

  /** An exception in priming ends a run before anything but the GitHub
      connection changes. */
  lemma PrimingFailureKeepsIndexAndCache(st: State, env: Env, repos: seq<string>, t: int, deleteOnly: bool)
    requires GitHubConnection.PrimeInstallMap(st.github, t, env.api).result.Failure?
    ensures var r := ScrapeRepoList(st, env, repos, t, deleteOnly);
            r.state.index == st.index && r.state.cache == st.cache && r.error.Some?
  {
  }

  /** A listed repository the tenant configuration does not know is not
      scraped, gets no repository document and keeps its cache entry: every
      document of it in the index after the run was there before. */
  lemma RunSkipsUnknownRepository(st: State, env: Env, repos: seq<string>, t: int, name: string)
    requires env.tenantConfig.Success? && Get(env.tenantConfig.value, name).None?
    ensures var r := ScrapeRepoList(st, env, repos, t, false);
            && Get(r.state.cache, name) == Get(st.cache, name)
            && (forall k :: k in r.state.index && r.state.index[k].repo == name ==> k in st.index && r.state.index[k] == st.index[k])
  {
    var primed := GitHubConnection.PrimeInstallMap(st.github, t, env.api);
    if primed.result.Success? {
      var acc := Loop(st.index, st.cache, [], None);
      var loop := ScrapeLoop(acc, env, env.tenantConfig.value, repos, t);
      ScrapeRunShape(st, env, repos, t);
      LoopIndex(acc, env, env.tenantConfig.value, repos, t);
      LoopCacheUntouched(acc, env, env.tenantConfig.value, repos, t, name);
    }
  }

  /** After a run without an exception every listed repository the tenant
      configuration knows has a repository document scraped at `t` under the
      id its name hashes to, and its cache entry carries `t` and its old
      provider, or `github` if it had none. */
  lemma RunRecordsKnownRepository(st: State, env: Env, repos: seq<string>, t: int, name: string)
    requires ScrapeRepoList(st, env, repos, t, false).error.None?
    requires name in repos && env.tenantConfig.Success? && Get(env.tenantConfig.value, name).Some?
    ensures var r := ScrapeRepoList(st, env, repos, t, false);
            && (RepoDoc, env.repoId(name)) in r.state.index
            && r.state.index[(RepoDoc, env.repoId(name))].scrapeTime == t
            && env.repoId(r.state.index[(RepoDoc, env.repoId(name))].repo) == env.repoId(name)
            && Get(r.state.cache, name) == Some(CacheEntry(t, TouchedProvider(st.cache, name)))
  {
    var acc := Loop(st.index, st.cache, [], None);
    var loop := ScrapeLoop(acc, env, env.tenantConfig.value, repos, t);
    LoopCacheTouched(acc, env, env.tenantConfig.value, repos, t, name);
    var saved := SaveRepos(loop.index, loop.scraped, env.repoId, t);
    assert ScrapeRepoList(st, env, repos, t, false).state == State(DeleteOutdated(saved, t, BlockKinds, repos), loop.cache, GitHubConnection.PrimeInstallMap(st.github, t, env.api).conn);
    assert (RepoDoc, env.repoId(name)) in saved;
  }

  /** After a run without an exception the jobs and roles scraping a known
      listed repository returned are in the index, scraped at `t`: the
      outdated sweep that ends the run never removes them. */
  lemma RunKeepsScrapedDocuments(st: State, env: Env, repos: seq<string>, t: int, name: string, jobs: seq<string>, roles: seq<string>)
    requires ScrapeRepoList(st, env, repos, t, false).error.None?
    requires name in repos && env.tenantConfig.Success? && Get(env.tenantConfig.value, name).Some?
    requires env.scrape(name, Get(env.tenantConfig.value, name).value) == Success((jobs, roles))
    ensures var idx := ScrapeRepoList(st, env, repos, t, false).state.index;
            && (forall id :: id in jobs ==> (JobDoc, id) in idx && idx[(JobDoc, id)].scrapeTime == t)
            && (forall id :: id in roles ==> (RoleDoc, id) in idx && idx[(RoleDoc, id)].scrapeTime == t)
  {
    var acc := Loop(st.index, st.cache, [], None);
    ScrapeRunShape(st, env, repos, t);
    LoopSavesScraped(acc, env, env.tenantConfig.value, repos, t, name, jobs, roles);
  }

  /** In both modes a run without an exception leaves no job or role of a
      listed repository scraped before `t`, in delete-only mode no such
      repository document either, and keeps every other document that was
      there (possibly rewritten at `t`). */
  lemma RunSweepsOutdated(st: State, env: Env, repos: seq<string>, t: int, deleteOnly: bool)
    requires ScrapeRepoList(st, env, repos, t, deleteOnly).error.None?
    ensures var idx := ScrapeRepoList(st, env, repos, t, deleteOnly).state.index;
            var swept := if deleteOnly then {JobDoc, RoleDoc, RepoDoc} else BlockKinds;
            && (forall k :: k in idx ==> !(k.0 in swept && OutdatedQuery(idx[k], t, Some(repos))))
            && (forall k :: k in st.index && !(k.0 in swept && OutdatedQuery(st.index[k], t, Some(repos))) ==>
                  k in idx && (idx[k] == st.index[k] || idx[k].scrapeTime == t))
  {
    if !deleteOnly {
      var acc := Loop(st.index, st.cache, [], None);
      LoopIndex(acc, env, env.tenantConfig.value, repos, t);
    }
  }

  /** Delete-only mode reads neither the tenant configuration nor the
      scraper, and forgets exactly the listed repositories in the cache. */
  lemma DeleteOnlyForgetsRepositories(st: State, env: Env, other: Env, repos: seq<string>, t: int)
    requires other.api == env.api
    requires ScrapeRepoList(st, env, repos, t, true).error.None?
    ensures ScrapeRepoList(st, other, repos, t, true) == ScrapeRepoList(st, env, repos, t, true)
    ensures var cache := ScrapeRepoList(st, env, repos, t, true).state.cache;
            && KeySet(cache) == KeySet(st.cache) - set n | n in repos
            && (forall n :: n !in repos ==> Get(cache, n) == Get(st.cache, n))
  {
  }

  // Periodic runs.

  /** `scrape_outdated` at `now`: a run, at scrape time `t`, over the cached
      repositories not scraped for `interval` hours that have a provider;
      no run at all when there are none. */
  function ScrapeOutdated(st: State, env: Env, now: int, interval: int, t: int): (r: Run)
    ensures |Stale(st.cache, now - interval * 3600)| == 0 ==> r == Run(st, None)
    ensures |Stale(st.cache, now - interval * 3600)| > 0 ==> r == ScrapeRepoList(st, env, Stale(st.cache, now - interval * 3600), t, false)
  {
    var repoList := Stale(st.cache, now - interval * 3600);
    if |repoList| == 0 then Run(st, None) else ScrapeRepoList(st, env, repoList, t, false)
  }

  /** A periodic run without an exception refreshes exactly the cache
      entries that were older than `interval` hours, had a provider and are
      known to the tenant configuration: they carry `t` and keep their
      provider, and every other entry is as it was. */
  lemma OutdatedRunRefreshesStale(st: State, env: Env, now: int, interval: int, t: int, name: string)
    requires DistinctKeys(st.cache)
    requires env.tenantConfig.Success?
    requires ScrapeOutdated(st, env, now, interval, t).error.None?
    ensures var e := Get(st.cache, name);
            var refreshed := && e.Some? && e.value.scrapeTime < now - interval * 3600 && e.value.provider.Some?
                             && Get(env.tenantConfig.value, name).Some?;
            Get(ScrapeOutdated(st, env, now, interval, t).state.cache, name)
              == if refreshed then Some(CacheEntry(t, e.value.provider)) else e
  {
    var threshold := now - interval * 3600;
    var repos := Stale(st.cache, threshold);
    StaleMeaning(st.cache, threshold, name);
    if |repos| > 0 {
      if name in repos && Get(env.tenantConfig.value, name).Some? {
        RunRecordsKnownRepository(st, env, repos, t, name);
      } else if Get(env.tenantConfig.value, name).None? {
        RunSkipsUnknownRepository(st, env, repos, t, name);
      } else {
        ScrapeRunShape(st, env, repos, t);
        LoopCacheUntouched(Loop(st.index, st.cache, [], None), env, env.tenantConfig.value, repos, t, name);
      }
    }
  }

  /** A cache without a repository older than the threshold that has a
      provider triggers nothing. */
  lemma NothingOutdatedNothingRuns(st: State, env: Env, now: int, interval: int, t: int)
    requires forall i :: 0 <= i < |st.cache| ==> st.cache[i].1.scrapeTime >= now - interval * 3600 || st.cache[i].1.provider.None?
    ensures ScrapeOutdated(st, env, now, interval, t) == Run(st, None)
  {
    NoneStale(st.cache, now - interval * 3600);
  }

  /** Without an old entry that has a provider the selection is empty. */
  lemma {:induction false} NoneStale(cache: RepoCache, threshold: int)
    requires forall i :: 0 <= i < |cache| ==> cache[i].1.scrapeTime >= threshold || cache[i].1.provider.None?
    ensures Stale(cache, threshold) == []
    decreases |cache|
  {
    if |cache| > 0 {
      assert forall i :: 1 <= i < |cache| ==> cache[1..][i - 1] == cache[i];
      NoneStale(cache[1..], threshold);
    }
  }

  // Events.

  /** The payload keys the event handlers read. A list of repositories holds
      each repository's `full_name`, `None` where the key is missing; an
      absent key is `None`. */
  datatype Payload = Payload(
    action: Option<string>,
    installationId: Option<int>,
    repositories: Option<seq<Option<string>>>,
    repositoriesAdded: Option<seq<Option<string>>>,
    repositoriesRemoved: Option<seq<Option<string>>>,
    repositoryFullName: Option<string>,
    ref: Option<string>)

  /** `[r["full_name"] for r in repositories]`: a repository without the
      key raises. */
  function FullNames(rs: seq<Option<string>>): (r: Result<seq<string>, Error>)
    ensures r.Success? <==> forall i :: 0 <= i < |rs| ==> rs[i].Some?
    ensures r.Success? ==> |r.value| == |rs| && forall i :: 0 <= i < |rs| ==> r.value[i] == rs[i].value
    decreases |rs|
  {
    if |rs| == 0 then Success([])
    else if rs[0].None? then Failure(Unexpected("KeyError"))
    else
      var rest := FullNames(rs[1..]);
      assert forall i :: 1 <= i < |rs| ==> rs[1..][i - 1] == rs[i];
      if rest.Failure? then rest else Success([rs[0].value] + rest.value)
  }

  /** A run after an earlier step, unless that step raised. */
  function Then(first: Run, next: State -> Run): (r: Run)
    ensures first.error.Some? ==> r == first
    ensures first.error.None? ==> r == next(first.state)
  {
    if first.error.Some? then first else next(first.state)
  }

  /** A run over the full names of a payload list, or the exception reading
      them raises. */
  function RunOverNames(st: State, env: Env, rs: seq<Option<string>>, t: int, deleteOnly: bool): (r: Run)
    ensures FullNames(rs).Failure? ==> r == Run(st, Some(FullNames(rs).error))
    ensures FullNames(rs).Success? ==> r == ScrapeRepoList(st, env, FullNames(rs).value, t, deleteOnly)
  {
    match FullNames(rs)
    case Failure(e) => Run(st, Some(e))
    case Success(names) => ScrapeRepoList(st, env, names, t, deleteOnly)
  }

  /** `event_installation`: a created installation scrapes the payload's
      repositories in order; a deleted one runs delete-only over the
      repositories the installation map assigns to it, or does nothing when
      there are none; any other action does nothing. */
  function EventInstallation(st: State, env: Env, p: Payload, t: int): (r: Run)
    ensures p.action != Some("created") && p.action != Some("deleted") ==> r == Run(st, None)
    ensures p.action == Some("created") ==>
              r == RunOverNames(st, env, if p.repositories.Some? then p.repositories.value else [], t, false)
    ensures p.action == Some("deleted") ==>
              var repos := GitHubConnection.GetReposForInstallation(st.github.installationMap, p.installationId);
              r == if |repos| == 0 then Run(st, None) else ScrapeRepoList(st, env, repos, t, true)
  {
    if p.action == Some("created") then
      RunOverNames(st, env, if p.repositories.Some? then p.repositories.value else [], t, false)
    else if p.action == Some("deleted") then
      var repos := GitHubConnection.GetReposForInstallation(st.github.installationMap, p.installationId);
      if |repos| == 0 then Run(st, None) else ScrapeRepoList(st, env, repos, t, true)
    else Run(st, None)
  }

  /** Deleting an installation no repository in the installation map
      belongs to changes nothing. */
  lemma DeletedUnknownInstallationDoesNothing(st: State, env: Env, p: Payload, t: int)
    requires p.action == Some("deleted")
    requires forall i :: 0 <= i < |st.github.installationMap| ==> st.github.installationMap[i].1.installationId != p.installationId
    ensures EventInstallation(st, env, p, t) == Run(st, None)
  {
    NoRepositoriesWithoutEntries(st.github.installationMap, p.installationId);
  }

  lemma {:induction false} NoRepositoriesWithoutEntries(m: Dict<string, GitHubConnection.Installation>, id: Option<int>)
    requires forall i :: 0 <= i < |m| ==> m[i].1.installationId != id
    ensures GitHubConnection.GetReposForInstallation(m, id) == []
    decreases |m|
  {
    if |m| > 0 {
      assert forall i :: 1 <= i < |m| ==> m[1..][i - 1] == m[i];
      NoRepositoriesWithoutEntries(m[1..], id);
    }
  }

  /** Deleting an installation forgets, in the cache, exactly the
      repositories the installation map assigned to it. */
  lemma DeletedInstallationForgetsItsRepositories(st: State, env: Env, p: Payload, t: int, name: string)
    requires p.action == Some("deleted") && EventInstallation(st, env, p, t).error.None?
    requires GitHubConnection.OrderedMap.DistinctKeys(st.github.installationMap)
    ensures var cache := EventInstallation(st, env, p, t).state.cache;
            var entry := Get(st.github.installationMap, name);
            && (entry.Some? && entry.value.installationId == p.installationId ==> Get(cache, name).None?)
            && (!(entry.Some? && entry.value.installationId == p.installationId) ==> Get(cache, name) == Get(st.cache, name))
  {
    var repos := GitHubConnection.GetReposForInstallation(st.github.installationMap, p.installationId);
    GitHubConnection.ReposForInstallationMeaning(st.github.installationMap, p.installationId, name);
    if |repos| > 0 {
      DeleteOnlyForgetsRepositories(st, env, env, repos, t);
    }
  }

  /** `event_installation_repositories`: the added repositories are scraped;
      then, when the payload has a removal list, a delete-only run at `t2`
      goes over the names of the ADDED list, which raises when there is
      none. */
  function EventInstallationRepositories(st: State, env: Env, p: Payload, t: int, t2: int): (r: Run)
  {
    var first := if p.repositoriesAdded.Some? then RunOverNames(st, env, p.repositoriesAdded.value, t, false) else Run(st, None);
    Then(first, (s: State) =>
      if p.repositoriesRemoved.None? then Run(s, None)
      else if p.repositoriesAdded.None? then Run(s, Some(Unexpected("TypeError")))
      else RunOverNames(s, env, p.repositoriesAdded.value, t2, true))
  }

  /** A payload that only removes repositories removes nothing: reading the
      names from the missing added list raises. */
  lemma RemovalAloneDoesNothing(st: State, env: Env, p: Payload, t: int, t2: int)
    requires p.repositoriesAdded.None? && p.repositoriesRemoved.Some?
    ensures EventInstallationRepositories(st, env, p, t, t2) == Run(st, Some(Unexpected("TypeError")))
  {
  }

  /** A payload with both lists, the removal list possibly empty, forgets the
      ADDED repositories in the cache again right after scraping them. */
  lemma AddedRepositoriesForgottenAgain(st: State, env: Env, p: Payload, t: int, t2: int, name: string)
    requires p.repositoriesAdded.Some? && p.repositoriesRemoved.Some?
    requires EventInstallationRepositories(st, env, p, t, t2).error.None?
    requires Some(name) in p.repositoriesAdded.value
    ensures Get(EventInstallationRepositories(st, env, p, t, t2).state.cache, name).None?
  {
    var first := RunOverNames(st, env, p.repositoriesAdded.value, t, false);
    var names := FullNames(p.repositoriesAdded.value).value;
    var i :| 0 <= i < |p.repositoriesAdded.value| && p.repositoriesAdded.value[i] == Some(name);
    assert names[i] == name;
    DeleteOnlyForgetsRepositories(first.state, env, env, names, t2);
  }

  /** The branch of a ref, `ref.split("/", 2)[2]`: what follows the second
      `/`; a ref with fewer than two has none. */
  function RefBranch(ref: string): (r: Option<string>)
    ensures r.Some? ==> exists a, b :: ref == a + "/" + b + "/" + r.value && !Contains(a, '/') && !Contains(b, '/')
    ensures r.None? ==> !Contains(ref, '/') || !Contains(PartitionChar(ref, '/').2, '/')
  {
    var (a, found, rest) := PartitionChar(ref, '/');
    var (b, found2, branch) := PartitionChar(rest, '/');
    if found && found2 then
      assert ref == a + "/" + b + "/" + branch;
      Some(branch)
    else None
  }

  /** The branch is everything after the second `/`, slashes included. */
  lemma RefBranchOf(a: string, b: string, branch: string)
    requires !Contains(a, '/') && !Contains(b, '/')
    ensures RefBranch(a + "/" + b + "/" + branch) == Some(branch)
  {
    PartitionCharRecovers(b, '/', branch);
    PartitionCharRecovers(a, '/', b + "/" + branch);
    assert a + "/" + b + "/" + branch == a + ['/'] + (b + ['/'] + branch);
  }

  /** `event_push`: a push to the default branch the installation map
      records for the repository scrapes that repository; a push to any
      other branch does nothing; a repository missing from the map, a
      missing ref or a ref without a branch raises. */
  function EventPush(st: State, env: Env, p: Payload, t: int): (r: Run)
    ensures r.error.None? && r != Run(st, None) ==>
              && p.repositoryFullName.Some? && p.ref.Some?
              && Get(st.github.installationMap, p.repositoryFullName.value).Some?
              && RefBranch(p.ref.value) == Some(Get(st.github.installationMap, p.repositoryFullName.value).value.defaultBranch)
  {
    var info := if p.repositoryFullName.Some? then Get(st.github.installationMap, p.repositoryFullName.value) else None;
    if info.None? then Run(st, Some(Unexpected("TypeError")))
    else if p.ref.None? then Run(st, Some(Unexpected("AttributeError")))
    else
      match RefBranch(p.ref.value)
      case None => Run(st, Some(Unexpected("IndexError")))
      case Some(branch) =>
        if branch != info.value.defaultBranch then Run(st, None)
        else ScrapeRepoList(st, env, [p.repositoryFullName.value], t, false)
  }

  /** A push to `refs/heads/<branch>` scrapes the repository exactly when
      the branch is its default branch. */
  lemma PushToBranch(st: State, env: Env, p: Payload, t: int, branch: string)
    requires p.repositoryFullName.Some? && Get(st.github.installationMap, p.repositoryFullName.value).Some?
    requires p.ref == Some("refs/heads/" + branch)
    ensures var default := Get(st.github.installationMap, p.repositoryFullName.value).value.defaultBranch;
            && (branch == default ==> EventPush(st, env, p, t) == ScrapeRepoList(st, env, [p.repositoryFullName.value], t, false))
            && (branch != default ==> EventPush(st, env, p, t) == Run(st, None))
  {
    var refs, heads := "refs", "heads";
    assert "refs/heads/" + branch == refs + "/" + heads + "/" + branch;
    RefBranchOf(refs, heads, branch);
  }

  /** The events with a handler (`event_<name>`). */
  const HandledEvents: set<string> := {"installation", "installation_repositories", "push"}

  /** `handle_event`: an event without a handler changes nothing, and an
      exception in a handler is swallowed, leaving what it had written.
      `t` is the scrape time of the event's first run, `t2` of its second. */
  function HandleEvent(st: State, env: Env, event: string, p: Payload, t: int, t2: int): (r: State)
    ensures event !in HandledEvents ==> r == st
    ensures event == "installation" ==> r == EventInstallation(st, env, p, t).state
    ensures event == "installation_repositories" ==> r == EventInstallationRepositories(st, env, p, t, t2).state
    ensures event == "push" ==> r == EventPush(st, env, p, t).state
  {
    if event == "installation" then EventInstallation(st, env, p, t).state
    else if event == "installation_repositories" then EventInstallationRepositories(st, env, p, t, t2).state
    else if event == "push" then EventPush(st, env, p, t).state
    else st
  }

  /** Every event the webhook accepts has a handler, and every handled event
      is one the webhook accepts. */
  lemma WebhookEventsAreHandled(event: string)
    ensures Views.CheckEvent(Some(event)).Some? <==> event in HandledEvents
  {
  }
}
