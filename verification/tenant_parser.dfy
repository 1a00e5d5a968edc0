/** The tenant map builder (`zubbi/scraper/tenant_parser.py`). Zuul's tenant
    configuration lists, per tenant, per connection and per project type,
    the projects (repositories) of that tenant. `Parse` folds these into a
    map from repository name to the tenants that may use its jobs and its
    roles, plus the connection the repository was first seen under. */
module TenantParser {
  import opened Wrappers
  import opened Text
  import opened OrderedMap
  import opened Exceptions
  import opened Repository

  const TenantsDirectory := "tenants"

  /** A project entry of a tenant source: a bare name, or a mapping whose
      first key is the name. `exclude` (empty when absent) is read from that
      same outer mapping, as a sibling of the name: in Zuul's own nested form
      `{name: {exclude: [...]}}` it sits one level down, is never seen, and
      the project excludes nothing. */
  datatype Project = Bare(name: string) | Mapping(name: string, exclude: seq<string>)

  /** `{connection name: {project type: [projects]}}`, in YAML order. */
  type Source = Dict<string, Dict<string, seq<Project>>>

  /** One loaded tenant: its name and its `source` mapping. */
  datatype TenantSource = TenantSource(name: string, source: Source)

  /** `{"tenants": {"jobs": [...], "roles": [...]}, "connection_name": ...}`. */
  datatype RepoEntry = RepoEntry(jobs: seq<string>, roles: seq<string>, connectionName: string)

  type RepoMap = Dict<string, RepoEntry>

  /** The parser's `repo_map` and `tenants` attributes. */
  datatype ParserState = ParserState(repoMap: RepoMap, tenants: seq<string>)

  /** `_extract_project`: the project name and its exclude list. */
  function ExtractProject(p: Project): (r: (string, seq<string>))
    ensures r.0 == p.name
    ensures p.Bare? ==> r.1 == []
    ensures p.Mapping? ==> r.1 == p.exclude
  {
    match p
    case Bare(n) => (n, [])
    case Mapping(n, ex) => (n, ex)
  }

  /** What one occurrence of a project does to its repo entry: the tenant is
      added to the role tenants always and to the job tenants unless the
      exclude list names `jobs`; a new entry takes the connection name. */
  function Step(e: Option<RepoEntry>, tenant: string, exclude: seq<string>, connection: string): RepoEntry {
    var base := e.GetOr(RepoEntry([], [], connection));
    RepoEntry(
      if "jobs" in exclude then base.jobs else base.jobs + [tenant],
      base.roles + [tenant],
      base.connectionName)
  }

  /** `_update_repo_map`. */
  function UpdateRepoMap(m: RepoMap, project: Project, connection: string, tenant: string): (r: RepoMap)
    ensures Get(r, project.name).Some?
    ensures Get(r, project.name).value.roles == (if Get(m, project.name).Some? then Get(m, project.name).value.roles else []) + [tenant]
    ensures Get(r, project.name).value.jobs == (if Get(m, project.name).Some? then Get(m, project.name).value.jobs else [])
                                               + (if "jobs" in ExtractProject(project).1 then [] else [tenant])
    ensures Get(r, project.name).value.connectionName == (if Get(m, project.name).Some? then Get(m, project.name).value.connectionName else connection)
    ensures forall k :: k != project.name ==> Get(r, k) == Get(m, k)
  {
    var (name, exclude) := ExtractProject(project);
    Put(m, name, Step(Get(m, name), tenant, exclude, connection))
  }

  /** One project occurrence, flattened out of the nested tenant sources. */
  datatype Occurrence = Occurrence(project: Project, connection: string, tenant: string)

  function ProjectOccurrences(ps: seq<Project>, connection: string, tenant: string): seq<Occurrence>
    decreases |ps|
  {
    if |ps| == 0 then []
    else [Occurrence(ps[0], connection, tenant)] + ProjectOccurrences(ps[1..], connection, tenant)
  }

  function TypeOccurrences(types: Dict<string, seq<Project>>, connection: string, tenant: string): seq<Occurrence>
    decreases |types|
  {
    if |types| == 0 then []
    else ProjectOccurrences(types[0].1, connection, tenant) + TypeOccurrences(types[1..], connection, tenant)
  }

  function ConnectionOccurrences(source: Source, tenant: string): seq<Occurrence>
    decreases |source|
  {
    if |source| == 0 then []
    else TypeOccurrences(source[0].1, source[0].0, tenant) + ConnectionOccurrences(source[1..], tenant)
  }

  /** Every project occurrence in the order the nested loops of `parse`
      visit them. */
  function Occurrences(sources: seq<TenantSource>): seq<Occurrence>
    decreases |sources|
  {
    if |sources| == 0 then []
    else ConnectionOccurrences(sources[0].source, sources[0].name) + Occurrences(sources[1..])
  }

  /** The loop body of `parse`, applied to the occurrences in turn. */
  function Apply(m: RepoMap, occs: seq<Occurrence>): RepoMap
    decreases |occs|
  {
    if |occs| == 0 then m
    else Apply(UpdateRepoMap(m, occs[0].project, occs[0].connection, occs[0].tenant), occs[1..])
  }

  function TenantNames(sources: seq<TenantSource>): (r: seq<string>)
    ensures |r| == |sources|
    ensures forall i :: 0 <= i < |sources| ==> r[i] == sources[i].name
  {
    seq(|sources|, i requires 0 <= i < |sources| => sources[i].name)
  }

  /** `parse`: both attributes are cleared first, so the previous state
      plays no part in the result. */
  function Parse(st: ParserState, sources: seq<TenantSource>): (r: ParserState)
    ensures |r.tenants| == |sources|
    ensures forall i :: 0 <= i < |sources| ==> r.tenants[i] == sources[i].name
  {
    ParserState(Apply([], Occurrences(sources)), TenantNames(sources))
  }

  // Reference definitions over the flattened occurrences.

  /** Some occurrence names the project. */
  predicate Mentions(occs: seq<Occurrence>, name: string) {
    exists i :: 0 <= i < |occs| && occs[i].project.name == name
  }

  /** The tenant of every occurrence of the project. */
  function RolesOf(occs: seq<Occurrence>, name: string): seq<string>
    decreases |occs|
  {
    if |occs| == 0 then []
    else (if occs[0].project.name == name then [occs[0].tenant] else []) + RolesOf(occs[1..], name)
  }

  /** The tenant of every occurrence of the project that does not exclude jobs. */
  function JobsOf(occs: seq<Occurrence>, name: string): seq<string>
    decreases |occs|
  {
    if |occs| == 0 then []
    else (if occs[0].project.name == name && "jobs" !in ExtractProject(occs[0].project).1 then [occs[0].tenant] else [])
         + JobsOf(occs[1..], name)
  }

  /** The connection of the first occurrence of the project. */
  function FirstConnection(occs: seq<Occurrence>, name: string): (r: Option<string>)
    ensures r.Some? <==> Mentions(occs, name)
    decreases |occs|
  {
    if |occs| == 0 then None
    else if occs[0].project.name == name then Some(occs[0].connection)
    else
      var rest := FirstConnection(occs[1..], name);
      assert Mentions(occs[1..], name) <==> Mentions(occs, name) by {
        if Mentions(occs[1..], name) {
          var i :| 0 <= i < |occs[1..]| && occs[1..][i].project.name == name;
          assert occs[i + 1].project.name == name;
        }
        if Mentions(occs, name) {
          var i :| 0 <= i < |occs| && occs[i].project.name == name;
          assert occs[1..][i - 1].project.name == name;
        }
      }
      rest
  }

  /** `FirstConnection` is the connection of the earliest occurrence. */
  lemma {:induction false} FirstConnectionIsFirst(occs: seq<Occurrence>, name: string, i: int)
    requires 0 <= i < |occs| && occs[i].project.name == name
    requires forall j :: 0 <= j < i ==> occs[j].project.name != name
    ensures FirstConnection(occs, name) == Some(occs[i].connection)
    decreases i
  {
    if i > 0 {
      var rest := occs[1..];
      assert rest[i - 1] == occs[i];
      assert forall j :: 0 <= j < i - 1 ==> rest[j] == occs[j + 1];
      FirstConnectionIsFirst(rest, name, i - 1);
    }
  }

  /** The entry a repository ends up with after the occurrences, starting
      from entry `e`. */
  function Expected(e: Option<RepoEntry>, occs: seq<Occurrence>, name: string): Option<RepoEntry> {
    match e
    case Some(x) => Some(RepoEntry(x.jobs + JobsOf(occs, name), x.roles + RolesOf(occs, name), x.connectionName))
    case None =>
      match FirstConnection(occs, name)
      case None => None
      case Some(c) => Some(RepoEntry(JobsOf(occs, name), RolesOf(occs, name), c))
  }

  /** One occurrence of another project leaves the expected entry alone. */
  lemma ExpectedSkip(e: Option<RepoEntry>, occs: seq<Occurrence>, name: string)
    requires |occs| > 0 && occs[0].project.name != name
    ensures Expected(e, occs, name) == Expected(e, occs[1..], name)
  {
    var rest := occs[1..];
    assert JobsOf(occs, name) == JobsOf(rest, name) by {
      assert JobsOf(occs, name) == [] + JobsOf(rest, name);
    }
    assert RolesOf(occs, name) == RolesOf(rest, name) by {
      assert RolesOf(occs, name) == [] + RolesOf(rest, name);
    }
    assert FirstConnection(occs, name) == FirstConnection(rest, name);
  }

  /** One occurrence of the project adds its tenant to the reference lists. */
  lemma TakeLists(occs: seq<Occurrence>, name: string)
    requires |occs| > 0 && occs[0].project.name == name
    ensures JobsOf(occs, name) == (if "jobs" in ExtractProject(occs[0].project).1 then [] else [occs[0].tenant]) + JobsOf(occs[1..], name)
    ensures RolesOf(occs, name) == [occs[0].tenant] + RolesOf(occs[1..], name)
  {
  }

  /** One occurrence of the project is one `Step` of an existing entry. */
  lemma ExpectedTakeSome(y: RepoEntry, occs: seq<Occurrence>, name: string)
    requires |occs| > 0 && occs[0].project.name == name
    ensures Expected(Some(y), occs, name)
         == Expected(Some(Step(Some(y), occs[0].tenant, ExtractProject(occs[0].project).1, occs[0].connection)), occs[1..], name)
  {
    var o := occs[0];
    var t := [o.tenant];
    var jt := if "jobs" in ExtractProject(o.project).1 then [] else t;
    var js := JobsOf(occs[1..], name);
    var rs := RolesOf(occs[1..], name);
    TakeLists(occs, name);
    assert y.jobs + [] == y.jobs;
    assert Step(Some(y), o.tenant, ExtractProject(o.project).1, o.connection) == RepoEntry(y.jobs + jt, y.roles + t, y.connectionName);
    assert (y.jobs + jt) + js == y.jobs + (jt + js);
    assert (y.roles + t) + rs == y.roles + (t + rs);
  }

  /** The first occurrence of the project creates its entry. */
  lemma ExpectedTakeNone(occs: seq<Occurrence>, name: string)
    requires |occs| > 0 && occs[0].project.name == name
    ensures Expected(None, occs, name)
         == Expected(Some(Step(None, occs[0].tenant, ExtractProject(occs[0].project).1, occs[0].connection)), occs[1..], name)
  {
    var o := occs[0];
    var t := [o.tenant];
    var jt := if "jobs" in ExtractProject(o.project).1 then [] else t;
    TakeLists(occs, name);
    assert Step(None, o.tenant, ExtractProject(o.project).1, o.connection) == RepoEntry(jt, t, o.connection);
    assert FirstConnection(occs, name) == Some(o.connection);
  }

  /** `UpdateRepoMap` is one `Step` of the named entry and nothing else. */
  lemma UpdateIsStep(m: RepoMap, o: Occurrence, name: string)
    ensures Get(UpdateRepoMap(m, o.project, o.connection, o.tenant), name)
         == if o.project.name == name then Some(Step(Get(m, name), o.tenant, ExtractProject(o.project).1, o.connection)) else Get(m, name)
  {
  }

  /** The fold agrees with the reference definitions, entry by entry. */
  lemma {:induction false} ApplyMatchesExpected(m: RepoMap, occs: seq<Occurrence>, name: string)
    ensures Get(Apply(m, occs), name) == Expected(Get(m, name), occs, name)
    decreases |occs|
  {
    if |occs| > 0 {
      var o := occs[0];
      var m' := UpdateRepoMap(m, o.project, o.connection, o.tenant);
      ApplyMatchesExpected(m', occs[1..], name);
      UpdateIsStep(m, o, name);
      if o.project.name == name {
        if Get(m, name).Some? {
          ExpectedTakeSome(Get(m, name).value, occs, name);
        } else {
          ExpectedTakeNone(occs, name);
        }
      } else {
        ExpectedSkip(Get(m, name), occs, name);
      }
    } else if Get(m, name).Some? {
      var y := Get(m, name).value;
      assert y.jobs + [] == y.jobs && y.roles + [] == y.roles;
    }
  }

  /** What `parse` promises about each repository: it is in the map iff some
      tenant lists it; its role tenants are the tenants of all its
      occurrences, repeats included; its job tenants leave out occurrences
      that exclude `jobs`; and its connection is the one it was first seen
      under. */
  lemma ParseCharacterization(st: ParserState, sources: seq<TenantSource>, name: string)
    ensures var occs := Occurrences(sources);
            var e := Get(Parse(st, sources).repoMap, name);
            (e.Some? <==> Mentions(occs, name))
            && (e.Some? ==> e.value == RepoEntry(JobsOf(occs, name), RolesOf(occs, name), FirstConnection(occs, name).value))
  {
    ApplyMatchesExpected([], Occurrences(sources), name);
  }

  /** Job tenants are always drawn from the role tenants (exclusion only
      removes), and a project that never excludes `jobs` has them equal. */
  lemma {:induction false} JobsSubsetOfRoles(occs: seq<Occurrence>, name: string)
    ensures |JobsOf(occs, name)| <= |RolesOf(occs, name)|
    ensures (forall i :: 0 <= i < |occs| ==> "jobs" !in ExtractProject(occs[i].project).1)
            ==> JobsOf(occs, name) == RolesOf(occs, name)
    decreases |occs|
  {
    if |occs| > 0 {
      JobsSubsetOfRoles(occs[1..], name);
      assert forall i :: 1 <= i < |occs| ==> occs[1..][i - 1] == occs[i];
    }
  }

  /** A tenant listing one project under one connection and type yields one
      occurrence. */
  lemma SingleOccurrence(t: string, c: string, ty: string, p: Project)
    ensures Occurrences([TenantSource(t, [(c, [(ty, [p])])])]) == [Occurrence(p, c, t)]
  {
    var o := Occurrence(p, c, t);
    assert ProjectOccurrences([p], c, t) == [o];
    assert TypeOccurrences([(ty, [p])], c, t) == [o];
    assert ConnectionOccurrences([(c, [(ty, [p])])], t) == [o];
  }

  /** A two-tenant example: the same repository listed by two tenants,
      by the second with `exclude: [jobs]`. The second tenant gets its roles
      but not its jobs, and the first connection sticks. */
  lemma ExclusionExample(st: ParserState, repo: string, t1: string, t2: string, c1: string, c2: string, ty1: string, ty2: string)
    ensures var a := TenantSource(t1, [(c1, [(ty1, [Bare(repo)])])]);
            var b := TenantSource(t2, [(c2, [(ty2, [Mapping(repo, ["jobs"])])])]);
            Get(Parse(st, [a, b]).repoMap, repo) == Some(RepoEntry([t1], [t1, t2], c1))
            && Parse(st, [a, b]).tenants == [t1, t2]
  {
    var a := TenantSource(t1, [(c1, [(ty1, [Bare(repo)])])]);
    var b := TenantSource(t2, [(c2, [(ty2, [Mapping(repo, ["jobs"])])])]);
    var oa := Occurrence(Bare(repo), c1, t1);
    var ob := Occurrence(Mapping(repo, ["jobs"]), c2, t2);
    SingleOccurrence(t1, c1, ty1, Bare(repo));
    SingleOccurrence(t2, c2, ty2, Mapping(repo, ["jobs"]));
    assert [a, b][1..] == [b];
    assert Occurrences([a, b]) == Occurrences([a]) + Occurrences([b]);
    var occs := [oa, ob];
    assert Occurrences([a, b]) == occs;
    assert occs[1..] == [ob];
    assert JobsOf([ob], repo) == [] by {
      assert "jobs" in ExtractProject(ob.project).1;
    }
    assert JobsOf(occs, repo) == [t1];
    assert RolesOf([ob], repo) == [t2];
    assert RolesOf(occs, repo) == [t1] + [t2];
    FirstConnectionIsFirst(occs, repo, 0);
    ApplyMatchesExpected([], occs, repo);
    assert FirstConnection(occs, repo) == Some(c1);
    var e := RepoEntry(JobsOf(occs, repo), RolesOf(occs, repo), c1);
    assert Expected(None, occs, repo) == Some(e);
    assert e.roles == [t1, t2];
    assert e == RepoEntry([t1], [t1, t2], c1);
    var names := TenantNames([a, b]);
    assert names[0] == t1 && names[1] == t2;
    assert names == [t1, t2];
  }

  // Loading the tenant sources from a configuration repository.

  function SourcesPath(tenant: string): string {
    "tenants/" + tenant + "/sources.yaml"
  }

  function SettingsPath(tenant: string): string {
    "tenants/" + tenant + "/settings.yaml"
  }

  /** Both files of a tenant check out. */
  predicate Loadable(repo: Repo, tenant: string) {
    CheckOutFile(repo, SourcesPath(tenant)).Success? && CheckOutFile(repo, SettingsPath(tenant)).Success?
  }

  /** The tenant built from its two files; YAML loading is the pair of
      given functions (the tenant name from `settings.yaml`, the source
      mapping from `sources.yaml`). */
  function LoadOne(repo: Repo, tenant: string, settingsName: string -> string, sourcesOf: string -> Source): TenantSource
    requires Loadable(repo, tenant)
  {
    TenantSource(settingsName(repo.files[SettingsPath(tenant)]), sourcesOf(repo.files[SourcesPath(tenant)]))
  }

  /** What one listed tenant contributes: its entry, or nothing when one of
      its files does not check out. */
  function LoadedTenant(repo: Repo, tenant: string, settingsName: string -> string, sourcesOf: string -> Source): (r: seq<TenantSource>)
    ensures |r| <= 1
    ensures |r| == 1 <==> Loadable(repo, tenant)
  {
    if Loadable(repo, tenant) then [LoadOne(repo, tenant, settingsName, sourcesOf)] else []
  }

  /** The loop over the listed tenants; a tenant whose files do not both
      check out is skipped. */
  function LoadTenants(repo: Repo, tenants: seq<string>, settingsName: string -> string, sourcesOf: string -> Source): (r: seq<TenantSource>)
    ensures |r| <= |tenants|
    decreases |tenants|
  {
    if |tenants| == 0 then []
    else LoadedTenant(repo, tenants[0], settingsName, sourcesOf) + LoadTenants(repo, tenants[1..], settingsName, sourcesOf)
  }

  /** Loading is per tenant: the result for a list of tenants is the results
      for its parts, one after the other. */
  lemma {:induction false} LoadTenantsAppend(repo: Repo, xs: seq<string>, ys: seq<string>, settingsName: string -> string, sourcesOf: string -> Source)
    ensures LoadTenants(repo, xs + ys, settingsName, sourcesOf)
         == LoadTenants(repo, xs, settingsName, sourcesOf) + LoadTenants(repo, ys, settingsName, sourcesOf)
    decreases |xs|
  {
    if |xs| == 0 {
      assert xs + ys == ys;
    } else {
      var head := LoadedTenant(repo, xs[0], settingsName, sourcesOf);
      var a := LoadTenants(repo, xs[1..], settingsName, sourcesOf);
      var b := LoadTenants(repo, ys, settingsName, sourcesOf);
      assert (xs + ys)[0] == xs[0];
      assert (xs + ys)[1..] == xs[1..] + ys;
      LoadTenantsAppend(repo, xs[1..], ys, settingsName, sourcesOf);
      assert head + (a + b) == (head + a) + b;
    }
  }

  /** A tenant with a missing file drops out and the others load as
      before; a tenant with both files contributes exactly its own entry. */
  lemma LoadTenantIsolation(repo: Repo, xs: seq<string>, t: string, ys: seq<string>, settingsName: string -> string, sourcesOf: string -> Source)
    ensures !Loadable(repo, t) ==>
      LoadTenants(repo, xs + [t] + ys, settingsName, sourcesOf) == LoadTenants(repo, xs + ys, settingsName, sourcesOf)
    ensures Loadable(repo, t) ==>
      LoadTenants(repo, xs + [t] + ys, settingsName, sourcesOf)
      == LoadTenants(repo, xs, settingsName, sourcesOf) + [LoadOne(repo, t, settingsName, sourcesOf)] + LoadTenants(repo, ys, settingsName, sourcesOf)
  {
    LoadTenantsAppend(repo, xs + [t], ys, settingsName, sourcesOf);
    LoadTenantsAppend(repo, xs, [t], settingsName, sourcesOf);
    LoadTenantsAppend(repo, xs, ys, settingsName, sourcesOf);
    assert [t][1..] == [];
    var one := LoadTenants(repo, [t], settingsName, sourcesOf);
    assert one == LoadedTenant(repo, t, settingsName, sourcesOf) + [];
    if !Loadable(repo, t) {
      assert LoadTenants(repo, xs, settingsName, sourcesOf) + one == LoadTenants(repo, xs, settingsName, sourcesOf);
    }
  }

  /** `_load_tenant_sources_from_repo`: without a `tenants` directory the
      configuration is wrong; otherwise every listed tenant is tried. */
  function LoadTenantSourcesFromRepo(repo: Repo, settingsName: string -> string, sourcesOf: string -> Source): (r: Result<seq<TenantSource>, Error>)
    ensures r.Failure? <==> TenantsDirectory !in repo.listings
    ensures r.Failure? ==> r.error == ScraperConfigurationError(
      "Cannot load tenant sources. Repo '" + repo.name + "' does not contain a 'tenants' folder")
    ensures r.Success? ==> r.value == LoadTenants(repo, Keys(repo.listings[TenantsDirectory]), settingsName, sourcesOf)
  {
    match ListDirectory(repo, TenantsDirectory)
    case Failure(_) =>
      Failure(ScraperConfigurationError(
        "Cannot load tenant sources. Repo '" + repo.name + "' does not contain a 'tenants' folder"))
    case Success(listing) => Success(LoadTenants(repo, Keys(listing), settingsName, sourcesOf))
  }
}
