/** Collecting the files of one repository that the parser needs
    (`zubbi/scraper/scraper.py`): the Zuul job definition files with their
    history and blame, and per role directory the README and CHANGELOG. A
    file that cannot be checked out is skipped; any other failure ends the
    scrape of the repository. */
module Scraper {
  import opened Wrappers
  import opened OrderedMap
  import opened Exceptions
  import opened Utils
  import opened Repository

  const ZuulDirectories: seq<string> := ["zuul.d", ".zuul.d"]
  const ZuulFiles: seq<string> := ["zuul.yaml", ".zuul.yaml"]
  const ReadmeFiles: seq<string> := ["README.rst", "README.md", "README.txt", "README"]
  const ChangelogFiles: seq<string> := ["CHANGELOG.rst", "CHANGELOG.md", "CHANGELOG.txt", "CHANGELOG"]
  const RepoRoot := "/"
  const RolesDirectory := "roles"

  /** `{"last_changed": ..., "blame": ..., "content": ...}`. */
  datatype JobFile = JobFile(lastChanged: Option<string>, blame: seq<Blame>, content: string)

  type JobFiles = Dict<string, JobFile>

  /** The file's history lookup fails with something other than a
      `CheckoutError`, which nothing in the scraper catches. */
  predicate Fatal(repo: Repo, path: string) {
    LastChanged(repo, path).Failure? && !LastChanged(repo, path).error.CheckoutError?
  }

  /** The history lookup succeeds and the file checks out. */
  predicate Fetchable(repo: Repo, path: string) {
    LastChanged(repo, path).Success? && path in repo.files
  }

  /** The record collected for a fetchable file. */
  function FileAt(repo: Repo, path: string): JobFile
    requires Fetchable(repo, path)
  {
    JobFile(LastChanged(repo, path).value, BlameOf(repo, path), repo.files[path])
  }

  /** The three lookups in the order `check_out_job_files` makes them:
      history, blame, content. */
  function FetchJobFile(repo: Repo, path: string): (r: Result<JobFile, Error>)
    ensures r.Success? <==> Fetchable(repo, path)
    ensures r.Success? ==> r.value.content == repo.files[path] && r.value.blame == BlameOf(repo, path)
    ensures r.Failure? && !r.error.CheckoutError? <==> Fatal(repo, path)
    ensures Fatal(repo, path) ==> r.error == LastChanged(repo, path).error
  {
    match LastChanged(repo, path)
    case Failure(e) => Failure(e)
    case Success(lc) =>
      var blame := BlameOf(repo, path);
      match CheckOutFile(repo, path)
      case Failure(e) => Failure(e)
      case Success(content) => Success(JobFile(lc, blame, content))
  }

  /** The body of the per-file `try`: the file is stored under its path, a
      `CheckoutError` leaves the collection as it was. */
  function AddJobFile(acc: JobFiles, repo: Repo, path: string): (r: Result<JobFiles, Error>)
    ensures r.Failure? <==> Fatal(repo, path)
    ensures r.Success? && Fetchable(repo, path) ==> r.value == Put(acc, path, FileAt(repo, path))
    ensures r.Success? && !Fetchable(repo, path) ==> r.value == acc
  {
    match FetchJobFile(repo, path)
    case Success(f) => Success(Put(acc, path, f))
    case Failure(e) => if e.CheckoutError? then Success(acc) else Failure(e)
  }

  /** The files tried, one after the other. */
  function AddPaths(acc: JobFiles, repo: Repo, paths: seq<string>): Result<JobFiles, Error>
    decreases |paths|
  {
    if |paths| == 0 then Success(acc)
    else
      match AddJobFile(acc, repo, paths[0])
      case Failure(e) => Failure(e)
      case Success(m) => AddPaths(m, repo, paths[1..])
  }

  /** The paths of a directory listing, in listing order. */
  function EntryPaths(l: Listing): (r: seq<string>)
    ensures |r| == |l|
    ensures forall i :: 0 <= i < |l| ==> r[i] == l[i].1.path
  {
    seq(|l|, i requires 0 <= i < |l| => l[i].1.path)
  }

  /** The loop over the Zuul directories: a directory missing from the root
      listing is skipped, and so is one whose listing fails. */
  function AddDirectories(acc: JobFiles, repo: Repo, root: Listing, dirs: seq<string>): Result<JobFiles, Error>
    decreases |dirs|
  {
    if |dirs| == 0 then Success(acc)
    else if dirs[0] !in KeySet(root) then AddDirectories(acc, repo, root, dirs[1..])
    else
      match ListDirectory(repo, dirs[0])
      case Failure(_) => AddDirectories(acc, repo, root, dirs[1..])
      case Success(l) =>
        match AddPaths(acc, repo, EntryPaths(l))
        case Failure(e) => Failure(e)
        case Success(m) => AddDirectories(m, repo, root, dirs[1..])
  }

  /** The loop over the Zuul files at the repository root. */
  function AddRootFiles(acc: JobFiles, repo: Repo, root: Listing, files: seq<string>): Result<JobFiles, Error>
    decreases |files|
  {
    if |files| == 0 then Success(acc)
    else if files[0] !in KeySet(root) then AddRootFiles(acc, repo, root, files[1..])
    else
      match AddJobFile(acc, repo, files[0])
      case Failure(e) => Failure(e)
      case Success(m) => AddRootFiles(m, repo, root, files[1..])
  }

  /** `check_out_job_files`: a root listing that fails is not caught. */
  function CheckOutJobFiles(repo: Repo): (r: Result<JobFiles, Error>)
    ensures RepoRoot !in repo.listings ==> r.Failure? && r.error.CheckoutError?
  {
    match ListDirectory(repo, RepoRoot)
    case Failure(e) => Failure(e)
    case Success(root) =>
      match AddDirectories([], repo, root, ZuulDirectories)
      case Failure(e) => Failure(e)
      case Success(m) => AddRootFiles(m, repo, root, ZuulFiles)
  }

  // The reference: every file the scraper tries, as one flat list.

  function DirectoryPaths(repo: Repo, root: Listing, dirs: seq<string>): seq<string>
    decreases |dirs|
  {
    if |dirs| == 0 then []
    else (if dirs[0] in KeySet(root) && dirs[0] in repo.listings then EntryPaths(repo.listings[dirs[0]]) else [])
         + DirectoryPaths(repo, root, dirs[1..])
  }

  function PresentFiles(root: Listing, files: seq<string>): (r: seq<string>)
    ensures forall p :: p in r <==> p in files && p in KeySet(root)
    decreases |files|
  {
    if |files| == 0 then []
    else (if files[0] in KeySet(root) then [files[0]] else []) + PresentFiles(root, files[1..])
  }

  /** Every path `check_out_job_files` tries, in order. */
  function Candidates(repo: Repo, root: Listing): seq<string> {
    DirectoryPaths(repo, root, ZuulDirectories) + PresentFiles(root, ZuulFiles)
  }

  /** Trying two lists of files is trying the first and then, if nothing
      fatal happened, the second. */
  lemma {:induction false} AddPathsAppend(acc: JobFiles, repo: Repo, ps: seq<string>, qs: seq<string>)
    ensures AddPaths(acc, repo, ps + qs)
         == match AddPaths(acc, repo, ps)
            case Failure(e) => Failure(e)
            case Success(m) => AddPaths(m, repo, qs)
    decreases |ps|
  {
    if |ps| == 0 {
      assert ps + qs == qs;
    } else {
      assert (ps + qs)[0] == ps[0];
      assert (ps + qs)[1..] == ps[1..] + qs;
      match AddJobFile(acc, repo, ps[0])
      case Failure(e) =>
      case Success(m) => AddPathsAppend(m, repo, ps[1..], qs);
    }
  }

  lemma {:induction false} AddDirectoriesIsAddPaths(acc: JobFiles, repo: Repo, root: Listing, dirs: seq<string>)
    ensures AddDirectories(acc, repo, root, dirs) == AddPaths(acc, repo, DirectoryPaths(repo, root, dirs))
    decreases |dirs|
  {
    if |dirs| > 0 {
      var here := if dirs[0] in KeySet(root) && dirs[0] in repo.listings then EntryPaths(repo.listings[dirs[0]]) else [];
      AddPathsAppend(acc, repo, here, DirectoryPaths(repo, root, dirs[1..]));
      if here == [] {
        assert AddPaths(acc, repo, here) == Success(acc);
        AddDirectoriesIsAddPaths(acc, repo, root, dirs[1..]);
      } else {
        match AddPaths(acc, repo, here)
        case Failure(e) =>
        case Success(m) => AddDirectoriesIsAddPaths(m, repo, root, dirs[1..]);
      }
      if dirs[0] in KeySet(root) && dirs[0] !in repo.listings {
        AddDirectoriesIsAddPaths(acc, repo, root, dirs[1..]);
      }
    }
  }

  lemma {:induction false} AddRootFilesIsAddPaths(acc: JobFiles, repo: Repo, root: Listing, files: seq<string>)
    ensures AddRootFiles(acc, repo, root, files) == AddPaths(acc, repo, PresentFiles(root, files))
    decreases |files|
  {
    if |files| > 0 {
      var here := if files[0] in KeySet(root) then [files[0]] else [];
      AddPathsAppend(acc, repo, here, PresentFiles(root, files[1..]));
      if here == [] {
        AddRootFilesIsAddPaths(acc, repo, root, files[1..]);
      } else {
        assert here[1..] == [];
        match AddJobFile(acc, repo, files[0])
        case Failure(e) =>
        case Success(m) => AddRootFilesIsAddPaths(m, repo, root, files[1..]);
      }
    }
  }

  /** The nested loops of `check_out_job_files` try exactly the candidates. */
  lemma CheckOutJobFilesIsAddPaths(repo: Repo)
    requires RepoRoot in repo.listings
    ensures CheckOutJobFiles(repo) == AddPaths([], repo, Candidates(repo, repo.listings[RepoRoot]))
  {
    var root := repo.listings[RepoRoot];
    AddDirectoriesIsAddPaths([], repo, root, ZuulDirectories);
    AddPathsAppend([], repo, DirectoryPaths(repo, root, ZuulDirectories), PresentFiles(root, ZuulFiles));
    match AddDirectories([], repo, root, ZuulDirectories)
    case Failure(e) =>
    case Success(m) => AddRootFilesIsAddPaths(m, repo, root, ZuulFiles);
  }

  /** The scrape of the files fails iff one of them fails fatally. */
  lemma {:induction false} AddPathsSucceeds(acc: JobFiles, repo: Repo, ps: seq<string>)
    ensures AddPaths(acc, repo, ps).Success? <==> forall i :: 0 <= i < |ps| ==> !Fatal(repo, ps[i])
    decreases |ps|
  {
    if |ps| > 0 {
      assert forall i :: 1 <= i < |ps| ==> ps[1..][i - 1] == ps[i];
      match AddJobFile(acc, repo, ps[0])
      case Failure(e) =>
      case Success(m) => AddPathsSucceeds(m, repo, ps[1..]);
    }
  }

  /** The collected files: exactly the fetchable paths among those tried,
      each with its own history, blame and content. */
  lemma {:induction false} AddPathsContent(acc: JobFiles, repo: Repo, ps: seq<string>, k: string)
    requires AddPaths(acc, repo, ps).Success?
    ensures Get(AddPaths(acc, repo, ps).value, k)
         == if k in ps && Fetchable(repo, k) then Some(FileAt(repo, k)) else Get(acc, k)
    decreases |ps|
  {
    if |ps| > 0 {
      var m := AddJobFile(acc, repo, ps[0]).value;
      AddPathsContent(m, repo, ps[1..], k);
      assert k in ps <==> k == ps[0] || k in ps[1..] by {
        assert ps == [ps[0]] + ps[1..];
      }
    }
  }

  /** What `check_out_job_files` returns: it fails iff the root cannot be
      listed or some tried file fails fatally; otherwise a path is collected
      iff it was tried and both its history and its content are
      available. */
  lemma CheckOutJobFilesSpec(repo: Repo, k: string)
    ensures var r := CheckOutJobFiles(repo);
            RepoRoot in repo.listings ==>
              var cs := Candidates(repo, repo.listings[RepoRoot]);
              (r.Success? <==> forall i :: 0 <= i < |cs| ==> !Fatal(repo, cs[i]))
              && (r.Success? ==> Get(r.value, k) == if k in cs && Fetchable(repo, k) then Some(FileAt(repo, k)) else None)
  {
    if RepoRoot in repo.listings {
      var cs := Candidates(repo, repo.listings[RepoRoot]);
      CheckOutJobFilesIsAddPaths(repo);
      AddPathsSucceeds([], repo, cs);
      if AddPaths([], repo, cs).Success? {
        AddPathsContent([], repo, cs, k);
      }
    }
  }

  // Role files.

  /** `{"path": ..., "content": ...}`. */
  datatype MatchedFile = MatchedFile(path: string, content: string)

  /** `{"last_changed": ..., "readme_file": ..., "changelog_file": ...}`. */
  datatype RoleFile = RoleFile(lastChanged: Option<string>, readme: Option<MatchedFile>, changelog: Option<MatchedFile>)

  type RoleFiles = Dict<string, RoleFile>

  /** A listed entry whose name is in the filter and whose file checks out. */
  predicate Matches(repo: Repo, filter: seq<string>, e: (string, Entry)) {
    e.0 in filter && e.1.path in repo.files
  }

  /** `find_matching_file`: the first entry, in listing order, whose name is
      in the filter and whose file checks out. The filter's own order plays
      no part. */
  function FindMatchingFile(repo: Repo, filter: seq<string>, files: Listing): (r: Option<MatchedFile>)
    ensures r.None? <==> forall i :: 0 <= i < |files| ==> !Matches(repo, filter, files[i])
    ensures r.Some? ==> exists i :: 0 <= i < |files| && Matches(repo, filter, files[i])
                                    && r.value == MatchedFile(files[i].1.path, repo.files[files[i].1.path])
                                    && forall j :: 0 <= j < i ==> !Matches(repo, filter, files[j])
    decreases |files|
  {
    if |files| == 0 then None
    else if Matches(repo, filter, files[0]) then Some(MatchedFile(files[0].1.path, repo.files[files[0].1.path]))
    else
      var r := FindMatchingFile(repo, filter, files[1..]);
      assert forall i :: 1 <= i < |files| ==> files[1..][i - 1] == files[i];
      if r.Some? then
        var i :| 0 <= i < |files[1..]| && Matches(repo, filter, files[1..][i])
                 && r.value == MatchedFile(files[1..][i].1.path, repo.files[files[1..][i].1.path])
                 && forall j :: 0 <= j < i ==> !Matches(repo, filter, files[1..][j]);
        assert Matches(repo, filter, files[i + 1]);
        r
      else r
  }

  /** A `README.txt` listed before a `README.md` is chosen although the
      filter lists `README.md` first. */
  lemma ReadmeFollowsListingOrder(repo: Repo, files: Listing, txt: Entry, md: Entry)
    requires files == [("README.txt", txt), ("README.md", md)]
    requires txt.path in repo.files && md.path in repo.files
    ensures FindMatchingFile(repo, ReadmeFiles, files) == Some(MatchedFile(txt.path, repo.files[txt.path]))
  {
    assert "README.txt" in ReadmeFiles;
    assert Matches(repo, ReadmeFiles, files[0]);
  }

  /** The history lookup of a role directory fails with something other
      than a `CheckoutError`. */
  predicate RoleFatal(repo: Repo, path: string) {
    LastChanged(repo, path).Failure? && !LastChanged(repo, path).error.CheckoutError?
  }

  /** The body of the per-role `try`: nothing for a role that cannot be
      looked up or listed or whose directory is empty. */
  function RoleStep(repo: Repo, path: string): (r: Result<Option<RoleFile>, Error>)
    ensures r.Failure? <==> RoleFatal(repo, path)
    ensures r.Success? && r.value.Some? <==>
              LastChanged(repo, path).Success? && path in repo.listings && |repo.listings[path]| > 0
  {
    match LastChanged(repo, path)
    case Failure(e) => if e.CheckoutError? then Success(None) else Failure(e)
    case Success(lc) =>
      match ListDirectory(repo, path)
      case Failure(_) => Success(None)
      case Success(files) =>
        if |files| == 0 then Success(None)
        else Success(Some(RoleFile(lc, FindMatchingFile(repo, ReadmeFiles, files), FindMatchingFile(repo, ChangelogFiles, files))))
  }

  /** The loop over the role directories. */
  function AddRoles(acc: RoleFiles, repo: Repo, roles: Listing): Result<RoleFiles, Error>
    decreases |roles|
  {
    if |roles| == 0 then Success(acc)
    else
      match RoleStep(repo, roles[0].1.path)
      case Failure(e) => Failure(e)
      case Success(None) => AddRoles(acc, repo, roles[1..])
      case Success(Some(f)) => AddRoles(Put(acc, roles[0].0, f), repo, roles[1..])
  }

  /** `check_out_role_files`: a repository without a `roles` directory has
      no roles. */
  function CheckOutRoleFiles(repo: Repo): (r: Result<RoleFiles, Error>)
    ensures RolesDirectory !in repo.listings ==> r == Success([])
  {
    match ListDirectory(repo, RolesDirectory)
    case Failure(_) => Success([])
    case Success(roles) => AddRoles([], repo, roles)
  }

  lemma {:induction false} AddRolesSucceeds(acc: RoleFiles, repo: Repo, roles: Listing)
    ensures AddRoles(acc, repo, roles).Success? <==> forall i :: 0 <= i < |roles| ==> !RoleFatal(repo, roles[i].1.path)
    decreases |roles|
  {
    if |roles| > 0 {
      assert forall i :: 1 <= i < |roles| ==> roles[1..][i - 1] == roles[i];
      match RoleStep(repo, roles[0].1.path)
      case Failure(e) =>
      case Success(None) => AddRolesSucceeds(acc, repo, roles[1..]);
      case Success(Some(f)) => AddRolesSucceeds(Put(acc, roles[0].0, f), repo, roles[1..]);
    }
  }

  /** A role not listed is not touched. */
  lemma {:induction false} AddRolesOther(acc: RoleFiles, repo: Repo, roles: Listing, name: string)
    requires AddRoles(acc, repo, roles).Success? && name !in KeySet(roles)
    ensures Get(AddRoles(acc, repo, roles).value, name) == Get(acc, name)
    decreases |roles|
  {
    if |roles| > 0 {
      assert roles[0].0 != name;
      assert name !in KeySet(roles[1..]);
      match RoleStep(repo, roles[0].1.path)
      case Success(None) => AddRolesOther(acc, repo, roles[1..], name);
      case Success(Some(f)) => AddRolesOther(Put(acc, roles[0].0, f), repo, roles[1..], name);
    }
  }

  /** Each listed role gets the record its own directory yields, or none. */
  lemma {:induction false} AddRolesContent(acc: RoleFiles, repo: Repo, roles: Listing, name: string)
    requires AddRoles(acc, repo, roles).Success? && DistinctKeys(roles)
    ensures Get(AddRoles(acc, repo, roles).value, name)
         == match Get(roles, name)
            case None => Get(acc, name)
            case Some(e) =>
              match RoleStep(repo, e.path)
              case Success(Some(f)) => Some(f)
              case _ => Get(acc, name)
    decreases |roles|
  {
    if |roles| > 0 {
      var tail := roles[1..];
      assert DistinctKeys(tail) by {
        forall i, j | 0 <= i < j < |tail| ensures tail[i].0 != tail[j].0 {
          assert tail[i] == roles[i + 1] && tail[j] == roles[j + 1];
        }
      }
      var next := match RoleStep(repo, roles[0].1.path)
                  case Success(Some(f)) => Put(acc, roles[0].0, f)
                  case _ => acc;
      assert AddRoles(acc, repo, roles) == AddRoles(next, repo, tail);
      if roles[0].0 == name {
        assert name !in KeySet(tail) by {
          forall i | 0 <= i < |tail| ensures tail[i].0 != name {
            assert tail[i] == roles[i + 1];
          }
        }
        AddRolesOther(next, repo, tail, name);
      } else {
        AddRolesContent(next, repo, tail, name);
      }
    }
  }

  /** `scrape`: the job files, then the role files. */
  function Scrape(repo: Repo): (r: Result<(JobFiles, RoleFiles), Error>)
    ensures r.Success? <==> CheckOutJobFiles(repo).Success? && CheckOutRoleFiles(repo).Success?
    ensures r.Success? ==> r.value == (CheckOutJobFiles(repo).value, CheckOutRoleFiles(repo).value)
  {
    match CheckOutJobFiles(repo)
    case Failure(e) => Failure(e)
    case Success(jobs) =>
      match CheckOutRoleFiles(repo)
      case Failure(e) => Failure(e)
      case Success(roles) => Success((jobs, roles))
  }
}
