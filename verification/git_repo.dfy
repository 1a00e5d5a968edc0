/** A plain Git repository (`zubbi/scraper/repos/git.py`): the `ls-tree`
    command a listing runs and how its output becomes a listing, and the
    revision a checkout shows. Running git is a parameter: the command's
    output and the `show` answer are given. */
module GitRepo {
  import opened Wrappers
  import opened Text
  import opened OrderedMap
  import opened Exceptions
  import opened Repository
  import opened Utils

  /** The only branch a plain Git repository is read from. */
  const DefaultBranch := "master"

  /** The `git ls-tree` command for a directory. The root `/` is listed by
      giving no path; any other path is given with a trailing `/`. */
  function ListCommand(directoryPath: string): (cmd: seq<string>)
    ensures |cmd| >= 4 && cmd[..4] == ["git", "ls-tree", "--name-only", DefaultBranch]
    ensures directoryPath == "/" <==> |cmd| == 4
    ensures directoryPath != "/" ==> |cmd| == 5 && EndsWith(cmd[4], "/")
    ensures directoryPath != "/" && EndsWith(directoryPath, "/") ==> cmd[4] == directoryPath
    ensures directoryPath != "/" && !EndsWith(directoryPath, "/") ==> cmd[4] == directoryPath + "/"
  {
    var base := ["git", "ls-tree", "--name-only", DefaultBranch];
    if directoryPath == "/" then base
    else
      var p := if EndsWith(directoryPath, "/") then directoryPath else directoryPath + "/";
      assert p[|p| - 1..] == "/";
      base + [p]
  }

  /** Adding the trailing `/` is idempotent: a path with and without it
      runs the same command. */
  lemma ListCommandTrailingSlash(directoryPath: string)
    requires directoryPath != "" && directoryPath != "/" && !EndsWith(directoryPath, "/")
    ensures ListCommand(directoryPath + "/") == ListCommand(directoryPath)
  {
    var p := directoryPath + "/";
    assert p[|p| - 1..] == "/";
  }

  /** `Path(f).name`: the last component of a listed path. */
  function Basename(f: string): (r: string)
    ensures !Contains(r, '/')
    ensures var g := RStripChar(f, '/');
            && |r| <= |g| && g[|g| - |r|..] == r
            && (|r| == |g| || g[|g| - |r| - 1] == '/')
  {
    var g := RStripChar(f, '/');
    var parts := Split(g, '/');
    JoinSplit(g, '/');
    JoinEndsWithLast(parts, '/');
    parts[|parts| - 1]
  }

  /** A path without `/` is its own name. */
  lemma BasenameOfPlainName(f: string)
    requires f != "" && !Contains(f, '/')
    ensures Basename(f) == f
  {
    JoinSplit(f, '/');
    SplitWithoutSeparator(f, '/');
    RStripCharNoop(f, '/');
  }

  /** The name of `dir/name` is `name`, whatever the directory. */
  lemma BasenameOfPath(dir: string, name: string)
    requires name != "" && !Contains(name, '/')
    ensures Basename(dir + "/" + name) == name
  {
    var f := dir + "/" + name;
    RStripCharNoop(f, '/');
    var r := Basename(f);
    assert f[|f| - |name|..] == name;
    assert f[|f| - |name| - 1] == '/';
    if |r| != |name| {
      assert false;
    }
    assert r == f[|f| - |name|..];
  }

  /** The listing built from the listed paths, one entry per path keyed by
      its name, in listing order. */
  function ListingOf(files: seq<string>): (l: Listing)
    decreases |files|
  {
    if |files| == 0 then []
    else
      var f := files[|files| - 1];
      Put(ListingOf(files[..|files| - 1]), Basename(f), Entry(f))
  }

  /** A name no listed path has is not in the listing. */
  lemma {:induction false} ListingUnlisted(files: seq<string>, name: string)
    requires forall i :: 0 <= i < |files| ==> Basename(files[i]) != name
    ensures Get(ListingOf(files), name).None?
    decreases |files|
  {
    if |files| > 0 {
      var init := files[..|files| - 1];
      assert forall i :: 0 <= i < |init| ==> init[i] == files[i];
      ListingUnlisted(init, name);
    }
  }

  /** A listed name leads to the last listed path with that name. */
  lemma {:induction false} ListingLastWins(files: seq<string>, i: int)
    requires 0 <= i < |files|
    requires forall j :: i < j < |files| ==> Basename(files[j]) != Basename(files[i])
    ensures Get(ListingOf(files), Basename(files[i])) == Some(Entry(files[i]))
    decreases |files|
  {
    if i < |files| - 1 {
      var init := files[..|files| - 1];
      assert init[i] == files[i];
      assert forall j :: i < j < |init| ==> init[j] == files[j];
      ListingLastWins(init, i);
    }
  }

  /** `list_directory`: the command's output split on whitespace, each path
      keyed by its name. */
  function ListDirectory(output: string): (l: Listing)
  {
    ListingOf(SplitWhitespace(output))
  }

  /** The revision `check_out_file` shows. */
  function RevisionSpec(filePath: string): (r: string)
    ensures PartitionChar(r, ':') == (DefaultBranch, true, filePath)
  {
    assert !Contains(DefaultBranch, ':');
    PartitionCharRecovers(DefaultBranch, ':', filePath);
    DefaultBranch + ":" + filePath
  }

  /** `check_out_file`: what `git show` answers for the revision. */
  function CheckOutFile(show: string -> Result<string, Error>, filePath: string): (r: Result<string, Error>)
    ensures r == show(RevisionSpec(filePath))
  {
    show(RevisionSpec(filePath))
  }

  /** Different paths ask for different revisions. */
  lemma RevisionSpecInjective(a: string, b: string)
    requires RevisionSpec(a) == RevisionSpec(b)
    ensures a == b
  {
  }

  /** `last_changed` and `blame` know nothing for a plain Git repository. */
  function LastChanged(path: string): Option<string> {
    None
  }

  function BlameOf(path: string): seq<Blame> {
    []
  }
}
