/** A repository behind Gerrit (`zubbi/scraper/repos/gerrit.py`): checkouts
    and listings are those of a plain Git repository; only the links shown
    to users differ, and they point at gitweb. */
module GerritRepo {
  import opened Wrappers
  import opened Text

  /** The gitweb link to a path of the repository, for the given action. */
  function GitwebLink(gitwebUrl: string, repoName: string, action: string, path: string): string {
    gitwebUrl + "?p=" + repoName + ".git;a=" + action + ";f=" + path
  }

  /** `url_for_file`: a blob link, with `#l<start>` when a start line is
      given. The end line is never used. */
  function UrlForFile(gitwebUrl: string, repoName: string, path: string, highlightStart: Option<int>, highlightEnd: Option<int>): (r: string)
    ensures highlightStart.None? ==> r == GitwebLink(gitwebUrl, repoName, "blob", path)
    ensures highlightStart.Some? ==> r == GitwebLink(gitwebUrl, repoName, "blob", path) + "#l" + IntToString(highlightStart.value)
  {
    var link := GitwebLink(gitwebUrl, repoName, "blob", path);
    if highlightStart.Some? then link + "#l" + IntToString(highlightStart.value) else link
  }

  /** Gitweb cannot highlight a range, so the end line makes no difference. */
  lemma EndLineIgnored(gitwebUrl: string, repoName: string, path: string, highlightStart: Option<int>, e1: Option<int>, e2: Option<int>)
    ensures UrlForFile(gitwebUrl, repoName, path, highlightStart, e1) == UrlForFile(gitwebUrl, repoName, path, highlightStart, e2)
  {
  }

  /** `url_for_directory`: a tree link. */
  function UrlForDirectory(gitwebUrl: string, repoName: string, path: string): (r: string)
    ensures r == GitwebLink(gitwebUrl, repoName, "tree", path)
  {
    GitwebLink(gitwebUrl, repoName, "tree", path)
  }

  /** A file link without a highlight and the directory link of the same
      path differ only in the action: they agree up to `a=` and after it. */
  lemma FileAndDirectoryLinksDifferInAction(gitwebUrl: string, repoName: string, path: string)
    ensures var f := UrlForFile(gitwebUrl, repoName, path, None, None);
            var d := UrlForDirectory(gitwebUrl, repoName, path);
            var n := |gitwebUrl + "?p=" + repoName + ".git;a="|;
            && |f| == |d|
            && f[..n] == d[..n]
            && f[n..n + 4] == "blob" && d[n..n + 4] == "tree"
            && f[n + 4..] == d[n + 4..]
  {
    var pre := gitwebUrl + "?p=" + repoName + ".git;a=";
    var post := ";f=" + path;
    assert UrlForFile(gitwebUrl, repoName, path, None, None) == pre + "blob" + post;
    assert UrlForDirectory(gitwebUrl, repoName, path) == pre + "tree" + post;
  }

  /** The example of the connection's tests: line 4 to 9 of `README` in
      `bar` links to line 4 only. */
  lemma UrlForFileExample(gitwebUrl: string, repoName: string, path: string, start: int, end: int)
    requires gitwebUrl == "https://gerrit.example.com/gitweb" && repoName == "bar" && path == "README"
    requires start == 4 && end == 9
    ensures UrlForFile(gitwebUrl, repoName, path, Some(start), Some(end))
         == "https://gerrit.example.com/gitweb?p=bar.git;a=blob;f=README#l4"
  {
    assert IntToString(start) == "4";
  }

  /** The directory example of the connection's tests. */
  lemma UrlForDirectoryExample(gitwebUrl: string, repoName: string, path: string)
    requires gitwebUrl == "https://gerrit.example.com/gitweb" && repoName == "bar" && path == "roles"
    ensures UrlForDirectory(gitwebUrl, repoName, path) == "https://gerrit.example.com/gitweb?p=bar.git;a=tree;f=roles"
  {
  }
}
