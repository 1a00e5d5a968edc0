/** A repository on GitHub (`zubbi/scraper/repos/github.py`): how the API's
    answers become file contents, listings, blame ranges and URLs, and how
    failures become checkout errors. The API answers are given values. */
module GitHubRepo {
  import opened Wrappers
  import opened Text
  import opened Exceptions
  import opened Utils
  import opened Repository

  /** A file as the contents API returns it; `decoded` is its text, or
      `None` when its bytes are not valid UTF-8. */
  datatype RemoteFile = RemoteFile(size: int, decoded: Option<string>, htmlUrl: string)

  /** The contents API's answer for a file path. */
  datatype FileAnswer = FileFound(file: RemoteFile) | FileNotFound | NotAFile

  /** The answer is a non-empty file whose bytes are not UTF-8. */
  predicate Undecodable(answer: FileAnswer) {
    answer.FileFound? && answer.file.size != 0 && answer.file.decoded.None?
  }

  /** `file_contents`: the decoded content, or a checkout error naming the
      path and the reason. `.decode("utf-8")` sits inside the `try`, but
      its `UnicodeDecodeError` is none of the two errors caught there. */
  function FileContents(path: string, answer: FileAnswer): (r: Result<string, Error>)
    ensures r.Success? <==> answer.FileFound? && answer.file.size != 0 && answer.file.decoded.Some?
    ensures r.Success? ==> r.value == answer.file.decoded.value
    ensures answer.FileNotFound? ==> r == Failure(NewCheckoutError(path, "File not found.", None))
    ensures answer.NotAFile? ==> r == Failure(NewCheckoutError(path, "Path is not a file.", None))
    ensures answer.FileFound? && answer.file.size == 0 ==> r == Failure(NewCheckoutError(path, "File is empty.", None))
    ensures Undecodable(answer) ==> r.Failure? && r.error.Unexpected?
  {
    match answer
    case FileNotFound => Failure(NewCheckoutError(path, "File not found.", None))
    case NotAFile => Failure(NewCheckoutError(path, "Path is not a file.", None))
    case FileFound(f) =>
      if f.size == 0 then Failure(NewCheckoutError(path, "File is empty.", None))
      else if f.decoded.None? then Failure(Unexpected("UnicodeDecodeError: 'utf-8' codec can't decode"))
      else Success(f.decoded.value)
  }

  /** A failure of `file_contents` is a checkout error, which the scraper's
      per-file isolation catches, exactly when the file was not merely
      undecodable; an undecodable file raises past every `RepositoryError`
      handler. */
  lemma FileContentsFailsAsCheckout(path: string, answer: FileAnswer)
    requires FileContents(path, answer).Failure?
    ensures FileContents(path, answer).error.CheckoutError? <==> !Undecodable(answer)
    ensures IsRepositoryError(FileContents(path, answer).error) <==> !Undecodable(answer)
  {
  }

  /** The contents API's answer for a directory path. */
  datatype DirectoryAnswer = DirectoryFound(listing: Listing) | DirectoryNotFound | NotADirectory

  /** `directory_contents`. */
  function DirectoryContents(path: string, answer: DirectoryAnswer): (r: Result<Listing, Error>)
    ensures r.Success? <==> answer.DirectoryFound?
    ensures r.Success? ==> r.value == answer.listing
    ensures answer.DirectoryNotFound? ==> r == Failure(NewCheckoutError(path, "Directory not found.", None))
    ensures answer.NotADirectory? ==> r == Failure(NewCheckoutError(path, "Path is not a directory", None))
  {
    match answer
    case DirectoryNotFound => Failure(NewCheckoutError(path, "Directory not found.", None))
    case NotADirectory => Failure(NewCheckoutError(path, "Path is not a directory", None))
    case DirectoryFound(listing) => Success(listing)
  }

  lemma PrefixOfConcat(a: string, b: string)
    ensures StartsWith(a + b, a)
  {
    assert (a + b)[..|a|] == a;
  }

  /** The line anchor `url_for_file` appends. */
  function Anchor(highlightStart: Option<int>, highlightEnd: Option<int>): string {
    if highlightStart.None? then ""
    else if highlightEnd.None? then "#L" + IntToString(highlightStart.value)
    else "#L" + IntToString(highlightStart.value) + "-L" + IntToString(highlightEnd.value)
  }

  /** `url_for_file`, given the file's `html_url`. */
  function UrlForFile(htmlUrl: string, highlightStart: Option<int>, highlightEnd: Option<int>): (r: string)
    ensures StartsWith(r, htmlUrl)
    ensures highlightStart.None? ==> r == htmlUrl
    ensures highlightStart.Some? && highlightEnd.None? ==> r == htmlUrl + "#L" + IntToString(highlightStart.value)
    ensures highlightStart.Some? && highlightEnd.Some? ==>
              r == htmlUrl + "#L" + IntToString(highlightStart.value) + "-L" + IntToString(highlightEnd.value)
  {
    var anchor := Anchor(highlightStart, highlightEnd);
    PrefixOfConcat(htmlUrl, anchor);
    AnchorAppended(htmlUrl, highlightStart, highlightEnd);
    htmlUrl + anchor
  }

  lemma AnchorAppended(htmlUrl: string, highlightStart: Option<int>, highlightEnd: Option<int>)
    ensures highlightStart.None? ==> htmlUrl + Anchor(highlightStart, highlightEnd) == htmlUrl
    ensures highlightStart.Some? && highlightEnd.None? ==>
              htmlUrl + Anchor(highlightStart, highlightEnd) == htmlUrl + "#L" + IntToString(highlightStart.value)
    ensures highlightStart.Some? && highlightEnd.Some? ==>
              htmlUrl + Anchor(highlightStart, highlightEnd)
              == htmlUrl + "#L" + IntToString(highlightStart.value) + "-L" + IntToString(highlightEnd.value)
  {
    if highlightStart.None? {
      assert htmlUrl + "" == htmlUrl;
    } else if highlightEnd.Some? {
      var a, b := IntToString(highlightStart.value), IntToString(highlightEnd.value);
      assert htmlUrl + ("#L" + a + "-L" + b) == htmlUrl + "#L" + a + "-L" + b;
    }
  }

  /** An end line without a start line adds nothing to the URL. */
  lemma EndWithoutStartIgnored(htmlUrl: string, highlightEnd: Option<int>)
    ensures UrlForFile(htmlUrl, None, highlightEnd) == UrlForFile(htmlUrl, None, None) == htmlUrl
  {
  }

  /** The highlighted start line can be read back from the URL: different
      start lines give different URLs. */
  lemma StartLineRecoverable(htmlUrl: string, a: int, b: int)
    requires a != b
    ensures UrlForFile(htmlUrl, Some(a), None) != UrlForFile(htmlUrl, Some(b), None)
  {
    var ua := UrlForFile(htmlUrl, Some(a), None);
    var ub := UrlForFile(htmlUrl, Some(b), None);
    if ua == ub {
      var n := |htmlUrl| + 2;
      assert ua[n..] == IntToString(a);
      assert ub[n..] == IntToString(b);
      IntRoundTrip(a);
      IntRoundTrip(b);
    }
  }

  /** A base joined with a clean segment and a path. */
  lemma UrljoinSegmentAndPath(url: string, seg: string, path: string)
    requires StripChar(seg, '/') == seg
    ensures Urljoin(url, [seg, path]) == RStripChar(url, '/') + "/" + seg + "/" + StripChar(path, '/')
  {
    UrljoinAppend(url, [], seg);
    UrljoinAppend(url, [seg], path);
    assert [] + [seg] == [seg];
    assert [seg] + [path] == [seg, path];
  }

  /** `url_for_directory`: the repository URL without trailing slashes, then
      `/tree/master/`, then the path without surrounding slashes. */
  function UrlForDirectory(url: string, path: string): (r: string)
    ensures r == RStripChar(url, '/') + "/tree/master/" + StripChar(path, '/')
  {
    var tree := "tree/master";
    StripCharNoop(tree, '/');
    UrljoinSegmentAndPath(url, tree, path);
    Urljoin(url, [tree, path])
  }

  /** One range of the GraphQL blame answer; a missing key is `None`. */
  datatype BlameRange = BlameRange(startingLine: Option<int>, endingLine: Option<int>, date: Option<string>)

  predicate Complete(b: BlameRange) {
    b.startingLine.Some? && b.endingLine.Some? && b.date.Some?
  }

  /** The GraphQL answer: its HTTP status, whether it carries errors, and
      the blame ranges, absent when the path to them is missing. */
  datatype BlameResponse = BlameResponse(status: int, hasErrors: bool, ranges: Option<seq<BlameRange>>)

  /** The ranges up to the first one that misses a key. */
  function FlattenRanges(ranges: seq<BlameRange>): (r: seq<Blame>)
    ensures |r| <= |ranges|
    ensures forall i :: 0 <= i < |r| ==> (Complete(ranges[i])
              && r[i] == Blame(ranges[i].startingLine.value, ranges[i].endingLine.value, ranges[i].date.value))
    ensures |r| < |ranges| ==> !Complete(ranges[|r|])
    decreases |ranges|
  {
    if |ranges| == 0 || !Complete(ranges[0]) then []
    else
      var b := ranges[0];
      [Blame(b.startingLine.value, b.endingLine.value, b.date.value)] + FlattenRanges(ranges[1..])
  }

  /** `blame`: nothing for a failed request or an answer with errors, and
      otherwise the ranges collected before the first missing key. */
  function BlameFromResponse(resp: BlameResponse): (r: seq<Blame>)
    ensures resp.status != 200 || resp.hasErrors || resp.ranges.None? ==> r == []
    ensures resp.status == 200 && !resp.hasErrors && resp.ranges.Some? ==> r == FlattenRanges(resp.ranges.value)
  {
    if resp.status != 200 || resp.hasErrors then []
    else if resp.ranges.None? then []
    else FlattenRanges(resp.ranges.value)
  }

  /** When every range is complete, all of them are kept, in order. */
  lemma CompleteRangesAllKept(ranges: seq<BlameRange>)
    requires forall i :: 0 <= i < |ranges| ==> Complete(ranges[i])
    ensures |FlattenRanges(ranges)| == |ranges|
  {
  }

  /** The owner and repository name the blame query uses: the name split at
      its first `/`. A name without `/` cannot be unpacked. */
  function BlameOwnerRepo(repoName: string): (r: Result<(string, string), Error>)
    ensures r.Success? <==> Contains(repoName, '/')
    ensures r.Success? ==> repoName == r.value.0 + "/" + r.value.1 && !Contains(r.value.0, '/')
  {
    var (owner, found, repo) := PartitionChar(repoName, '/');
    if found then
      assert repoName[|owner|] == '/';
      Success((owner, repo)) else Failure(Unexpected("ValueError"))
  }

  /** The owner and name `_get_repo_object` uses: the name must split on `/`
      into exactly two parts, and there must be a client. */
  function RepoObjectName(repoName: string, hasClient: bool): (r: Option<(string, string)>)
    ensures r.Some? <==> hasClient && |Split(repoName, '/')| == 2
    ensures r.Some? ==> repoName == r.value.0 + "/" + r.value.1
    ensures r.Some? ==> !Contains(r.value.0, '/') && !Contains(r.value.1, '/')
  {
    var parts := Split(repoName, '/');
    if |parts| != 2 || !hasClient then None
    else
      JoinSplit(repoName, '/');
      assert Join(parts, '/') == parts[0] + ['/'] + Join(parts[1..], '/');
      Some((parts[0], parts[1]))
  }
}
