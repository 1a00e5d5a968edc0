/** The plain Git connection (`zubbi/scraper/connections/git.py`): how the
    clone URL of a repository is built from the host URL and the optional
    credentials. Also the credential splicing the Gerrit connection shares. */
module GitConnection {
  import opened Wrappers
  import opened Text
  import opened Utils
  import opened Models

  datatype Connection = Connection(gitHostUrl: string, user: Option<string>, password: Option<string>, workspaceDir: string)

  const Provider := "git"

  /** The credentials part of the URL: `user:password@` with both, `user@`
      with only a user, and nothing otherwise. */
  function AuthPart(user: Option<string>, password: Option<string>): (r: string)
    ensures Truthy(user) && Truthy(password) ==> r == user.value + ":" + password.value + "@"
    ensures Truthy(user) && !Truthy(password) ==> r == user.value + "@"
    ensures !Truthy(user) ==> r == ""
    ensures r != "" ==> r[|r| - 1] == '@'
  {
    if Truthy(user) && Truthy(password) then user.value + ":" + password.value + "@"
    else if Truthy(user) then user.value + "@"
    else ""
  }

  /** The URL split at its first `://`, with `auth` put in between. Without
      a `://` the whole URL is taken as the scheme. */
  function WithAuth(url: string, auth: string): (r: string)
    ensures Partition(url, "://").1 ==> r == Partition(url, "://").0 + "://" + auth + Partition(url, "://").2
    ensures !Partition(url, "://").1 ==> r == url + "://" + auth
  {
    var (scheme, _, rest) := Partition(url, "://");
    scheme + "://" + auth + rest
  }

  /** Splicing in no credentials gives back a URL that has a scheme. */
  lemma WithoutAuthKeepsUrl(url: string)
    requires Partition(url, "://").1
    ensures WithAuth(url, "") == url
  {
  }

  /** A `rstrip` of trailing characters never eats into a prefix that ends
      in another character. */
  lemma {:induction false} RStripKeepsPrefix(x: string, y: string, c: char)
    requires |x| > 0 && x[|x| - 1] != c
    ensures StartsWith(RStripChar(x + y, c), x)
    decreases |y|
  {
    if |y| > 0 && y[|y| - 1] == c {
      assert (x + y)[..|x + y| - 1] == x + y[..|y| - 1];
      RStripKeepsPrefix(x, y[..|y| - 1], c);
    } else if |y| > 0 {
      RStripCharNoop(x + y, c);
    } else {
      assert x + y == x;
      RStripCharNoop(x, c);
    }
  }

  /** A URL joined onto a base that starts with `x` (not ending in `/`)
      still starts with `x`. */
  lemma UrljoinKeepsPrefix(x: string, y: string, parts: seq<string>)
    requires |x| > 0 && x[|x| - 1] != '/'
    ensures StartsWith(Urljoin(x + y, parts), x)
  {
    RStripKeepsPrefix(x, y, '/');
    var b := RStripChar(x + y, '/');
    var r := Urljoin(x + y, parts);
    assert r[..|x|] == r[..|b|][..|x|];
  }

  /** A URL joined with one part ends with that part, stripped of slashes,
      after a `/`. */
  lemma UrljoinEndsWithPart(base: string, part: string)
    ensures EndsWith(Urljoin(base, [part]), "/" + StripChar(part, '/'))
  {
    UrljoinAppend(base, [], part);
    assert [] + [part] == [part];
  }

  /** The URL the credentials are spliced into and the repository name is
      joined onto: it starts with the scheme and credentials and ends with
      the name. */
  lemma AuthUrlShape(url: string, auth: string, repositoryName: string)
    requires auth == "" || auth[|auth| - 1] == '@'
    ensures EndsWith(Urljoin(WithAuth(url, auth), [repositoryName]), "/" + StripChar(repositoryName, '/'))
    ensures Partition(url, "://").1 && auth != "" ==>
              StartsWith(Urljoin(WithAuth(url, auth), [repositoryName]), Partition(url, "://").0 + "://" + auth)
  {
    UrljoinEndsWithPart(WithAuth(url, auth), repositoryName);
    if Partition(url, "://").1 && auth != "" {
      var (scheme, _, rest) := Partition(url, "://");
      assert WithAuth(url, auth) == (scheme + "://" + auth) + rest;
      UrljoinKeepsPrefix(scheme + "://" + auth, rest, [repositoryName]);
    }
  }

  /** `get_remote_url`. */
  function RemoteUrl(c: Connection, repositoryName: string): (r: string)
    ensures EndsWith(r, "/" + StripChar(repositoryName, '/'))
    ensures Partition(c.gitHostUrl, "://").1 && Truthy(c.user) ==>
              StartsWith(r, Partition(c.gitHostUrl, "://").0 + "://" + AuthPart(c.user, c.password))
  {
    AuthUrlShape(c.gitHostUrl, AuthPart(c.user, c.password), repositoryName);
    Urljoin(WithAuth(c.gitHostUrl, AuthPart(c.user, c.password)), [repositoryName])
  }

  /** Without a user the remote URL is the host URL joined with the
      repository name; a password alone is never used. */
  lemma RemoteUrlWithoutUser(c: Connection, repositoryName: string)
    requires Partition(c.gitHostUrl, "://").1 && !Truthy(c.user)
    ensures RemoteUrl(c, repositoryName) == Urljoin(c.gitHostUrl, [repositoryName])
  {
    WithoutAuthKeepsUrl(c.gitHostUrl);
  }

  /** A URL whose scheme holds no `:` splits into that scheme and the
      rest. */
  lemma SchemeSplit(scheme: string, rest: string)
    requires !Contains(scheme, ':')
    ensures Partition(scheme + "://" + rest, "://") == (scheme, true, rest)
  {
    var s := scheme + "://" + rest;
    forall j | 0 <= j < |scheme| ensures !OccursAt(s, "://", j) {
      assert s[j] == scheme[j];
    }
    PartitionRecovers(scheme, "://", rest);
  }

  /** Without credentials the remote URL is the host URL, without trailing
      slashes, followed by `/` and the repository name. */
  lemma RemoteUrlPlain(c: Connection, scheme: string, rest: string, repositoryName: string)
    requires c.gitHostUrl == scheme + "://" + rest && !Contains(scheme, ':') && !Truthy(c.user)
    requires |rest| > 0 && rest[|rest| - 1] != '/'
    requires StripChar(repositoryName, '/') == repositoryName
    ensures RemoteUrl(c, repositoryName) == c.gitHostUrl + "/" + repositoryName
  {
    SchemeSplit(scheme, rest);
    RemoteUrlWithoutUser(c, repositoryName);
    RStripCharNoop(c.gitHostUrl, '/');
    UrljoinAppend(c.gitHostUrl, [], repositoryName);
    assert [] + [repositoryName] == [repositoryName];
  }
}
