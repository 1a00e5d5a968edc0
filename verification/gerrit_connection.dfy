/** The Gerrit connection (`zubbi/scraper/connections/gerrit.py`): the
    gitweb base URL and the clone URL, which always carries the user and
    password. */
module GerritConnection {
  import opened Wrappers
  import opened Text
  import opened Utils
  import opened Models
  import GitConnection

  datatype Connection = Connection(baseUrl: string, gitwebUrl: string, user: Option<string>, password: Option<string>)

  const Provider := "gerrit"

  /** Python's `str.format` of a value that may be `None`. */
  function FormatValue(v: Option<string>): (r: string)
    ensures v.Some? ==> r == v.value
    ensures v.None? ==> r == "None"
  {
    if v.Some? then v.value else "None"
  }

  /** The constructor: the gitweb URL is under the web URL when one is
      given (and not empty), under the base URL otherwise. */
  function NewConnection(url: string, user: Option<string>, password: Option<string>, webUrl: Option<string>): (c: Connection)
    ensures c.baseUrl == url && c.user == user && c.password == password
    ensures Truthy(webUrl) ==> c.gitwebUrl == Urljoin(webUrl.value, ["gitweb"])
    ensures !Truthy(webUrl) ==> c.gitwebUrl == Urljoin(url, ["gitweb"])
  {
    var web := if Truthy(webUrl) then webUrl.value else url;
    Connection(url, Urljoin(web, ["gitweb"]), user, password)
  }

  /** The credentials part of the clone URL: always `user:password@`, even
      when either is missing. */
  function AuthPart(user: Option<string>, password: Option<string>): (r: string)
    ensures user.Some? && password.Some? ==> r == user.value + ":" + password.value + "@"
    ensures |r| > 0 && r[|r| - 1] == '@'
  {
    FormatValue(user) + ":" + FormatValue(password) + "@"
  }

  /** `get_remote_url`: starts with the scheme and the credentials, ends with
      the repository name. */
  function RemoteUrl(c: Connection, repositoryName: string): (r: string)
    ensures EndsWith(r, "/" + StripChar(repositoryName, '/'))
    ensures Partition(c.baseUrl, "://").1 ==>
              StartsWith(r, Partition(c.baseUrl, "://").0 + "://" + AuthPart(c.user, c.password))
  {
    GitConnection.AuthUrlShape(c.baseUrl, AuthPart(c.user, c.password), repositoryName);
    Urljoin(GitConnection.WithAuth(c.baseUrl, AuthPart(c.user, c.password)), [repositoryName])
  }

  /** Unlike the plain Git connection, Gerrit never leaves the credentials
      out: with both present they are the same, but without a user the Git
      URL has none and the Gerrit URL still has `None:...@`. */
  lemma CredentialsAlwaysPresent(url: string, user: Option<string>, password: Option<string>)
    ensures Truthy(user) && Truthy(password) ==>
              AuthPart(user, password) == GitConnection.AuthPart(user, password)
    ensures |AuthPart(user, password)| > 0 && GitConnection.AuthPart(None, password) == ""
    ensures AuthPart(None, password)[..5] == "None:"
  {
  }
}
