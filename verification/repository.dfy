/** The abstract repository interface the scraper and the tenant loader work
    against (`zubbi/scraper/repos/__init__.py`), as an in-memory value: what
    each directory lists, what each file checks out to, and what the history
    and blame lookups answer. A directory or file that is absent from the
    maps cannot be checked out, which the real implementations report with
    a `CheckoutError`. */
module Repository {
  import opened Wrappers
  import opened OrderedMap
  import opened Exceptions
  import opened Utils

  /** A listed entry: the GitHub `Contents` object or the git `FileContent`,
      both of which the callers only read `.path` from. */
  datatype Entry = Entry(path: string)

  /** A directory listing, keyed by entry name, in listing order. */
  type Listing = Dict<string, Entry>

  datatype Repo = Repo(
    name: string,
    private: bool,
    listings: map<string, Listing>,
    files: map<string, string>,
    history: map<string, Result<Option<string>, Error>>,
    blames: map<string, seq<Blame>>)

  /** `list_directory(path)` / `directory_contents(path)`. */
  function ListDirectory(r: Repo, path: string): (res: Result<Listing, Error>)
    ensures res.Success? <==> path in r.listings
    ensures res.Success? ==> res.value == r.listings[path]
    ensures res.Failure? ==> res.error.CheckoutError?
  {
    if path in r.listings then Success(r.listings[path])
    else Failure(NewCheckoutError(path, "Directory not found.", None))
  }

  /** `check_out_file(path)` / `file_contents(path)`. */
  function CheckOutFile(r: Repo, path: string): (res: Result<string, Error>)
    ensures res.Success? <==> path in r.files
    ensures res.Success? ==> res.value == r.files[path]
    ensures res.Failure? ==> res.error.CheckoutError?
  {
    if path in r.files then Success(r.files[path])
    else Failure(NewCheckoutError(path, "File not found.", None))
  }

  /** `last_changed(path)`: a timestamp, nothing (the plain git repository
      answers `None`), or whatever exception the lookup raises. */
  function LastChanged(r: Repo, path: string): (res: Result<Option<string>, Error>)
    ensures path !in r.history ==> res == Success(None)
    ensures path in r.history ==> res == r.history[path]
  {
    if path in r.history then r.history[path] else Success(None)
  }

  /** `blame(path)`: the blame ranges, none when the lookup degrades. */
  function BlameOf(r: Repo, path: string): (res: seq<Blame>)
    ensures path !in r.blames ==> res == []
    ensures path in r.blames ==> res == r.blames[path]
  {
    if path in r.blames then r.blames[path] else []
  }
}
