/** The scraper's exception hierarchy (`zubbi/scraper/exceptions.py`) as
    values. `RepositoryError` is the base of `CheckoutError`;
    `ScraperConfigurationError` stands apart. Exceptions raised by code
    outside the model (a `KeyError` on a malformed YAML value, a
    `LookupError` from Sphinx, a failing HTTP client) are `Unexpected`:
    no handler in the model catches them. */
module Exceptions {
  import opened Wrappers
  import opened Text

  datatype Error =
    | RepositoryError(message: string)
    | CheckoutError(message: string)
    | ScraperConfigurationError(message: string)
    | Unexpected(message: string)

  /** `isinstance(e, RepositoryError)`. */
  predicate IsRepositoryError(e: Error) {
    e.RepositoryError? || e.CheckoutError?
  }

  /** The default message of a `CheckoutError`. */
  function CheckoutMessage(path: string, cause: string): string {
    "Failed to check out '" + path + "': " + cause
  }

  /** `CheckoutError(path, cause, msg)`: an explicit message wins, otherwise
      the message names the path and the cause. */
  function NewCheckoutError(path: string, cause: string, msg: Option<string>): (e: Error)
    ensures e.CheckoutError? && IsRepositoryError(e)
    ensures msg.Some? ==> e.message == msg.value
    ensures msg.None? ==> StartsWith(e.message, "Failed to check out '")
    ensures msg.None? ==> EndsWith(e.message, "': " + cause)
  {
    match msg
    case Some(m) => CheckoutError(m)
    case None =>
      var m := CheckoutMessage(path, cause);
      assert m == "Failed to check out '" + (path + "': " + cause);
      assert m == ("Failed to check out '" + path) + ("': " + cause);
      CheckoutError(m)
  }

  /** A configuration error is never a repository error, so a handler for
      `CheckoutError` or `RepositoryError` lets it through. */
  lemma ConfigurationErrorIsNotRepositoryError(msg: string)
    ensures !IsRepositoryError(ScraperConfigurationError(msg))
    ensures IsRepositoryError(NewCheckoutError("", "", Some(msg)))
  {
  }

  /** Reads the path and the cause back out of a default checkout message. */
  function ParseCheckoutMessage(m: string): (r: Option<(string, string)>)
    ensures r.Some? ==> m == CheckoutMessage(r.value.0, r.value.1)
  {
    var head := "Failed to check out '";
    if !StartsWith(m, head) then None
    else
      var rest := m[|head|..];
      assert m == head + rest;
      var (path, found, cause) := Partition(rest, "': ");
      if found then Some((path, cause)) else None
  }

  /** The default message determines the path and the cause as long as the
      path holds no `'`. */
  lemma CheckoutMessageRoundTrip(path: string, cause: string)
    requires forall i :: 0 <= i < |path| ==> path[i] != '\''
    ensures ParseCheckoutMessage(CheckoutMessage(path, cause)) == Some((path, cause))
  {
    var head := "Failed to check out '";
    var m := CheckoutMessage(path, cause);
    var rest := path + "': " + cause;
    assert m == head + rest;
    assert m[|head|..] == rest;
    forall j | 0 <= j < |path| ensures !OccursAt(rest, "': ", j) {
      assert rest[j] == path[j];
    }
    PartitionRecovers(path, "': ", cause);
  }
}
