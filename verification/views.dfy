/** The request handling of the web views that is not template rendering
    (`zubbi/views.py`): the JSON error body, the validation and page
    arithmetic of a search, and which webhook events are passed on to the
    scraper. The search itself, the signature hash and the HTTP layer are
    parameters. */
module Views {
  import opened Wrappers
  import opened Text
  import opened Exceptions
  import opened Models
  import opened Helpers

  const SearchableFields: set<string> := {"name", "description", "tenants", "repo"}
  const DefaultSearchFields: set<string> := {"name", "description"}
  const WebhookEvents: seq<string> := ["installation", "installation_repositories", "push"]

  // json_abort.

  datatype JsonValue = JInt(i: int) | JStr(s: string)

  /** The body `json_abort` sends: the status under `error`, and the message
      under `msg` only when one is given. */
  function JsonAbortBody(status: int, msg: Option<string>): (body: seq<(string, JsonValue)>)
    ensures |body| >= 1 && body[0] == ("error", JInt(status))
    ensures msg.None? <==> |body| == 1
    ensures msg.Some? ==> body == [("error", JInt(status)), ("msg", JStr(msg.value))]
  {
    [("error", JInt(status))] + (if msg.Some? then [("msg", JStr(msg.value))] else [])
  }

  /** The value a JSON reader finds under `key`: the first member so named. */
  function Lookup(body: seq<(string, JsonValue)>, key: string): (r: Option<JsonValue>)
    ensures r.Some? <==> exists i :: 0 <= i < |body| && body[i].0 == key
    ensures r.Some? ==> exists i :: 0 <= i < |body| && body[i] == (key, r.value)
    decreases |body|
  {
    if |body| == 0 then None
    else if body[0].0 == key then Some(body[0].1)
    else
      var r := Lookup(body[1..], key);
      if r.Some? then
        var i :| 0 <= i < |body[1..]| && body[1..][i] == (key, r.value);
        assert body[i + 1] == (key, r.value);
        r
      else r
  }

  /** A client reading the body back finds the status under `error`, the
      message under `msg` exactly when one was given, and no other member. */
  lemma JsonAbortReadsBack(status: int, msg: Option<string>, key: string)
    ensures Lookup(JsonAbortBody(status, msg), "error") == Some(JInt(status))
    ensures msg.Some? ==> Lookup(JsonAbortBody(status, msg), "msg") == Some(JStr(msg.value))
    ensures msg.None? ==> Lookup(JsonAbortBody(status, msg), "msg").None?
    ensures key != "error" && key != "msg" ==> Lookup(JsonAbortBody(status, msg), key).None?
  {
    var body := JsonAbortBody(status, msg);
    if msg.Some? {
      assert body[1..][0] == ("msg", JStr(msg.value));
    }
  }

  // Search.

  /** An aborted request: the HTTP status and the description, if any. */
  datatype Abort = Abort(status: int, message: Option<string>)

  /** The query string of a search request. `exact` is its truthiness. */
  datatype SearchArgs = SearchArgs(
    query: Option<string>,
    exact: bool,
    blockFilter: seq<string>,
    from: Option<string>,
    size: Option<string>,
    fields: seq<string>)

  /** `SEARCH_BATCH_SIZE` and `SEARCH_BATCH_LIMIT`. */
  datatype SearchConfig = SearchConfig(batchSize: int, batchLimit: int)

  /** A validated search: the block class to restrict to, the window and the
      fields to search in. */
  datatype SearchRequest = SearchRequest(blockClass: Option<DocClass>, from: int, size: int, fieldSet: set<string>)

  function Min(a: int, b: int): int {
    if a <= b then a else b
  }

  /** The fields the index is searched in: `name` stands for both names. */
  function ExpandFields(fields: set<string>): (r: set<string>)
    ensures "name" !in r
    ensures "name" in fields ==> r == fields - {"name"} + {"job_name", "role_name"}
    ensures "name" !in fields ==> r == fields
  {
    if "name" in fields then fields - {"name"} + {"job_name", "role_name"} else fields
  }

  /** The block filter, if it names exactly one type. */
  function BlockFilterClass(blockFilter: seq<string>): (r: Result<Option<DocClass>, Abort>)
    ensures r.Success? && r.value.Some? <==> |blockFilter| == 1 && Lower(blockFilter[0]) in {"job", "role"}
    ensures r.Failure? <==> |blockFilter| == 1 && Lower(blockFilter[0]) !in {"job", "role"}
    ensures r.Failure? ==> r.error == Abort(400, None)
  {
    if |blockFilter| == 1 then
      match ClassFromBlockType(Lower(blockFilter[0]))
      case Success(c) => Success(Some(c))
      case Failure(_) => Failure(Abort(400, None))
    else Success(None)
  }

  /** The `try` block of `SearchView.get`, checked in the order it checks
      them: block filter, `from`, `size`, fields. Every failure is a 400. */
  function ValidateSearch(args: SearchArgs, cfg: SearchConfig): (r: Result<SearchRequest, Abort>)
    ensures r.Failure? ==> r.error.status == 400
    ensures r.Success? <==>
              && BlockFilterClass(args.blockFilter).Success?
              && (args.from.None? || ParseInt(args.from.value).Some?)
              && (args.size.None? || ParseInt(args.size.value).Some?)
              && (forall i :: 0 <= i < |args.fields| ==> args.fields[i] in SearchableFields)
    ensures r.Success? ==>
              && r.value.blockClass == BlockFilterClass(args.blockFilter).value
              && r.value.from == (if args.from.None? then 0 else ParseInt(args.from.value).value)
              && r.value.size == Min(if args.size.None? then cfg.batchSize else ParseInt(args.size.value).value, cfg.batchLimit)
    ensures r.Success? && |args.fields| == 0 ==> r.value.fieldSet == ExpandFields(DefaultSearchFields)
    ensures r.Success? && |args.fields| > 0 ==>
              r.value.fieldSet == ExpandFields(set i | 0 <= i < |args.fields| :: args.fields[i])
  {
    var blockClass :- BlockFilterClass(args.blockFilter);
    var from :- if args.from.None? then Success(0)
                else if ParseInt(args.from.value).Some? then Success(ParseInt(args.from.value).value)
                else Failure(Abort(400, None));
    var requested :- if args.size.None? then Success(cfg.batchSize)
                     else if ParseInt(args.size.value).Some? then Success(ParseInt(args.size.value).value)
                     else Failure(Abort(400, None));
    var given := set i | 0 <= i < |args.fields| :: args.fields[i];
    var fieldSet :- if |args.fields| == 0 then Success(DefaultSearchFields)
                    else if given <= SearchableFields then Success(given)
                    else Failure(Abort(400, Some("The given field is not searchable")));
    Success(SearchRequest(blockClass, from, Min(requested, cfg.batchLimit), ExpandFields(fieldSet)))
  }

  /** Whatever the request, the index is searched only in fields it has. */
  lemma SearchFieldsAreIndexed(args: SearchArgs, cfg: SearchConfig)
    requires ValidateSearch(args, cfg).Success?
    ensures ValidateSearch(args, cfg).value.fieldSet <= {"job_name", "role_name", "description", "tenants", "repo"}
    ensures |args.fields| == 0 ==> ValidateSearch(args, cfg).value.fieldSet == {"job_name", "role_name", "description"}
  {
    var given := set i | 0 <= i < |args.fields| :: args.fields[i];
    assert |args.fields| > 0 ==> given <= SearchableFields;
  }

  /** Python's `a // b`: the quotient rounded toward minus infinity. */
  function FloorDiv(a: int, b: int): (q: int)
    requires b != 0
    ensures b > 0 ==> q * b <= a < q * b + b
    ensures b < 0 ==> q * b >= a > q * b + b
  {
    if b > 0 then a / b else (-a) / (-b)
  }

  /** `math.ceil(a / b)`, exact on integers. */
  function CeilDiv(a: int, b: int): int
    requires b != 0
  {
    -FloorDiv(-a, b)
  }

  /** The page of the first result shown, and the last page. */
  function PageNumbers(from: int, size: int, total: int): (r: Result<(int, int), Error>)
    ensures r.Failure? <==> size == 0
    ensures r.Success? ==> r.value == (FloorDiv(from, size), if CeilDiv(total, size) - 1 > 0 then CeilDiv(total, size) - 1 else 0)
  {
    if size == 0 then Failure(Unexpected("ZeroDivisionError"))
    else
      var last := CeilDiv(total, size) - 1;
      Success((FloorDiv(from, size), if last > 0 then last else 0))
  }

  /** With a positive page size, the current page is the one that holds the
      first result shown, and the last page is the one that holds the last
      result (page 0 when there is none). */
  lemma PageNumbersMeaning(from: int, size: int, total: int)
    requires size > 0 && total >= 0
    ensures var (current, last) := PageNumbers(from, size, total).value;
            && current * size <= from < current * size + size
            && last >= 0
            && (total == 0 ==> last == 0)
            && (total > 0 ==> last * size <= total - 1 < last * size + size)
  {
    var c := FloorDiv(-total, size);
    assert c * size <= -total < c * size + size;
  }

  /** The filter `SearchView.get` hands to `search_query`:
      `Q("term", private=False)`. */
  const PublicOnly := Term("private", false, None)

  /** Whatever is searched for, `SearchView.get` lets only public blocks
      through, and among them reusable blocks score 2 more. */
  lemma SearchShowsOnlyPublic(query: string, fields: seq<string>, exact: bool, f: Flags)
    ensures Passes(SearchQuery(query, fields, exact, [PublicOnly]), f) <==> !f.private
    ensures ShouldBoost(SearchQuery(query, fields, exact, [PublicOnly]), f) == if f.reusable then 2 else 0
  {
    var q := SearchQuery(query, fields, exact, [PublicOnly]);
    assert q.filter == [PublicOnly];
    assert Passes(q, f) <==> TermMatches(q.filter[0], f);
  }

  /** elasticsearch-dsl's `Search.__getitem__` refuses a slice with a
      negative start or stop; `SearchView.get` slices `[from:from + size]`
      after its `try` block, so the `ValueError` is not turned into a 400. */
  predicate NegativeSlice(req: SearchRequest) {
    req.from < 0 || req.from + req.size < 0
  }

  /** One search hit: its repository, class and name. */
  datatype Hit = Hit(repo: string, blockClass: DocClass, name: string)

  /** What `SearchView.get` answers. */
  datatype SearchOutcome =
    | Form
    | Aborted(abort: Abort)
    | Redirect(repo: string, blockType: string, name: string)
    | Results(request: SearchRequest, pagination: Pagination)
    | Failed(error: Error)

  /** `SearchView.get` given the hits of the requested window and the total
      number of hits. */
  function Search(args: SearchArgs, cfg: SearchConfig, hits: seq<Hit>, total: int): (r: SearchOutcome)
    ensures args.query.None? <==> r.Form?
    ensures r.Aborted? <==> args.query.Some? && ValidateSearch(args, cfg).Failure?
    ensures args.query.Some? && ValidateSearch(args, cfg).Success? && NegativeSlice(ValidateSearch(args, cfg).value)
            ==> r == Failed(Unexpected("ValueError: Search does not support negative slicing."))
    ensures r.Redirect? ==> |hits| == 1 && ValidateSearch(args, cfg).value.from == 0
                            && !NegativeSlice(ValidateSearch(args, cfg).value)
                            && r.repo == hits[0].repo && r.name == hits[0].name
    ensures (&& args.query.Some? && ValidateSearch(args, cfg).Success? && |hits| == 1
             && !NegativeSlice(ValidateSearch(args, cfg).value)
             && ValidateSearch(args, cfg).value.from == 0 && BlockType(hits[0].blockClass).Success?)
            ==> r.Redirect?
    ensures (&& args.query.Some? && ValidateSearch(args, cfg).Success? && ValidateSearch(args, cfg).value.size != 0
             && !NegativeSlice(ValidateSearch(args, cfg).value)
             && !(|hits| == 1 && ValidateSearch(args, cfg).value.from == 0))
            ==> r.Results?
    ensures r.Results? ==>
              var req := ValidateSearch(args, cfg).value;
              && PageNumbers(req.from, req.size, total).Success?
              && var pages := PageNumbers(req.from, req.size, total).value;
              r.request == req && r.pagination == CalculatePagination(pages.0, pages.1, DefaultStepSize)
  {
    if args.query.None? then Form
    else
      match ValidateSearch(args, cfg)
      case Failure(a) => Aborted(a)
      case Success(req) =>
        if NegativeSlice(req) then Failed(Unexpected("ValueError: Search does not support negative slicing."))
        else if |hits| == 1 && req.from == 0 then
          match BlockType(hits[0].blockClass)
          case Success(t) => Redirect(hits[0].repo, t, hits[0].name)
          case Failure(e) => Failed(e)
        else
          match PageNumbers(req.from, req.size, total)
          case Failure(e) => Failed(e)
          case Success((current, last)) => Results(req, CalculatePagination(current, last, DefaultStepSize))
  }

  // Webhook.

  /** `WebhookView.check_event`: the event is passed on only if it is one of
      the three the scraper handles. */
  function CheckEvent(event: Option<string>): (r: Option<string>)
    ensures r.Some? <==> event.Some? && event.value in WebhookEvents
    ensures r.Some? ==> r == event
  {
    if event.Some? && event.value in WebhookEvents then event else None
  }

  /** The webhook request as far as `WebhookView.post` reads it.
      `payloadTruthy` is the Python truth value of the parsed JSON body: it
      is false for a missing or invalid body and also for `{}`, `[]`, `0`,
      `""` or `null`, all of which `if not payload` rejects. `signature`
      is the `X-Hub-Signature` header and `digest` the HMAC-SHA1 hex digest
      of the raw payload under the configured secret. */
  datatype WebhookRequest = WebhookRequest(
    payloadTruthy: bool,
    delivery: Option<string>,
    signature: Option<string>,
    digest: string,
    event: Option<string>)

  /** What a webhook that is accepted does: the event passed on to the
      scraper, if any, and the `event_processed` flag of the reply. */
  datatype WebhookReply = WebhookReply(published: Option<string>, eventProcessed: bool)

  /** `WebhookView.post`, with the checks in the order it makes them. */
  function Webhook(req: WebhookRequest): (r: Result<WebhookReply, Abort>)
    ensures r.Success? <==> req.payloadTruthy && req.delivery.Some? && req.signature == Some("sha1=" + req.digest)
    ensures r.Failure? && (!req.payloadTruthy || req.delivery.None?) ==> r.error.status == 400
    ensures r.Failure? && req.payloadTruthy && req.delivery.Some? ==> r.error.status == 401
    ensures r.Success? ==> r.value.published == CheckEvent(req.event)
    ensures r.Success? ==> (r.value.eventProcessed <==> r.value.published.Some?)
  {
    if !req.payloadTruthy then Failure(Abort(400, Some("Payload is missing or not a valid JSON")))
    else if req.delivery.None? then Failure(Abort(400, Some("X-GitHub-Delivery header missing.")))
    else if !Truthy(req.signature) then Failure(Abort(401, Some("X-Hub-Signature header missing.")))
    else if req.signature.value != "sha1=" + req.digest then
      Failure(Abort(401, Some("Request signature does not match calculated signature.")))
    else
      var event := CheckEvent(req.event);
      Success(WebhookReply(event, Truthy(event)))
  }
}
