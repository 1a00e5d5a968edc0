/** The documents of the search index (`zubbi/models.py`) as records, and the
    pure logic around them: escaping a free-text query, the HTML fallback
    for an unrendered description, the block-type names the web views use,
    the indices a search runs against, and the connection parameters and
    index names chosen at start-up. */
module Models {
  import opened Wrappers
  import opened Text
  import opened Exceptions

  const DefaultEsPort := 9200

  /** A Zuul job document (`ZuulJob`). Fields the scraper leaves unset are
      `None`; `reusable` is always set. */
  datatype ZuulJob = ZuulJob(
    id: string,
    jobName: string,
    repo: string,
    tenants: seq<string>,
    private: bool,
    scrapeTime: int,
    lineStart: int,
    lineEnd: int,
    lastUpdated: Option<string>,
    url: string,
    description: Option<string>,
    descriptionHtml: Option<string>,
    platforms: Option<seq<string>>,
    reusable: bool,
    parent: Option<string>)

  /** An Ansible role document (`AnsibleRole`). */
  datatype AnsibleRole = AnsibleRole(
    id: string,
    roleName: string,
    repo: string,
    tenants: seq<string>,
    private: bool,
    url: string,
    scrapeTime: int,
    lastUpdated: Option<string>,
    description: Option<string>,
    descriptionHtml: Option<string>,
    platforms: Option<seq<string>>,
    changelog: Option<string>,
    changelogHtml: Option<string>,
    reusable: bool)

  /** Python truthiness of an optional string. */
  predicate Truthy(s: Option<string>) {
    s.Some? && s.value != ""
  }

  // Query escaping.

  /** The characters the query syntax reserves; each is escaped with `\`. */
  const ReservedCharacters: seq<char> :=
    ['+', '-', '=', '!', '(', ')', '{', '}', '[', ']', '^', '"', '~', '*', '?', ':', '\\', '/', '&', '|']

  /** `<` and `>` cannot be escaped and are dropped instead. */
  predicate Removed(c: char) {
    c == '<' || c == '>'
  }

  /** One entry of the translation table. */
  function Translate(c: char): string {
    if c in ReservedCharacters then ['\\', c]
    else if Removed(c) then []
    else [c]
  }

  /** `query.translate(TRANSLATION_TABLE)`. */
  function Escape(s: string): (r: string)
    ensures forall i :: 0 <= i < |r| ==> !Removed(r[i])
    ensures |r| <= 2 * |s|
    decreases |s|
  {
    if |s| == 0 then "" else Translate(s[0]) + Escape(s[1..])
  }

  /** Reads an escaped query back from left to right: a `\` takes the next
      character literally. */
  function Unescape(s: string): string
    decreases |s|
  {
    if |s| == 0 then ""
    else if s[0] == '\\' && |s| >= 2 then [s[1]] + Unescape(s[2..])
    else [s[0]] + Unescape(s[1..])
  }

  /** A query without the two characters the escape drops. */
  predicate Plain(s: string) {
    forall i :: 0 <= i < |s| ==> !Removed(s[i])
  }

  /** Because `\` is itself reserved, unescaping undoes the escape on every
      query the escape does not drop characters from. */
  lemma {:induction false} EscapeRoundTrip(s: string)
    requires Plain(s)
    ensures Unescape(Escape(s)) == s
    decreases |s|
  {
    if |s| > 0 {
      var rest := Escape(s[1..]);
      assert Plain(s[1..]) by {
        forall i | 0 <= i < |s| - 1 ensures !Removed(s[1..][i]) {
          assert s[1..][i] == s[i + 1];
        }
      }
      EscapeRoundTrip(s[1..]);
      var e := Escape(s);
      assert e == Translate(s[0]) + rest;
      if s[0] in ReservedCharacters {
        assert e[0] == '\\' && e[1] == s[0] && e[2..] == rest;
      } else {
        assert e[0] == s[0] && e[1..] == rest;
      }
      assert s == [s[0]] + s[1..];
    }
  }

  /** Two different queries never escape to the same string. */
  lemma EscapeInjective(a: string, b: string)
    requires Plain(a) && Plain(b) && Escape(a) == Escape(b)
    ensures a == b
  {
    EscapeRoundTrip(a);
    EscapeRoundTrip(b);
  }

  /** A query with no reserved and no dropped character passes unchanged. */
  lemma {:induction false} EscapeKeepsPlainText(s: string)
    requires forall i :: 0 <= i < |s| ==> s[i] !in ReservedCharacters && !Removed(s[i])
    ensures Escape(s) == s
    decreases |s|
  {
    if |s| > 0 {
      EscapeKeepsPlainText(s[1..]);
      assert s == [s[0]] + s[1..];
    }
  }

  /** The query of a search: matched as given, or as an escaped wildcard
      pattern. */
  datatype Query = MultiMatch(query: string, fields: seq<string>) | QueryString(query: string, fields: seq<string>)

  /** `SEARCH_BOOST_FIELDS.get(field, field)`. */
  function BoostField(field: string): string {
    if field == "role_name" then "role_name^1.5"
    else if field == "job_name" then "job_name^1.5"
    else if field == "description" then "description^1.2"
    else field
  }

  /** A `term` query on one of a block document's flags, with its boost
      when one is given. */
  datatype Term = Term(field: string, value: bool, boost: Option<int>)

  /** The `bool` query a search runs: every `filter` term must match, the
      `must` query is scored, and a matching `should` term adds its boost. */
  datatype BoolQuery = BoolQuery(filter: seq<Term>, must: Query, should: Term)

  /** `Q("term", reusable={"value": True, "boost": 2})`. */
  const ReusableBoost := Term("reusable", true, Some(2))

  /** The flags of a block document that term queries test. */
  datatype Flags = Flags(private: bool, reusable: bool)

  /** A term matches a document whose flag of that name has the term's value;
      a term on any other field matches nothing here. */
  predicate TermMatches(t: Term, f: Flags) {
    (t.field == "private" && f.private == t.value) || (t.field == "reusable" && f.reusable == t.value)
  }

  /** A document passes the query's filter when every filter term matches. */
  predicate Passes(q: BoolQuery, f: Flags) {
    forall i :: 0 <= i < |q.filter| ==> TermMatches(q.filter[i], f)
  }

  /** What the `should` term adds to a document's score (boost 1 when none
      is given). */
  function ShouldBoost(q: BoolQuery, f: Flags): int {
    if TermMatches(q.should, f) then q.should.boost.GetOr(1) else 0
  }

  /** `BlockSearch.search_query`: an exact search passes the raw query, any
      other search wraps the escaped query in `*`; the query is wrapped in a
      `bool` query with the caller's filters (none for `None`) and the
      reusable boost. */
  function SearchQuery(query: string, fields: seq<string>, exact: bool, extraFilter: seq<Term>): (q: BoolQuery)
    ensures q.must.MultiMatch? <==> exact
    ensures exact ==> q.must.query == query
    ensures !exact ==> q.must.query == "*" + Escape(query) + "*"
    ensures |q.must.fields| == |fields|
    ensures forall i :: 0 <= i < |fields| ==> q.must.fields[i] == BoostField(fields[i])
    ensures q.filter == extraFilter && q.should == ReusableBoost
  {
    var boosted := seq(|fields|, i requires 0 <= i < |fields| => BoostField(fields[i]));
    var must := if exact then MultiMatch(query, boosted) else QueryString("*" + Escape(query) + "*", boosted);
    BoolQuery(extraFilter, must, ReusableBoost)
  }

  /** Whatever is searched for, reusable blocks score 2 more than the
      others, and without filters every block passes. */
  lemma ReusableBlocksBoosted(query: string, fields: seq<string>, exact: bool, f: Flags)
    ensures ShouldBoost(SearchQuery(query, fields, exact, []), f) == if f.reusable then 2 else 0
    ensures Passes(SearchQuery(query, fields, exact, []), f)
  {
  }

  /** The wildcard pattern determines the query it was built from. */
  lemma SearchQueryRecoversQuery(query: string, fields: seq<string>)
    requires Plain(query)
    ensures var q := SearchQuery(query, fields, false, []).must.query;
            |q| >= 2 && Unescape(q[1..|q| - 1]) == query
  {
    var q := SearchQuery(query, fields, false, []).must.query;
    assert q[1..|q| - 1] == Escape(query);
    EscapeRoundTrip(query);
  }

  // HTML fallback.

  /** `markupsafe.escape` of one character. */
  function HtmlEscapeChar(c: char): string {
    if c == '&' then "&amp;"
    else if c == '<' then "&lt;"
    else if c == '>' then "&gt;"
    else if c == '"' then "&#34;"
    else if c == '\'' then "&#39;"
    else [c]
  }

  /** `markupsafe.escape`: no angle bracket survives. */
  function HtmlEscape(s: string): (r: string)
    ensures forall i :: 0 <= i < |r| ==> r[i] != '<' && r[i] != '>'
    decreases |s|
  {
    if |s| == 0 then "" else HtmlEscapeChar(s[0]) + HtmlEscape(s[1..])
  }

  /** `Block._renderable_field`: rendered HTML if there is any, else the raw
      text escaped inside `<pre>`, else nothing. */
  function RenderableField(html: Option<string>, raw: Option<string>): (r: Option<string>)
    ensures Truthy(html) ==> r == html
    ensures !Truthy(html) && Truthy(raw) ==> r == Some("<pre>" + HtmlEscape(raw.value) + "</pre>")
    ensures r.None? <==> !Truthy(html) && !Truthy(raw)
  {
    if Truthy(html) then html
    else if Truthy(raw) then Some("<pre>" + HtmlEscape(raw.value) + "</pre>")
    else None
  }

  /** The raw fallback cannot open a tag of its own: the only `<` in it are
      those of the `<pre>` wrapper. */
  lemma FallbackHasOnlyWrapperTags(raw: string)
    requires raw != ""
    ensures var r := RenderableField(None, Some(raw)).value;
            forall i :: 0 <= i < |r| && r[i] == '<' ==> i == 0 || i == |r| - 6
  {
    var e := HtmlEscape(raw);
    var r := "<pre>" + e + "</pre>";
    forall i | 0 <= i < |r| && r[i] == '<' ensures i == 0 || i == |r| - 6 {
      if i >= 5 + |e| {
        assert r[i] == "</pre>"[i - 5 - |e|];
      }
    }
  }

  // Block types.

  /** The four document classes. */
  datatype DocClass = ZuulJobClass | AnsibleRoleClass | ZuulTenantClass | GitRepoClass

  function ClassName(c: DocClass): string {
    match c
    case ZuulJobClass => "ZuulJob"
    case AnsibleRoleClass => "AnsibleRole"
    case ZuulTenantClass => "ZuulTenant"
    case GitRepoClass => "GitRepo"
  }

  /** `block_type`: roles and jobs have a name; any other document is a
      `ValueError`. */
  function BlockType(c: DocClass): (r: Result<string, Error>)
    ensures r.Success? <==> c == AnsibleRoleClass || c == ZuulJobClass
    ensures r.Failure? ==> r.error.Unexpected?
  {
    if c == AnsibleRoleClass then Success("role")
    else if c == ZuulJobClass then Success("job")
    else Failure(Unexpected("Unsupported type: " + ClassName(c)))
  }

  /** `class_from_block_type`: the inverse, a `ValueError` for any other name. */
  function ClassFromBlockType(t: string): (r: Result<DocClass, Error>)
    ensures r.Success? <==> t == "role" || t == "job"
    ensures r.Success? ==> r.value == AnsibleRoleClass || r.value == ZuulJobClass
    ensures r.Failure? ==> r.error == Unexpected("No class for block type: " + t)
  {
    if t == "role" then Success(AnsibleRoleClass)
    else if t == "job" then Success(ZuulJobClass)
    else Failure(Unexpected("No class for block type: " + t))
  }

  /** A block's type name leads back to its class ... */
  lemma BlockTypeRoundTrip(c: DocClass)
    ensures BlockType(c).Success? ==> ClassFromBlockType(BlockType(c).value) == Success(c)
  {
  }

  /** ... and a known type name leads back to itself. */
  lemma ClassFromBlockTypeRoundTrip(t: string)
    ensures ClassFromBlockType(t).Success? ==> BlockType(ClassFromBlockType(t).value) == Success(t)
  {
  }

  // Index names.

  /** The constant `Index.name` of each class. */
  function IndexName(c: DocClass): string {
    match c
    case ZuulJobClass => "zuul-jobs"
    case AnsibleRoleClass => "ansible-roles"
    case ZuulTenantClass => "zuul-tenants"
    case GitRepoClass => "git-repos"
  }

  /** The active index name of each class (`_index._name`). */
  datatype Indices = Indices(job: string, role: string, tenant: string, repo: string)

  function Active(ix: Indices, c: DocClass): string {
    match c
    case ZuulJobClass => ix.job
    case AnsibleRoleClass => ix.role
    case ZuulTenantClass => ix.tenant
    case GitRepoClass => ix.repo
  }

  /** Before any prefix is applied every class uses its constant name. */
  const DefaultIndices := Indices("zuul-jobs", "ansible-roles", "zuul-tenants", "git-repos")

  /** The prefix part of `init_elasticsearch_con`: a non-empty prefix loses
      its trailing `-` and every class is renamed `<prefix>-<Index.name>`;
      an empty or missing prefix renames nothing. */
  function ApplyIndexPrefix(prefix: Option<string>, ix: Indices): (r: Indices)
    ensures !Truthy(prefix) ==> r == ix
    ensures Truthy(prefix) ==> forall c :: Active(r, c) == RStripChar(prefix.value, '-') + "-" + IndexName(c)
  {
    if Truthy(prefix) then
      var p := RStripChar(prefix.value, '-');
      Indices(p + "-" + IndexName(ZuulJobClass), p + "-" + IndexName(AnsibleRoleClass),
              p + "-" + IndexName(ZuulTenantClass), p + "-" + IndexName(GitRepoClass))
    else ix
  }

  /** Whatever the prefix, the four classes keep four different indices. */
  lemma {:induction false} PrefixedIndicesDistinct(prefix: string, ix: Indices, c1: DocClass, c2: DocClass)
    requires prefix != ""
    requires c1 != c2
    ensures Active(ApplyIndexPrefix(Some(prefix), ix), c1) != Active(ApplyIndexPrefix(Some(prefix), ix), c2)
  {
    var p := RStripChar(prefix, '-') + "-";
    var n1 := IndexName(c1);
    var n2 := IndexName(c2);
    if |n1| == |n2| {
      // Only "zuul-jobs" and "git-repos" share a length; they differ in their first letter.
      assert (p + n1)[|p|] == n1[0];
      assert (p + n2)[|p|] == n2[0];
    } else {
      assert |p + n1| != |p + n2|;
    }
  }

  /** A trailing `-` on the prefix does not change the names. */
  lemma IndexPrefixTrailingDash(p: string, ix: Indices)
    requires p != ""
    ensures ApplyIndexPrefix(Some(p + "-"), ix) == ApplyIndexPrefix(Some(p), ix)
  {
    assert (p + "-")[..|p|] == p;
  }

  /** `BlockSearch._select_index`: an explicit index wins, then the block
      class's index, then both block indices. */
  function SelectIndex(index: seq<string>, blockClass: Option<DocClass>, ix: Indices): (r: seq<string>)
    ensures |index| > 0 ==> r == index
    ensures |index| == 0 && blockClass.Some? ==> r == [Active(ix, blockClass.value)]
    ensures |index| == 0 && blockClass.None? ==> r == [Active(ix, AnsibleRoleClass), Active(ix, ZuulJobClass)]
  {
    if |index| > 0 then index
    else if blockClass.Some? then [Active(ix, blockClass.value)]
    else [Active(ix, AnsibleRoleClass), Active(ix, ZuulJobClass)]
  }

  /** Without an explicit index a search reads only block indices, and it
      reads the index of every block class the filter admits. */
  lemma SelectIndexCoversBlocks(blockClass: Option<DocClass>, ix: Indices, c: DocClass)
    requires blockClass.None? || BlockType(blockClass.value).Success?
    requires BlockType(c).Success? && (blockClass.None? || blockClass.value == c)
    ensures Active(ix, c) in SelectIndex([], blockClass, ix)
    ensures forall i :: 0 <= i < |SelectIndex([], blockClass, ix)| ==>
              SelectIndex([], blockClass, ix)[i] in [Active(ix, AnsibleRoleClass), Active(ix, ZuulJobClass)]
  {
  }

  // Connection parameters.

  /** The TLS settings a configuration may override. */
  datatype TlsConfig = TlsConfig(enabled: Option<bool>, checkHostname: Option<bool>, verifyMode: Option<string>)

  /** The keyword arguments of `init_elasticsearch_con`. The host is passed
      on as given, `None` included. */
  datatype EsConfig = EsConfig(
    host: Option<string>,
    user: Option<string>,
    password: Option<string>,
    port: Option<int>,
    indexPrefix: Option<string>,
    tls: Option<TlsConfig>)

  datatype SslContext = SslContext(checkHostname: bool, verifyMode: string)

  /** What `connections.create_connection` is called with. */
  datatype EsConnection = EsConnection(
    host: Option<string>,
    httpAuth: Option<(string, string)>,
    port: int,
    useSsl: bool,
    sslContext: Option<SslContext>)

  /** `ChainMap(tls or {}, DEFAULT_TLS_CONFIG)`: each setting from the
      configuration if given, else from the defaults. */
  function MergeTls(tls: Option<TlsConfig>): (r: (bool, bool, string))
    ensures r.0 <==> tls.Some? && tls.value.enabled == Some(true)
    ensures tls.None? ==> r == (false, true, "CERT_REQUIRED")
  {
    var t := tls.GetOr(TlsConfig(None, None, None));
    (t.enabled.GetOr(false), t.checkHostname.GetOr(true), t.verifyMode.GetOr("CERT_REQUIRED"))
  }

  /** A TLS block behaves like no block at all exactly when it spells out
      nothing but the defaults: TLS off, hostname checking on, and
      certificates required. */
  lemma TlsDefaultsNeutral(t: TlsConfig)
    ensures MergeTls(Some(t)) == MergeTls(None) <==>
              && t.enabled != Some(true)
              && t.checkHostname != Some(false)
              && (t.verifyMode.None? || t.verifyMode == Some("CERT_REQUIRED"))
  {
    var r := MergeTls(Some(t));
    assert r == (t.enabled.GetOr(false), t.checkHostname.GetOr(true), t.verifyMode.GetOr("CERT_REQUIRED"));
    assert MergeTls(None) == (false, true, "CERT_REQUIRED");
    assert r.0 == false <==> t.enabled != Some(true);
    assert r.1 == true <==> t.checkHostname != Some(false);
    assert r.2 == "CERT_REQUIRED" <==> t.verifyMode.None? || t.verifyMode == Some("CERT_REQUIRED");
  }

  /** A setting in the block overrides its default and leaves the other two
      settings alone. */
  lemma TlsSettingOverrides(t: TlsConfig, v: string)
    ensures MergeTls(Some(t.(verifyMode := Some(v)))) == (MergeTls(Some(t)).0, MergeTls(Some(t)).1, v)
  {
  }

  /** The `verify_mode` names `getattr(ssl, …)` turns into a verify mode. */
  const VerifyModes := {"CERT_NONE", "CERT_OPTIONAL", "CERT_REQUIRED"}

  /** The context `ssl.create_default_context()` is configured into:
      `check_hostname` is set first, then `verify_mode`. An unknown mode name
      raises `AttributeError`; `CERT_NONE` while hostname checking is on
      raises `ValueError`. */
  function ConfigureSsl(checkHostname: bool, verifyMode: string): (r: Result<SslContext, Error>)
    ensures r.Success? <==> verifyMode in VerifyModes && !(checkHostname && verifyMode == "CERT_NONE")
    ensures r.Success? ==> r.value == SslContext(checkHostname, verifyMode)
  {
    if verifyMode !in VerifyModes then Failure(Unexpected("AttributeError: module 'ssl' has no attribute '" + verifyMode + "'"))
    else if checkHostname && verifyMode == "CERT_NONE" then
      Failure(Unexpected("ValueError: Cannot set verify_mode to CERT_NONE when check_hostname is enabled."))
    else Success(SslContext(checkHostname, verifyMode))
  }

  /** `init_elasticsearch_con`: the connection it opens and the index names
      it leaves behind, or the error configuring TLS raised before any
      connection was made. */
  function InitElasticsearchCon(cfg: EsConfig, ix: Indices): (r: Result<(EsConnection, Indices), Error>)
    ensures r.Failure? <==> MergeTls(cfg.tls).0 && ConfigureSsl(MergeTls(cfg.tls).1, MergeTls(cfg.tls).2).Failure?
    ensures r.Success? ==> r.value.0.host == cfg.host
    ensures r.Success? ==> (r.value.0.httpAuth.Some? <==> Truthy(cfg.user) && Truthy(cfg.password))
    ensures r.Success? && r.value.0.httpAuth.Some? ==> r.value.0.httpAuth.value == (cfg.user.value, cfg.password.value)
    ensures r.Success? && cfg.port.None? ==> r.value.0.port == DefaultEsPort
    ensures r.Success? && cfg.port.Some? ==> r.value.0.port == cfg.port.value
    ensures r.Success? ==> (r.value.0.useSsl <==> cfg.tls.Some? && cfg.tls.value.enabled == Some(true))
    ensures r.Success? ==> (r.value.0.useSsl <==> r.value.0.sslContext.Some?)
    ensures r.Success? ==> r.value.1 == ApplyIndexPrefix(cfg.indexPrefix, ix)
  {
    var auth := if Truthy(cfg.user) && Truthy(cfg.password) then Some((cfg.user.value, cfg.password.value)) else None;
    var port := cfg.port.GetOr(DefaultEsPort);
    var (enabled, checkHostname, verifyMode) := MergeTls(cfg.tls);
    if enabled then
      var ctx :- ConfigureSsl(checkHostname, verifyMode);
      Success((EsConnection(cfg.host, auth, port, true, Some(ctx)), ApplyIndexPrefix(cfg.indexPrefix, ix)))
    else
      Success((EsConnection(cfg.host, auth, port, false, None), ApplyIndexPrefix(cfg.indexPrefix, ix)))
  }

  /** Which TLS blocks make `init_elasticsearch_con` raise, read off the
      configuration: TLS is enabled and the verify mode names no mode, or it
      is `CERT_NONE` while `check_hostname` is left on. */
  lemma TlsRejected(cfg: EsConfig, ix: Indices)
    ensures InitElasticsearchCon(cfg, ix).Failure? <==>
              && cfg.tls.Some? && cfg.tls.value.enabled == Some(true)
              && var t := cfg.tls.value;
                 || (t.verifyMode.Some? && t.verifyMode.value !in VerifyModes)
                 || (t.verifyMode == Some("CERT_NONE") && t.checkHostname != Some(false))
  {
  }

  /** While TLS is off the other TLS settings are never looked at. */
  lemma DisabledTlsIgnored(cfg: EsConfig, t1: Option<TlsConfig>, t2: Option<TlsConfig>, ix: Indices)
    requires t1.None? || t1.value.enabled != Some(true)
    requires t2.None? || t2.value.enabled != Some(true)
    ensures InitElasticsearchCon(cfg.(tls := t1), ix) == InitElasticsearchCon(cfg.(tls := t2), ix)
  {
  }

  /** Credentials are sent only as a pair: dropping either half, or giving
      an empty one, opens the same unauthenticated connection. */
  lemma CredentialsArePaired(cfg: EsConfig, ix: Indices)
    requires !Truthy(cfg.user) || !Truthy(cfg.password)
    ensures InitElasticsearchCon(cfg, ix) == InitElasticsearchCon(cfg.(user := None, password := None), ix)
  {
  }

  /** A missing port and the default port open the same connection. */
  lemma DefaultPortImplicit(cfg: EsConfig, ix: Indices)
    requires cfg.port.None?
    ensures InitElasticsearchCon(cfg, ix) == InitElasticsearchCon(cfg.(port := Some(DefaultEsPort)), ix)
  {
  }

  /** The configuration keys `get_elasticsearch_parameters_from_config`
      reads. Those read with `.get` cannot tell an absent key from an
      explicit `None`; `ES_HOST` is read with `[]` and can. */
  datatype EsSettings = EsSettings(
    elasticsearch: Option<EsConfig>,
    esHost: Key<string>,
    esUser: Option<string>,
    esPassword: Option<string>,
    esPort: Option<int>,
    esIndexPrefix: Option<string>,
    esTls: Option<TlsConfig>)

  /** The host `ES_HOST` passes on: its value, or `None` when set to null. */
  function HostOf(k: Key<string>): Option<string> {
    if k.Given? then Some(k.value) else None
  }

  /** `get_elasticsearch_parameters_from_config`: an `ELASTICSEARCH` block
      wins; otherwise the flat `ES_*` keys, of which only `ES_HOST` is
      required (a missing one is a `KeyError`, a null one is passed on). */
  function EsParameters(s: EsSettings): (r: Result<EsConfig, Error>)
    ensures r.Failure? <==> s.elasticsearch.None? && s.esHost.Absent?
    ensures s.elasticsearch.Some? ==> r == Success(s.elasticsearch.value)
    ensures r.Success? && s.elasticsearch.None? ==>
              && (r.value.host.Some? <==> s.esHost.Given?)
              && (s.esHost.Given? ==> r.value.host.value == s.esHost.value)
              && r.value.user == s.esUser && r.value.password == s.esPassword
              && r.value.port == s.esPort && r.value.indexPrefix == s.esIndexPrefix && r.value.tls == s.esTls
  {
    if s.elasticsearch.Some? then Success(s.elasticsearch.value)
    else if s.esHost.Absent? then Failure(Unexpected("KeyError: 'ES_HOST'"))
    else Success(EsConfig(HostOf(s.esHost), s.esUser, s.esPassword, s.esPort, s.esIndexPrefix, s.esTls))
  }

  /** The flat keys and the equivalent `ELASTICSEARCH` block open the same
      connection under the same index names. */
  lemma FlatKeysMatchBlock(s: EsSettings, ix: Indices)
    requires s.elasticsearch.None? && s.esHost.Given?
    ensures var block := EsConfig(Some(s.esHost.value), s.esUser, s.esPassword, s.esPort, s.esIndexPrefix, s.esTls);
            var cfg := EsParameters(s.(elasticsearch := Some(block)));
            EsParameters(s).Success? && cfg.Success?
            && InitElasticsearchCon(EsParameters(s).value, ix) == InitElasticsearchCon(cfg.value, ix)
  {
  }

  /** Once an `ELASTICSEARCH` block is given, the flat keys are never read. */
  lemma BlockShadowsFlatKeys(s1: EsSettings, s2: EsSettings)
    requires s1.elasticsearch.Some? && s1.elasticsearch == s2.elasticsearch
    ensures EsParameters(s1) == EsParameters(s2)
  {
  }
}
