/** Turning the scraped files of one repository into index documents
    (`zubbi/scraper/repo_parser.py`). Every mapping with a `job` key in a
    Zuul file becomes a `ZuulJob`, and every collected role becomes an
    `AnsibleRole`. Loading YAML (with the loader's line annotations),
    hashing, rendering and the repository's URL builders are given as
    parameters in a `Context`. */
module RepoParser {
  import opened Wrappers
  import opened OrderedMap
  import opened Exceptions
  import opened Utils
  import opened Doc
  import opened Models
  import opened Scraper
  import opened TenantParser

  /** A job mapping as the loader delivers it, with the first and last line
      the loader recorded for it. A mapping without `name` has `None`. */
  datatype JobDef = JobDef(name: Option<string>, description: Key<string>, parent: Key<string>, lineStart: int, lineEnd: int)

  /** A top-level element of a Zuul file: a mapping whose `job` is a mapping,
      a mapping without a `job` or with a null one, or an element the loop
      cannot handle (a scalar where a mapping is expected), which raises.
      The loader annotates every mapping with its lines, so `job: {}` is
      not empty and is a `JobEntry` without a name. */
  datatype Element = JobEntry(def: JobDef) | NoJob | Malformed(reason: string)

  /** What the loader makes of a file: a parser or scanner error, a document
      that is not a list (which the loop cannot iterate), or the list. */
  datatype Loaded = YamlError | NotAList | Elements(elements: seq<Element>)

  /** Everything the parser reads besides the files: the repository's name
      and visibility, its tenants from the tenant map, the scrape time,
      whether the repository is configured as reusable, and the functions
      it calls but that are not part of this model. */
  datatype Context = Context(
    repo: string,
    private: bool,
    tenants: RepoEntry,
    scrapeTime: int,
    reusableRepo: bool,
    sha1: string -> string,
    urlForFile: (string, int, int) -> string,
    urlForDirectory: string -> string,
    load: string -> Loaded,
    sphinx: string -> SphinxRun,
    markdown: string -> string)

  /** `job_def.get("parent", "base")`. */
  function ParentOf(p: Key<string>): (r: Option<string>)
    ensures p.Absent? ==> r == Some("base")
    ensures p.Null? ==> r.None?
    ensures p.Given? ==> r == Some(p.value)
  {
    match p
    case Absent => Some("base")
    case Null => None
    case Given(n) => Some(n)
  }

  /** The `description` a job stores: the key's value, `None` when the key is
      absent or null. */
  function DescriptionOf(d: Key<string>): (r: Option<string>)
    ensures r.Some? <==> d.Given?
    ensures r.Some? ==> r.value == d.value
  {
    match d
    case Given(text) => Some(text)
    case _ => None
  }

  /** The rendered parts of a job description: the HTML, the platforms and
      the reusable flag. */
  datatype Rendered = Rendered(html: Option<string>, platforms: Option<seq<string>>, reusable: bool)

  /** Rendering a job description with Sphinx. Only a present key is
      rendered; a null one reaches the renderer as `None`, which cannot be
      written to the source file and raises a `TypeError`. A build error
      leaves the job unrendered; a `LookupError` is not caught here. Both
      exceptions end the parse. */
  function RenderDescription(ctx: Context, description: Key<string>): (r: Result<Rendered, Error>)
    ensures description.Absent? ==> r == Success(Rendered(None, None, false))
    ensures description.Null? ==> r.Failure?
    ensures description.Given? ==>
              (r.Failure? <==> RenderSphinx(description.value, ctx.sphinx) == Failure(LookupError))
    ensures r.Success? && r.value.html.Some? ==>
              description.Given? && RenderSphinx(description.value, ctx.sphinx).Success?
    ensures r.Success? && description.Given? && RenderSphinx(description.value, ctx.sphinx).Success? ==>
              var d := RenderSphinx(description.value, ctx.sphinx).value;
              r.value == Rendered(Some(d.html), Some(d.platforms), d.reusable)
    ensures r.Success? && r.value.html.None? ==> r.value.platforms.None? && !r.value.reusable
  {
    match description
    case Absent => Success(Rendered(None, None, false))
    case Null => Failure(Unexpected("TypeError: write() argument must be str, not None"))
    case Given(text) =>
      match RenderSphinx(text, ctx.sphinx)
      case Success(d) => Success(Rendered(Some(d.html), Some(d.platforms), d.reusable))
      case Failure(SphinxBuildError) => Success(Rendered(None, None, false))
      case Failure(LookupError) => Failure(Unexpected("LookupError"))
  }

  /** The document id: the hash of the repository name followed by the
      block name. */
  function BlockId(ctx: Context, name: string): string {
    ctx.sha1(ctx.repo + name)
  }

  /** The job built from one named job mapping of the file at `path`. */
  function JobOf(ctx: Context, path: string, info: JobFile, def: JobDef, name: string): (r: Result<ZuulJob, Error>)
    ensures r.Failure? <==> RenderDescription(ctx, def.description).Failure?
    ensures r.Success? ==>
              && r.value.id == BlockId(ctx, name)
              && r.value.jobName == name
              && r.value.repo == ctx.repo
              && r.value.tenants == ctx.tenants.jobs
              && r.value.private == ctx.private
              && r.value.scrapeTime == ctx.scrapeTime
              && r.value.lineStart == def.lineStart
              && r.value.lineEnd == def.lineEnd
              && r.value.lastUpdated == LastChangedFromBlameRange(def.lineStart, def.lineEnd, info.blame)
              && r.value.url == ctx.urlForFile(path, def.lineStart, def.lineEnd)
              && r.value.description == DescriptionOf(def.description)
              && r.value.parent == ParentOf(def.parent)
    ensures r.Success? ==>
              var d := RenderDescription(ctx, def.description).value;
              r.value.descriptionHtml == d.html && r.value.platforms == d.platforms
              && (r.value.reusable <==> ctx.reusableRepo || d.reusable)
  {
    var d :- RenderDescription(ctx, def.description);
    Success(ZuulJob(
      BlockId(ctx, name), name, ctx.repo, ctx.tenants.jobs, ctx.private, ctx.scrapeTime,
      def.lineStart, def.lineEnd, LastChangedFromBlameRange(def.lineStart, def.lineEnd, info.blame),
      ctx.urlForFile(path, def.lineStart, def.lineEnd),
      DescriptionOf(def.description), d.html, d.platforms, ctx.reusableRepo || d.reusable, ParentOf(def.parent)))
  }

  /** A job's id depends on nothing but the repository and the job's name: a
      job of the same name defined again, in another file or with another
      mapping, gets the same id and so replaces the first in the index. */
  lemma SameNameSameId(ctx: Context, path1: string, info1: JobFile, def1: JobDef,
                       path2: string, info2: JobFile, def2: JobDef, name: string)
    requires JobOf(ctx, path1, info1, def1, name).Success? && JobOf(ctx, path2, info2, def2, name).Success?
    ensures JobOf(ctx, path1, info1, def1, name).value.id == JobOf(ctx, path2, info2, def2, name).value.id
  {
  }

  /** The description only reaches the description fields and the reusable
      flag: two mappings that differ in nothing else give jobs that differ in
      nothing else, and in a reusable repository not even in the flag. */
  lemma DescriptionOnlyAffectsDescription(ctx: Context, path: string, info: JobFile, def: JobDef,
                                          d1: Key<string>, d2: Key<string>, name: string)
    requires JobOf(ctx, path, info, def.(description := d1), name).Success?
    requires JobOf(ctx, path, info, def.(description := d2), name).Success?
    ensures var j1 := JobOf(ctx, path, info, def.(description := d1), name).value;
            var j2 := JobOf(ctx, path, info, def.(description := d2), name).value;
            j1.(description := None, descriptionHtml := None, platforms := None, reusable := false)
            == j2.(description := None, descriptionHtml := None, platforms := None, reusable := false)
            && (ctx.reusableRepo ==> j1.reusable && j2.reusable)
  {
  }

  /** A mapping whose description is null cannot become a job. */
  lemma NullDescriptionRaises(ctx: Context, path: string, info: JobFile, def: JobDef, name: string)
    requires def.description.Null?
    ensures JobOf(ctx, path, info, def, name).Failure?
  {
  }

  /** The loop of `parse_job_definitions` over the elements of one file:
      elements without a job are skipped, and the first exception ends the
      loop. */
  function ElementJobs(ctx: Context, path: string, info: JobFile, es: seq<Element>): Result<seq<ZuulJob>, Error>
    decreases |es|
  {
    if |es| == 0 then Success([])
    else
      match es[0]
      case NoJob => ElementJobs(ctx, path, info, es[1..])
      case Malformed(reason) => Failure(Unexpected(reason))
      case JobEntry(def) =>
        if def.name.None? then Failure(Unexpected("KeyError: 'name'"))
        else
          var job :- JobOf(ctx, path, info, def, def.name.value);
          var rest :- ElementJobs(ctx, path, info, es[1..]);
          Success([job] + rest)
  }

  /** `parse_job_definitions`: a file that does not parse has no jobs. */
  function ParseJobDefinitions(ctx: Context, path: string, info: JobFile): (r: Result<seq<ZuulJob>, Error>)
    ensures ctx.load(info.content).YamlError? ==> r == Success([])
    ensures ctx.load(info.content).NotAList? ==> r.Failure?
  {
    match ctx.load(info.content)
    case YamlError => Success([])
    case NotAList => Failure(Unexpected("TypeError: 'NoneType' object is not iterable"))
    case Elements(es) => ElementJobs(ctx, path, info, es)
  }

  /** `parse_job_files`: the jobs of every file, files in collection order. */
  function ParseJobFiles(ctx: Context, files: JobFiles): Result<seq<ZuulJob>, Error>
    decreases |files|
  {
    if |files| == 0 then Success([])
    else
      var jobs :- ParseJobDefinitions(ctx, files[0].0, files[0].1);
      var rest :- ParseJobFiles(ctx, files[1..]);
      Success(jobs + rest)
  }

  // Reference definitions for the job loop.

  /** The job mappings among the elements, in order. */
  function JobDefs(es: seq<Element>): seq<JobDef>
    decreases |es|
  {
    if |es| == 0 then []
    else if es[0].JobEntry? then [es[0].def] + JobDefs(es[1..])
    else JobDefs(es[1..])
  }

  /** No element raises: none is malformed, every job mapping has a name and
      no description hits a `LookupError`. */
  predicate Wellformed(ctx: Context, es: seq<Element>) {
    forall i :: 0 <= i < |es| ==>
      && !es[i].Malformed?
      && (es[i].JobEntry? ==> es[i].def.name.Some? && RenderDescription(ctx, es[i].def.description).Success?)
  }

  /** On well-formed elements the loop succeeds with exactly one job per job
      mapping, in order, each built from its own mapping. */
  lemma {:induction false} ElementJobsSpec(ctx: Context, path: string, info: JobFile, es: seq<Element>)
    requires Wellformed(ctx, es)
    ensures ElementJobs(ctx, path, info, es).Success?
    ensures var jobs := ElementJobs(ctx, path, info, es).value;
            var defs := JobDefs(es);
            |jobs| == |defs|
            && forall i :: 0 <= i < |jobs| ==>
                 defs[i].name.Some? && JobOf(ctx, path, info, defs[i], defs[i].name.value) == Success(jobs[i])
    decreases |es|
  {
    if |es| > 0 {
      assert Wellformed(ctx, es[1..]) by {
        forall i | 0 <= i < |es| - 1 ensures !es[1..][i].Malformed? {
          assert es[1..][i] == es[i + 1];
        }
        forall i | 0 <= i < |es| - 1 && es[1..][i].JobEntry?
          ensures es[1..][i].def.name.Some? && RenderDescription(ctx, es[1..][i].def.description).Success?
        {
          assert es[1..][i] == es[i + 1];
        }
      }
      ElementJobsSpec(ctx, path, info, es[1..]);
      assert !es[0].Malformed?;
    }
  }

  /** Every job of a file carries the repository's name, visibility,
      scrape time and job tenants, an id determined by its name, and is
      reusable whenever the repository is. */
  predicate Stamped(ctx: Context, jobs: seq<ZuulJob>) {
    forall i :: 0 <= i < |jobs| ==>
      && jobs[i].id == BlockId(ctx, jobs[i].jobName)
      && jobs[i].repo == ctx.repo
      && jobs[i].tenants == ctx.tenants.jobs
      && jobs[i].private == ctx.private
      && jobs[i].scrapeTime == ctx.scrapeTime
      && (ctx.reusableRepo ==> jobs[i].reusable)
  }

  lemma StampedAppend(ctx: Context, xs: seq<ZuulJob>, ys: seq<ZuulJob>)
    requires Stamped(ctx, xs) && Stamped(ctx, ys)
    ensures Stamped(ctx, xs + ys)
  {
    forall i | 0 <= i < |xs + ys| ensures (xs + ys)[i] == if i < |xs| then xs[i] else ys[i - |xs|] {
    }
  }

  lemma {:induction false} ElementJobsStamped(ctx: Context, path: string, info: JobFile, es: seq<Element>)
    ensures ElementJobs(ctx, path, info, es).Success? ==> Stamped(ctx, ElementJobs(ctx, path, info, es).value)
    decreases |es|
  {
    if |es| > 0 {
      ElementJobsStamped(ctx, path, info, es[1..]);
      match es[0]
      case NoJob =>
      case Malformed(_) =>
      case JobEntry(def) =>
        if def.name.Some? && JobOf(ctx, path, info, def, def.name.value).Success?
           && ElementJobs(ctx, path, info, es[1..]).Success? {
          StampedAppend(ctx, [JobOf(ctx, path, info, def, def.name.value).value], ElementJobs(ctx, path, info, es[1..]).value);
        }
    }
  }

  /** The jobs of a whole repository are stamped the same way, whatever file
      they come from. */
  lemma {:induction false} ParseJobFilesStamped(ctx: Context, files: JobFiles)
    ensures ParseJobFiles(ctx, files).Success? ==> Stamped(ctx, ParseJobFiles(ctx, files).value)
    decreases |files|
  {
    if |files| > 0 {
      ParseJobFilesStamped(ctx, files[1..]);
      var path := files[0].0;
      var info := files[0].1;
      if ParseJobDefinitions(ctx, path, info).Success? && ParseJobFiles(ctx, files[1..]).Success? {
        match ctx.load(info.content)
        case YamlError =>
        case NotAList =>
        case Elements(es) => ElementJobsStamped(ctx, path, info, es);
        StampedAppend(ctx, ParseJobDefinitions(ctx, path, info).value, ParseJobFiles(ctx, files[1..]).value);
      }
    }
  }

  /** The files are parsed independently: the jobs of a concatenation of
      file collections are the jobs of each, one after the other. */
  lemma {:induction false} ParseJobFilesAppend(ctx: Context, xs: JobFiles, ys: JobFiles)
    ensures ParseJobFiles(ctx, xs).Failure? ==> ParseJobFiles(ctx, xs + ys) == ParseJobFiles(ctx, xs)
    ensures ParseJobFiles(ctx, xs).Success? && ParseJobFiles(ctx, ys).Failure? ==>
              ParseJobFiles(ctx, xs + ys) == ParseJobFiles(ctx, ys)
    ensures ParseJobFiles(ctx, xs).Success? && ParseJobFiles(ctx, ys).Success? ==>
              ParseJobFiles(ctx, xs + ys) == Success(ParseJobFiles(ctx, xs).value + ParseJobFiles(ctx, ys).value)
    decreases |xs|
  {
    if |xs| == 0 {
      assert xs + ys == ys;
      var none: seq<ZuulJob> := [];
      if ParseJobFiles(ctx, ys).Success? {
        assert none + ParseJobFiles(ctx, ys).value == ParseJobFiles(ctx, ys).value;
      }
    } else {
      assert (xs + ys)[0] == xs[0];
      assert (xs + ys)[1..] == xs[1..] + ys;
      ParseJobFilesAppend(ctx, xs[1..], ys);
      var head := ParseJobDefinitions(ctx, xs[0].0, xs[0].1);
      if head.Success? && ParseJobFiles(ctx, xs[1..] + ys).Success? {
        var a := ParseJobFiles(ctx, xs[1..]).value;
        var b := ParseJobFiles(ctx, ys).value;
        assert head.value + (a + b) == (head.value + a) + b;
      }
    }
  }

  /** A file that does not parse drops out and nothing else changes. */
  lemma ParseErrorIsolated(ctx: Context, xs: JobFiles, path: string, info: JobFile, ys: JobFiles)
    requires ctx.load(info.content).YamlError?
    ensures ParseJobFiles(ctx, xs + [(path, info)] + ys) == ParseJobFiles(ctx, xs + ys)
  {
    ParseJobFilesAppend(ctx, xs + [(path, info)], ys);
    ParseJobFilesAppend(ctx, xs, [(path, info)]);
    ParseJobFilesAppend(ctx, xs, ys);
    assert [(path, info)][1..] == [];
    assert ParseJobDefinitions(ctx, path, info) == Success([]);
    assert ParseJobFiles(ctx, [(path, info)][1..]) == Success([]);
    var none: seq<ZuulJob> := [];
    assert none + none == none;
    var one := ParseJobFiles(ctx, [(path, info)]);
    assert one == Success([]);
    if ParseJobFiles(ctx, xs).Success? {
      assert ParseJobFiles(ctx, xs).value + [] == ParseJobFiles(ctx, xs).value;
    }
  }

  // Roles.

  /** The role built from one collected role directory. The README's raw
      content is always the description; its rendering, if any, adds the
      HTML and (from Sphinx) the platforms and the reusable flag. Of the
      changelog only the rendered HTML is kept besides the raw text. */
  function RoleOf(ctx: Context, name: string, info: RoleFile): (r: AnsibleRole)
    ensures r.id == BlockId(ctx, name) && r.roleName == name && r.repo == ctx.repo
    ensures r.tenants == ctx.tenants.roles && r.private == ctx.private && r.scrapeTime == ctx.scrapeTime
    ensures r.url == ctx.urlForDirectory("roles/" + name)
    ensures r.lastUpdated == info.lastChanged
    ensures r.description == (if info.readme.Some? then Some(info.readme.value.content) else None)
    ensures r.changelog == (if info.changelog.Some? then Some(info.changelog.value.content) else None)
    ensures r.descriptionHtml.Some? <==>
              info.readme.Some? && RenderFile(info.readme.value.path, info.readme.value.content, ctx.sphinx, ctx.markdown).Some?
    ensures r.platforms.Some? ==>
              info.readme.Some? && RenderFile(info.readme.value.path, info.readme.value.content, ctx.sphinx, ctx.markdown).Some?
    ensures r.changelogHtml.Some? <==>
              info.changelog.Some? && RenderFile(info.changelog.value.path, info.changelog.value.content, ctx.sphinx, ctx.markdown).Some?
    ensures r.reusable <==> ctx.reusableRepo || ReadmeReusable(ctx, info)
  {
    var (description, html, platforms, reusable) :=
      match info.readme
      case None => (None, None, None, false)
      case Some(f) =>
        match RenderFile(f.path, f.content, ctx.sphinx, ctx.markdown)
        case None => (Some(f.content), None, None, false)
        case Some(MarkdownDoc(h)) => (Some(f.content), Some(h), None, false)
        case Some(SphinxDoc(h, p, re)) => (Some(f.content), Some(h), Some(p), re);
    var (changelog, changelogHtml) :=
      match info.changelog
      case None => (None, None)
      case Some(f) =>
        match RenderFile(f.path, f.content, ctx.sphinx, ctx.markdown)
        case None => (Some(f.content), None)
        case Some(d) => (Some(f.content), Some(d.html));
    AnsibleRole(
      BlockId(ctx, name), name, ctx.repo, ctx.tenants.roles, ctx.private,
      ctx.urlForDirectory("roles/" + name), ctx.scrapeTime, info.lastChanged,
      description, html, platforms, changelog, changelogHtml, ctx.reusableRepo || reusable)
  }

  /** The README renders with Sphinx and declares the role reusable. */
  predicate ReadmeReusable(ctx: Context, info: RoleFile) {
    && info.readme.Some?
    && var d := RenderFile(info.readme.value.path, info.readme.value.content, ctx.sphinx, ctx.markdown);
       d.Some? && d.value.SphinxDoc? && d.value.reusable
  }

  /** The changelog never affects anything but the two changelog fields. */
  lemma ChangelogOnlyAffectsChangelog(ctx: Context, name: string, lc: Option<string>, readme: Option<MatchedFile>,
                                      c1: Option<MatchedFile>, c2: Option<MatchedFile>)
    ensures RoleOf(ctx, name, RoleFile(lc, readme, c1)).(changelog := None, changelogHtml := None)
         == RoleOf(ctx, name, RoleFile(lc, readme, c2)).(changelog := None, changelogHtml := None)
  {
  }

  /** `parse_roles_dir`: one role per collected role, in collection order. */
  function ParseRolesDir(ctx: Context, roles: RoleFiles): (r: seq<AnsibleRole>)
    ensures |r| == |roles|
    ensures forall i :: 0 <= i < |roles| ==> r[i] == RoleOf(ctx, roles[i].0, roles[i].1)
  {
    seq(|roles|, i requires 0 <= i < |roles| => RoleOf(ctx, roles[i].0, roles[i].1))
  }

  /** `parse`: the jobs, then the roles. Only a job file can end the parse
      with an exception. */
  function Parse(ctx: Context, jobFiles: JobFiles, roleFiles: RoleFiles): (r: Result<(seq<ZuulJob>, seq<AnsibleRole>), Error>)
    ensures r.Success? <==> ParseJobFiles(ctx, jobFiles).Success?
    ensures r.Success? ==> r.value.0 == ParseJobFiles(ctx, jobFiles).value
    ensures r.Success? ==> r.value.1 == ParseRolesDir(ctx, roleFiles)
  {
    var jobs :- ParseJobFiles(ctx, jobFiles);
    Success((jobs, ParseRolesDir(ctx, roleFiles)))
  }

  /** In a repository configured as reusable every job and every role is
      reusable, whatever their documentation says. */
  lemma ReusableRepoMakesAllReusable(ctx: Context, jobFiles: JobFiles, roleFiles: RoleFiles)
    requires ctx.reusableRepo
    requires Parse(ctx, jobFiles, roleFiles).Success?
    ensures forall i :: 0 <= i < |Parse(ctx, jobFiles, roleFiles).value.0| ==> Parse(ctx, jobFiles, roleFiles).value.0[i].reusable
    ensures forall i :: 0 <= i < |Parse(ctx, jobFiles, roleFiles).value.1| ==> Parse(ctx, jobFiles, roleFiles).value.1[i].reusable
  {
    ParseJobFilesStamped(ctx, jobFiles);
  }
}
