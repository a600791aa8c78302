/**
 * `print_err`, `mkdir_p`, `process_page` and `crawl_sitemap`: the crawl as
 * a sequence of effects on a small world made of directories, files, the
 * error log, the sleeps taken and the position in the network's answers.
 *
 * The pure functions (`PageStep`, `Pages`, `Crawl`) say what each step does
 * to a `Snapshot` of the world; the `World` class carries out the same steps
 * in place, and each of its methods is proved to agree with its function.
 */
module Crawler {
  import opened Base
  import opened Text
  import opened Errors
  import opened Fetcher
  import opened Extract
  import opened Shard

  /** The sitemap the crawl starts from. */
  const SitemapUrl: string := "https://kuing.cjhb.site/sitemap.xml"

  /** What a page's file holds: the record `save_json` writes, or the page `save_preview` writes. */
  datatype Artifact = JsonFile(record: Record) | HtmlFile(page: string)

  /**
   * What the crawl depends on and this model does not compute: Python's
   * salted `hash`, the HTML parser (with the status markers and quoted-reply
   * fonts already removed), the XML parser (the texts of the `<loc>`
   * elements, or the parse error's message), the TeX rewriters, the text of
   * `template.html` (or the message of the error reading it), and the
   * outcomes of the `perform` calls of the n-th request (request 0 is the
   * sitemap).
   */
  datatype Env = Env(
    hash: string -> int,
    parseHtml: seq<byte> -> Document,
    parseSitemap: seq<byte> -> Result<seq<string>, string>,
    tex: TexRewriters,
    template: Result<string, string>,
    net: nat -> seq<Attempt>)

  /** Every request has an outcome for each of the `perform` calls it may make. */
  ghost predicate NetworkReady(env: Env)
  {
    forall n: nat :: |env.net(n)| >= MaxAttempts
  }

  /**
   * The world the crawl changes: existing directories, written files, the
   * text of `error.log`, the delays slept, how many requests have been
   * made, and the URLs `process_page` has been called with.
   */
  datatype Snapshot = Snapshot(
    dirs: set<string>,
    files: map<string, Artifact>,
    log: string,
    slept: seq<int>,
    requests: nat,
    visited: seq<string>)

  // ---------------------------------------------------------------------
  // The steps, as functions of the world

  /** The line `print_err` appends to `error.log`. */
  function LogEntry(msg: string): string
  {
    "[error] " + msg + "\n"
  }

  /** The message logged when a page fails. */
  function PageError(url: string, e: PyError): string
  {
    "Error processing " + url + ": " + Message(e)
  }

  /** The message logged when the sitemap fails. */
  function SitemapError(e: PyError): string
  {
    "Error crawling sitemap: " + Message(e)
  }

  /** `print_err(msg)`. */
  function Logged(s: Snapshot, msg: string): (t: Snapshot)
    ensures |t.log| == |s.log| + |LogEntry(msg)|
    ensures t.log[..|s.log|] == s.log && t.log[|s.log|..] == LogEntry(msg)
    ensures t.(log := s.log) == s
  {
    s.(log := s.log + LogEntry(msg))
  }

  /**
   * `mkdir_p(path)`: nothing to do when the directory exists, an error when
   * it may not be created, otherwise it is created.
   */
  function MakeDirs(s: Snapshot, path: string, denied: set<string>): (r: Result<Snapshot, PyError>)
    ensures path in s.dirs ==> r == Success(s)
    ensures r.Failure? <==> path !in s.dirs && path in denied
    ensures r.Failure? ==> r.error == MkdirFailed
    ensures r.Success? ==> r.value == s.(dirs := s.dirs + {path})
  {
    if path in s.dirs then Success(s)
    else if path in denied then Failure(MkdirFailed)
    else Success(s.(dirs := s.dirs + {path}))
  }

  /** `open(path, "w")` and writing `a` to it. */
  function WriteFile(s: Snapshot, path: string, a: Artifact, denied: set<string>): (r: Result<Snapshot, PyError>)
    ensures r.Failure? <==> path in denied
    ensures r.Failure? ==> r.error == PermissionDenied(path)
    ensures r.Success? ==> r.value.files == s.files[path := a] && r.value.(files := s.files) == s
  {
    if path in denied then Failure(PermissionDenied(path)) else Success(s.(files := s.files[path := a]))
  }

  /**
   * `curl(url, c)` as the next request: it consumes one request's outcomes,
   * sleeps at most `MaxRetries` times and changes nothing else.
   */
  function Fetch(s: Snapshot, url: string, env: Env): (r: (Snapshot, FetchResult))
    requires NetworkReady(env)
    ensures r.0.requests == s.requests + 1
    ensures s.slept <= r.0.slept && |r.0.slept| <= |s.slept| + MaxRetries
    ensures r.0.(slept := s.slept, requests := s.requests) == s
  {
    var attempts := env.net(s.requests);
    CallsBounded(url, attempts);
    (s.(slept := s.slept + DelaySpec(url, attempts), requests := s.requests + 1), FetchSpec(url, attempts))
  }

  /**
   * The writes of an accepted page: its shard directory, then the JSON
   * record, then (after reading the template) the preview. The first error
   * stops the rest; what was written before it stays.
   */
  function Save(s: Snapshot, url: string, c: Content, env: Env, denied: set<string>): (r: (Snapshot, Option<PyError>))
    ensures r.0.(dirs := s.dirs, files := s.files) == s
    ensures s.dirs <= r.0.dirs && s.files.Keys <= r.0.files.Keys
  {
    var path := FilePath(url, env.hash);
    match MakeDirs(s, Dirname(path), denied)
    case Failure(e) => (s, Some(e))
    case Success(s1) =>
      match WriteFile(s1, path + ".json", JsonFile(MakeRecord(url, c)), denied)
      case Failure(e) => (s1, Some(e))
      case Success(s2) =>
        match env.template
        case Failure(m) => (s2, Some(TemplateUnreadable(m)))
        case Success(t) =>
          match WriteFile(s2, path + ".html", HtmlFile(Preview(t, c.text, url)), denied)
          case Failure(e) => (s2, Some(e))
          case Success(s3) => (s3, None)
  }

  /**
   * `process_page(url, c)`: every error is logged and swallowed; only an
   * interrupt is passed on.
   */
  function PageStep(s: Snapshot, url: string, env: Env, denied: set<string>): (r: (Snapshot, Option<Abort>))
    requires NetworkReady(env)
    ensures r.0.visited == s.visited + [url]
    ensures r.0.requests == s.requests + 1
    ensures r.0.slept == s.slept + DelaySpec(url, env.net(s.requests))
    ensures s.log <= r.0.log && s.dirs <= r.0.dirs && s.files.Keys <= r.0.files.Keys
  {
    var (s1, r) := Fetch(s.(visited := s.visited + [url]), url, env);
    match r
    case Aborted(k) => (s1, Some(k))
    case FetchFailed(e) => (Logged(s1, PageError(url, e)), None)
    case Fetched(body) =>
      match ExtractContent(env.parseHtml(body), env.tex)
      case Failure(e) => (Logged(s1, PageError(url, e)), None)
      case Success(c) =>
        if c.forum != TargetForum then (s1, None)
        else
          var (s2, err) := Save(s1, url, c, env, denied);
          if err.Some? then (Logged(s2, PageError(url, err.value)), None) else (s2, None)
  }

  /** The loop of `crawl_sitemap` over the sitemap's URLs, stopped by the first interrupt. */
  function Pages(s: Snapshot, urls: seq<string>, env: Env, denied: set<string>): (r: (Snapshot, Option<Abort>))
    requires NetworkReady(env)
    ensures s.log <= r.0.log && s.requests <= r.0.requests
    decreases |urls|
  {
    if urls == [] then (s, None)
    else
      var (t, a) := PageStep(s, urls[0], env, denied);
      if a.Some? then (t, a) else Pages(t, urls[1..], env, denied)
  }

  /** One turn of the loop over the sitemap's URLs. */
  lemma PagesCons(s: Snapshot, urls: seq<string>, env: Env, denied: set<string>)
    requires NetworkReady(env) && urls != []
    ensures var step := PageStep(s, urls[0], env, denied);
      Pages(s, urls, env, denied) == if step.1.Some? then step else Pages(step.0, urls[1..], env, denied)
  {
  }

  /** `crawl_sitemap()`: a failure of the sitemap itself is logged once. */
  function Crawl(s: Snapshot, env: Env, denied: set<string>): (r: (Snapshot, Option<Abort>))
    requires NetworkReady(env)
    ensures s.log <= r.0.log && r.0.requests > s.requests
  {
    var (s1, r) := Fetch(s, SitemapUrl, env);
    AfterSitemap(s1, r, env, denied)
  }

  /** What `crawl_sitemap` does once the sitemap request has returned or raised. */
  function AfterSitemap(s: Snapshot, r: FetchResult, env: Env, denied: set<string>): (t: (Snapshot, Option<Abort>))
    requires NetworkReady(env)
    ensures s.log <= t.0.log && s.requests <= t.0.requests
    ensures t.1.Some? ==> r.Aborted? || r.Fetched?
    ensures !r.Fetched? ==> t.0.visited == s.visited && t.0.files == s.files
  {
    match r
    case Aborted(k) => (s, Some(k))
    case FetchFailed(e) => (Logged(s, SitemapError(e)), None)
    case Fetched(body) =>
      match env.parseSitemap(body)
      case Failure(m) => (Logged(s, SitemapError(XmlParseError(m))), None)
      case Success(urls) => Pages(s, urls, env, denied)
  }

  // ---------------------------------------------------------------------
  // What one page does

  /** The JSON path of a page. */
  function JsonPath(url: string, env: Env): string
  {
    FilePath(url, env.hash) + ".json"
  }

  /** The preview path of a page. */
  function HtmlPath(url: string, env: Env): string
  {
    FilePath(url, env.hash) + ".html"
  }

  /**
   * A page of another forum leaves no trace: no directory, no file and no
   * log line, only the request and its sleeps.
   */
  lemma SkipLeavesNoTrace(s: Snapshot, url: string, env: Env, denied: set<string>)
    requires NetworkReady(env)
    requires FetchSpec(url, env.net(s.requests)).Fetched?
    requires var c := ExtractContent(env.parseHtml(FetchSpec(url, env.net(s.requests)).body), env.tex);
      c.Success? && c.value.forum != TargetForum
    ensures var (t, a) := PageStep(s, url, env, denied);
      && a == None
      && t.dirs == s.dirs && t.files == s.files && t.log == s.log
  {
  }

  /** Only an interrupt escapes a page, and it leaves the files and the log as they were. */
  lemma OnlyInterruptsEscape(s: Snapshot, url: string, env: Env, denied: set<string>)
    requires NetworkReady(env)
    ensures var (t, a) := PageStep(s, url, env, denied);
      && (a.Some? <==> FetchSpec(url, env.net(s.requests)).Aborted?)
      && (a.Some? ==> a.value == FetchSpec(url, env.net(s.requests)).kind
                      && t.dirs == s.dirs && t.files == s.files && t.log == s.log)
  {
  }

  /**
   * Every error of a page is logged, once, with the page's URL: a failed
   * fetch, a failed extraction and a failed save each append exactly their
   * line, and a page that fails in none of these ways logs nothing.
   */
  lemma PageErrorsAreLogged(s: Snapshot, url: string, env: Env, denied: set<string>)
    requires NetworkReady(env)
    ensures var f := FetchSpec(url, env.net(s.requests));
      var t := PageStep(s, url, env, denied).0;
      && (f.Aborted? ==> t.log == s.log)
      && (f.FetchFailed? ==> t.log == s.log + LogEntry(PageError(url, f.error)))
      && (f.Fetched? ==>
            var x := ExtractContent(env.parseHtml(f.body), env.tex);
            && (x.Failure? ==> t.log == s.log + LogEntry(PageError(url, x.error)))
            && (x.Success? && x.value.forum != TargetForum ==> t.log == s.log)
            && (x.Success? && x.value.forum == TargetForum ==>
                  var err := Save(s, url, x.value, env, denied).1;
                  && (err.Some? ==> t.log == s.log + LogEntry(PageError(url, err.value)))
                  && (err.None? ==> t.log == s.log)))
  {
    var f := FetchSpec(url, env.net(s.requests));
    if f.Fetched? {
      var x := ExtractContent(env.parseHtml(f.body), env.tex);
      if x.Success? && x.value.forum == TargetForum {
        var s1 := Fetch(s.(visited := s.visited + [url]), url, env).0;
        SaveErrorIgnoresProgress(s, s1, url, x.value, env, denied);
      }
    }
  }

  /** Whether the writes fail depends on the directories only, not on the requests made so far. */
  lemma SaveErrorIgnoresProgress(s: Snapshot, s': Snapshot, url: string, c: Content, env: Env, denied: set<string>)
    requires s'.dirs == s.dirs
    ensures Save(s', url, c, env, denied).1 == Save(s, url, c, env, denied).1
  {
  }

  /** A page without a title, or whose title has no " - ", is logged with the matching error. */
  lemma BadTitleLogged(s: Snapshot, url: string, env: Env, denied: set<string>)
    requires NetworkReady(env)
    requires FetchSpec(url, env.net(s.requests)).Fetched?
    ensures var doc := env.parseHtml(FetchSpec(url, env.net(s.requests)).body);
      var t := PageStep(s, url, env, denied).0;
      && (doc.title.None? ==> t.log == s.log + LogEntry(PageError(url, NoTitle)))
      && (doc.title.Some? && !Contains(doc.title.value, TitleSep) ==>
            t.log == s.log + LogEntry(PageError(url, TitleIndexError)))
  {
    PageErrorsAreLogged(s, url, env, denied);
  }

  /**
   * A page of the target forum, whose shard directory and files may be
   * created and whose template can be read, gets its JSON record and its
   * preview, and nothing is logged.
   */
  lemma AcceptedPageSaved(s: Snapshot, url: string, env: Env, denied: set<string>)
    requires NetworkReady(env)
    requires FetchSpec(url, env.net(s.requests)).Fetched?
    requires var c := ExtractContent(env.parseHtml(FetchSpec(url, env.net(s.requests)).body), env.tex);
      c.Success? && c.value.forum == TargetForum
    requires ShardDir(ShardId(env.hash(url))) !in denied
    requires JsonPath(url, env) !in denied && HtmlPath(url, env) !in denied
    requires env.template.Success?
    ensures var c := ExtractContent(env.parseHtml(FetchSpec(url, env.net(s.requests)).body), env.tex).value;
      var (t, a) := PageStep(s, url, env, denied);
      && a == None
      && t.log == s.log
      && t.dirs == s.dirs + {ShardDir(ShardId(env.hash(url)))}
      && t.files == s.files[JsonPath(url, env) := JsonFile(MakeRecord(url, c))]
                           [HtmlPath(url, env) := HtmlFile(Preview(env.template.value, c.text, url))]
  {
  }

  /**
   * A page writes only its own two files and creates only its own shard
   * directory; every other file keeps its content.
   */
  lemma PageWritesOnlyItsShard(s: Snapshot, url: string, env: Env, denied: set<string>)
    requires NetworkReady(env)
    ensures var t := PageStep(s, url, env, denied).0;
      && t.dirs <= s.dirs + {ShardDir(ShardId(env.hash(url)))}
      && forall p :: p in t.files && p != JsonPath(url, env) && p != HtmlPath(url, env) ==>
           p in s.files && t.files[p] == s.files[p]
  {
    var s0 := s.(visited := s.visited + [url]);
    var (s1, r) := Fetch(s0, url, env);
    if r.Fetched? {
      var e := ExtractContent(env.parseHtml(r.body), env.tex);
      if e.Success? && e.value.forum == TargetForum {
        SaveWritesOnlyItsShard(s1, url, e.value, env, denied);
      }
    }
  }

  /** The writes of a page touch only its shard directory and its two files. */
  lemma SaveWritesOnlyItsShard(s: Snapshot, url: string, c: Content, env: Env, denied: set<string>)
    ensures var t := Save(s, url, c, env, denied).0;
      && t.dirs <= s.dirs + {ShardDir(ShardId(env.hash(url)))}
      && forall p :: p in t.files && p != JsonPath(url, env) && p != HtmlPath(url, env) ==>
           p in s.files && t.files[p] == s.files[p]
  {
  }

  /**
   * `save_preview` runs only once `save_json` has written the record: a
   * preview this call wrote or changed comes with this page's record, also
   * when an earlier page of the same shard left its files there.
   */
  lemma SavePreviewAfterRecord(s: Snapshot, url: string, c: Content, env: Env, denied: set<string>)
    ensures var t := Save(s, url, c, env, denied).0;
      var html := HtmlPath(url, env);
      html in t.files && (html !in s.files || t.files[html] != s.files[html]) ==>
        JsonPath(url, env) in t.files && t.files[JsonPath(url, env)] == JsonFile(MakeRecord(url, c))
  {
    assert JsonPath(url, env) != HtmlPath(url, env) by {
      var f := FilePath(url, env.hash);
      assert (f + ".json")[|f| + 1] == 'j';
    }
    SaveStopsAtFirstError(s, url, c, env, denied);
  }

  /**
   * The writes of an accepted page happen in order (shard directory, JSON
   * record, template, preview) and the first error stops the rest, keeping
   * what was done before it.
   */
  lemma SaveStopsAtFirstError(s: Snapshot, url: string, c: Content, env: Env, denied: set<string>)
    ensures var dir := ShardDir(ShardId(env.hash(url)));
      var s1 := s.(dirs := s.dirs + {dir});
      var s2 := s1.(files := s.files[JsonPath(url, env) := JsonFile(MakeRecord(url, c))]);
      var (t, err) := Save(s, url, c, env, denied);
      if dir !in s.dirs && dir in denied then
        t == s && err == Some(MkdirFailed)
      else if JsonPath(url, env) in denied then
        t == s1 && err == Some(PermissionDenied(JsonPath(url, env)))
      else if env.template.Failure? then
        t == s2 && err == Some(TemplateUnreadable(env.template.error))
      else if HtmlPath(url, env) in denied then
        t == s2 && err == Some(PermissionDenied(HtmlPath(url, env)))
      else
        t == s2.(files := s2.files[HtmlPath(url, env) := HtmlFile(Preview(env.template.value, c.text, url))])
        && err == None
  {
    var dir := ShardDir(ShardId(env.hash(url)));
    if dir in s.dirs {
      assert s.(dirs := s.dirs + {dir}) == s;
    }
  }

  // ---------------------------------------------------------------------
  // What the crawl does

  /**
   * The sitemap's URLs are processed once each and in order, one request
   * each: after the loop, the pages visited are a prefix of the URLs.
   */
  lemma PagesInOrder(s: Snapshot, urls: seq<string>, env: Env, denied: set<string>)
    requires NetworkReady(env)
    ensures var t := Pages(s, urls, env, denied).0;
      var n := |t.visited| - |s.visited|;
      && 0 <= n <= |urls|
      && t.visited == s.visited + urls[..n]
      && t.requests == s.requests + n
  {
    PagesVisitPrefix(s, urls, env, denied);
    PagesOneRequestEach(s, urls, env, denied);
  }

  /** The pages visited by the loop are the next URLs of the sitemap, in order. */
  lemma {:induction false} PagesVisitPrefix(s: Snapshot, urls: seq<string>, env: Env, denied: set<string>)
    requires NetworkReady(env)
    ensures var t := Pages(s, urls, env, denied).0;
      var n := |t.visited| - |s.visited|;
      0 <= n <= |urls| && t.visited == s.visited + urls[..n]
    decreases |urls|
  {
    if urls != [] {
      PagesCons(s, urls, env, denied);
      var (t1, a1) := PageStep(s, urls[0], env, denied);
      if a1.None? {
        PagesVisitPrefix(t1, urls[1..], env, denied);
        PrefixStep(s.visited, urls, t1.visited, Pages(t1, urls[1..], env, denied).0.visited);
      } else {
        PrefixStep(s.visited, urls, t1.visited, t1.visited);
      }
    }
  }

  /** The loop makes exactly one request per page it visits. */
  lemma {:induction false} PagesOneRequestEach(s: Snapshot, urls: seq<string>, env: Env, denied: set<string>)
    requires NetworkReady(env)
    ensures var t := Pages(s, urls, env, denied).0;
      t.requests - s.requests == |t.visited| - |s.visited|
    decreases |urls|
  {
    if urls != [] {
      PagesCons(s, urls, env, denied);
      var (t1, a1) := PageStep(s, urls[0], env, denied);
      if a1.None? {
        PagesOneRequestEach(t1, urls[1..], env, denied);
      }
    }
  }

  /** Visiting the first URL, then a prefix of the rest, visits a prefix of all of them. */
  lemma PrefixStep(before: seq<string>, urls: seq<string>, mid: seq<string>, after: seq<string>)
    requires urls != [] && mid == before + [urls[0]]
    requires 0 <= |after| - |mid| <= |urls| - 1 && after == mid + urls[1..][..|after| - |mid|]
    ensures 0 <= |after| - |before| <= |urls| && after == before + urls[..|after| - |before|]
  {
    assert urls[..|after| - |before|] == [urls[0]] + urls[1..][..|after| - |mid|];
  }

  /**
   * The loop stops early only for an interrupt: without one, every URL is
   * visited. Where it stops on one is `PagesInterruptIsLast`.
   */
  lemma {:induction false} PagesStopOnlyOnInterrupt(s: Snapshot, urls: seq<string>, env: Env, denied: set<string>)
    requires NetworkReady(env)
    ensures var (t, a) := Pages(s, urls, env, denied);
      a.None? ==> |t.visited| == |s.visited| + |urls|
    decreases |urls|
  {
    if urls != [] {
      PagesCons(s, urls, env, denied);
      var (t1, a1) := PageStep(s, urls[0], env, denied);
      if a1.None? {
        PagesStopOnlyOnInterrupt(t1, urls[1..], env, denied);
      }
    }
  }

  /** The last page visited is the one whose request was aborted with `k`. */
  ghost predicate InterruptedLast(t: Snapshot, env: Env, k: Abort)
    requires NetworkReady(env)
  {
    && |t.visited| > 0 && t.requests > 0
    && FetchSpec(t.visited[|t.visited| - 1], env.net(t.requests - 1)) == Aborted(k)
  }

  /** After an interrupt, the last page visited is the one whose request was aborted. */
  lemma {:induction false} PagesInterruptIsLast(s: Snapshot, urls: seq<string>, env: Env, denied: set<string>)
    requires NetworkReady(env)
    ensures var (t, a) := Pages(s, urls, env, denied);
      a.Some? ==> |t.visited| > |s.visited| && t.requests > s.requests && InterruptedLast(t, env, a.value)
    decreases |urls|
  {
    if urls != [] {
      PagesCons(s, urls, env, denied);
      var (t1, a1) := PageStep(s, urls[0], env, denied);
      if a1.None? {
        PagesInterruptIsLast(t1, urls[1..], env, denied);
        assert Pages(s, urls, env, denied) == Pages(t1, urls[1..], env, denied);
      } else {
        PageStopsAtItsInterrupt(s, urls[0], env, denied);
        assert Pages(s, urls, env, denied) == (t1, a1);
        assert t1.visited[|t1.visited| - 1] == urls[0] && t1.requests - 1 == s.requests;
      }
    }
  }

  /** A page that passes on an interrupt is the last one visited, and its request was aborted with it. */
  lemma PageStopsAtItsInterrupt(s: Snapshot, url: string, env: Env, denied: set<string>)
    requires NetworkReady(env)
    ensures var (t, a) := PageStep(s, url, env, denied);
      a.Some? ==>
        && t.visited == s.visited + [url] && t.requests == s.requests + 1
        && FetchSpec(url, env.net(s.requests)) == Aborted(a.value)
  {
  }

  /** A sitemap that cannot be fetched gives one log line and no page. */
  lemma SitemapFailureLogged(s: Snapshot, env: Env, denied: set<string>)
    requires NetworkReady(env)
    requires FetchSpec(SitemapUrl, env.net(s.requests)).FetchFailed?
    ensures var (t, a) := Crawl(s, env, denied);
      && a == None
      && t.log == s.log + LogEntry(SitemapError(FetchSpec(SitemapUrl, env.net(s.requests)).error))
      && t.visited == s.visited && t.files == s.files && t.dirs == s.dirs
  {
  }

  /** A sitemap that is fetched but does not parse gives one log line and no page. */
  lemma SitemapParseFailureLogged(s: Snapshot, env: Env, denied: set<string>)
    requires NetworkReady(env)
    requires FetchSpec(SitemapUrl, env.net(s.requests)).Fetched?
    requires env.parseSitemap(FetchSpec(SitemapUrl, env.net(s.requests)).body).Failure?
    ensures var m := env.parseSitemap(FetchSpec(SitemapUrl, env.net(s.requests)).body).error;
      var (t, a) := Crawl(s, env, denied);
      && a == None
      && t.log == s.log + LogEntry(SitemapError(XmlParseError(m)))
      && t.visited == s.visited && t.files == s.files && t.dirs == s.dirs
  {
  }

  /** An interrupt during the sitemap request is passed on, and nothing is logged, visited or written. */
  lemma SitemapInterruptPassedOn(s: Snapshot, env: Env, denied: set<string>)
    requires NetworkReady(env)
    requires FetchSpec(SitemapUrl, env.net(s.requests)).Aborted?
    ensures var (t, a) := Crawl(s, env, denied);
      && a == Some(FetchSpec(SitemapUrl, env.net(s.requests)).kind)
      && t.log == s.log && t.visited == s.visited && t.files == s.files && t.dirs == s.dirs
  {
  }

  /**
   * When the sitemap is fetched and parsed, an interrupt that stops the
   * crawl came from the request of the last page visited.
   */
  lemma CrawlInterruptFromLastPage(s: Snapshot, env: Env, denied: set<string>)
    requires NetworkReady(env)
    requires FetchSpec(SitemapUrl, env.net(s.requests)).Fetched?
    requires env.parseSitemap(FetchSpec(SitemapUrl, env.net(s.requests)).body).Success?
    ensures var (t, a) := Crawl(s, env, denied);
      a.Some? ==> |t.visited| > |s.visited| && InterruptedLast(t, env, a.value)
  {
    var (s1, r) := Fetch(s, SitemapUrl, env);
    var urls := env.parseSitemap(r.body).value;
    assert Crawl(s, env, denied) == Pages(s1, urls, env, denied);
    assert s1.visited == s.visited;
    PagesInterruptIsLast(s1, urls, env, denied);
  }

  /**
   * When the sitemap is fetched and parsed, every URL it lists is processed
   * once, in order, after the one sitemap request.
   */
  lemma CrawlVisitsEveryLoc(s: Snapshot, env: Env, denied: set<string>)
    requires NetworkReady(env)
    requires FetchSpec(SitemapUrl, env.net(s.requests)).Fetched?
    requires env.parseSitemap(FetchSpec(SitemapUrl, env.net(s.requests)).body).Success?
    ensures var urls := env.parseSitemap(FetchSpec(SitemapUrl, env.net(s.requests)).body).value;
      var (t, a) := Crawl(s, env, denied);
      var n := |t.visited| - |s.visited|;
      && 0 <= n <= |urls|
      && t.visited == s.visited + urls[..n]
      && t.requests == s.requests + 1 + n
      && (a.None? ==> t.visited == s.visited + urls)
  {
    var (s1, r) := Fetch(s, SitemapUrl, env);
    var urls := env.parseSitemap(r.body).value;
    assert Crawl(s, env, denied) == Pages(s1, urls, env, denied);
    assert s1.visited == s.visited && s1.requests == s.requests + 1;
    PagesInOrder(s1, urls, env, denied);
    PagesStopOnlyOnInterrupt(s1, urls, env, denied);
    assert urls[..|urls|] == urls;
  }

  // ---------------------------------------------------------------------
  // The world, changed in place

  class World {
    var dirs: set<string>
    var files: map<string, Artifact>
    var log: string
    var slept: seq<int>
    var requests: nat
    var visited: seq<string>
    /** The paths whose creation the file system refuses. */
    const denied: set<string>

    /** The world's state as a value. */
    function State(): Snapshot
      reads this
    {
      Snapshot(dirs, files, log, slept, requests, visited)
    }

    /** A world with the given directories and files, an empty log, and nothing fetched yet. */
    constructor(dirs0: set<string>, files0: map<string, Artifact>, denied0: set<string>)
      ensures State() == Snapshot(dirs0, files0, "", [], 0, [])
      ensures denied == denied0
    {
      dirs, files, log, slept, requests, visited := dirs0, files0, "", [], 0, [];
      denied := denied0;
    }

    /** `print_err(msg)`: appends one line to `error.log`. */
    method PrintErr(msg: string)
      modifies this
      ensures State() == Logged(old(State()), msg)
    {
      log := log + LogEntry(msg);
    }

    /** `mkdir_p(path)`. */
    method MkdirP(path: string) returns (err: Option<PyError>)
      modifies this
      ensures var r := MakeDirs(old(State()), path, denied);
        && (r.Success? ==> err == None && State() == r.value)
        && (r.Failure? ==> err == Some(r.error) && State() == old(State()))
    {
      err := None;
      if path in dirs {
        // the directory exists: `makedirs` raises EEXIST, which is ignored
      } else if path in denied {
        err := Some(MkdirFailed);
      } else {
        dirs := dirs + {path};
      }
    }

    /** Writes `a` to `path`, replacing what was there. */
    method Write(path: string, a: Artifact) returns (err: Option<PyError>)
      modifies this
      ensures var r := WriteFile(old(State()), path, a, denied);
        && (r.Success? ==> err == None && State() == r.value)
        && (r.Failure? ==> err == Some(r.error) && State() == old(State()))
    {
      if path in denied {
        err := Some(PermissionDenied(path));
      } else {
        err := None;
        files := files[path := a];
      }
    }

    /** `curl(url, c)` as the next request, sleeping as it goes. */
    method Get(url: string, env: Env) returns (r: FetchResult)
      requires NetworkReady(env)
      modifies this
      ensures (State(), r) == Fetch(old(State()), url, env)
    {
      var delays, calls;
      r, delays, calls := Curl(url, env.net(requests));
      slept := slept + delays;
      requests := requests + 1;
    }

    /** The writes of an accepted page. */
    method SavePage(url: string, c: Content, env: Env) returns (err: Option<PyError>)
      modifies this
      ensures (State(), err) == Save(old(State()), url, c, env, denied)
    {
      var path := FilePath(url, env.hash);
      err := MkdirP(Dirname(path));
      if err.Some? {
        return;
      }
      err := Write(path + ".json", JsonFile(MakeRecord(url, c)));
      if err.Some? {
        return;
      }
      match env.template
      case Failure(m) =>
        err := Some(TemplateUnreadable(m));
      case Success(t) =>
        err := Write(path + ".html", HtmlFile(Preview(t, c.text, url)));
    }

    /** `process_page(url, c)`: returns the interrupt that escapes it, if any. */
    method ProcessPage(url: string, env: Env) returns (abort: Option<Abort>)
      requires NetworkReady(env)
      modifies this
      ensures (State(), abort) == PageStep(old(State()), url, env, denied)
    {
      visited := visited + [url];
      var r := Get(url, env);
      abort := None;
      match r
      case Aborted(k) =>
        abort := Some(k);
      case FetchFailed(e) =>
        PrintErr(PageError(url, e));
      case Fetched(body) =>
        match ExtractContent(env.parseHtml(body), env.tex)
        case Failure(e) =>
          PrintErr(PageError(url, e));
        case Success(c) =>
          if c.forum == TargetForum {
            var err := SavePage(url, c, env);
            if err.Some? {
              PrintErr(PageError(url, err.value));
            }
          }
    }

    /** `crawl_sitemap()`: returns the interrupt that ends the crawl, if any. */
    method CrawlSitemap(env: Env) returns (abort: Option<Abort>)
      requires NetworkReady(env)
      modifies this
      ensures (State(), abort) == Crawl(old(State()), env, denied)
    {
      var r := Get(SitemapUrl, env);
      abort := HandleSitemap(r, env);
    }

    /** The body of `crawl_sitemap` after the sitemap request. */
    method HandleSitemap(r: FetchResult, env: Env) returns (abort: Option<Abort>)
      requires NetworkReady(env)
      modifies this
      ensures (State(), abort) == AfterSitemap(old(State()), r, env, denied)
    {
      abort := None;
      match r
      case Aborted(k) =>
        abort := Some(k);
      case FetchFailed(e) =>
        PrintErr(SitemapError(e));
      case Fetched(body) =>
        match env.parseSitemap(body)
        case Failure(m) =>
          PrintErr(SitemapError(XmlParseError(m)));
        case Success(urls) =>
          abort := ProcessAll(urls, env);
    }

    /** The loop of `crawl_sitemap` over the sitemap's URLs. */
    method ProcessAll(urls: seq<string>, env: Env) returns (abort: Option<Abort>)
      requires NetworkReady(env)
      modifies this
      ensures (State(), abort) == Pages(old(State()), urls, env, denied)
    {
      abort := None;
      var i := 0;
      while i < |urls|
        invariant i <= |urls| && abort == None
        invariant Pages(old(State()), urls, env, denied) == Pages(State(), urls[i..], env, denied)
      {
        assert urls[i..][0] == urls[i] && urls[i..][1..] == urls[i + 1..];
        ghost var before := State();
        PagesCons(before, urls[i..], env, denied);
        abort := ProcessPage(urls[i], env);
        if abort.Some? {
          return;
        }
        i := i + 1;
      }
      assert urls[i..] == [];
    }
  }
}
