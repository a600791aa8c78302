/**
 * `extract_content`, the record built by `save_json` and the page built by
 * `save_preview`. The HTML parser is not modelled: a page is given as the
 * parts `extract_content` reads, after the status markers and quoted-reply
 * fonts have been removed.
 */
module Extract {
  import opened Base
  import opened Text
  import opened Errors

  /** The separator of the title's segments. */
  const TitleSep: string := " - "

  /** The forum section that `process_page` keeps. */
  const TargetForum: string := "初等数学讨论"

  /** The `<meta name="keywords">` tag: absent, or present with or without a `content` attribute. */
  datatype Meta = NoKeywordsMeta | KeywordsMeta(content: Option<string>)

  /**
   * What `extract_content` reads from the parsed page: the text of the
   * `<title>` element if there is one, the keywords tag, and the text
   * (`get_text()`) of each `td.t_f` post body in document order.
   */
  datatype Document = Document(title: Option<string>, keywords: Meta, posts: seq<string>)

  /**
   * The three TeX rewriters of `replace_post_tex`, which are not part of this
   * model: only the order in which they are applied is.
   */
  datatype TexRewriters = TexRewriters(display: string -> string, inline: string -> string, dollar: string -> string)

  /** The dictionary `extract_content` returns. */
  datatype Content = Content(forum: string, keywords: string, text: string)

  /** The dictionary `save_json` serialises. */
  datatype Record = Record(url: string, tags: seq<string>, text: string)

  /** One post's text: display maths first, then inline maths, then dollar maths. */
  function Normalize(tex: TexRewriters, post: string): string
  {
    tex.dollar(tex.inline(tex.display(post)))
  }

  /** Every post normalised, in document order. */
  function NormalizeAll(tex: TexRewriters, posts: seq<string>): (r: seq<string>)
    ensures |r| == |posts|
    ensures forall i :: 0 <= i < |posts| ==> r[i] == Normalize(tex, posts[i])
  {
    seq(|posts|, i requires 0 <= i < |posts| => Normalize(tex, posts[i]))
  }

  /**
   * The `"content"` entry: the normalised posts joined by newlines, so that a
   * body whose posts have no line break of their own splits back into them.
   */
  function Body(tex: TexRewriters, posts: seq<string>): (body: string)
    ensures |posts| >= 1 && (forall i :: 0 <= i < |posts| ==> '\n' !in Normalize(tex, posts[i])) ==>
      Split(body, "\n") == NormalizeAll(tex, posts)
  {
    var lines := NormalizeAll(tex, posts);
    assert |lines| >= 1 && (forall k :: 0 <= k < |lines| ==> '\n' !in lines[k]) ==>
      Split(Join(lines, "\n"), "\n") == lines
    by {
      if |lines| >= 1 && forall k :: 0 <= k < |lines| ==> '\n' !in lines[k] {
        SplitJoin(lines, '\n');
      }
    }
    Join(lines, "\n")
  }

  /** The `"forum"` entry: `title.split(" - ")[-2]`, which raises on a one-segment title. */
  function Forum(title: string): (r: Result<string, PyError>)
    ensures r.Failure? <==> !Contains(title, TitleSep)
    ensures r.Failure? ==> r.error == TitleIndexError
    ensures r.Success? ==> !Contains(r.value, TitleSep)
  {
    SplitSingle(title, TitleSep);
    LastSegmentsFree(title);
    var parts := Split(title, TitleSep);
    if |parts| < 2 then Failure(TitleIndexError) else Success(parts[|parts| - 2])
  }

  /** The `"keywords"` entry: the tag's `content`, or "" when there is no tag. */
  function Keywords(meta: Meta): (r: Result<string, PyError>)
    ensures r.Failure? <==> meta == KeywordsMeta(None)
    ensures r.Failure? ==> r.error == KeywordsKeyError
    ensures meta == NoKeywordsMeta ==> r == Success("")
  {
    match meta
    case NoKeywordsMeta => Success("")
    case KeywordsMeta(None) => Failure(KeywordsKeyError)
    case KeywordsMeta(Some(c)) => Success(c)
  }

  /**
   * `extract_content(soup)`. The dictionary's entries are evaluated in
   * order, so the first failure among title, section and keywords is the one
   * raised; the body itself cannot fail.
   */
  function ExtractContent(doc: Document, tex: TexRewriters): (r: Result<Content, PyError>)
    ensures doc.title.None? ==> r == Failure(NoTitle)
    ensures doc.title.Some? && !Contains(doc.title.value, TitleSep) ==> r == Failure(TitleIndexError)
    ensures doc.title.Some? && Contains(doc.title.value, TitleSep) ==>
      (r.Success? <==> doc.keywords != KeywordsMeta(None))
    ensures doc.title.Some? && Contains(doc.title.value, TitleSep) && doc.keywords == KeywordsMeta(None) ==>
      r == Failure(KeywordsKeyError)
    ensures r.Success? ==>
      && Forum(doc.title.value) == Success(r.value.forum)
      && r.value.text == Body(tex, doc.posts)
      && r.value.keywords == (if doc.keywords.KeywordsMeta? then doc.keywords.content.value else "")
  {
    match doc.title
    case None => Failure(NoTitle)
    case Some(title) =>
      SplitSingle(title, TitleSep);
      match Forum(title)
      case Failure(e) => Failure(e)
      case Success(forum) =>
        match Keywords(doc.keywords)
        case Failure(e) => Failure(e)
        case Success(keywords) => Success(Content(forum, keywords, Body(tex, doc.posts)))
  }

  /**
   * The `"tags"` entry of `save_json`: no tags for an empty keyword string,
   * otherwise `keywords.split(",")`.
   */
  function Tags(keywords: string): (tags: seq<string>)
    ensures tags == [] <==> keywords == ""
    ensures Join(tags, ",") == keywords
    ensures forall k :: 0 <= k < |tags| ==> ',' !in tags[k]
    ensures keywords != "" ==> |tags| == Count(keywords, ',') + 1
  {
    if keywords == "" then []
    else
      JoinSplit(keywords, ",");
      SplitPiecesFree(keywords, ",");
      var tags := Split(keywords, ",");
      assert forall k :: 0 <= k < |tags| ==> ',' !in tags[k] by {
        forall k | 0 <= k < |tags| ensures ',' !in tags[k] {
          CharFree(tags[k], ',');
        }
      }
      SplitCount(keywords, ',');
      tags
  }

  /** The record `save_json` writes for a page. */
  function MakeRecord(url: string, content: Content): (r: Record)
    ensures r.url == url && r.text == content.text
    ensures Join(r.tags, ",") == content.keywords
    ensures r.tags == [] <==> content.keywords == ""
  {
    Record(url, Tags(content.keywords), content.text)
  }

  /**
   * `save_preview`'s page: the body's newlines become `</br>`, then
   * `{PREVIEW}` is replaced by that body, then `{URL}` by the page's URL.
   */
  function Preview(template: string, text: string, url: string): (page: string)
    ensures !Contains(template, "{PREVIEW}") && !Contains(template, "{URL}") ==> page == template
  {
    Replace(Replace(template, "{PREVIEW}", Replace(text, "\n", "</br>")), "{URL}", url)
  }

  // ---------------------------------------------------------------------
  // Properties of the extracted fields

  /** A section title with the site's usual shape names its section. */
  lemma ForumExample()
    ensures Forum("Post Title" + TitleSep + TargetForum + TitleSep + "SiteName") == Success(TargetForum)
  {
    ForumOfThreeSegments("Post Title", TargetForum, "SiteName");
  }

  /** A title made of three segments without '-' (the last without ' ') names its middle one. */
  lemma ForumOfThreeSegments(head: string, forum: string, site: string)
    requires '-' !in head && '-' !in forum && ' ' !in site
    ensures Forum(head + TitleSep + forum + TitleSep + site) == Success(forum)
  {
    NoDashMatch(head, forum + TitleSep + site);
    assert head + TitleSep + (forum + TitleSep + site) == head + TitleSep + forum + TitleSep + site;
    SplitAfter(head, forum + TitleSep + site, TitleSep);
    NoDashMatch(forum, site);
    SplitAfter(forum, site, TitleSep);
    NoMatchInFreePrefix(site, "", TitleSep);
    assert site + "" == site;
    IndexOfAfter(site, "", TitleSep);
    SplitNone(site, TitleSep);
    assert Split(head + TitleSep + forum + TitleSep + site, TitleSep) == [head, forum, site];
  }

  /** Without a '-' in `a`, no " - " starts inside `a` in `a + " - " + b`. */
  lemma NoDashMatch(a: string, b: string)
    requires '-' !in a
    ensures forall j :: 0 <= j < |a| ==> !MatchAt(a + TitleSep + b, TitleSep, j)
  {
    var s := a + TitleSep + b;
    forall j | 0 <= j < |a| ensures !MatchAt(s, TitleSep, j) {
      if j + 3 <= |s| {
        assert s[j..j + 3][1] == s[j + 1];
        if j + 1 < |a| {
          assert s[j + 1] == a[j + 1];
        } else {
          assert s[j + 1] == ' ';
        }
      }
    }
  }

  /**
   * The section is the segment before the last " - ": the title ends with
   * the section, a separator and a last segment, neither of which contains
   * a separator.
   */
  lemma ForumIsSecondToLastSegment(title: string)
    ensures Forum(title).Success? ==>
      var parts := Split(title, TitleSep);
      var forum, last := Forum(title).value, parts[|parts| - 1];
      var head := if |parts| == 2 then "" else Join(parts[..|parts| - 2], TitleSep) + TitleSep;
      && title == head + forum + TitleSep + last
      && !Contains(forum, TitleSep) && !Contains(last, TitleSep)
  {
    var parts := Split(title, TitleSep);
    var n := |parts|;
    if n >= 2 {
      assert Forum(title) == Success(parts[n - 2]);
      LastSegmentsFree(title);
      var head := if n == 2 then "" else Join(parts[..n - 2], TitleSep) + TitleSep;
      JoinSplit(title, TitleSep);
      JoinLastTwo(parts, TitleSep);
      assert title == head + parts[n - 2] + TitleSep + parts[n - 1];
    }
  }

  /** The last two segments of a split title hold no separator. */
  lemma LastSegmentsFree(title: string)
    ensures var parts := Split(title, TitleSep);
      |parts| >= 2 ==>
        !Contains(parts[|parts| - 2], TitleSep) && !Contains(parts[|parts| - 1], TitleSep)
  {
    var parts := Split(title, TitleSep);
    var n := |parts|;
    if n >= 2 {
      SplitPiecesFree(title, TitleSep);
      NotFoundIffAbsent(parts[n - 2], TitleSep);
      NotFoundIffAbsent(parts[n - 1], TitleSep);
    }
  }

  /** A join of at least two parts ends with the last two and the separator between them. */
  lemma {:induction false} JoinLastTwo(parts: seq<string>, sep: string)
    requires |parts| >= 2
    ensures var n := |parts|;
      var head := if n == 2 then "" else Join(parts[..n - 2], sep) + sep;
      Join(parts, sep) == head + parts[n - 2] + sep + parts[n - 1]
  {
    var n := |parts|;
    assert parts == parts[..n - 1] + [parts[n - 1]];
    JoinSnoc(parts[..n - 1], parts[n - 1], sep);
    if n == 2 {
      assert parts[..n - 1] == [parts[n - 2]];
    } else {
      assert parts[..n - 1] == parts[..n - 2] + [parts[n - 2]];
      JoinSnoc(parts[..n - 2], parts[n - 2], sep);
    }
  }

  /** Keyword strings as `save_json` sees them. */
  lemma TagsExamples()
    ensures Tags("a,b,c") == ["a", "b", "c"]
    ensures Tags("") == []
  {
    var parts := ["a", "b", "c"];
    assert Join(parts, ",") == "a,b,c" by {
      assert parts[1..] == ["b", "c"];
      assert parts[1..][1..] == ["c"];
    }
    SplitJoin(parts, ',');
  }

  /** When no normalised post contains a newline, the preview shows the posts separated by `</br>`. */
  lemma BodyLines(tex: TexRewriters, posts: seq<string>)
    requires |posts| >= 1
    requires forall i :: 0 <= i < |posts| ==> '\n' !in Normalize(tex, posts[i])
    ensures Replace(Body(tex, posts), "\n", "</br>") == Join(NormalizeAll(tex, posts), "</br>")
  {
    ReplaceJoin(NormalizeAll(tex, posts), '\n', "</br>");
  }

  /** The body as it is put into the preview has no line breaks left. */
  lemma PreviewBodyOneLine(text: string)
    ensures '\n' !in Replace(text, "\n", "</br>")
  {
    ReplaceRemoves(text, '\n', "</br>");
  }

  /**
   * With a template holding one `{PREVIEW}` and then one `{URL}`, the
   * preview is the template with the body and the URL in their places,
   * provided no other `{PREVIEW}` is in the template and no `{URL}` is
   * around the body or after the slot (the body itself may hold anything
   * else, TeX braces included).
   */
  lemma PreviewFillsSlots(a: string, b: string, c: string, text: string, url: string)
    requires !Contains(a, "{PREVIEW}") && !Contains(b, "{PREVIEW}") && !Contains(c, "{PREVIEW}")
    requires !Contains(a + Replace(text, "\n", "</br>") + b, "{URL}") && !Contains(c, "{URL}")
    ensures Preview(a + "{PREVIEW}" + b + "{URL}" + c, text, url)
         == a + Replace(text, "\n", "</br>") + b + url + c
  {
    var h := Replace(text, "\n", "</br>");
    var tail := "{URL}" + c;
    assert "{PREVIEW}"[1..] == "PREVIEW}" && "{URL}"[1..] == "URL}";
    // the {PREVIEW} slot
    assert a + "{PREVIEW}" + b + "{URL}" + c == a + "{PREVIEW}" + (b + tail);
    ReplaceAfterAbsent(a, b + tail, "{PREVIEW}", h);
    UrlSlotHasNoPreview(c);
    NoMatchAcrossHead(b, tail, "{PREVIEW}");
    assert a + h + (b + tail) == (a + h + b) + "{URL}" + c;
    // the {URL} slot
    ReplaceAfterAbsent(a + h + b, c, "{URL}", url);
  }

  /** "{URL}" followed by text without "{PREVIEW}" holds no "{PREVIEW}". */
  lemma UrlSlotHasNoPreview(c: string)
    requires !Contains(c, "{PREVIEW}")
    ensures !Contains("{URL}" + c, "{PREVIEW}")
  {
    var pat := "{PREVIEW}";
    var rest := "URL}" + c;
    var s := "{URL}" + c;
    assert s == "{" + rest;
    NoMatchInFreePrefix("URL}", c, pat);
    forall j | 0 <= j <= |s| ensures !MatchAt(s, pat, j) {
      if j == 0 {
        if 9 <= |s| {
          assert s[..9][1] == 'U';
        }
      } else {
        MatchInSuffix("{", rest, pat, j - 1);
        if j - 1 >= 4 {
          MatchInSuffix("URL}", c, pat, j - 5);
          assert !MatchAt(c, pat, j - 5);
        }
      }
    }
  }

  /**
   * The `{URL}` substitution runs after the body is inserted, so a `{URL}`
   * written in a post is replaced by the page's URL too; had the two calls
   * been made in the other order, it would have stayed as it is.
   */
  lemma PreviewReplaceOrder(url: string)
    ensures Preview("{PREVIEW}", "{URL}", url) == url
    ensures Replace(Replace("{PREVIEW}", "{URL}", url), "{PREVIEW}", "{URL}") == "{URL}"
  {
    ReplaceFree("{URL}", "\n", "</br>");
    ReplaceWhole("{PREVIEW}", "{URL}");
    ReplaceWhole("{URL}", url);
    PreviewSlotHasNoUrl();
    ReplaceWhole("{PREVIEW}", "{URL}");
  }

  /** A string that is exactly the pattern is replaced as a whole. */
  lemma ReplaceWhole(pat: string, rep: string)
    requires pat != []
    ensures Replace(pat, pat, rep) == rep
  {
    ReplaceFree("", pat, rep);
    ReplaceAfter("", "", pat, rep);
    assert "" + pat + "" == pat;
    assert "" + rep + "" == rep;
  }

  /** "{PREVIEW}" holds no "{URL}". */
  lemma PreviewSlotHasNoUrl()
    ensures forall url :: Replace("{PREVIEW}", "{URL}", url) == "{PREVIEW}"
  {
    var s := "{PREVIEW}";
    assert !MatchAt(s, "{URL}", 0) by { assert s[..5][1] == 'P'; }
    var rest := "PREVIEW}";
    assert s == "{" + rest;
    NoMatchInFreePrefix(rest, "", "{URL}");
    assert rest + "" == rest;
    IndexOfAfter(rest, "", "{URL}");
    IndexOfAfter("{", rest, "{URL}");
    SplitNone(s, "{URL}");
  }
}
