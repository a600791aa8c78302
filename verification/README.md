# crawler-kuing, modelled in Dafny

`crawler-kuing.py` crawls the kuing.cjhb.site forum. It fetches the sitemap
and each page it lists. A page's URL goes through a retrying `curl` wrapper.
From the page it extracts:

- the forum section: the second-to-last `" - "` segment of the title;
- the keywords;
- the post bodies, with their TeX notation normalised.

Pages outside the section 初等数学讨论 are skipped. An accepted page is stored
under a directory chosen by `hash(url) % 500`, as a JSON record plus an HTML
preview built from `template.html`. Every error of a page goes to
`error.log`; only an interrupt stops the crawl.

The model has seven modules:

- `Base`: bytes, `Option` and `Result`.
- `Text`: the Python string operations the crawler relies on, with their
  algebra. These are `str.split`, `str.join`, `str.replace`, `str(int)` and
  `os.path.dirname`; `IndexOf` and `Contains` are the search that `split`
  and `replace` perform. Proved facts include split/join round
  trips, piece counts, and where a replacement lands.
- `Errors`: the exceptions that can reach the error log, and the text
  `str(err)` gives for each.
- `Fetcher`: the retry loop of `curl`. The method `Curl` runs the loop over
  a given sequence of `perform` outcomes, each with the bytes its write
  callback received. It is proved equal to closed-form functions for:
  - the result, which is returned or raised;
  - the delays slept;
  - the number of `perform` calls.

  Lemmas then state the retry policy in terms of those functions.
- `Extract`: `extract_content`, the record `save_json` writes, and the page
  `save_preview` writes.
- `Shard`: `get_file_path`.
- `Crawler`: `print_err`, `mkdir_p`, `process_page` and `crawl_sitemap`.
  - Pure functions over a `Snapshot` of the world say what each step does.
    The world holds the directories, the files, the error log text, the
    delays slept, the number of requests made and the URLs visited.
  - The class `World` performs the same steps in place. Each of its methods
    is proved to agree with its function.
  - Lemmas state the page decision, error isolation and crawl order.

Outside inputs are parameters of `Crawler.Env`:

- the network, as the `perform` outcomes of the n-th request (request 0 is
  the sitemap);
- Python's salted `hash`;
- the HTML parser's view of a page (title, keywords tag, post texts);
- the XML parser's list of `<loc>` texts, or its error message;
- the three TeX rewriters;
- the template text, or the error message from reading it.

Directories and files whose creation the file system refuses are the
`World`'s `denied` set.

Two behaviours of the code are worth stating plainly:

- **Title without `" - "`.** `split(" - ")[-2]` on a title with no `" - "`
  raises `IndexError`, which `process_page` logs like any other error of
  the page. `Extract.Forum` and `Crawler.BadTitleLogged` state this.
- **Backoff.** The sleep before retry `n` lasts `10 * n` seconds, so the
  delays grow linearly. `Fetcher.LinearBackoff` states this.

## Model

| member | source | states |
|---|---|---|
| Fetcher.Curl | crawler-kuing.py:32-59 | The loop equals the closed form. The result returned or raised is `FetchSpec`: the encode error, the interrupt of the first interrupted call, the error of the eleventh failure, or the bytes of all attempts up to the first success. The delays are `DelaySpec` and the call count is `CallSpec`. |
| Fetcher.Latin1 | crawler-kuing.py:34 | `url.encode("iso-8859-1")` succeeds iff every character is below 256, giving one byte per character. Otherwise the error names the first run of unencodable characters: its first code point, its start and its end. |
| Fetcher.Latin1RoundTrip | crawler-kuing.py:34 | Latin-1 decoding undoes encoding, so distinct URLs are sent as distinct bytes. Encoding undoes decoding, so every byte string is the encoding of some URL: the encoder is a bijection between the encodable URLs and the byte strings. |
| Fetcher.CallsBounded | crawler-kuing.py:38-50 | `perform` is called at most 11 times, and at most 10 sleeps are taken. Exactly one sleep separates consecutive calls, with none after the last. No call is made iff the URL cannot be encoded. |
| Fetcher.LinearBackoff | crawler-kuing.py:46-54 | The n-th sleep lasts `10 * n` seconds. |
| Fetcher.InterruptIsImmediate | crawler-kuing.py:42-44 | After k failures, an interrupt in call k+1 is re-raised at once. The call count is k+1 and the sleeps are exactly the k from before it. |
| Fetcher.ExhaustionReraisesLast | crawler-kuing.py:46-50 | Eleven consecutive failures re-raise the eleventh's error after 11 calls. The sleeps are 10, 20, …, 100, with none after the last failure. |
| Fetcher.EncodeFailsFirst | crawler-kuing.py:34-41 | An unencodable URL raises the encode error with no `perform` call and no sleep. |
| Fetcher.SuccessKeepsEveryAttempt | crawler-kuing.py:33-57 | After k failures and a success, the result is every attempt's bytes in order. Call count is k+1 and the sleeps are 10, …, 10k. Attempt j's bytes sit right after those of attempts 0…j-1. |
| Fetcher.WrittenSplit | crawler-kuing.py:33-37 | The buffer is never cleared: the bytes of the first m attempts remain a prefix, followed by those of the later attempts. |
| Fetcher.FirstStop | crawler-kuing.py:39-56 | The first call that does not fail, or 11. Every earlier call failed. |
| Extract.ExtractContent | crawler-kuing.py:62-68 | Missing title → `AttributeError`. Title without `" - "` → `IndexError`. Keywords tag without `content` → `KeyError` (and only then). On success the section is the title's second-to-last segment, and the keywords are the tag's content or "" when there is no tag. The body is the normalised posts joined by newlines. |
| Extract.NormalizeAll | crawler-kuing.py:66 | One entry per post, in node order. Each entry is dollar(inline(display(text))). |
| Extract.Body | crawler-kuing.py:66 | When no normalised post has a line break, splitting the body on "\n" gives back the normalised posts, in order. |
| Extract.Forum | crawler-kuing.py:64 | `title.split(" - ")[-2]` raises `IndexError` exactly when the title has no `" - "`. Otherwise the section it gives contains no `" - "`. |
| Extract.Keywords | crawler-kuing.py:65 | A keywords tag without `content` raises `KeyError`, and only such a tag does. A page without the tag gives "". |
| Extract.ForumIsSecondToLastSegment | crawler-kuing.py:64 | The title is a head, the section, `" - "` and a last segment. Neither the section nor the last segment contains `" - "`. |
| Extract.ForumExample | crawler-kuing.py:64 | `"Post Title - 初等数学讨论 - SiteName"` gives `初等数学讨论`. |
| Extract.ForumOfThreeSegments | crawler-kuing.py:64 | A three-segment title names its middle segment. This needs no '-' in the first two segments and no space in the last. |
| Extract.Tags | crawler-kuing.py:74 | Tags are empty iff the keywords are "". Joining the tags with "," gives the keywords back. No tag contains ','. Non-empty keywords give (number of commas + 1) tags. |
| Extract.TagsExamples | crawler-kuing.py:74 | "a,b,c" gives ["a","b","c"] and "" gives []. |
| Extract.MakeRecord | crawler-kuing.py:72-76 | The record holds the page's URL and body. Its tags join back with "," to the keywords, and there are none exactly when the keywords are "". |
| Extract.BodyLines | crawler-kuing.py:66 | When no normalised post has a newline, the preview shows the posts joined by `</br>`. |
| Extract.PreviewBodyOneLine | crawler-kuing.py:86 | The body inserted into the preview contains no newline. |
| Extract.Preview | crawler-kuing.py:86-87 | A template with neither `{PREVIEW}` nor `{URL}` is written out unchanged. |
| Extract.PreviewFillsSlots | crawler-kuing.py:86-87 | Take a template `a{PREVIEW}b{URL}c` with no other `{PREVIEW}` in a, b or c, and no `{URL}` in c or in a, the `</br>` body and b together. The preview is a, the body, b, the URL, c. The body may hold anything else, TeX braces included. |
| Extract.PreviewReplaceOrder | crawler-kuing.py:87 | `{URL}` is substituted after the body is inserted, so a `{URL}` inside a post becomes the URL. In the other order it would stay literal. |
| Shard.ShardId | crawler-kuing.py:113 | The id is in [0, 500) for every hash, negative ones included. It is congruent to the hash modulo 500. |
| Shard.FilePath | crawler-kuing.py:112-115 | The directory of the path is `./tmp/<id>`, the one `process_page` creates. |
| Shard.ShardPath | crawler-kuing.py:114-115 | The path `./tmp/<id>/kuing<id>` lies directly inside the shard's directory `./tmp/<id>`. |
| Shard.ShardPathInjective | crawler-kuing.py:114-115 | Two shard ids give the same path iff they are equal. |
| Shard.SamePathIffSameShard | crawler-kuing.py:113-115 | Two URLs get the same path iff their hashes fall in the same shard. All pages of a shard share one file name. |
| Text.Decimal | crawler-kuing.py:114-115 | `str(id)` is a non-empty string of digits whose value is the id, with no leading zero unless the id is 0. |
| Text.Split | crawler-kuing.py:64 | `str.split(sep)` always gives at least one piece. Its other properties are the `Split` lemmas below. |
| Text.Join | crawler-kuing.py:66 | `sep.join(parts)` of at least one part starts with the first part. |
| Text.Replace | crawler-kuing.py:86-87 | `str.replace` leaves a string without the pattern unchanged. |
| Text.Dirname | crawler-kuing.py:130 | `os.path.dirname` gives a prefix of the path, shorter than any non-empty path. |
| Text.DecimalInjective | crawler-kuing.py:114-115 | Different ids print differently. |
| Text.DirnameOfChild | crawler-kuing.py:130 | The dirname of `dir + "/" + name` is `dir` when `name` has no '/'. |
| Text.JoinSplit | crawler-kuing.py:74 | `sep.join(s.split(sep)) == s` for every non-empty separator. |
| Text.SplitPiecesFree | crawler-kuing.py:64 | No piece of a split contains the separator. |
| Text.SplitSingle | crawler-kuing.py:64 | A split has exactly one piece iff the separator does not occur. |
| Text.SplitJoin | crawler-kuing.py:74 | Splitting on a one-character separator undoes joining with it, when no part contains it. |
| Text.SplitCount | crawler-kuing.py:74 | Splitting on a character gives one more piece than its occurrences. |
| Text.IndexOfFirst | crawler-kuing.py:64 | `find` returns the leftmost match; nothing matches before it. |
| Text.ReplaceAfter | crawler-kuing.py:87 | Replacement of the first occurrence when the text before it is free of the pattern's first character. |
| Text.ReplaceAfterAbsent | crawler-kuing.py:87 | Replacement of the first occurrence when the text before it lacks the pattern and the pattern's first character does not recur in it, as for `{PREVIEW}` and `{URL}`. |
| Text.ReplaceRemoves | crawler-kuing.py:86 | Replacing a character by text without it leaves no occurrence. |
| Text.ReplaceJoin | crawler-kuing.py:86 | Replacing the join character of a join is joining with the replacement. |
| Crawler.Logged | crawler-kuing.py:24-29 | The log keeps its old text and gains exactly `[error] <msg>\n`. |
| Errors.Message | crawler-kuing.py:133-134 | `str(err)` of a pycurl, template or XML error is the text the error carries. The text of a refused file names its path. |
| Crawler.World.PrintErr | crawler-kuing.py:24-29 | Appends the one line to the error log and changes nothing else. |
| Crawler.MakeDirs | crawler-kuing.py:102-109 | An existing directory is fine. One that may not be created raises "mkdir needs permission". Otherwise it is created. |
| Crawler.World.MkdirP | crawler-kuing.py:102-109 | Agrees with `MakeDirs`, and leaves the world unchanged on failure. |
| Crawler.WriteFile | crawler-kuing.py:77-78 | A refused path raises `PermissionError` naming it. Otherwise the file is replaced and nothing else changes. |
| Crawler.World.Write | crawler-kuing.py:89-90 | Agrees with `WriteFile`. |
| Crawler.Fetch | crawler-kuing.py:120 | One request: the request counter advances by one, at most 10 sleeps are appended after the old ones, and nothing else changes. |
| Crawler.World.Get | crawler-kuing.py:120 | One request: the world gains `curl`'s sleeps and the request counter advances. |
| Crawler.Save | crawler-kuing.py:129-132 | Only directories and files change, and both only grow. |
| Crawler.World.SavePage | crawler-kuing.py:129-132 | Agrees with `Save`. |
| Crawler.SaveStopsAtFirstError | crawler-kuing.py:129-132 | The writes happen in order: shard directory, JSON record, template read, preview. A refused directory writes nothing and raises "mkdir needs permission". A refused JSON path leaves only the directory and raises `PermissionError`. A template error or a refused preview path keeps the directory and record and writes no preview. Without error both files are written. |
| Crawler.PageStep | crawler-kuing.py:118-134 | Whatever happens, the page is visited once, with exactly one request and its sleeps. The log, directories and set of files only grow. |
| Crawler.World.ProcessPage | crawler-kuing.py:118-134 | Agrees with `PageStep`. |
| Crawler.SkipLeavesNoTrace | crawler-kuing.py:127-128 | A page of another section creates no directory, writes no file and logs nothing. |
| Crawler.OnlyInterruptsEscape | crawler-kuing.py:118-134 | A page passes on an interrupt iff its request was interrupted. The files and log are then untouched. |
| Crawler.PageErrorsAreLogged | crawler-kuing.py:118-134 | A failed fetch, a failed extraction and a failed save each append exactly `Error processing <url>: <err>` with their own error. An interrupt, a page of another section and a page saved without error leave the log as it was. |
| Crawler.BadTitleLogged | crawler-kuing.py:126-134 | A page without a title is logged with the `AttributeError` text. One whose title has no `" - "` is logged with the `IndexError` text. |
| Crawler.AcceptedPageSaved | crawler-kuing.py:127-132 | Assume a target-section page whose directory, files and template are available. It creates its shard directory and writes its JSON record and preview, and logs nothing. |
| Crawler.PageWritesOnlyItsShard | crawler-kuing.py:129-132 | A page creates only its shard directory. Every file other than its own two keeps its content. |
| Crawler.SaveWritesOnlyItsShard | crawler-kuing.py:129-132 | The same, for the writes of an accepted page. |
| Crawler.SavePreviewAfterRecord | crawler-kuing.py:131-132 | A preview that the save wrote or changed comes with this page's JSON record, also when an earlier page of the same shard left its files there. |
| Crawler.Pages | crawler-kuing.py:143-144 | The loop never removes text from the error log, and it never lowers the request counter. |
| Crawler.PagesInOrder | crawler-kuing.py:143-144 | The pages visited are a prefix of the sitemap's URLs, in document order, with one request each. |
| Crawler.PagesVisitPrefix | crawler-kuing.py:143-144 | The pages visited are the next URLs of the list, in order. |
| Crawler.PagesOneRequestEach | crawler-kuing.py:143-144 | The loop makes exactly one request per page it visits. |
| Crawler.PagesStopOnlyOnInterrupt | crawler-kuing.py:143-144 | Without an interrupt every URL is visited; where the loop stops on one is `PagesInterruptIsLast`. |
| Crawler.PagesInterruptIsLast | crawler-kuing.py:143-144 | After an interrupt, the last page visited made the last request, and that request was aborted with the interrupt passed on. |
| Crawler.PageStopsAtItsInterrupt | crawler-kuing.py:118-120 | A page that passes on an interrupt was visited with one request, and that request was aborted with it. |
| Crawler.World.ProcessAll | crawler-kuing.py:143-144 | Agrees with `Pages`. |
| Crawler.SitemapFailureLogged | crawler-kuing.py:139-146 | A failed sitemap request adds one line, `Error crawling sitemap: <err>`. No page is visited and no file written. |
| Crawler.SitemapParseFailureLogged | crawler-kuing.py:139-146 | A sitemap that is fetched but does not parse adds one line, `Error crawling sitemap: <parse error>`. No page is visited and no file written. |
| Crawler.SitemapInterruptPassedOn | crawler-kuing.py:139-146 | An interrupt during the sitemap request is passed on (the `except Exception` does not catch it). Nothing is logged, visited or written. |
| Crawler.CrawlInterruptFromLastPage | crawler-kuing.py:141-144 | For a fetched and parsed sitemap, an interrupt that stops the crawl came from the request of the last page visited. |
| Crawler.CrawlVisitsEveryLoc | crawler-kuing.py:137-146 | For a fetched and parsed sitemap, the pages visited are its `<loc>` URLs in order. There is one request for the sitemap plus one per page, and all URLs are visited unless an interrupt came. |
| Crawler.World.HandleSitemap | crawler-kuing.py:141-146 | Agrees with `AfterSitemap`. |
| Crawler.AfterSitemap | crawler-kuing.py:141-146 | The log only grows. An interrupt is passed on only when the sitemap request was aborted or the sitemap was fetched. A sitemap that was not fetched visits no page and writes no file. |
| Crawler.Crawl | crawler-kuing.py:137-146 | The log only grows, and at least the sitemap request is made. |
| Crawler.World.CrawlSitemap | crawler-kuing.py:137-146 | Agrees with `Crawl`. |

## Left out

- libcurl itself: the handle's options, the User-agent header, TLS, redirects and timeouts (crawler-kuing.py:35-37, 93-99). A `perform` call is only its outcome and the bytes it wrote.
- Console output: the colour codes and the messages printed on a retry or an abort (crawler-kuing.py:19-21, 26, 28-29, 43, 52-53). They do not affect any state the model keeps.
- The clock: `time.sleep` only appends its delay to the world's list of sleeps.
- HTML parsing: BeautifulSoup, the removal of `i.pstatus` and quoted-reply fonts, and the `td.t_f` selection (crawler-kuing.py:121-125, 66). The parser's output is an input.
- XML parsing and the sitemaps.org namespace (crawler-kuing.py:141-142). The `<loc>` texts are an input. An empty `<loc/>`, whose text is `None`, is not modelled.
- The TeX rewriters: `replace_post_tex` is not part of this model. They are uninterpreted total functions, applied in the code's order.
- Python's `hash`: it is salted per process, so it is a parameter.
- `json.dump`: key order and escaping are not modelled. The file holds the record's three fields.
- How `pycurl.error` renders as text: `str(err)` gives its `(code, message)` argument tuple, and the model keeps that text whole as the failure's message rather than building it from the code and libcurl's message.
- `Env.template` is one value for the whole crawl, while `save_preview` re-reads `template.html` for every accepted page (crawler-kuing.py:84-85). A read that fails for one page and succeeds for another is not expressed; no lemma depends on this.
- Fetcher.Curl: `wait_time = retry_cnt * 10.0` is a float, and the model's delays are integers. For the delays 10 to 100 that `curl` can sleep, the two are exact.
- Reading `template.html`: only its text or its error message is modelled, not the path from `__file__`.
- `os.makedirs`: it also creates `./tmp`, which is not recorded. Every reason for failure other than an existing directory is folded into the `denied` set.
- File errors other than a refused path, such as a full disk or an I/O error inside `print_err`, are not modelled.
- Interrupts outside `perform`, for example during a sleep or while parsing, are not modelled.
- Text.Dirname: models `os.path.dirname` only for the paths the crawler builds. The stripping of repeated trailing slashes is not modelled.
- Fetcher.Curl: the network must supply at least 11 outcomes per request. That is the most `curl` can consume, so no behaviour is lost.
