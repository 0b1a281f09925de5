# mbl.is article scraper — a verified Dafny model

The scraper searches mbl.is for a keyword and saves the articles it finds:

1. It pages through the search results at offsets 0, 20, 40, … and collects the article links, one per href. It stops after the first page that has no "next" marker or adds no new link.
2. It drops the links already recorded in `scraped_urls.txt` and keeps at most the requested number.
3. It renders each remaining article.
   - A page showing the Cloudflare challenge or the site placeholder is skipped.
   - Otherwise the scraper reads the publication date, taken from the meta tag or from the URL and normalised to `D.M.YYYY`, and the body paragraphs.
4. For every article it saves, it appends a block to `articles.txt` and then the URL to `scraped_urls.txt`, so that a later run resumes where this one stopped.

This project models that pipeline and proves its properties. The browser is replaced by input data.
- A search result page is a list of anchors plus a "next" flag, or a fault.
- An article page is its `h1` text, its publish-time meta values and two paragraph lists, or a fault.

Modules:

- `Wrappers`: `Option` and `Result`.
- `Text`:
  - whitespace trimming (`str.strip`, `String.prototype.trim`);
  - `"\n\n".join`;
  - decimal numerals (`int()` and `str()` on digit groups);
  - order-preserving filtering and sub-sequences.
- `Extract`: `scrape_article`, made of the block check, the date chain and the body chain, as pure functions.
- `Search`:
  - the article-link filter of a result page;
  - deduplication by href;
  - offsets;
  - the page-by-page view of the search results.
- `Discovery`: `get_article_links`. It is an imperative loop, proved against the specification function `Discover`, with the stop rule and deduplication proved about that function.
- `Crawl`:
  - `load_done_urls`;
  - the selection of links;
  - the two append-only files as a class;
  - the per-article loop and `scrape_articles`, proved against specification functions;
  - the resume round trip across runs.

An article page that loads but shows neither a date nor a kept paragraph also comes back as `(None, None)`. The run logs it as "Blocked by Cloudflare" (main.py:148-149) and does not record it (`Extract.NothingReturned`, `Crawl.CommitCondition`).

## Model

| member | source | states |
|---|---|---|
| Text.Trim | main.py:17 | the definition of stripping both ends of a string, for `str.strip()` and `String.prototype.trim()`; what it removes is stated by `TrimCut`, `TrimTrims` and `TrimFixedPoints` |
| Text.TrimCut | main.py:78 | stripping removes whitespace only, and only at the two ends: the result is a middle slice with all-whitespace margins, and it neither starts nor ends with whitespace |
| Text.TrimTrims | main.py:17 | a stripped line has no surrounding whitespace and is no longer than the line |
| Text.TrimOfTrimmed | main.py:78-81 | a string without surrounding whitespace (such as "Just a moment...") is unchanged by stripping |
| Text.TrimIdempotent | main.py:17 | stripping twice is stripping once |
| Text.TrimFixedPoints | main.py:78 | strip leaves a string unchanged exactly when it has no whitespace at either end |
| Text.Join | main.py:109 | joining no parts gives "", one part gives that part, and a join starts with its first part |
| Text.JoinSplit | main.py:109 | the joined body contains every kept paragraph in order, separated by the separator: cut at any paragraph, it is the join of the paragraphs before, the separator, and the join of the rest |
| Text.JoinNonEmpty | main.py:108-109 | joining paragraphs whose first is non-empty gives a non-empty body |
| Text.NatToString | main.py:95 | `str()` of a number is a canonical numeral: digits only, no leading zero |
| Text.NatToStringRoundTrip | main.py:95 | `int(str(n)) == n` |
| Text.CanonicalRoundTrip | main.py:95 | `str(int(s)) == s` for a canonical numeral |
| Text.LeadingZeroIgnored | main.py:95 | `int()` ignores a leading zero, so "05" and "5" have the same value |
| Text.FilterSound | main.py:134 | a list comprehension with a condition keeps exactly the items satisfying it, in their original order |
| Text.FilterSplit | main.py:163 | every item satisfies exactly one of a condition and its negation, so the two filtered lists add up to the whole list |
| Extract.IsBlocked | main.py:76-83 | the definition of a blocked page: no `h1`, or a stripped `h1` of "www.mbl.is" or "Just a moment..."; its consequences are stated by `ScrapeArticle`, `NothingReturned` and `ChallengePageBlocked` |
| Extract.FormatDate | main.py:95 | the definition of the `D.M.YYYY` date text; `DateRoundTrip` proves it reads back as the matched groups |
| Extract.FindUrlDate | main.py:98 | `re.search` finds the leftmost `/dddd/dd/dd/`: a match at the returned index, none before it, and none at all when nothing is returned |
| Extract.DateOf | main.py:86-100 | the date is absent exactly when the first meta value does not start with `dddd-dd-dd` and the URL has no `/dddd/dd/dd/`; a matching meta value wins; a present date is non-empty |
| Extract.DateFromUrl | main.py:96-100 | without a usable meta value, the date comes from the leftmost URL match |
| Extract.DateRoundTrip | main.py:95 | a formatted date reads back as `int(day)`, `int(month)` and the year exactly as matched |
| Extract.DateFromMetaExample | main.py:91-95 | "2025-05-28T08:36:00+0000" gives "28.5.2025" |
| Extract.DateFromUrlExample | main.py:96-100 | with no meta value, the URL ".../2025/05/28/..." gives "28.5.2025" |
| Extract.KeptParagraphs | main.py:104-107 | the definition of the map-trim-and-filter over paragraph texts; `KeptClean` and `KeptAppend` state what it keeps and in which order |
| Extract.KeptClean | main.py:104-107 | every kept paragraph is non-empty, has no surrounding whitespace and is the stripped text of an input paragraph, and no more paragraphs are kept than were found |
| Extract.KeptAppend | main.py:104-107 | the map-trim-and-filter keeps paragraphs in document order: it distributes over concatenation |
| Extract.BodyOf | main.py:103-117 | the body is absent exactly when both selectors keep no paragraph; otherwise it is non-empty, and it is the join of the main-layout paragraphs whenever those are non-empty |
| Extract.FallbackOnlyWhenMainEmpty | main.py:111-117 | when the main layout keeps a paragraph, the fallback paragraphs have no influence on the body |
| Extract.FallbackBody | main.py:111-117 | with an empty main layout and kept fallback paragraphs, the body is their join |
| Extract.ScrapeArticle | main.py:68-120 | an exception gives the raised outcome; a blocked page (no `h1`, or a stripped `h1` of "www.mbl.is" or "Just a moment...") gives `(None, None)`; any other page gives its date and body |
| Extract.NothingReturned | main.py:76-120 | `(None, None)` comes back exactly for a blocked page, and for an accessible page with neither a date nor a kept paragraph |
| Extract.ChallengePageBlocked | main.py:81-83 | a page whose `h1` is "Just a moment..." gives `(None, None)` |
| Search.IsArticleHref | main.py:39 | the definition of the href test: `mbl.is/<section>/`, then any characters but line terminators, then `/<4 digits>/`; `ArticleHrefShape` states which hrefs pass |
| Search.PageLinks | main.py:33-43 | the definition of the link filter of a result page; `PageLinksSound` and `PageLinksAppend` state which links it keeps and in which order |
| Search.PageLinksSound | main.py:33-43 | a page's links are exactly its anchors whose href matches the article pattern and whose trimmed text is longer than 10 characters, each given as href and trimmed text |
| Search.PageLinksSnoc | main.py:36-41 | one more anchor adds its link at the end exactly when the filter keeps it |
| Search.PageLinksAppend | main.py:36-41 | the filter keeps the anchors' document order: the links of two runs of anchors are the links of the first followed by those of the second |
| Search.ArticleHrefShape | main.py:39 | every href of the form `…mbl.is/<section>/<one line>/<4 digits>/…` with a listed section passes the href test |
| Search.Dedup | main.py:50-56 | the definition of what the seen-set and the accumulator compute; `DedupSound` and `DedupFirst` characterise it |
| Search.DedupSound | main.py:50-56 | the accumulated links repeat no href, lose no href, keep the input order, and are the input at exactly the first positions of its hrefs |
| Search.DedupFirst | main.py:53-55 | each href is kept at its first occurrence: the accumulated links are the input at an increasing list of positions that are exactly the positions where an href occurs for the first time |
| Search.DedupHrefs | main.py:53-55 | the accumulated links have exactly the hrefs of all links seen |
| Search.DedupDistinct | main.py:53-55 | no two accumulated links share an href |
| Search.DedupOrder | main.py:55 | the accumulated links are a sub-sequence of the links seen, in their order |
| Search.DedupSnoc | main.py:53-56 | one more link is appended exactly when its href is new |
| Search.DedupPrefix | main.py:55 | later links only extend the accumulated list, never change what is there |
| Search.DedupOfKnown | main.py:53 | links whose hrefs were all seen leave the accumulated list unchanged |
| Search.Offsets | main.py:24-63 | the offsets requested for `n` pages number `n` |
| Search.OffsetsStep | main.py:24-63 | the `i`-th request is at offset `20 * i`: it starts at 0 and grows by exactly 20 |
| Discovery.ContinuingAddsHref | main.py:53-63 | a page after which the loop goes on adds an href not seen before |
| Discovery.ContinuingShrinks | main.py:53-63 | such a page shrinks the set of hrefs not yet seen, which is why the loop ends |
| Discovery.ContinuingPagesAddHrefs | main.py:53-63 | after `n` continuing pages at least `n` distinct hrefs have been seen |
| Discovery.Discover | main.py:20-65 | discovery fails exactly when the last page fetched raised; otherwise its result repeats no href and has exactly the hrefs of all fetched pages |
| Discovery.StopRule | main.py:60-63 | every page before the last one fetched was served, showed "next" and added a new href; the last one did not; no more pages are fetched than there are distinct hrefs, plus one |
| Discovery.StopPageIndependent | main.py:26 | the finite bound on the hrefs of the pages the loop reaches is only a proof device: the pages fetched and the result do not depend on it |
| Discovery.ContinuingGrows | main.py:51-63 | every continuing page strictly extends the accumulated list, by appending only |
| Discovery.StaleThirdPage | main.py:60-61 | if the third page (offset 40) adds no new href, discovery fetches exactly three pages and returns the links of the first two |
| Discovery.AddNewLinks | main.py:51-56 | the per-page loop appends to `all_links` and `seen_hrefs` exactly the links with new hrefs, and `new_count` is the growth of `all_links`; it is positive exactly when the page had an unseen href |
| Discovery.GetArticleLinks | main.py:20-65 | the loop returns what `Discover` specifies, and requests the offsets 0, 20, … up to the last page fetched |
| Crawl.Lines | main.py:16-17 | the definition of the lines Python iterates over in a text file: split at each line break, with no empty line after a final break; `LinesAppend` and `MarkerLine` state how it reads appended markers |
| Crawl.DoneSet | main.py:17 | the definition of the set of stripped, non-empty lines; `DoneUrlsClean` and `DoneSetOfUrls` state what it holds |
| Crawl.LoadDoneUrls | main.py:12-17 | the definition of loading the done file: empty when the file is missing, else the stripped non-empty lines; `MissingLikeEmpty`, `ResumeRoundTrip` and `RunResume` state its behaviour |
| Crawl.DoneUrlsClean | main.py:17 | every loaded URL is non-empty and has no surrounding whitespace |
| Crawl.MissingLikeEmpty | main.py:14-15 | a missing done file loads as the empty set, like an empty one |
| Crawl.LinesAppend | main.py:16-17 | after complete lines, more text adds its own lines: the lines of a concatenation are the lines of the parts |
| Crawl.MarkerLine | main.py:155 | a marker `url + "\n"` reads back as the single line `url` |
| Crawl.ResumeRoundTrip | main.py:12-155 | after a marker is appended to a done file of complete lines, the next load has exactly that URL more |
| Crawl.Remaining | main.py:134 | the definition of the links whose href is not done; `RemainingSound` states it |
| Crawl.RemainingSound | main.py:134 | the remaining links are exactly the discovered links whose href is not done, in discovered order |
| Crawl.FilterDistinct | main.py:134 | filtering links that carry each href once gives links that carry each href once |
| Crawl.SliceTo | main.py:135 | `s[:n]` is a prefix of `s` of length `min(n, len(s))` for `n >= 0`, and `max(0, len(s) + n)` for negative `n` |
| Crawl.Select | main.py:135 | the links to scrape are all remaining links for 0, and otherwise the Python slice `remaining[:max_articles]` |
| Crawl.SelectDistinct | main.py:135 | the links to scrape carry each href once if the remaining links do |
| Crawl.Block | main.py:151-154 | the definition of the writes for one saved article; `BlockLayout` states their layout |
| Crawl.BlockLayout | main.py:151-154 | a saved article's output is an optional date line (present exactly when there is a date), then the body or "(no body text found)", then a blank line |
| Crawl.DateOnlyExample | main.py:151-154 | an article with date "28.5.2025" and no body is written as "28.5.2025\n", "(no body text found)", "\n\n" |
| Crawl.SavedIffCommits | main.py:146-160 | a link is saved exactly when it was selected and its scrape neither raised nor returned `(None, None)`; the others are exactly the unsaved ones; saved links keep their order |
| Crawl.CountersAddUp | main.py:157-163 | saved and unsaved links add up to the total, so `failed = total - scraped` counts the unsaved links |
| Crawl.BlocksAppend | main.py:142-154 | output blocks are written per saved article in order: the output of two runs of links is the concatenation of their outputs |
| Crawl.MarkersAppend | main.py:142-155 | done markers are written per saved article in order: the markers of two runs of links concatenate |
| Crawl.MarkersRead | main.py:155 | the markers of clean URLs read back, line by line, as those URLs in order, and leave the file ending in a line break |
| Crawl.DoneSetOfUrls | main.py:17 | a list of clean URLs loads as exactly the set of those URLs |
| Crawl.MarkersReload | main.py:12-155 | after a run's markers are appended to a done file of complete lines, the next load has exactly the saved URLs more |
| Crawl.NextRunSkipsSaved | main.py:134-155 | the next run's remaining links are this run's, minus exactly the links saved now: nothing saved is selected again |
| Crawl.Files.Open | main.py:140-141 | opening both files in append mode creates the done file, changes no content, and establishes the invariant that a missing file has received no writes |
| Crawl.Files.WriteOutput | main.py:152-154 | a write appends to the output file only and keeps the invariant |
| Crawl.Files.WriteDone | main.py:155 | a write needs the done file to be open, hence to exist; it appends to the done file only and keeps the invariant |
| Crawl.WriteBlock | main.py:151-154 | the writes for one saved article append exactly its block, leave the done file alone and keep the invariant |
| Crawl.StepSaved | main.py:151-157 | a saved article adds its block, its marker and one to `scraped`, in step with the specification of the run |
| Crawl.StepSkipped | main.py:146-160 | a blocked, empty or failing article changes neither file nor `scraped` |
| Crawl.SaveArticles | main.py:139-160 | run once both files are open, the loop keeps the invariant and appends exactly the blocks of the saved links to the output file and exactly their markers to the done file, in order, and `scraped` is their number |
| Crawl.ScrapeArticles | main.py:123-164 | a failing discovery ends the run before any file is opened; otherwise the run loads the done set, selects, saves as `SaveArticles` states, and reports found, new, total, scraped, and failed (the number of unsaved links) |
| Crawl.Commits | main.py:148 | the definition of an outcome that is saved: the scrape returned and not `(None, None)`; `CommitCondition` states it in terms of the page |
| Crawl.CommitCondition | main.py:146-155 | an article is saved exactly when its page loaded, is not blocked, and shows a date or a paragraph |
| Crawl.SavedOnce | main.py:134-142 | within one run no URL is saved twice |
| Crawl.RunResume | main.py:12-155 | across runs, the done file reloads as the old done set plus exactly the URLs saved by the run, including when the file did not exist before |

## Left out

- The browser. Playwright's browser and context lifecycle, `goto`, `query_selector` and `eval_on_selector_all` are replaced by input data:
  - `source(offset)` is a result page or a fault;
  - `render(url)` is an article page or a fault.
  A URL is assumed to render the same way whenever it is asked for.
- Search URL. The search URL template and the keyword (main.py:6, 29) are not modelled; the result pages are indexed by offset only.
- `time.sleep` pacing (main.py:31, 73): it has no effect on the data.
- Logging and the `__main__` prompts (main.py:58, 125, 130, 137, 144, 149, 158, 160, 164, 167-173): `print` and `input()`, console I/O with no effect on the files.
- File handling. Opening, encoding, `flush` and durability of the two files (main.py:16, 140-141, 156) are not modelled. The files are the ordered lists of writes they received.
  - An I/O error raised by a write is not modelled.
  - A crash between the output block and the done marker is not modelled.
  - The relative order of writes across the two files is not modelled.
- Other exceptions. Only a fault while fetching a result page ends discovery, and the run then stops before opening any file. Other exceptions (browser launch, context creation) are not modelled.
- Text handling is ASCII-only:
  - Whitespace is the six characters space, `\t`, `\n`, `\v`, `\f` and `\r`, for both stripping functions. This matches JavaScript's `trim` (main.py:37, 106, 114) on ASCII text. Python's `str.strip()` (main.py:17, 78) also strips the separators `\x1c` to `\x1f`, which the model keeps. Non-ASCII whitespace (`\xa0`, `\u2028` and the like, plus `\x85` for Python and `\ufeff` for JavaScript) is not stripped by the model.
  - `\d` means the ASCII digits.
  - `text.length` counts characters, not UTF-16 code units.
- Line splitting in the done file. Lines are split at every `\n` and `\r`. Python's universal newlines read `\r\n` as one break; the model's extra empty line is dropped by the strip filter, so the loaded set is the same.
- Hrefs. The anchors' resolved `href` values are input strings. Nothing requires them to be clean URLs, so the resume lemmas take `CleanUrl` (non-empty, no surrounding whitespace, no line break) as a hypothesis.
- Discovery.GetArticleLinks: requires a finite set `universe` holding every href offered by a page the loop reaches, that is a page all of whose predecessors showed "next" and added a new href. Pages after the one where the loop stops are not constrained. Such a set exists exactly when the original loop stops. A source that keeps serving new hrefs and "next" forever makes it run forever, and that case is not modelled.
- Crawl.ScrapeArticles: requires the same finite `universe` bound, for the same reason.
- Crawl.ResumeRoundTrip: requires the done file to be empty or to end in a line break. Otherwise the first marker of the run would join the file's last line, and the source does exactly that.
