/**
 * One run of the scraper (`scrape_articles`) and its resume bookkeeping
 * (`load_done_urls`): read the done file, discover the article links,
 * keep those not yet done, cut the list to the requested size, and scrape
 * each in turn, appending an output block and then a done marker for every
 * article that was saved.
 *
 * The two files are append-only lists of writes; the renderer's answer for
 * each article URL is input data (`render`).
 */
module Crawl {
  import opened Wrappers
  import opened Text
  import opened Search
  import opened Extract
  import opened Discovery

  // ---------------------------------------------------------------------------
  // The done file

  /** A character that ends a line when the file is read in text mode. */
  predicate IsLineBreak(c: char) {
    c == '\n' || c == '\r'
  }

  predicate NoLineBreak(s: string) {
    forall k :: 0 <= k < |s| ==> !IsLineBreak(s[k])
  }

  /** The text is empty or its last line is complete. */
  predicate EndsLine(text: string) {
    text == [] || IsLineBreak(text[|text| - 1])
  }

  /** A URL that reads back from the done file as itself. */
  predicate CleanUrl(url: string) {
    url != "" && IsTrimmed(url) && NoLineBreak(url)
  }

  /** Index of the first line break, or `|text|` if there is none. */
  function LineEnd(text: string): (r: nat)
    ensures r <= |text|
    ensures r < |text| ==> IsLineBreak(text[r])
    ensures forall k :: 0 <= k < r ==> !IsLineBreak(text[k])
  {
    if text == [] then 0 else if IsLineBreak(text[0]) then 0 else 1 + LineEnd(text[1..])
  }

  /**
   * The lines of a text as iterating over an open file yields them, each
   * without its line break; a final line break starts no further line.
   */
  function Lines(text: string): seq<string>
    decreases |text|
  {
    if text == [] then []
    else
      var i := LineEnd(text);
      if i == |text| then [text] else [text[..i]] + Lines(text[i + 1..])
  }

  /** `set(line.strip() for line in lines if line.strip())`. */
  function DoneSet(lines: seq<string>): set<string> {
    set line | line in lines && Trim(line) != "" :: Trim(line)
  }

  /** `load_done_urls`: no file gives the empty set, else its trimmed non-blank lines. */
  function LoadDoneUrls(file: Option<string>): set<string> {
    match file
    case None => {}
    case Some(text) => DoneSet(Lines(text))
  }

  /** Every loaded URL is non-empty and has no surrounding whitespace. */
  lemma DoneUrlsClean(file: Option<string>)
    ensures forall u :: u in LoadDoneUrls(file) ==> u != "" && IsTrimmed(u)
  {
    forall u | u in LoadDoneUrls(file) ensures u != "" && IsTrimmed(u) {
      var line :| line in Lines(file.value) && Trim(line) != "" && Trim(line) == u;
      TrimTrims(line);
    }
  }

  /** A missing done file and an empty one load the same: nothing is done yet. */
  lemma MissingLikeEmpty()
    ensures LoadDoneUrls(None) == LoadDoneUrls(Some("")) == {}
  {
  }

  /** `LineEnd` is the first line break. */
  lemma LineEndIs(text: string, i: nat)
    requires i <= |text| && (i < |text| ==> IsLineBreak(text[i]))
    requires forall k :: 0 <= k < i ==> !IsLineBreak(text[k])
    ensures LineEnd(text) == i
  {
  }

  /** Reading a text whose last line is complete, followed by more text: the lines add up. */
  lemma {:induction false} LinesAppend(a: string, b: string)
    requires EndsLine(a)
    ensures Lines(a + b) == Lines(a) + Lines(b)
    decreases |a|
  {
    if a == [] {
      assert a + b == b;
    } else {
      var i := LineEnd(a);
      assert IsLineBreak(a[|a| - 1]);
      var rest := a[i + 1..];
      CutInside(a, b, i);
      LineEndIs(a + b, i);
      LinesAppend(rest, b);
      AppendAssoc([a[..i]], Lines(rest), Lines(b));
    }
  }

  /** The done marker `url + "\n"`. */
  function Marker(url: string): string {
    url + "\n"
  }

  /** A marker reads back as one line, the URL. */
  lemma MarkerLine(url: string)
    requires NoLineBreak(url)
    ensures Lines(Marker(url)) == [url] && EndsLine(Marker(url))
  {
    var m := Marker(url);
    LineEndIs(m, |url|);
    assert m[..|url|] == url && m[|url| + 1..] == "";
  }

  lemma DoneSetAppend(a: seq<string>, b: seq<string>)
    ensures DoneSet(a + b) == DoneSet(a) + DoneSet(b)
  {
    forall u | u in DoneSet(a + b) ensures u in DoneSet(a) + DoneSet(b) {
      var line :| line in a + b && Trim(line) != "" && Trim(line) == u;
    }
  }

  /**
   * The resume round trip: after a marker is appended to a done file whose
   * last line is complete, the next load holds exactly one URL more, the
   * marked one.
   */
  lemma ResumeRoundTrip(text: string, url: string)
    requires EndsLine(text) && CleanUrl(url)
    ensures LoadDoneUrls(Some(text + Marker(url))) == LoadDoneUrls(Some(text)) + {url}
    ensures EndsLine(text + Marker(url))
  {
    MarkerLine(url);
    LinesAppend(text, Marker(url));
    DoneSetAppend(Lines(text), [url]);
    TrimOfTrimmed(url);
  }

  // ---------------------------------------------------------------------------
  // Selection

  /** `[a for a in articles if a["href"] not in done_urls]`. */
  function Remaining(articles: seq<Link>, done: set<string>): seq<Link> {
    Filter(articles, (l: Link) => l.href !in done)
  }

  /** The remaining links are the not-yet-done links of the discovered list, in its order. */
  lemma RemainingSound(articles: seq<Link>, done: set<string>)
    ensures Subsequence(Remaining(articles, done), articles)
    ensures forall l :: l in Remaining(articles, done) <==> l in articles && l.href !in done
  {
    FilterSound(articles, (l: Link) => l.href !in done);
  }

  /** Filtering a list without repeated hrefs gives a list without repeated hrefs. */
  lemma {:induction false} FilterDistinct(links: seq<Link>, keep: Link -> bool)
    requires NoDuplicateHrefs(links)
    ensures NoDuplicateHrefs(Filter(links, keep))
  {
    if links != [] {
      var init, last := links[..|links| - 1], links[|links| - 1];
      assert NoDuplicateHrefs(init);
      FilterDistinct(init, keep);
      FilterSound(init, keep);
      if keep(last) {
        var r := Filter(links, keep);
        forall i, j | 0 <= i < j < |r| ensures r[i].href != r[j].href {
          if j == |r| - 1 {
            assert r[i] in Filter(init, keep);
            var k :| 0 <= k < |init| && init[k] == r[i];
            assert links[k] == r[i] && links[|links| - 1] == r[j];
          }
        }
      }
    }
  }

  function Min(a: int, b: int): int {
    if a <= b then a else b
  }

  function Max(a: int, b: int): int {
    if a >= b then a else b
  }

  /** Python's `s[:n]`: the first `n` items, or, for a negative `n`, all but the last `-n`. */
  function SliceTo<T>(s: seq<T>, n: int): (r: seq<T>)
    ensures r <= s
    ensures n >= 0 ==> |r| == Min(n, |s|)
    ensures n < 0 ==> |r| == Max(0, |s| + n)
  {
    if n >= |s| then s
    else if n >= 0 then s[..n]
    else if |s| + n > 0 then s[..|s| + n]
    else []
  }

  /** `remaining if max_articles == 0 else remaining[:max_articles]`. */
  function Select(remaining: seq<Link>, maxArticles: int): (r: seq<Link>)
    ensures r <= remaining
    ensures maxArticles == 0 ==> r == remaining
    ensures maxArticles > 0 ==> |r| == Min(maxArticles, |remaining|)
    ensures maxArticles < 0 ==> |r| == Max(0, |remaining| + maxArticles)
  {
    if maxArticles == 0 then remaining else SliceTo(remaining, maxArticles)
  }

  /** A prefix of a list without repeated hrefs has none either. */
  lemma SelectDistinct(remaining: seq<Link>, maxArticles: int)
    requires NoDuplicateHrefs(remaining)
    ensures NoDuplicateHrefs(Select(remaining, maxArticles))
  {
    var r := Select(remaining, maxArticles);
    forall i, j | 0 <= i < j < |r| ensures r[i].href != r[j].href {
      assert r[i] == remaining[i] && r[j] == remaining[j];
    }
  }

  // ---------------------------------------------------------------------------
  // One article

  /** What `scrape_article` gives for each link, given the renderer's answer for each URL. */
  function Outcomes(render: string -> Render): Link -> ScrapeOutcome {
    (l: Link) => ScrapeArticle(l.href, render(l.href))
  }

  /** The run saves an article: nothing was raised and the pair is not `(None, None)`. */
  predicate Commits(o: ScrapeOutcome) {
    o.Returned? && !(o.date.None? && o.body.None?)
  }

  const NoBodyText: string := "(no body text found)"

  /** Each saved article is followed by a blank line. */
  const BlockEnd: string := "\n\n"

  /** The date line, when there is a date. */
  function DateLines(date: Option<string>): seq<string> {
    if date.Some? && date.value != "" then [date.value + "\n"] else []
  }

  /** `body or "(no body text found)"`. */
  function BodyText(body: Option<string>): string {
    if body.Some? && body.value != "" then body.value else NoBodyText
  }

  /** The writes to the output file for one saved article, in order. */
  function Block(date: Option<string>, body: Option<string>): seq<string> {
    DateLines(date) + [BodyText(body), BlockEnd]
  }

  function BlockOf(o: ScrapeOutcome): seq<string> {
    if o.Returned? then Block(o.date, o.body) else []
  }

  /** The output of a saved article: an optional date line, the body or a placeholder, a blank line. */
  lemma BlockLayout(date: Option<string>, body: Option<string>)
    ensures var b := Block(date, body);
      && 2 <= |b| <= 3
      && b[|b| - 1] == BlockEnd
      && (|b| == 3 <==> date.Some? && date.value != "")
      && (|b| == 3 ==> b[0] == date.value + "\n")
      && (body.Some? && body.value != "" ==> b[|b| - 2] == body.value)
      && (body.None? || body.value == "" ==> b[|b| - 2] == NoBodyText)
  {
  }

  /** A page showing only a date and no paragraph is saved with the placeholder. */
  lemma DateOnlyExample()
    ensures Block(Some("28.5.2025"), None) == ["28.5.2025\n", "(no body text found)", "\n\n"]
  {
    assert "28.5.2025" + "\n" == "28.5.2025\n";
  }

  // ---------------------------------------------------------------------------
  // The run, as a function of the selected links

  /** The selected links whose article is saved, in order. */
  function Saved(selected: seq<Link>, outcome: Link -> ScrapeOutcome): seq<Link> {
    Filter(selected, (l: Link) => Commits(outcome(l)))
  }

  /** The selected links whose article is not saved: raised, blocked or empty. */
  function Unsaved(selected: seq<Link>, outcome: Link -> ScrapeOutcome): seq<Link> {
    Filter(selected, (l: Link) => !Commits(outcome(l)))
  }

  /** What the run appends to the output file for the saved links. */
  function Blocks(saved: seq<Link>, outcome: Link -> ScrapeOutcome): seq<string> {
    if saved == [] then [] else Blocks(saved[..|saved| - 1], outcome) + BlockOf(outcome(saved[|saved| - 1]))
  }

  /** What the run appends to the done file for the saved links. */
  function Markers(saved: seq<Link>): seq<string> {
    if saved == [] then [] else Markers(saved[..|saved| - 1]) + [Marker(saved[|saved| - 1].href)]
  }

  /** A link is saved exactly when it was selected and its scrape neither raised nor came back empty. */
  lemma SavedIffCommits(selected: seq<Link>, outcome: Link -> ScrapeOutcome)
    ensures forall l :: l in Saved(selected, outcome) <==> l in selected && Commits(outcome(l))
    ensures forall l :: l in Unsaved(selected, outcome) <==> l in selected && !Commits(outcome(l))
    ensures Subsequence(Saved(selected, outcome), selected)
  {
    FilterSound(selected, (l: Link) => Commits(outcome(l)));
    FilterSound(selected, (l: Link) => !Commits(outcome(l)));
  }

  /** `scraped + failed == total`: every selected link is either saved or not. */
  lemma CountersAddUp(selected: seq<Link>, outcome: Link -> ScrapeOutcome)
    ensures |Saved(selected, outcome)| + |Unsaved(selected, outcome)| == |selected|
  {
    FilterSplit(selected, (l: Link) => Commits(outcome(l)), (l: Link) => !Commits(outcome(l)));
  }

  /** Output blocks are written per saved article, in order: the blocks of a split list add up. */
  lemma {:induction false} BlocksAppend(a: seq<Link>, b: seq<Link>, outcome: Link -> ScrapeOutcome)
    ensures Blocks(a + b, outcome) == Blocks(a, outcome) + Blocks(b, outcome)
    decreases |b|
  {
    if b == [] {
      assert a + b == a;
    } else {
      var b', last := b[..|b| - 1], b[|b| - 1];
      DropLastOfAppend(a, b);
      BlocksAppend(a, b', outcome);
      AppendAssoc(Blocks(a, outcome), Blocks(b', outcome), BlockOf(outcome(last)));
    }
  }

  /** Done markers are written per saved article, in order: the markers of a split list add up. */
  lemma {:induction false} MarkersAppend(a: seq<Link>, b: seq<Link>)
    ensures Markers(a + b) == Markers(a) + Markers(b)
    decreases |b|
  {
    if b == [] {
      assert a + b == a;
    } else {
      var b', last := b[..|b| - 1], b[|b| - 1];
      DropLastOfAppend(a, b);
      MarkersAppend(a, b');
      AppendAssoc(Markers(a), Markers(b'), [Marker(last.href)]);
    }
  }

  /** The URLs of the links, in order. */
  function Urls(links: seq<Link>): seq<string> {
    if links == [] then [] else Urls(links[..|links| - 1]) + [links[|links| - 1].href]
  }

  /** The markers of clean URLs read back, line by line, as the URLs. */
  lemma {:induction false} MarkersRead(saved: seq<Link>)
    requires forall l :: l in saved ==> CleanUrl(l.href)
    ensures Lines(Concat(Markers(saved))) == Urls(saved)
    ensures EndsLine(Concat(Markers(saved)))
    decreases |saved|
  {
    if saved != [] {
      var init, last := saved[..|saved| - 1], saved[|saved| - 1];
      forall l | l in init ensures CleanUrl(l.href) {
        assert l in saved;
      }
      assert last in saved;
      MarkersRead(init);
      var m := Markers(init);
      DropLastOfAppend(m, [Marker(last.href)]);
      MarkerLine(last.href);
      LinesAppend(Concat(m), Marker(last.href));
    }
  }

  /** A clean URL on a line of its own loads as itself. */
  lemma DoneSetOne(url: string)
    requires url != "" && IsTrimmed(url)
    ensures DoneSet([url]) == {url}
  {
    TrimOfTrimmed(url);
  }

  lemma HrefsSnoc(init: seq<Link>, last: Link)
    ensures Hrefs(init + [last]) == Hrefs(init) + {last.href}
  {
    HrefsAppend(init, [last]);
    assert Hrefs([last]) == {last.href};
  }

  /** Clean URLs load as themselves. */
  lemma {:induction false} DoneSetOfUrls(saved: seq<Link>)
    requires forall l :: l in saved ==> CleanUrl(l.href)
    ensures DoneSet(Urls(saved)) == Hrefs(saved)
    decreases |saved|
  {
    if saved != [] {
      var init, last := saved[..|saved| - 1], saved[|saved| - 1];
      forall l | l in init ensures CleanUrl(l.href) {
        assert l in saved;
      }
      assert last in saved;
      DoneSetOfUrls(init);
      DoneSetAppend(Urls(init), [last.href]);
      DoneSetOne(last.href);
      assert saved == init + [last];
      HrefsSnoc(init, last);
    }
  }

  /**
   * The resume round trip for a whole run: the done file gains the markers
   * of the saved links, and the next load holds exactly their URLs more.
   */
  lemma MarkersReload(text: string, saved: seq<Link>)
    requires EndsLine(text)
    requires forall l :: l in saved ==> CleanUrl(l.href)
    ensures LoadDoneUrls(Some(text + Concat(Markers(saved)))) == LoadDoneUrls(Some(text)) + Hrefs(saved)
    ensures EndsLine(text + Concat(Markers(saved)))
  {
    MarkersRead(saved);
    DoneSetOfUrls(saved);
    LinesAppend(text, Concat(Markers(saved)));
    DoneSetAppend(Lines(text), Urls(saved));
  }

  /**
   * No re-selection: a link saved by one run is left out of the next run's
   * remaining links, and every other link stays as the old done file left it.
   */
  lemma NextRunSkipsSaved(text: string, saved: seq<Link>, articles: seq<Link>)
    requires EndsLine(text)
    requires forall l :: l in saved ==> CleanUrl(l.href)
    ensures var next := Remaining(articles, LoadDoneUrls(Some(text + Concat(Markers(saved)))));
      forall l :: l in next <==> l in Remaining(articles, LoadDoneUrls(Some(text))) && l.href !in Hrefs(saved)
  {
    MarkersReload(text, saved);
    RemainingSound(articles, LoadDoneUrls(Some(text + Concat(Markers(saved)))));
    RemainingSound(articles, LoadDoneUrls(Some(text)));
  }

  // ---------------------------------------------------------------------------
  // The run

  /** The two files the run appends to, as the lists of writes they received. */
  class Files {
    /** `articles.txt`. */
    var output: seq<string>
    /** `scraped_urls.txt`. */
    var done: seq<string>
    var doneExists: bool

    /** A file that does not exist has received no writes. */
    ghost predicate Valid()
      reads this
    {
      doneExists || done == []
    }

    constructor(output: seq<string>, done: seq<string>, doneExists: bool)
      requires doneExists || done == []
      ensures this.output == output && this.done == done && this.doneExists == doneExists
      ensures Valid()
    {
      this.output := output;
      this.done := done;
      this.doneExists := doneExists;
    }

    /** The done file as `load_done_urls` sees it. */
    function DoneFile(): Option<string>
      reads this
    {
      if doneExists then Some(Concat(done)) else None
    }

    /** Opening both files in append mode creates them and changes no content. */
    method Open()
      modifies this
      ensures output == old(output) && done == old(done) && doneExists
      ensures Valid()
    {
      doneExists := true;
    }

    method WriteOutput(s: string)
      requires Valid()
      modifies this
      ensures output == old(output) + [s] && done == old(done) && doneExists == old(doneExists)
      ensures Valid()
    {
      output := output + [s];
    }

    /** Writing to the done file needs it to be open, hence to exist. */
    method WriteDone(s: string)
      requires doneExists
      modifies this
      ensures done == old(done) + [s] && output == old(output) && doneExists == old(doneExists)
      ensures Valid()
    {
      done := done + [s];
    }
  }

  /** What the run reports: links found, new links, links to scrape, saved, failed. */
  datatype Report = Report(found: nat, remaining: nat, total: nat, scraped: nat, failed: int)

  /** The state of the run's loop after the first `i` selected links. */
  ghost predicate RunAt(selected: seq<Link>, outcome: Link -> ScrapeOutcome, i: nat,
                        output0: seq<string>, done0: seq<string>,
                        output: seq<string>, done: seq<string>, scraped: nat)
  {
    && i <= |selected|
    && output == output0 + Blocks(Saved(selected[..i], outcome), outcome)
    && done == done0 + Markers(Saved(selected[..i], outcome))
    && scraped == |Saved(selected[..i], outcome)|
  }

  /** A link that is saved: its block and its marker are appended and `scraped` grows by one. */
  lemma StepSaved(selected: seq<Link>, outcome: Link -> ScrapeOutcome, i: nat,
                  output0: seq<string>, done0: seq<string>, output: seq<string>, done: seq<string>, scraped: nat)
    requires RunAt(selected, outcome, i, output0, done0, output, done, scraped)
    requires i < |selected| && Commits(outcome(selected[i]))
    ensures RunAt(selected, outcome, i + 1, output0, done0,
                  output + BlockOf(outcome(selected[i])), done + [Marker(selected[i].href)], scraped + 1)
  {
    var keep := (l: Link) => Commits(outcome(l));
    var before := Saved(selected[..i], outcome);
    var l := selected[i];
    FilterSnoc(selected, keep, i);
    assert Saved(selected[..i + 1], outcome) == before + [l];
    DropLastOfAppend(before, [l]);
    AppendAssoc(output0, Blocks(before, outcome), BlockOf(outcome(l)));
    AppendAssoc(done0, Markers(before), [Marker(l.href)]);
  }

  /** A link that is not saved leaves both files and `scraped` as they were. */
  lemma StepSkipped(selected: seq<Link>, outcome: Link -> ScrapeOutcome, i: nat,
                    output0: seq<string>, done0: seq<string>, output: seq<string>, done: seq<string>, scraped: nat)
    requires RunAt(selected, outcome, i, output0, done0, output, done, scraped)
    requires i < |selected| && !Commits(outcome(selected[i]))
    ensures RunAt(selected, outcome, i + 1, output0, done0, output, done, scraped)
  {
    var keep := (l: Link) => Commits(outcome(l));
    FilterSnoc(selected, keep, i);
    assert Saved(selected[..i + 1], outcome) == Saved(selected[..i], outcome);
  }

  /**
   * The loop of `scrape_articles` over the selected links: scrape each and,
   * unless it raised or came back empty, append its block to the output file
   * and then its marker to the done file. `scraped` counts the saved links.
   */
  method SaveArticles(files: Files, selected: seq<Link>, render: string -> Render)
    returns (scraped: nat)
    requires files.doneExists
    modifies files
    ensures files.Valid()
    ensures files.output == old(files.output) + Blocks(Saved(selected, Outcomes(render)), Outcomes(render))
    ensures files.done == old(files.done) + Markers(Saved(selected, Outcomes(render)))
    ensures files.doneExists == old(files.doneExists)
    ensures scraped == |Saved(selected, Outcomes(render))|
  {
    ghost var outcome := Outcomes(render);
    scraped := 0;
    ghost var output0, done0 := files.output, files.done;
    assert selected[..0] == [];
    for i := 0 to |selected|
      invariant RunAt(selected, outcome, i, output0, done0, files.output, files.done, scraped)
      invariant files.doneExists == old(files.doneExists)
    {
      var url := selected[i].href;
      var result := ScrapeArticle(url, render(url));
      assert result == outcome(selected[i]);
      if result.Raised? || (result.date.None? && result.body.None?) {
        StepSkipped(selected, outcome, i, output0, done0, files.output, files.done, scraped);
      } else {
        ghost var output, done := files.output, files.done;
        WriteBlock(files, result.date, result.body);
        files.WriteDone(url + "\n");
        StepSaved(selected, outcome, i, output0, done0, output, done, scraped);
        scraped := scraped + 1;
      }
    }
    assert selected[..|selected|] == selected;
  }

  /**
   * `scrape_articles`: load the done set, discover the links (a fault there
   * ends the run before any file is opened), select the new ones, save them,
   * and report the counts, `failed` being `total - scraped`.
   */
  method ScrapeArticles(files: Files, source: nat -> Fetch, ghost universe: set<string>,
                        render: string -> Render, maxArticles: int)
    returns (report: Option<Report>)
    requires Bounded(Pages(source), universe)
    requires files.Valid()
    modifies files
    ensures files.Valid()
    ensures Discover(Pages(source), universe).Failure? ==>
      report.None? && files.output == old(files.output) && files.done == old(files.done)
      && files.doneExists == old(files.doneExists)
    ensures Discover(Pages(source), universe).Success? ==>
      var articles := Discover(Pages(source), universe).value;
      var remaining := Remaining(articles, LoadDoneUrls(old(files.DoneFile())));
      var selected := Select(remaining, maxArticles);
      var saved := Saved(selected, Outcomes(render));
      && report == Some(Report(|articles|, |remaining|, |selected|, |saved|, |Unsaved(selected, Outcomes(render))|))
      && files.output == old(files.output) + Blocks(saved, Outcomes(render))
      && files.done == old(files.done) + Markers(saved)
      && files.doneExists
  {
    var doneUrls := LoadDoneUrls(files.DoneFile());
    var articles, _ := GetArticleLinks(source, universe);
    if articles.Failure? {
      return None;
    }
    var remaining := Remaining(articles.value, doneUrls);
    var selected := Select(remaining, maxArticles);
    var total := |selected|;
    files.Open();
    var scraped := SaveArticles(files, selected, render);
    CountersAddUp(selected, Outcomes(render));
    var failed := total - scraped;
    report := Some(Report(|articles.value|, |remaining|, total, scraped, failed));
  }

  /** The writes for one saved article: the date line if there is a date, the body or the placeholder, a blank line. */
  method WriteBlock(files: Files, date: Option<string>, body: Option<string>)
    requires files.Valid()
    modifies files
    ensures files.Valid()
    ensures files.output == old(files.output) + Block(date, body)
    ensures files.done == old(files.done) && files.doneExists == old(files.doneExists)
  {
    ghost var before := files.output;
    if date.Some? && date.value != "" {
      files.WriteOutput(date.value + "\n");
    }
    files.WriteOutput(if body.Some? && body.value != "" then body.value else NoBodyText);
    files.WriteOutput(BlockEnd);
    AppendAssoc(before + DateLines(date), [BodyText(body)], [BlockEnd]);
    AppendAssoc(before, DateLines(date), [BodyText(body), BlockEnd]);
  }

  /**
   * An article is saved exactly when the page loaded, is not a block page,
   * and shows a date or a paragraph.
   */
  lemma CommitCondition(render: string -> Render, l: Link)
    ensures Commits(Outcomes(render)(l)) <==>
      render(l.href).Loaded? && !IsBlocked(render(l.href).page)
      && (DateOf(render(l.href).page.publishTimes, l.href).Some? || BodyOf(render(l.href).page).Some?)
  {
    NothingReturned(l.href, render(l.href));
  }

  /** Within one run no URL is saved twice: the discovered links carry each href once. */
  lemma SavedOnce(articles: seq<Link>, done: set<string>, maxArticles: int, outcome: Link -> ScrapeOutcome)
    requires NoDuplicateHrefs(articles)
    ensures NoDuplicateHrefs(Saved(Select(Remaining(articles, done), maxArticles), outcome))
  {
    FilterDistinct(articles, (l: Link) => l.href !in done);
    SelectDistinct(Remaining(articles, done), maxArticles);
    FilterDistinct(Select(Remaining(articles, done), maxArticles), (l: Link) => Commits(outcome(l)));
  }

  /**
   * Resume across runs: if the done file held complete lines (or did not
   * exist), then after a run that saved `saved` the next load holds exactly
   * the URLs of `saved` more.
   */
  lemma RunResume(done: seq<string>, doneExists: bool, saved: seq<Link>)
    requires doneExists || done == []
    requires EndsLine(Concat(done))
    requires forall l :: l in saved ==> CleanUrl(l.href)
    ensures LoadDoneUrls(Some(Concat(done + Markers(saved)))) ==
      LoadDoneUrls(if doneExists then Some(Concat(done)) else None) + Hrefs(saved)
  {
    ConcatAppend(done, Markers(saved));
    MarkersReload(Concat(done), saved);
    if !doneExists {
      assert Concat(done) == "";
    }
  }
}
