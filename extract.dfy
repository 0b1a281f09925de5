/**
 * Content extraction for one article page (`scrape_article`): the block
 * check on the page heading, the publication date (meta tag first, then
 * the URL) normalised to D.M.YYYY, and the body text (main layout
 * paragraphs first, then the fallback containers).
 *
 * The rendered page is input data: the heading text, the `content`
 * attributes of the publish-time meta tags and the inner texts of the
 * paragraphs each selector matches.
 */
module Extract {
  import opened Wrappers
  import opened Text

  /** What the renderer shows of an article page. */
  datatype ArticlePage = ArticlePage(
    heading: Option<string>,              // inner text of the first `h1`, if there is one
    publishTimes: seq<Option<string>>,    // `content` of each `cXenseParse:publishtime` meta tag
    mainParagraphs: seq<string>,          // inner text of each `.main-layout p`
    fallbackParagraphs: seq<string>)      // inner text of each `.frett-container p, article p`

  /** Loading or querying the page either works or raises. */
  datatype Render = Loaded(page: ArticlePage) | Raises

  /** What `scrape_article` does for one URL: raise, or return a (date, body) pair. */
  datatype ScrapeOutcome = Raised | Returned(date: Option<string>, body: Option<string>)

  /** The three digit groups of a matched date: year, month, day, as written. */
  datatype DateGroups = DateGroups(year: string, month: string, day: string)

  /** A normalised date read back: day and month as numbers, the year as written. */
  datatype CalendarDate = CalendarDate(day: nat, month: nat, year: string)

  /** Headings that mark an anti-bot challenge or a placeholder page. */
  const BlockedTitles: seq<string> := ["www.mbl.is", "Just a moment..."]

  const ParagraphSeparator: string := "\n\n"

  // ---------------------------------------------------------------------------
  // Block detection

  predicate IsBlocked(page: ArticlePage) {
    page.heading.None? || Trim(page.heading.value) in BlockedTitles
  }

  // ---------------------------------------------------------------------------
  // Date

  predicate DigitsAt(s: string, i: nat, n: nat) {
    i + n <= |s| && AllDigits(s[i..i + n])
  }

  /** `(\d{4})-(\d{2})-(\d{2})` matches at the start of `s`. */
  predicate IsoDatePrefix(s: string) {
    |s| >= 10 && DigitsAt(s, 0, 4) && s[4] == '-' && DigitsAt(s, 5, 2) && s[7] == '-' && DigitsAt(s, 8, 2)
  }

  function IsoGroups(s: string): DateGroups
    requires IsoDatePrefix(s)
  {
    DateGroups(s[..4], s[5..7], s[8..10])
  }

  /** `/(\d{4})/(\d{2})/(\d{2})/` matches at index `i` of `url`. */
  predicate UrlDateAt(url: string, i: nat) {
    i + 12 <= |url| && url[i] == '/' && DigitsAt(url, i + 1, 4) && url[i + 5] == '/'
    && DigitsAt(url, i + 6, 2) && url[i + 8] == '/' && DigitsAt(url, i + 9, 2) && url[i + 11] == '/'
  }

  function UrlGroups(url: string, i: nat): DateGroups
    requires UrlDateAt(url, i)
  {
    DateGroups(url[i + 1..i + 5], url[i + 6..i + 8], url[i + 9..i + 11])
  }

  /** Leftmost match of the URL date pattern at or after `from`, as `re.search` finds it. */
  function FindUrlDate(url: string, from: nat): (r: Option<nat>)
    ensures r.Some? ==> from <= r.value && UrlDateAt(url, r.value)
    ensures r.Some? ==> forall j :: from <= j < r.value ==> !UrlDateAt(url, j)
    ensures r.None? ==> forall j :: from <= j ==> !UrlDateAt(url, j)
    decreases |url| - from
  {
    if from + 12 > |url| then None
    else if UrlDateAt(url, from) then Some(from)
    else FindUrlDate(url, from + 1)
  }

  predicate GroupsAreDigits(g: DateGroups) {
    AllDigits(g.year) && AllDigits(g.month) && AllDigits(g.day)
  }

  /** `f"{int(day)}.{int(month)}.{year}"`. */
  function FormatDate(g: DateGroups): string
    requires GroupsAreDigits(g)
  {
    NatToString(NumeralValue(g.day)) + "." + NatToString(NumeralValue(g.month)) + "." + g.year
  }

  /** The meta tag gives the date: its first value is present, non-empty and starts with a date. */
  predicate MetaHasDate(publishTimes: seq<Option<string>>) {
    |publishTimes| > 0 && publishTimes[0].Some? && publishTimes[0].value != ""
    && IsoDatePrefix(publishTimes[0].value)
  }

  /** The publication date: meta tag first, then the URL, else absent. */
  function DateOf(publishTimes: seq<Option<string>>, url: string): (r: Option<string>)
    ensures r.Some? ==> r.value != ""
    ensures r.None? <==> !MetaHasDate(publishTimes) && forall i :: !UrlDateAt(url, i)
    ensures MetaHasDate(publishTimes) ==> r == Some(FormatDate(IsoGroups(publishTimes[0].value)))
  {
    var fromMeta :=
      if |publishTimes| > 0 && publishTimes[0].Some? && publishTimes[0].value != "" then
        (if IsoDatePrefix(publishTimes[0].value) then Some(FormatDate(IsoGroups(publishTimes[0].value))) else None)
      else None;
    if fromMeta.Some? && fromMeta.value != "" then fromMeta
    else
      match FindUrlDate(url, 0)
      case Some(i) => Some(FormatDate(UrlGroups(url, i)))
      case None => None
  }

  /** Without a usable meta tag, the date comes from the leftmost `/YYYY/MM/DD/` in the URL. */
  lemma DateFromUrl(publishTimes: seq<Option<string>>, url: string, i: nat)
    requires !MetaHasDate(publishTimes)
    requires UrlDateAt(url, i) && forall j :: 0 <= j < i ==> !UrlDateAt(url, j)
    ensures DateOf(publishTimes, url) == Some(FormatDate(UrlGroups(url, i)))
  {
    var k := FindUrlDate(url, 0);
    assert k.Some?;
    assert k.value == i;
  }

  /** Position of the first `c` in `s`, or `|s|` if there is none. */
  function IndexOf(s: string, c: char): (r: nat)
    ensures r <= |s|
    ensures r < |s| ==> s[r] == c
    ensures forall k :: 0 <= k < r ==> s[k] != c
  {
    if s == [] then 0 else if s[0] == c then 0 else 1 + IndexOf(s[1..], c)
  }

  /** The first `c` in `a + [c] + b`, when `a` holds no `c`, is the one after `a`. */
  lemma {:induction false} IndexOfSplit(a: string, c: char, b: string)
    requires forall k :: 0 <= k < |a| ==> a[k] != c
    ensures IndexOf(a + [c] + b, c) == |a|
    ensures (a + [c] + b)[..|a|] == a && (a + [c] + b)[|a| + 1..] == b
  {
    if a != [] {
      assert (a + [c] + b)[1..] == a[1..] + [c] + b;
      IndexOfSplit(a[1..], c, b);
    }
  }

  /** Reads a `D.M.YYYY` line back into day, month and year. */
  function ParseDate(s: string): Option<CalendarDate> {
    var i := IndexOf(s, '.');
    if i == |s| then None
    else
      var rest := s[i + 1..];
      var j := IndexOf(rest, '.');
      if j == |rest| then None
      else
        var d, m, y := s[..i], rest[..j], rest[j + 1..];
        if IsCanonicalNumeral(d) && IsCanonicalNumeral(m) && |y| == 4 && AllDigits(y)
        then Some(CalendarDate(NumeralValue(d), NumeralValue(m), y))
        else None
  }

  /**
   * A normalised date reads back as the matched day and month values (leading
   * zeros dropped) and the matched year, unchanged.
   */
  lemma DateRoundTrip(g: DateGroups)
    requires GroupsAreDigits(g) && |g.year| == 4
    ensures ParseDate(FormatDate(g)) == Some(CalendarDate(NumeralValue(g.day), NumeralValue(g.month), g.year))
  {
    var d := NatToString(NumeralValue(g.day));
    var m := NatToString(NumeralValue(g.month));
    var rest := m + "." + g.year;
    assert FormatDate(g) == d + "." + rest;
    IndexOfSplit(d, '.', rest);
    IndexOfSplit(m, '.', g.year);
    NatToStringRoundTrip(NumeralValue(g.day));
    NatToStringRoundTrip(NumeralValue(g.month));
  }

  /** `int("28") == 28` and `int("05") == 5`: the two groups of the examples below. */
  lemma ExampleNumerals()
    ensures NumeralValue("28") == 28 && NumeralValue("05") == 5
    ensures NatToString(28) == "28" && NatToString(5) == "5"
  {
    assert "28"[..1] == "2";
    assert "05"[..1] == "0";
  }

  /** The meta tag value "2025-05-28T08:36:00+0000" gives "28.5.2025". */
  lemma DateFromMetaExample()
    ensures DateOf([Some("2025-05-28T08:36:00+0000")], "") == Some("28.5.2025")
  {
    var s := "2025-05-28T08:36:00+0000";
    assert s[..4] == "2025";
    assert s[5..7] == "05" by { assert s[5] == '0' && s[6] == '5'; }
    assert s[8..10] == "28" by { assert s[8] == '2' && s[9] == '8'; }
    assert IsoDatePrefix(s);
    assert MetaHasDate([Some(s)]);
    ExampleNumerals();
    assert IsoGroups(s) == DateGroups("2025", "05", "28");
    assert FormatDate(IsoGroups(s)) == "28" + "." + "5" + "." + "2025";
    assert "28" + "." + "5" + "." + "2025" == "28.5.2025";
  }

  /** The URL of the example below: its leftmost date segment starts at index 3. */
  lemma UrlExampleMatch(u: string)
    requires u == ".../2025/05/28/..."
    ensures UrlDateAt(u, 3) && UrlGroups(u, 3) == DateGroups("2025", "05", "28")
    ensures forall j :: 0 <= j < 3 ==> !UrlDateAt(u, j)
  {
    assert u[4..8] == "2025" by { assert u[4] == '2' && u[5] == '0' && u[6] == '2' && u[7] == '5'; }
    assert u[9..11] == "05" by { assert u[9] == '0' && u[10] == '5'; }
    assert u[12..14] == "28" by { assert u[12] == '2' && u[13] == '8'; }
    forall j | 0 <= j < 3 ensures !UrlDateAt(u, j) {
      assert u[j] == '.';
    }
  }

  /** With no meta tag, the URL ".../2025/05/28/..." gives the same "28.5.2025". */
  lemma DateFromUrlExample()
    ensures DateOf([], ".../2025/05/28/...") == Some("28.5.2025")
  {
    var u := ".../2025/05/28/...";
    UrlExampleMatch(u);
    DateFromUrl([], u, 3);
    ExampleNumerals();
    assert FormatDate(DateGroups("2025", "05", "28")) == "28" + "." + "5" + "." + "2025";
    assert "28" + "." + "5" + "." + "2025" == "28.5.2025";
  }

  // ---------------------------------------------------------------------------
  // Body

  /** `els.map(e => e.innerText.trim()).filter(t => t.length > 0)`. */
  function KeptParagraphs(texts: seq<string>): seq<string> {
    if texts == [] then []
    else
      var init := texts[..|texts| - 1];
      var last := texts[|texts| - 1];
      if Trim(last) != "" then KeptParagraphs(init) + [Trim(last)] else KeptParagraphs(init)
  }

  /** Every kept paragraph is non-empty and trimmed, and none is made up. */
  lemma {:induction false} KeptClean(texts: seq<string>)
    ensures |KeptParagraphs(texts)| <= |texts|
    ensures forall k :: 0 <= k < |KeptParagraphs(texts)| ==>
      KeptParagraphs(texts)[k] != "" && IsTrimmed(KeptParagraphs(texts)[k])
    ensures forall t :: t in KeptParagraphs(texts) ==> exists p :: p in texts && t == Trim(p)
  {
    if texts != [] {
      var init, last := texts[..|texts| - 1], texts[|texts| - 1];
      TrimTrims(last);
      KeptClean(init);
      forall t | t in KeptParagraphs(texts) ensures exists p :: p in texts && t == Trim(p) {
        if t in KeptParagraphs(init) {
          var p :| p in init && t == Trim(p);
          assert p in texts;
        } else {
          assert t == Trim(last);
        }
      }
    }
  }

  /** Keeping one more paragraph: its trimmed text is appended unless it is empty. */
  lemma KeptSnoc(init: seq<string>, last: string)
    ensures KeptParagraphs(init + [last]) ==
      KeptParagraphs(init) + (if Trim(last) != "" then [Trim(last)] else [])
  {
    DropLastOfAppend(init, [last]);
  }

  /** Keeping paragraphs page by page keeps them in order: the filter distributes over `+`. */
  lemma {:induction false} KeptAppend(a: seq<string>, b: seq<string>)
    ensures KeptParagraphs(a + b) == KeptParagraphs(a) + KeptParagraphs(b)
    decreases |b|
  {
    if b == [] {
      assert a + b == a;
    } else {
      var b', last := b[..|b| - 1], b[|b| - 1];
      var tail := if Trim(last) != "" then [Trim(last)] else [];
      SplitLast(a, b);
      KeptAppend(a, b');
      KeptSnoc(a + b', last);
      KeptSnoc(b', last);
      AppendAssoc(KeptParagraphs(a), KeptParagraphs(b'), tail);
    }
  }

  /** The body: the first selector whose kept paragraphs are non-empty, joined by blank lines. */
  function BodyOf(page: ArticlePage): (r: Option<string>)
    ensures r.Some? ==> r.value != ""
    ensures r.None? <==> KeptParagraphs(page.mainParagraphs) == [] && KeptParagraphs(page.fallbackParagraphs) == []
    ensures KeptParagraphs(page.mainParagraphs) != [] ==> r == Some(Join(KeptParagraphs(page.mainParagraphs), ParagraphSeparator))
  {
    var main := KeptParagraphs(page.mainParagraphs);
    KeptClean(page.mainParagraphs);
    KeptClean(page.fallbackParagraphs);
    var body := if main != [] then Some(Join(main, ParagraphSeparator)) else None;
    if body.Some? && body.value != "" then body
    else
      var fallback := KeptParagraphs(page.fallbackParagraphs);
      if fallback != [] then Some(Join(fallback, ParagraphSeparator)) else None
  }

  /** The fallback selector is consulted only when the main layout yields nothing. */
  lemma FallbackOnlyWhenMainEmpty(page: ArticlePage, other: seq<string>)
    requires KeptParagraphs(page.mainParagraphs) != []
    ensures BodyOf(page.(fallbackParagraphs := other)) == BodyOf(page)
  {
  }

  /** With an empty main layout, the body is built from the fallback paragraphs alone. */
  lemma FallbackBody(page: ArticlePage)
    requires KeptParagraphs(page.mainParagraphs) == []
    requires KeptParagraphs(page.fallbackParagraphs) != []
    ensures BodyOf(page) == Some(Join(KeptParagraphs(page.fallbackParagraphs), ParagraphSeparator))
  {
  }

  // ---------------------------------------------------------------------------
  // The whole page

  /** `scrape_article`: a block gives (None, None); otherwise the date and body chains. */
  function ScrapeArticle(url: string, render: Render): (r: ScrapeOutcome)
    ensures r.Raised? <==> render.Raises?
    ensures render.Loaded? && IsBlocked(render.page) ==> r == Returned(None, None)
    ensures render.Loaded? && !IsBlocked(render.page) ==>
      r == Returned(DateOf(render.page.publishTimes, url), BodyOf(render.page))
  {
    match render
    case Raises => Raised
    case Loaded(page) =>
      if IsBlocked(page) then Returned(None, None)
      else Returned(DateOf(page.publishTimes, url), BodyOf(page))
  }

  /**
   * `(None, None)` comes back exactly for a blocked page and for an accessible
   * page on which neither a date nor a paragraph was found.
   */
  lemma NothingReturned(url: string, render: Render)
    ensures ScrapeArticle(url, render) == Returned(None, None) <==>
      render.Loaded? && (IsBlocked(render.page) ||
        (!MetaHasDate(render.page.publishTimes) && (forall i :: !UrlDateAt(url, i))
         && KeptParagraphs(render.page.mainParagraphs) == []
         && KeptParagraphs(render.page.fallbackParagraphs) == []))
  {
    if render.Loaded? && !IsBlocked(render.page) {
      var page := render.page;
      var date, body := DateOf(page.publishTimes, url), BodyOf(page);
      assert ScrapeArticle(url, render) == Returned(date, body);
      assert date.None? <==> !MetaHasDate(page.publishTimes) && forall i :: !UrlDateAt(url, i);
      assert body.None? <==>
        KeptParagraphs(page.mainParagraphs) == [] && KeptParagraphs(page.fallbackParagraphs) == [];
    }
  }

  /** The challenge page "Just a moment..." is blocked, whatever else it shows. */
  lemma ChallengePageBlocked(url: string, page: ArticlePage)
    requires page.heading == Some("Just a moment...")
    ensures ScrapeArticle(url, Loaded(page)) == Returned(None, None)
  {
    TrimOfTrimmed("Just a moment...");
  }
}
