/**
 * The search results that link discovery pages through, as input data:
 * `source(offset)` is what fetching the result page at that offset gives,
 * either the page's anchors and whether it shows a `span.next` marker, or a
 * fault. Also the article-link filter of one page and deduplication by href.
 */
module Search {
  import opened Text

  /** A candidate article: its URL and its trimmed display text. */
  datatype Link = Link(href: string, text: string)

  /** An `a` element of a result page: its resolved URL and its inner text. */
  datatype Anchor = Anchor(href: string, innerText: string)

  datatype SearchPage = SearchPage(anchors: seq<Anchor>, hasNext: bool)

  /** Fetching one result page: it is served, or loading it raises. */
  datatype Fetch = Served(page: SearchPage) | Fault

  /** Results per page; the offset advances by this much. */
  const PageSize: nat := 20

  /** A link's display text must be longer than this to count as an article link. */
  const MinTextLength: nat := 10

  /** The site sections whose URLs are article links. */
  const Sections: seq<string> := ["frettir", "folk", "sport", "vidskipti", "smartland", "menning"]

  // ---------------------------------------------------------------------------
  // The article-link filter of a result page

  /** A line terminator, which `.` in a JavaScript regular expression does not match. */
  predicate IsLineTerminator(c: char) {
    c == '\n' || c == '\r' || c == '\U{2028}' || c == '\U{2029}'
  }

  /** `mbl.is/<section>/` occupies `h[i..k]`. */
  predicate SectionAt(h: string, i: nat, k: nat) {
    i <= k <= |h| && exists s :: s in Sections && h[i..k] == "mbl.is/" + s + "/"
  }

  /** `/\d{4}/` starts at index `j` of `h`. */
  predicate YearAt(h: string, j: nat) {
    j + 6 <= |h| && h[j] == '/' && AllDigits(h[j + 1..j + 5]) && h[j + 5] == '/'
  }

  predicate NoLineTerminator(s: string) {
    forall k :: 0 <= k < |s| ==> !IsLineTerminator(s[k])
  }

  /** `/mbl\.is\/(frettir|folk|sport|vidskipti|smartland|menning)\/.*\/\d{4}\//.test(h)`. */
  predicate IsArticleHref(h: string) {
    exists i, k, j | 0 <= i <= k <= j <= |h| ::
      SectionAt(h, i, k) && NoLineTerminator(h[k..j]) && YearAt(h, j)
  }

  /** The links a result page offers: article hrefs whose trimmed text is longer than 10. */
  function PageLinks(anchors: seq<Anchor>): seq<Link> {
    if anchors == [] then []
    else
      var a := anchors[|anchors| - 1];
      var init := PageLinks(anchors[..|anchors| - 1]);
      var text := Trim(a.innerText);
      if IsArticleHref(a.href) && |text| > MinTextLength then init + [Link(a.href, text)] else init
  }

  /** An anchor that the filter keeps. */
  predicate Kept(a: Anchor) {
    IsArticleHref(a.href) && |Trim(a.innerText)| > MinTextLength
  }

  /**
   * The filter keeps exactly the article anchors with a long enough text, in
   * page order, each as its href and trimmed text.
   */
  lemma {:induction false} PageLinksSound(anchors: seq<Anchor>)
    ensures forall l :: l in PageLinks(anchors) ==>
      IsArticleHref(l.href) && |l.text| > MinTextLength
    ensures forall l :: l in PageLinks(anchors) <==>
      exists a :: a in anchors && Kept(a) && l == Link(a.href, Trim(a.innerText))
  {
    if anchors != [] {
      var init, a := anchors[..|anchors| - 1], anchors[|anchors| - 1];
      PageLinksSound(init);
      assert anchors == init + [a];
      forall l | l in PageLinks(anchors)
        ensures exists b :: b in anchors && Kept(b) && l == Link(b.href, Trim(b.innerText))
      {
        if l !in PageLinks(init) {
          assert a in anchors;
        } else {
          var b :| b in init && Kept(b) && l == Link(b.href, Trim(b.innerText));
          assert b in anchors;
        }
      }
      forall b | b in anchors && Kept(b) ensures Link(b.href, Trim(b.innerText)) in PageLinks(anchors) {
        if b != a {
          assert b in init;
        }
      }
    }
  }

  /** One more anchor: its link is appended exactly when the filter keeps it. */
  lemma PageLinksSnoc(anchors: seq<Anchor>, a: Anchor)
    ensures PageLinks(anchors + [a]) ==
      PageLinks(anchors) + (if Kept(a) then [Link(a.href, Trim(a.innerText))] else [])
  {
    DropLastOfAppend(anchors, [a]);
  }

  /** The filter keeps the anchors' document order: it distributes over `+`. */
  lemma {:induction false} PageLinksAppend(a: seq<Anchor>, b: seq<Anchor>)
    ensures PageLinks(a + b) == PageLinks(a) + PageLinks(b)
    decreases |b|
  {
    if b == [] {
      assert a + b == a;
    } else {
      var b', last := b[..|b| - 1], b[|b| - 1];
      var tail := if Kept(last) then [Link(last.href, Trim(last.innerText))] else [];
      SplitLast(a, b);
      PageLinksAppend(a, b');
      PageLinksSnoc(a + b', last);
      PageLinksSnoc(b', last);
      AppendAssoc(PageLinks(a), PageLinks(b'), tail);
    }
  }

  /**
   * Every URL of the shape `...mbl.is/<section>/<anything on one line>/<4 digits>/...`
   * passes the href filter.
   */
  lemma ArticleHrefShape(before: string, section: string, middle: string, year: string, after: string)
    requires section in Sections && NoLineTerminator(middle) && |year| == 4 && AllDigits(year)
    ensures IsArticleHref(before + ("mbl.is/" + section + "/") + middle + ("/" + year + "/") + after)
  {
    var sec, yr := "mbl.is/" + section + "/", "/" + year + "/";
    var h := before + sec + middle + yr + after;
    var i, k := |before|, |before| + |sec|;
    var j := k + |middle|;
    assert h[i..k] == sec;
    assert SectionAt(h, i, k);
    assert h[k..j] == middle;
    assert h[j..j + 6] == yr;
    assert h[j + 1..j + 5] == year;
    assert YearAt(h, j);
  }

  // ---------------------------------------------------------------------------
  // Deduplication by href

  function Hrefs(links: seq<Link>): set<string> {
    set l | l in links :: l.href
  }

  predicate NoDuplicateHrefs(links: seq<Link>) {
    forall i, j :: 0 <= i < j < |links| ==> links[i].href != links[j].href
  }

  /**
   * The links in order, each href kept at its first occurrence only: what
   * the seen-set and the accumulator of the discovery loop compute.
   */
  function Dedup(links: seq<Link>): seq<Link> {
    if links == [] then []
    else
      var d := Dedup(links[..|links| - 1]);
      var last := links[|links| - 1];
      if last.href in Hrefs(d) then d else d + [last]
  }

  /**
   * Deduplication leaves no two links with the same href, loses no href,
   * keeps the surviving links in their original order, and keeps each href
   * at its first occurrence.
   */
  lemma DedupSound(links: seq<Link>)
    ensures NoDuplicateHrefs(Dedup(links))
    ensures Hrefs(Dedup(links)) == Hrefs(links)
    ensures Subsequence(Dedup(links), links)
    ensures exists idx :: DedupAt(links, idx)
  {
    DedupDistinct(links);
    DedupHrefs(links);
    DedupOrder(links);
    DedupFirst(links);
  }

  /** Deduplication keeps exactly the hrefs. */
  lemma {:induction false} DedupHrefs(links: seq<Link>)
    ensures Hrefs(Dedup(links)) == Hrefs(links)
  {
    if links != [] {
      var init, last := links[..|links| - 1], links[|links| - 1];
      DedupHrefs(init);
      assert links == init + [last];
      HrefsAppend(init, [last]);
      HrefsAppend(Dedup(init), [last]);
    }
  }

  /** No two deduplicated links share an href. */
  lemma {:induction false} DedupDistinct(links: seq<Link>)
    ensures NoDuplicateHrefs(Dedup(links))
  {
    if links != [] {
      var init, last := links[..|links| - 1], links[|links| - 1];
      var d := Dedup(init);
      DedupDistinct(init);
      if last.href !in Hrefs(d) {
        var r := d + [last];
        forall i, j | 0 <= i < j < |r| ensures r[i].href != r[j].href {
          if j == |r| - 1 {
            assert r[i] in d;
          } else {
            assert r[i] == d[i] && r[j] == d[j];
          }
        }
      }
    }
  }

  /** The deduplicated links keep their original order. */
  lemma {:induction false} DedupOrder(links: seq<Link>)
    ensures Subsequence(Dedup(links), links)
  {
    if links != [] {
      var init, last := links[..|links| - 1], links[|links| - 1];
      var d := Dedup(init);
      DedupOrder(init);
      var r := Dedup(links);
      if last.href !in Hrefs(d) {
        assert r[..|r| - 1] == d && r[|r| - 1] == last;
      } else if r != [] {
        assert Subsequence(r, init);
      }
    }
  }

  /** Position `j` holds the first link with its href. */
  predicate FirstAt(links: seq<Link>, j: nat) {
    j < |links| && forall i :: 0 <= i < j ==> links[i].href != links[j].href
  }

  /** `idx` lists, in increasing order, exactly the positions where an href first occurs. */
  predicate FirstPositions(links: seq<Link>, idx: seq<nat>) {
    && (forall k, m :: 0 <= k < m < |idx| ==> idx[k] < idx[m])
    && (forall k :: 0 <= k < |idx| ==> FirstAt(links, idx[k]))
    && (forall j :: 0 <= j < |links| && FirstAt(links, j) ==> j in idx)
  }

  /** `Dedup(links)` is `links` at the positions `idx`, which are exactly its first positions. */
  predicate DedupAt(links: seq<Link>, idx: seq<nat>) {
    FirstPositions(links, idx) && |idx| == |Dedup(links)| &&
    forall k :: 0 <= k < |idx| ==> links[idx[k]] == Dedup(links)[k]
  }

  /**
   * Deduplication keeps each href at its first occurrence: the result is the
   * input at exactly the first positions of its hrefs, in increasing order.
   */
  lemma {:induction false} DedupFirst(links: seq<Link>)
    ensures exists idx :: DedupAt(links, idx)
  {
    if links == [] {
      assert DedupAt(links, []);
    } else {
      var n := |links| - 1;
      var init := links[..n];
      DedupFirst(init);
      var idx: seq<nat> :| DedupAt(init, idx);
      if links[n].href in Hrefs(init) {
        var l :| l in init && l.href == links[n].href;
        var i :| 0 <= i < n && init[i] == l;
        DedupAtKnown(links, idx, i);
      } else {
        DedupAtNew(links, idx);
      }
    }
  }

  /** The last link's href occurred at `i` before: deduplication keeps the prefix's positions. */
  lemma DedupAtKnown(links: seq<Link>, idx: seq<nat>, i: nat)
    requires links != [] && DedupAt(links[..|links| - 1], idx)
    requires i < |links| - 1 && links[i].href == links[|links| - 1].href
    ensures DedupAt(links, idx)
  {
    var n := |links| - 1;
    var init, last := links[..n], links[n];
    assert links == init + [last];
    assert init[i] in init;
    DedupSnoc(init, last);
    FirstAtPrefix(links, n);
    FirstPositionsKnown(links, idx, i);
    PrefixValues(links, idx, Dedup(init));
  }

  /** The last link's href is new: deduplication adds its position. */
  lemma DedupAtNew(links: seq<Link>, idx: seq<nat>)
    requires links != [] && DedupAt(links[..|links| - 1], idx)
    requires links[|links| - 1].href !in Hrefs(links[..|links| - 1])
    ensures DedupAt(links, idx + [|links| - 1])
  {
    var n := |links| - 1;
    var init, last := links[..n], links[n];
    assert links == init + [last];
    forall i | 0 <= i < n ensures links[i].href != last.href {
      assert links[i] == init[i] && init[i] in init;
    }
    DedupSnoc(init, last);
    FirstAtPrefix(links, n);
    FirstPositionsNew(links, idx);
    PrefixValues(links, idx, Dedup(init));
  }

  /** A first position before `n` is a first position of the prefix of length `n`, and back. */
  lemma FirstAtPrefix(links: seq<Link>, n: nat)
    requires n <= |links|
    ensures forall j :: 0 <= j < n ==> FirstAt(links, j) == FirstAt(links[..n], j)
  {
    forall j | 0 <= j < n ensures FirstAt(links, j) == FirstAt(links[..n], j) {
      assert forall i :: 0 <= i <= j ==> links[i] == links[..n][i];
    }
  }

  /** The last link's href occurred at `i` before: the first positions are those of the prefix. */
  lemma FirstPositionsKnown(links: seq<Link>, idx: seq<nat>, i: nat)
    requires links != [] && FirstPositions(links[..|links| - 1], idx)
    requires i < |links| - 1 && links[i].href == links[|links| - 1].href
    requires forall j :: 0 <= j < |links| - 1 ==> FirstAt(links, j) == FirstAt(links[..|links| - 1], j)
    ensures FirstPositions(links, idx)
  {
    var n := |links| - 1;
    assert !FirstAt(links, n);
    forall k | 0 <= k < |idx| ensures FirstAt(links, idx[k]) {
      assert FirstAt(links[..n], idx[k]);
    }
    forall j | 0 <= j < |links| && FirstAt(links, j) ensures j in idx {
      assert j < n && FirstAt(links[..n], j);
    }
  }

  /** The last link's href is new: its position is added to the first positions of the prefix. */
  lemma FirstPositionsNew(links: seq<Link>, idx: seq<nat>)
    requires links != [] && FirstPositions(links[..|links| - 1], idx)
    requires forall i :: 0 <= i < |links| - 1 ==> links[i].href != links[|links| - 1].href
    requires forall j :: 0 <= j < |links| - 1 ==> FirstAt(links, j) == FirstAt(links[..|links| - 1], j)
    ensures FirstPositions(links, idx + [|links| - 1])
  {
    var n := |links| - 1;
    var r := idx + [n];
    assert FirstAt(links, n);
    forall k | 0 <= k < |idx| ensures r[k] == idx[k] < n && FirstAt(links, r[k]) {
      assert FirstAt(links[..n], idx[k]);
    }
    forall j | 0 <= j < |links| && FirstAt(links, j) ensures j in r {
      if j < n {
        assert FirstAt(links[..n], j);
      }
    }
  }

  /** Positions inside the prefix pick the same links from the whole list. */
  lemma PrefixValues(links: seq<Link>, idx: seq<nat>, d: seq<Link>)
    requires links != [] && |idx| == |d|
    requires forall k :: 0 <= k < |idx| ==> idx[k] < |links| - 1 && links[..|links| - 1][idx[k]] == d[k]
    ensures forall k :: 0 <= k < |idx| ==> links[idx[k]] == d[k]
  {
  }

  lemma HrefsAppend(a: seq<Link>, b: seq<Link>)
    ensures Hrefs(a + b) == Hrefs(a) + Hrefs(b)
  {
    forall h | h in Hrefs(a + b) ensures h in Hrefs(a) + Hrefs(b) {
      var l :| l in a + b && l.href == h;
    }
  }

  /** One more link: it is appended exactly when its href is new. */
  lemma DedupSnoc(links: seq<Link>, link: Link)
    ensures Dedup(links + [link]) ==
      if link.href in Hrefs(links) then Dedup(links) else Dedup(links) + [link]
  {
    DropLastOfAppend(links, [link]);
    DedupHrefs(links);
  }

  /** Deduplicating a longer list only adds links after those already kept. */
  lemma {:induction false} DedupPrefix(a: seq<Link>, b: seq<Link>)
    ensures Dedup(a) <= Dedup(a + b)
    decreases |b|
  {
    if b != [] {
      var b' := b[..|b| - 1];
      var x := b[|b| - 1];
      DedupPrefix(a, b');
      DropLastOfAppend(a, b);
      assert a + b == (a + b') + [x];
      DedupSnoc(a + b', x);
      var d := Dedup(a + b');
      assert d <= d + [x];
    } else {
      assert a + b == a;
    }
  }

  // ---------------------------------------------------------------------------
  // Pagination

  /** The offset of page index `i`: `i * PageSize` (written with the literal to keep the arithmetic linear). */
  function PageOffset(i: nat): nat {
    20 * i
  }

  /** The offsets of the first `n` result pages, in the order they are requested. */
  function Offsets(n: nat): (r: seq<nat>)
    ensures |r| == n
  {
    if n == 0 then [] else Offsets(n - 1) + [PageOffset(n - 1)]
  }

  /** The offset grows by exactly the page size from one request to the next, starting at 0. */
  lemma {:induction false} OffsetsStep(n: nat)
    ensures forall i :: 0 <= i < n ==> Offsets(n)[i] == i * PageSize
  {
    if n > 0 {
      OffsetsStep(n - 1);
      assert forall i :: 0 <= i < n - 1 ==> Offsets(n)[i] == Offsets(n - 1)[i];
    }
  }

  /**
   * What the discovery loop sees of the result page at page index `i`: a
   * fault, or the page's article links and whether it shows "next".
   */
  datatype PageView = Failed | Shown(links: seq<Link>, hasNext: bool)

  function ViewOf(fetch: Fetch): PageView {
    match fetch
    case Fault => Failed
    case Served(page) => Shown(PageLinks(page.anchors), page.hasNext)
  }

  /** The search results page by page: page `i` is fetched at offset `PageOffset(i)`. */
  function Pages(source: nat -> Fetch): nat -> PageView {
    (i: nat) => ViewOf(source(PageOffset(i)))
  }

  /** The links page `i` contributes (none if it raised). */
  function LinksAt(view: nat -> PageView, i: nat): seq<Link> {
    if view(i).Shown? then view(i).links else []
  }

  /** The links of pages `0 .. n - 1`, in page order, duplicates included. */
  function Gathered(view: nat -> PageView, n: nat): seq<Link> {
    if n == 0 then [] else Gathered(view, n - 1) + LinksAt(view, n - 1)
  }

  /** The loop goes on after page `i`: it was shown, has "next" and adds a new href. */
  predicate Continues(view: nat -> PageView, i: nat) {
    view(i).Shown? && view(i).hasNext && !(Hrefs(view(i).links) <= Hrefs(Gathered(view, i)))
  }

  /** The loop reaches page `n`: every page before it continued the loop. */
  predicate Reached(view: nat -> PageView, n: nat) {
    forall k :: 0 <= k < n ==> Continues(view, k)
  }

  /** Every href offered by a page the loop can reach lies in the finite set `universe`. */
  ghost predicate Bounded(view: nat -> PageView, universe: set<string>) {
    forall i: nat :: Reached(view, i) ==> Hrefs(LinksAt(view, i)) <= universe
  }

  lemma {:induction false} GatheredInUniverse(view: nat -> PageView, universe: set<string>, n: nat)
    requires Bounded(view, universe) && (n == 0 || Reached(view, n - 1))
    ensures Hrefs(Gathered(view, n)) <= universe
  {
    if n > 0 {
      assert n - 1 == 0 || Reached(view, n - 2);
      GatheredInUniverse(view, universe, n - 1);
      HrefsAppend(Gathered(view, n - 1), LinksAt(view, n - 1));
    }
  }

  /** Links whose hrefs were all seen already leave the deduplicated list unchanged. */
  lemma {:induction false} DedupOfKnown(a: seq<Link>, b: seq<Link>)
    requires Hrefs(b) <= Hrefs(a)
    ensures Dedup(a + b) == Dedup(a)
    decreases |b|
  {
    if b != [] {
      var b' := b[..|b| - 1];
      var x := b[|b| - 1];
      assert b == b' + [x];
      HrefsAppend(b', [x]);
      DedupOfKnown(a, b');
      assert a + b == (a + b') + [x];
      HrefsAppend(a, b');
      DedupSnoc(a + b', x);
    } else {
      assert a + b == a;
    }
  }
}
