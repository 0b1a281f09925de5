/**
 * Link discovery (`get_article_links`): page through the search results at
 * offsets 0, 20, 40, ..., keep the article links of each page, drop those
 * whose href was already seen, and stop after the first page that has no
 * "next" marker or adds no new link.
 */
module Discovery {
  import opened Wrappers
  import opened Text
  import opened Search

  lemma ProperSubsetSmaller<T>(a: set<T>, b: set<T>)
    requires a < b
    ensures |a| < |b|
  {
    var x :| x in b && x !in a;
    var rest := b - {x};
    assert a <= rest;
    assert rest == a + (rest - a);
    assert |rest| == |a| + |rest - a|;
    assert b == rest + {x};
  }

  lemma SubsetNotLarger<T>(a: set<T>, b: set<T>)
    requires a <= b
    ensures |a| <= |b|
  {
    assert b == a + (b - a);
  }

  /** A continuing page adds an href not seen on the pages before it. */
  lemma ContinuingAddsHref(view: nat -> PageView, i: nat)
    requires Continues(view, i)
    ensures Hrefs(Gathered(view, i)) < Hrefs(Gathered(view, i + 1))
  {
    HrefsAppend(Gathered(view, i), LinksAt(view, i));
  }

  /** A continuing page shrinks the part of the universe not yet seen. */
  lemma ContinuingShrinks(view: nat -> PageView, universe: set<string>, i: nat)
    requires Bounded(view, universe) && Reached(view, i) && Continues(view, i)
    ensures |universe - Hrefs(Gathered(view, i + 1))| < |universe - Hrefs(Gathered(view, i))|
  {
    ContinuingAddsHref(view, i);
    GatheredInUniverse(view, universe, i + 1);
    var h :| h in Hrefs(Gathered(view, i + 1)) && h !in Hrefs(Gathered(view, i));
    assert h in universe - Hrefs(Gathered(view, i));
    ProperSubsetSmaller(universe - Hrefs(Gathered(view, i + 1)), universe - Hrefs(Gathered(view, i)));
  }

  /** After `n` continuing pages at least `n` distinct hrefs have been seen. */
  lemma {:induction false} ContinuingPagesAddHrefs(view: nat -> PageView, n: nat)
    requires forall k :: 0 <= k < n ==> Continues(view, k)
    ensures n <= |Hrefs(Gathered(view, n))|
  {
    if n > 0 {
      ContinuingPagesAddHrefs(view, n - 1);
      ContinuingAddsHref(view, n - 1);
      ProperSubsetSmaller(Hrefs(Gathered(view, n - 1)), Hrefs(Gathered(view, n)));
    }
  }

  /**
   * Index of the last page fetched when the loop is at page `i` and may go
   * on for at most `budget` more pages.
   */
  function StopWithin(view: nat -> PageView, i: nat, budget: nat): nat
    decreases budget
  {
    if budget == 0 || !Continues(view, i) then i else StopWithin(view, i + 1, budget - 1)
  }

  /**
   * Index of the last page discovery fetches. The budget of one page more
   * than the universe has hrefs is never used up (`StopRule`), so this is
   * the first page that does not continue the loop.
   */
  ghost function StopPage(view: nat -> PageView, universe: set<string>): nat {
    StopWithin(view, 0, |universe| + 1)
  }

  /** What discovery returns: the deduplicated links of all fetched pages, or a fault. */
  ghost function Discover(view: nat -> PageView, universe: set<string>): (r: Result<seq<Link>>)
    ensures r.Failure? <==> view(StopPage(view, universe)).Failed?
    ensures r.Success? ==>
      NoDuplicateHrefs(r.value) && Hrefs(r.value) == Hrefs(Gathered(view, StopPage(view, universe) + 1))
  {
    var last := StopPage(view, universe);
    DedupSound(Gathered(view, last + 1));
    if view(last).Failed? then Failure else Success(Dedup(Gathered(view, last + 1)))
  }

  /** Every page from `i` up to the bounded stop page continues the loop. */
  lemma {:induction false} StopWithinBefore(view: nat -> PageView, i: nat, budget: nat, k: nat)
    requires i <= k < StopWithin(view, i, budget)
    ensures Continues(view, k)
    decreases budget
  {
    if k > i {
      StopWithinBefore(view, i + 1, budget - 1, k);
    }
  }

  /** The bounded stop page lies within the budget, and unless the budget ran out, it ends the loop. */
  lemma {:induction false} StopWithinRange(view: nat -> PageView, i: nat, budget: nat)
    ensures i <= StopWithin(view, i, budget) <= i + budget
    ensures StopWithin(view, i, budget) < i + budget ==> !Continues(view, StopWithin(view, i, budget))
    decreases budget
  {
    if budget > 0 && Continues(view, i) {
      var s := StopWithin(view, i + 1, budget - 1);
      assert StopWithin(view, i, budget) == s;
      StopWithinRange(view, i + 1, budget - 1);
      assert i + 1 <= s <= i + budget;
    } else {
      assert StopWithin(view, i, budget) == i;
    }
  }

  /**
   * The stop rule: every page before the last one fetched continued the loop
   * (served, "next" shown, a new href added), and the last one did not; and
   * no more pages are fetched than the universe has hrefs, plus one.
   */
  lemma StopRule(view: nat -> PageView, universe: set<string>)
    requires Bounded(view, universe)
    ensures StopPage(view, universe) <= |universe|
    ensures forall k :: 0 <= k < StopPage(view, universe) ==> Continues(view, k)
    ensures !Continues(view, StopPage(view, universe))
  {
    var b := |universe| + 1;
    var s := StopWithin(view, 0, b);
    StopWithinRange(view, 0, b);
    forall k | 0 <= k < s ensures Continues(view, k) {
      StopWithinBefore(view, 0, b, k);
    }
    if s == b {
      assert Reached(view, b - 1);
      ContinuingPagesAddHrefs(view, b);
      GatheredInUniverse(view, universe, b);
      SubsetNotLarger(Hrefs(Gathered(view, b)), universe);
      assert false;
    }
  }

  /** The universe is only a proof device: any two bounds give the same stop page. */
  lemma StopPageIndependent(view: nat -> PageView, u1: set<string>, u2: set<string>)
    requires Bounded(view, u1) && Bounded(view, u2)
    ensures StopPage(view, u1) == StopPage(view, u2)
    ensures Discover(view, u1) == Discover(view, u2)
  {
    StopRule(view, u1);
    StopRule(view, u2);
  }

  /**
   * A continuing page strictly grows the accumulator, and only by appending.
   */
  lemma ContinuingGrows(view: nat -> PageView, i: nat)
    requires Continues(view, i)
    ensures Dedup(Gathered(view, i)) < Dedup(Gathered(view, i + 1))
  {
    ContinuingAddsHref(view, i);
    DedupPrefix(Gathered(view, i), LinksAt(view, i));
    DedupHrefs(Gathered(view, i));
    DedupHrefs(Gathered(view, i + 1));
  }

  /**
   * A source whose third page (offset 40) adds no new link: discovery fetches
   * exactly three pages and returns the links of the first two.
   */
  lemma StaleThirdPage(view: nat -> PageView, universe: set<string>)
    requires Bounded(view, universe)
    requires Continues(view, 0) && Continues(view, 1)
    requires view(2).Shown? && Hrefs(LinksAt(view, 2)) <= Hrefs(Gathered(view, 2))
    ensures StopPage(view, universe) == 2
    ensures Discover(view, universe) == Success(Dedup(Gathered(view, 2)))
  {
    assert LinksAt(view, 2) == view(2).links;
    assert !Continues(view, 2);
    StopRule(view, universe);
    var s := StopPage(view, universe);
    assert s != 0 && s != 1;
    assert s == 2;
    GatheredSnoc(view, 2);
    DedupOfKnown(Gathered(view, 2), LinksAt(view, 2));
  }

  // ---------------------------------------------------------------------------
  // The loop

  /** The state of the discovery loop at the top of the iteration for page index `page`. */
  ghost predicate AtPage(view: nat -> PageView, universe: set<string>, page: nat, budget: nat, offset: nat,
                         fetched: seq<nat>, allLinks: seq<Link>, seenHrefs: set<string>)
  {
    && offset == PageOffset(page)
    && fetched == Offsets(page)
    && allLinks == Dedup(Gathered(view, page))
    && seenHrefs == Hrefs(allLinks)
    && page + |universe - seenHrefs| <= |universe|
    && page + budget == |universe| + 1
    && StopWithin(view, page, budget) == StopPage(view, universe)
    && Reached(view, page)
  }

  lemma OffsetsSnoc(n: nat)
    ensures Offsets(n + 1) == Offsets(n) + [PageOffset(n)]
  {
  }

  lemma GatheredSnoc(view: nat -> PageView, n: nat)
    ensures Gathered(view, n + 1) == Gathered(view, n) + LinksAt(view, n)
  {
  }

  /** A continuing page lets the loop reach the next page. */
  lemma ReachedNext(view: nat -> PageView, page: nat, next: nat)
    requires Reached(view, page) && Continues(view, page) && next == page + 1
    ensures Reached(view, next)
  {
  }

  /** A continuing page passes the stop search on to the next page, with one page less of budget. */
  lemma StopWithinNext(view: nat -> PageView, i: nat, budget: nat, next: nat, rest: nat)
    requires Continues(view, i) && next == i + 1 && budget == rest + 1
    ensures StopWithin(view, i, budget) == StopWithin(view, next, rest)
  {
  }

  /**
   * After a page that continues the loop, the loop's state is the state for
   * the next page index, and fewer hrefs of the universe are unseen.
   */
  lemma Advance(view: nat -> PageView, universe: set<string>, page: nat, budget: nat, offset: nat,
                next: nat, nextBudget: nat, nextOffset: nat, fetched: seq<nat>, allLinks: seq<Link>, seenHrefs: set<string>)
    requires Bounded(view, universe) && Reached(view, page) && Continues(view, page)
    requires next == page + 1 && budget == nextBudget + 1 && nextOffset == offset + PageSize
    requires offset == PageOffset(page)
    requires fetched == Offsets(page) + [PageOffset(page)]
    requires allLinks == Dedup(Gathered(view, page) + LinksAt(view, page))
    requires seenHrefs == Hrefs(allLinks)
    requires page + |universe - Hrefs(Dedup(Gathered(view, page)))| <= |universe|
    requires page + budget == |universe| + 1
    requires StopWithin(view, page, budget) == StopPage(view, universe)
    ensures AtPage(view, universe, next, nextBudget, nextOffset, fetched, allLinks, seenHrefs)
    ensures |universe - seenHrefs| < |universe - Hrefs(Dedup(Gathered(view, page)))|
  {
    UnseenShrinks(view, universe, page);
    ReachedNext(view, page, next);
    OffsetsSnoc(page);
    GatheredSnoc(view, page);
    StopWithinNext(view, page, budget, next, nextBudget);
  }

  /** The loop's termination measure, the unseen part of the universe, shrinks on a continuing page. */
  lemma UnseenShrinks(view: nat -> PageView, universe: set<string>, page: nat)
    requires Bounded(view, universe) && Reached(view, page) && Continues(view, page)
    ensures |universe - Hrefs(Dedup(Gathered(view, page + 1)))| < |universe - Hrefs(Dedup(Gathered(view, page)))|
  {
    ContinuingShrinks(view, universe, page);
    DedupHrefs(Gathered(view, page));
    DedupHrefs(Gathered(view, page + 1));
  }

  /** After a page that ends the loop, the loop's state is what `Discover` specifies. */
  lemma Finish(view: nat -> PageView, universe: set<string>, page: nat, budget: nat, fetched: seq<nat>, allLinks: seq<Link>)
    requires !Continues(view, page) && page + budget == |universe| + 1
    requires fetched == Offsets(page) + [PageOffset(page)]
    requires view(page).Shown? ==> allLinks == Dedup(Gathered(view, page) + LinksAt(view, page))
    requires StopWithin(view, page, budget) == StopPage(view, universe)
    ensures fetched == Offsets(StopPage(view, universe) + 1)
    ensures view(page).Failed? ==> Discover(view, universe) == Failure
    ensures view(page).Shown? ==> Discover(view, universe) == Success(allLinks)
  {
    assert StopPage(view, universe) == page;
  }

  /** One step of the per-page loop over `links`, from `j` links done to `j + 1`. */
  lemma PageStep(before: seq<Link>, links: seq<Link>, j: nat)
    requires j < |links|
    ensures var d, x := Dedup(before + links[..j]), links[j];
      && (x.href in Hrefs(d) ==>
            Dedup(before + links[..j + 1]) == d
            && (Hrefs(links[..j + 1]) <= Hrefs(before) <==> Hrefs(links[..j]) <= Hrefs(before)))
      && (x.href !in Hrefs(d) ==>
            Dedup(before + links[..j + 1]) == d + [x]
            && Hrefs(d + [x]) == Hrefs(d) + {x.href}
            && !(Hrefs(links[..j + 1]) <= Hrefs(before)))
  {
    var link := links[j];
    var d := Dedup(before + links[..j]);
    TakeSnoc(before, links, j);
    DedupSnoc(before + links[..j], link);
    HrefsAppend(links[..j], [link]);
    HrefsAppend(before, links[..j]);
    HrefsAppend(d, [link]);
    DedupHrefs(before + links[..j]);
  }

  /**
   * The per-page step of `get_article_links`: each link whose href is not yet
   * in `seenHrefs` is added to both, and `newCount` counts them.
   */
  method AddNewLinks(links: seq<Link>, allLinks: seq<Link>, seenHrefs: set<string>, ghost before: seq<Link>)
    returns (allLinks': seq<Link>, seenHrefs': set<string>, newCount: nat)
    requires allLinks == Dedup(before) && seenHrefs == Hrefs(allLinks)
    ensures allLinks' == Dedup(before + links)
    ensures seenHrefs' == Hrefs(allLinks')
    ensures allLinks <= allLinks' && newCount == |allLinks'| - |allLinks|
    ensures newCount > 0 <==> !(Hrefs(links) <= Hrefs(before))
  {
    allLinks', seenHrefs', newCount := allLinks, seenHrefs, 0;
    assert links[..0] == [] && before + links[..0] == before;
    assert Hrefs(links[..0]) == {};
    for j := 0 to |links|
      invariant allLinks' == Dedup(before + links[..j])
      invariant seenHrefs' == Hrefs(allLinks')
      invariant allLinks <= allLinks'
      invariant newCount == |allLinks'| - |allLinks|
      invariant newCount > 0 <==> !(Hrefs(links[..j]) <= Hrefs(before))
    {
      var link := links[j];
      PageStep(before, links, j);
      if link.href !in seenHrefs' {
        seenHrefs' := seenHrefs' + {link.href};
        allLinks' := allLinks' + [link];
        newCount := newCount + 1;
      }
    }
    assert links[..|links|] == links;
  }

  /**
   * `get_article_links`: fetches the result pages in order of offset and
   * returns what `Discover` specifies; `fetched` lists the offsets requested.
   */
  method GetArticleLinks(source: nat -> Fetch, ghost universe: set<string>)
    returns (result: Result<seq<Link>>, fetched: seq<nat>)
    requires Bounded(Pages(source), universe)
    ensures result == Discover(Pages(source), universe)
    ensures fetched == Offsets(StopPage(Pages(source), universe) + 1)
  {
    ghost var view := Pages(source);
    var allLinks: seq<Link> := [];
    var seenHrefs: set<string> := {};
    var offset: nat := 0;
    fetched := [];
    ghost var page: nat := 0;
    ghost var budget: nat := |universe| + 1;
    assert universe - seenHrefs == universe;
    while true
      invariant AtPage(view, universe, page, budget, offset, fetched, allLinks, seenHrefs)
      decreases |universe - seenHrefs|
    {
      var fetch := source(offset);
      fetched := fetched + [offset];
      assert view(page) == ViewOf(fetch);
      if fetch.Fault? {
        Finish(view, universe, page, budget, fetched, allLinks);
        result := Failure;
        return;
      }
      var links := PageLinks(fetch.page.anchors);
      var hasNext := fetch.page.hasNext;
      var newCount;
      allLinks, seenHrefs, newCount := AddNewLinks(links, allLinks, seenHrefs, Gathered(view, page));
      if !hasNext || newCount == 0 {
        Finish(view, universe, page, budget, fetched, allLinks);
        result := Success(allLinks);
        return;
      }
      assert Continues(view, page);
      ghost var previous, previousBudget, previousOffset := page, budget, offset;
      offset := offset + PageSize;
      page, budget := page + 1, budget - 1;
      Advance(view, universe, previous, previousBudget, previousOffset, page, budget, offset, fetched, allLinks, seenHrefs);
    }
  }
}
