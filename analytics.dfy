/** The web-analytics side of the component: the hits it sends and the
    process-wide `webAnalytics.isBookLookupViewed` flag that lets the
    book-lookup page view be sent only once per page load. */
module Analytics {

  /** The hits the component sends: a page view of the current location, a
      `Search/BookSearch` event with the typed word, an `Addition/BookAdded`
      event with the new shelf. */
  datatype Hit = PageView(page: string) | BookSearch(searchWord: string) | BookAdded(shelf: string)

  /** Number of page views in a hit log. */
  function PageViews(hits: seq<Hit>): (n: nat)
    ensures n == 0 <==> forall i :: 0 <= i < |hits| ==> !hits[i].PageView?
  {
    if hits == [] then 0
    else PageViews(hits[..|hits| - 1]) + (if hits[|hits| - 1].PageView? then 1 else 0)
  }

  /** Sending one more hit adds one page view exactly when that hit is one. */
  lemma PageViewsSnoc(hits: seq<Hit>, h: Hit)
    ensures PageViews(hits + [h]) == PageViews(hits) + (if h.PageView? then 1 else 0)
  {
    assert (hits + [h])[..|hits|] == hits;
  }

  /** The process-wide analytics state shared by every instance of the
      component. It starts unviewed with nothing sent and is never reset. */
  class WebAnalytics {
    var isBookLookupViewed: bool
    var hits: seq<Hit>

    /** At most one page view is ever sent, and one has been sent exactly
        when the flag is set. */
    ghost predicate Valid()
      reads this
    {
      PageViews(hits) == if isBookLookupViewed then 1 else 0
    }

    constructor ()
      ensures Valid()
      ensures !isBookLookupViewed && hits == []
    {
      isBookLookupViewed := false;
      hits := [];
    }

    /** `ga('send', …)` of a hit that is not a page view. */
    method Send(h: Hit)
      requires Valid()
      requires !h.PageView?
      modifies this`hits
      ensures Valid()
      ensures hits == old(hits) + [h]
    {
      PageViewsSnoc(hits, h);
      hits := hits + [h];
    }
  }
}
