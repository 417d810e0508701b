/** Whole workflows driven through the component from a fresh page load, as
    a user and the books API would drive them. */
module Scenarios {
  import opened Selection
  import opened Analytics
  import opened BookLookup

  /** Two books ticked and "Read" pressed: one bulk update carrying both
      records with status "read", and the router on the listing, before any
      confirmation arrives. */
  method BulkReadTwoBooks(a: Book, b: Book) returns (calls: seq<BulkUpdate>, route: string, alerts: seq<string>)
    requires a.id != b.id
    ensures calls == [BulkUpdate(map[a.id := Some(a), b.id := Some(b)], ReadShelf)]
    ensures route == ListRoute
    ensures alerts == []
  {
    var webAnalytics := new WebAnalytics();
    var page := new BookLookupElement(webAnalytics, "search");
    page.Attached();
    page.OnBookSelected(a);
    page.OnBookSelected(b);
    var outcome := page.UpdateToRead();
    calls, route, alerts := page.bulkUpdates, page.routePath, page.alerts;
  }

  /** A book ticked and unticked again, then "Want To Read" pressed: the key
      is still in the table, yet the action only raises the alert. */
  method BulkAfterUntick(a: Book, startRoute: string) returns (calls: seq<BulkUpdate>, route: string, alerts: seq<string>)
    ensures calls == []
    ensures route == startRoute
    ensures alerts == [EmptySelectionAlert]
  {
    var webAnalytics := new WebAnalytics();
    var page := new BookLookupElement(webAnalytics, startRoute);
    page.Attached();
    page.OnBookSelected(a);
    page.OnBookUnselected(a);
    assert a.id in page.selectedBookList;
    var outcome := page.UpdateToWantToRead();
    calls, route, alerts := page.bulkUpdates, page.routePath, page.alerts;
  }

  /** A typed query, a selection, a bulk action and two confirmations: the
      first confirmation resets the input (searching once more for "") and
      the table; the second changes nothing. */
  method ConfirmTwice(query: string, a: Book) returns (searches: seq<string>, input: Option<string>, table: Table, route: string)
    requires query != ""
    ensures searches == [query, ""]
    ensures input == Some("")
    ensures table == map[]
    ensures route == ListRoute
  {
    var webAnalytics := new WebAnalytics();
    var page := new BookLookupElement(webAnalytics, "search");
    page.Attached();
    page.SetUserInput(query);
    assert page.searches == [query];
    page.OnBookSelected(a);
    var outcome := page.UpdateToContinueReading();
    assert page.searches == [query] && page.userInput == Some(query) && page.attached;
    var done := page.OnUpdateSuccess();
    assert page.searches == [query, ""] && page.userInput == Some("");
    ghost var searchesAfterFirst := page.searches;
    ghost var hitsAfterFirst := webAnalytics.hits;
    done := page.OnUpdateSuccess();
    assert && page.searches == searchesAfterFirst && webAnalytics.hits == hitsAfterFirst
           && page.userInput == Some("") && page.selectedBookList == map[] && page.routePath == ListRoute;
    searches, input, table, route := page.searches, page.userInput, page.selectedBookList, page.routePath;
  }
}
