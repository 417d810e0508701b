/** The `book-lookup` component: search for books, tick some of the results,
    and move all ticked books to one reading shelf in a single bulk update.

    The component's collaborators are recorded, not run: the calls made to
    the books API (`searchBook`, `bulkUpdate`, `updateBook`) and the alert
    messages shown are appended to logs, and the app router is reduced to its
    `route.path`. The API's answers come back as the `onSearchSuccess` and
    `onUpdateSuccess` handlers, which the environment may call at any time. */
module BookLookup {
  import opened Selection
  import opened Analytics

  /** Shelf names the bulk actions send to the books API. */
  const ContinueReadingShelf: string := "currentlyReading"
  const WantToReadShelf: string := "wantToRead"
  const ReadShelf: string := "read"

  /** Route of the book listing view. */
  const ListRoute: string := "list"

  /** Alert raised when a bulk action finds nothing selected. */
  const EmptySelectionAlert: string := "Please select at least 1 book"

  /** `model`: the search results on display and three hide-flags. */
  datatype ViewModel = ViewModel(searchResults: seq<Book>, hideSuggestion: bool, hideButtons: bool, hideResults: bool)

  /** The declared default of `model`. */
  const InitialModel: ViewModel := ViewModel([], false, true, true)

  /** With no results, the results and the shelf buttons are hidden and the
      suggestion is shown; with results, the other way round. */
  predicate FlagsMatchResults(m: ViewModel)
  {
    && m.hideResults == (|m.searchResults| == 0)
    && m.hideButtons == m.hideResults
    && m.hideSuggestion == !m.hideResults
  }

  /** The model `onSearchSuccess` builds from the books of a search. */
  function SearchResultView(books: seq<Book>): (m: ViewModel)
    ensures m.searchResults == books
    ensures FlagsMatchResults(m)
  {
    ViewModel(books, |books| != 0, |books| == 0, |books| == 0)
  }

  /** A model whose flags agree with its results is the one a search with
      those results produces; in particular the declared default is what an
      empty search shows. */
  lemma ViewDeterminedByResults(m: ViewModel)
    requires FlagsMatchResults(m)
    ensures m == SearchResultView(m.searchResults)
  {
  }

  lemma InitialModelIsEmptySearch()
    ensures FlagsMatchResults(InitialModel)
    ensures InitialModel == SearchResultView([])
  {
  }

  /** A `BooksApi.bulkUpdate(selectedBookList, status)` call. */
  datatype BulkUpdate = BulkUpdate(books: Table, status: string)

  /** A `BooksApi.updateBook(bookId, newShelf)` call. */
  datatype BookUpdate = BookUpdate(bookId: BookId, shelf: string)

  /** How a bulk action ended: stopped by the emptiness check, submitted, or
      stopped by a TypeError because no books API is attached yet. */
  datatype BulkOutcome = EmptySelection | Submitted | NoBooksApi

  class BookLookupElement {
    /** The process-wide `webAnalytics` object. */
    const analytics: WebAnalytics

    var selectedBookList: Table
    /** The selection events received since the table was last reset. */
    ghost var history: seq<SelectionEvent>
    /** The observed `userInput` property; undefined until first set. */
    var userInput: Option<string>
    var model: ViewModel
    /** Set by `attached`: from then on `BooksApi` and `appRouter` exist. */
    var attached: bool
    /** The app router's `route.path`. */
    var routePath: string

    var alerts: seq<string>
    var searches: seq<string>
    var bulkUpdates: seq<BulkUpdate>
    var bookUpdates: seq<BookUpdate>

    ghost predicate Valid()
      reads this, analytics
    {
      && analytics.Valid()
      && FlagsMatchResults(model)
      && selectedBookList == Replay(map[], history)
    }

    constructor (analytics: WebAnalytics, route: string)
      requires analytics.Valid()
      ensures Valid()
      ensures this.analytics == analytics
      ensures selectedBookList == map[] && history == []
      ensures userInput == None && model == InitialModel
      ensures !attached && routePath == route
      ensures alerts == [] && searches == [] && bulkUpdates == [] && bookUpdates == []
    {
      this.analytics := analytics;
      selectedBookList := map[];
      history := [];
      userInput := None;
      model := InitialModel;
      attached := false;
      routePath := route;
      alerts, searches, bulkUpdates, bookUpdates := [], [], [], [];
    }

    /** `attached`: creates the books API and finds the router. */
    method Attached()
      requires Valid()
      modifies this`attached
      ensures Valid()
      ensures attached
    {
      attached := true;
    }

    /** `onBookSelected`: the table maps the book's id to the book and every
        other entry is unchanged. */
    method OnBookSelected(book: Book)
      requires Valid()
      modifies this`selectedBookList, this`history
      ensures Valid()
      ensures selectedBookList == Select(old(selectedBookList), book)
      ensures history == old(history) + [Selected(book)]
    {
      selectedBookList := selectedBookList[book.id := Some(book)];
      history := history + [Selected(book)];
      assert history[..|history| - 1] == old(history);
    }

    /** `onBookUnselected`: the book's entry becomes undefined, the key stays,
        and every other entry is unchanged. */
    method OnBookUnselected(book: Book)
      requires Valid()
      modifies this`selectedBookList, this`history
      ensures Valid()
      ensures selectedBookList == Unselect(old(selectedBookList), book)
      ensures history == old(history) + [Unselected(book)]
    {
      selectedBookList := selectedBookList[book.id := None];
      history := history + [Unselected(book)];
      assert history[..|history| - 1] == old(history);
    }

    /** `onPageActive`: on becoming active, the first page view of the whole
        page load is sent and the process-wide flag set; later ones are not. */
    method OnPageActive(isActive: bool, locationHash: string)
      requires Valid()
      modifies analytics
      ensures Valid()
      ensures analytics.isBookLookupViewed == (old(analytics.isBookLookupViewed) || isActive)
      ensures analytics.hits == if isActive && !old(analytics.isBookLookupViewed)
                                then old(analytics.hits) + [PageView("/" + locationHash)]
                                else old(analytics.hits)
    {
      if isActive {
        if !analytics.isBookLookupViewed {
          PageViewsSnoc(analytics.hits, PageView("/" + locationHash));
          analytics.hits := analytics.hits + [PageView("/" + locationHash)];
          analytics.isBookLookupViewed := true;
        }
      }
    }

    /** `onUserType`, the observer of `userInput`: a search hit is sent, and
        the query goes to the books API when one is attached. */
    method OnUserType(input: string)
      requires Valid()
      modifies this`searches, analytics`hits
      ensures Valid()
      ensures analytics.hits == old(analytics.hits) + [BookSearch(input)]
      ensures searches == old(searches) + if attached then [input] else []
    {
      analytics.Send(BookSearch(input));
      if attached {
        searches := searches + [input];
      }
    }

    /** Assigning `userInput`: the observer runs only when the value changes. */
    method SetUserInput(input: string)
      requires Valid()
      modifies this`userInput, this`searches, analytics`hits
      ensures Valid()
      ensures userInput == Some(input)
      ensures old(userInput) == Some(input) ==>
                analytics.hits == old(analytics.hits) && searches == old(searches)
      ensures old(userInput) != Some(input) ==>
                && analytics.hits == old(analytics.hits) + [BookSearch(input)]
                && searches == old(searches) + if attached then [input] else []
    {
      if userInput != Some(input) {
        userInput := Some(input);
        OnUserType(input);
      }
    }

    /** `_cleanUp`: `userInput` becomes "" (which runs its observer if it was
        something else) and the selection table a fresh empty one. */
    method CleanUp()
      requires Valid()
      modifies this`userInput, this`searches, this`selectedBookList, this`history, analytics`hits
      ensures Valid()
      ensures userInput == Some("")
      ensures selectedBookList == map[] && history == []
      ensures old(userInput) == Some("") ==>
                analytics.hits == old(analytics.hits) && searches == old(searches)
      ensures old(userInput) != Some("") ==>
                && analytics.hits == old(analytics.hits) + [BookSearch("")]
                && searches == old(searches) + if attached then [""] else []
    {
      SetUserInput("");
      selectedBookList := map[];
      history := [];
    }

    /** `isSelectedBookListEmpty`: true exactly when no key of `list` maps to
        a defined book, and the alert is raised exactly then. */
    method IsSelectedBookListEmpty(list: Table) returns (isEmpty: bool)
      modifies this`alerts
      ensures isEmpty <==> NoneSelected(list)
      ensures alerts == old(alerts) + if isEmpty then [EmptySelectionAlert] else []
    {
      isEmpty := ScanIsEmpty(list);
      if isEmpty {
        alerts := alerts + [EmptySelectionAlert];
      }
    }

    /** `_showBookListing`: switch the router to the listing view. Only
        reached once the router has been found. */
    method ShowBookListing()
      requires attached
      modifies this`routePath
      ensures routePath == ListRoute
    {
      routePath := ListRoute;
    }

    /** What a bulk action to `status` does. An empty table (no book selected
        since the last reset) only raises the alert. Otherwise, with a books
        API attached, the whole table goes out in one bulk update and the
        router moves to the listing; without one, the unguarded API call
        throws and nothing changes. The table itself is never modified. */
    twostate predicate BulkActionEffect(status: string, outcome: BulkOutcome)
      reads this
    {
      && selectedBookList == old(selectedBookList)
      && (outcome == EmptySelection <==> NoneSelected(selectedBookList))
      && (outcome == EmptySelection <==> DeletingReplay(map[], history) == map[])
      && (outcome == Submitted <==> !NoneSelected(selectedBookList) && attached)
      && alerts == old(alerts) + (if outcome == EmptySelection then [EmptySelectionAlert] else [])
      && bulkUpdates == old(bulkUpdates) + (if outcome == Submitted then [BulkUpdate(selectedBookList, status)] else [])
      && routePath == (if outcome == Submitted then ListRoute else old(routePath))
    }

    /** The body shared by the three bulk actions. */
    method UpdateToShelf(status: string) returns (outcome: BulkOutcome)
      requires Valid()
      modifies this`alerts, this`bulkUpdates, this`routePath
      ensures Valid()
      ensures BulkActionEffect(status, outcome)
    {
      var isEmpty := IsSelectedBookListEmpty(selectedBookList);
      ReplayEmptyIffNoneNetSelected(map[], history);
      assert Defined(map[]) == map[];
      if isEmpty {
        return EmptySelection;
      }
      if !attached {
        return NoBooksApi;
      }
      bulkUpdates := bulkUpdates + [BulkUpdate(selectedBookList, status)];
      ShowBookListing();
      outcome := Submitted;
    }

    /** `_updateToContinueReading`. */
    method UpdateToContinueReading() returns (outcome: BulkOutcome)
      requires Valid()
      modifies this`alerts, this`bulkUpdates, this`routePath
      ensures Valid()
      ensures BulkActionEffect(ContinueReadingShelf, outcome)
    {
      outcome := UpdateToShelf(ContinueReadingShelf);
    }

    /** `_updateToWantToRead`. */
    method UpdateToWantToRead() returns (outcome: BulkOutcome)
      requires Valid()
      modifies this`alerts, this`bulkUpdates, this`routePath
      ensures Valid()
      ensures BulkActionEffect(WantToReadShelf, outcome)
    {
      outcome := UpdateToShelf(WantToReadShelf);
    }

    /** `_updateToRead`. */
    method UpdateToRead() returns (outcome: BulkOutcome)
      requires Valid()
      modifies this`alerts, this`bulkUpdates, this`routePath
      ensures Valid()
      ensures BulkActionEffect(ReadShelf, outcome)
    {
      outcome := UpdateToShelf(ReadShelf);
    }

    /** `onSearchSuccess`: show the books found, with the flags they imply. */
    method OnSearchSuccess(books: seq<Book>)
      requires Valid()
      modifies this`model
      ensures Valid()
      ensures model == SearchResultView(books)
    {
      model := SearchResultView(books);
    }

    /** `onUpdateSuccess`: go to the listing, then clean up. The new route,
        input and table do not depend on the state before, so a second call
        changes nothing. The event comes from the attached books API; were
        the router missing, the first statement would throw and nothing would
        change. */
    method OnUpdateSuccess() returns (completed: bool)
      requires Valid()
      modifies this`routePath, this`userInput, this`searches, this`selectedBookList, this`history, analytics`hits
      ensures Valid()
      ensures completed == attached
      ensures completed ==>
                && routePath == ListRoute && userInput == Some("")
                && selectedBookList == map[] && history == [] && NoneSelected(selectedBookList)
      ensures !completed ==>
                && routePath == old(routePath) && userInput == old(userInput)
                && selectedBookList == old(selectedBookList) && history == old(history)
      ensures !completed || old(userInput) == Some("") ==>
                analytics.hits == old(analytics.hits) && searches == old(searches)
      ensures completed && old(userInput) != Some("") ==>
                && analytics.hits == old(analytics.hits) + [BookSearch("")]
                && searches == old(searches) + [""]
    {
      if !attached {
        return false;
      }
      ShowBookListing();
      CleanUp();
      completed := true;
    }

    /** `onBookShelfChanged`: an addition hit with the new shelf, then one
        single-book update. Selection and input are left alone. */
    method OnBookShelfChanged(bookId: BookId, newShelf: string) returns (sent: bool)
      requires Valid()
      modifies this`bookUpdates, analytics`hits
      ensures Valid()
      ensures analytics.hits == old(analytics.hits) + [BookAdded(newShelf)]
      ensures sent == attached
      ensures bookUpdates == old(bookUpdates) + if sent then [BookUpdate(bookId, newShelf)] else []
    {
      analytics.Send(BookAdded(newShelf));
      if !attached {
        return false;
      }
      bookUpdates := bookUpdates + [BookUpdate(bookId, newShelf)];
      sent := true;
    }
  }
}
