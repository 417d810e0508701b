# book-lookup: selection table and bulk shelf actions

A Dafny model of the `book-lookup` Polymer component of a book-cataloguing
web application. The user types a query, the component asks its books API to
search, shows the results, lets the user tick books, and moves every ticked
book to one reading shelf ("currentlyReading", "wantToRead" or "read") with a
single bulk update, then switches the app router to the `list` view. When the
books API confirms the update, the component navigates to `list` again and
resets its input and its selection.

The model has three parts:

- `Selection` (selection.dfy): the selection table `selectedBookList` as
  `map<BookId, Option<Book>>`. Unselecting a book does not delete its key; it
  stores `undefined` (`None`). Emptiness therefore means "no key maps to a
  defined book". The module holds the pure select/unselect operations, the
  key-by-key emptiness scan with its early exit, and lemmas over any history
  of selection events. One of them compares the table with a reference
  dictionary that deletes keys on unselection. The handler's own comment
  (book-lookup.js:86) says it removes the book from the table. The code
  stores `undefined` instead, and this model follows the code. The lemma
  proves that the two tables always have the same defined entries, so the
  emptiness check agrees with "nothing is selected".
- `Analytics` (analytics.dfy): the analytics hits the component sends, and the
  process-wide `webAnalytics.isBookLookupViewed` flag. The flag makes the page
  view go out at most once per page load. The `webAnalytics` global is defined
  outside the component and is not part of this model. Here it is an object
  injected into the component; it starts unset with no hits.
- `BookLookup` (book_lookup.dfy): the component as a class with one method
  per handler. Its fields are the selection table, the observed `userInput`
  property, the view `model`, whether `attached` has run, the router's
  `route.path`, and logs of the alerts shown and of the calls made to the books
  API. The object invariant `Valid` says three things. The table is the replay
  of the selection events since the last reset. The view model's hide-flags
  agree with its results. The analytics object has sent a page view exactly
  when its flag is set.
- `Scenarios` (scenarios.dfy): three whole workflows run from a fresh page
  load, with their outcomes stated.

Two behaviours of the code are kept as written:

- The bulk actions navigate to `list` as soon as the bulk update is issued,
  before the books API confirms it.
- `_cleanUp` assigns `""` to the observed `userInput` property. If the input
  was something else, the observer `onUserType` runs, which sends one more
  search hit and asks the books API to search for `""`.

Until `attached` has run, `BooksApi` and `appRouter` are undefined. The bulk
actions, `onUpdateSuccess` and `onBookShelfChanged` call them without a guard.
In the model, such a call stops the handler with no further effect, as the
resulting TypeError would.

## Model

| member | source | states |
|---|---|---|
| `Selection.Defined` | app/components/book-lookup/book-lookup.js:156-157 | the defined part of the table holds exactly the keys whose value is not undefined, with their books |
| `Selection.NoneSelectedIffNothingDefined` | app/components/book-lookup/book-lookup.js:153-166 | the table is empty in the component's sense iff its defined part is the empty dictionary |
| `Selection.Select` | app/components/book-lookup/book-lookup.js:78-82 | selecting maps the book's id to the book, adds only that key, and leaves every other entry unchanged |
| `Selection.Unselect` | app/components/book-lookup/book-lookup.js:92-96 | unselecting makes the book's entry undefined (the key is kept or created) and leaves every other entry unchanged |
| `Selection.SelectIdempotent` | app/components/book-lookup/book-lookup.js:78-82 | selecting the same book twice gives the same table as selecting it once |
| `Selection.DefinedAfterSelect` | app/components/book-lookup/book-lookup.js:78-82 | on defined entries, selecting is an insert-or-overwrite of the book under its id |
| `Selection.DefinedAfterUnselect` | app/components/book-lookup/book-lookup.js:92-96 | on defined entries, storing undefined acts as deleting the key |
| `Selection.UnselectUnselected` | app/components/book-lookup/book-lookup.js:92-96 | unselecting a book that is not selected adds no defined entry and keeps an empty table empty |
| `Selection.SelectThenUnselect` | app/components/book-lookup/book-lookup.js:78-96 | selecting then unselecting a book removes only that book from the defined entries; from an empty table the result is empty |
| `Selection.ReplayMatchesDeletingTable` | app/components/book-lookup/book-lookup.js:78-96 | after any history of selections and unselections, the table's defined entries equal those of a dictionary that deletes keys on unselection |
| `Selection.ReplayEmptyIffNoneNetSelected` | app/components/book-lookup/book-lookup.js:153-166 | after any history, the emptiness check holds iff no book is left selected in the deleting reference dictionary |
| `Selection.ScanIsEmpty` | app/components/book-lookup/book-lookup.js:154-160 | the key-by-key scan with early exit reports empty iff no key maps to a defined book, whatever order it visits the keys in |
| `Analytics.WebAnalytics.Send` | app/components/book-lookup/book-lookup.js:133-140 | sending a search or addition hit appends it to the hit log and keeps "at most one page view, sent iff the flag is set" |
| `BookLookup.SearchResultView` | app/components/book-lookup/book-lookup.js:234-243 | the new model holds the books found; the results and buttons are hidden iff there are none, and the suggestion is hidden iff there are some |
| `BookLookup.ViewDeterminedByResults` | app/components/book-lookup/book-lookup.js:234-243 | any model whose flags agree with its results is exactly the model a search with those results produces |
| `BookLookup.InitialModelIsEmptySearch` | app/components/book-lookup/book-lookup.js:13-21 | the declared default model is the one an empty search shows, so it satisfies the flag invariant |
| `BookLookup.BookLookupElement.constructor` | app/components/book-lookup/book-lookup.js:7-50 | a new component has an empty table, undefined input, the default model, no API yet, and empty logs |
| `BookLookup.BookLookupElement.Attached` | app/components/book-lookup/book-lookup.js:217-224 | after `attached`, the books API and router are available |
| `BookLookup.BookLookupElement.OnBookSelected` | app/components/book-lookup/book-lookup.js:78-82 | the table becomes the old table with the book selected, and the event joins the history |
| `BookLookup.BookLookupElement.OnBookUnselected` | app/components/book-lookup/book-lookup.js:92-96 | the table becomes the old table with the book's entry undefined, and the event joins the history |
| `BookLookup.BookLookupElement.OnPageActive` | app/components/book-lookup/book-lookup.js:106-120 | becoming active sets the process-wide flag, and a page view of `'/' + location.hash` is sent only if the flag was unset; otherwise nothing is sent |
| `BookLookup.BookLookupElement.OnUserType` | app/components/book-lookup/book-lookup.js:130-144 | every query sends a search hit; the query goes to the books API exactly when one is attached |
| `BookLookup.BookLookupElement.SetUserInput` | app/components/book-lookup/book-lookup.js:36-39 | assigning `userInput` stores it and runs its observer exactly when the value changes |
| `BookLookup.BookLookupElement.CleanUp` | app/components/book-lookup/book-lookup.js:64-68 | afterwards the input is "" and the table is a fresh empty one; the observer runs only if the input was not already "" |
| `BookLookup.BookLookupElement.IsSelectedBookListEmpty` | app/components/book-lookup/book-lookup.js:153-166 | returns true iff no key maps to a defined book, and raises "Please select at least 1 book" exactly when it returns true |
| `BookLookup.BookLookupElement.ShowBookListing` | app/components/book-lookup/book-lookup.js:263-266 | the router's path becomes "list" |
| `BookLookup.BookLookupElement.UpdateToShelf` | app/components/book-lookup/book-lookup.js:175-208 | empty table: only the alert, with no bulk update and the route unchanged. Otherwise, with the API attached: exactly one bulk update with the whole table and the status, then route "list". The table is never changed |
| `BookLookup.BookLookupElement.UpdateToContinueReading` | app/components/book-lookup/book-lookup.js:175-180 | the bulk action above with status "currentlyReading" |
| `BookLookup.BookLookupElement.UpdateToWantToRead` | app/components/book-lookup/book-lookup.js:189-194 | the bulk action above with status "wantToRead" |
| `BookLookup.BookLookupElement.UpdateToRead` | app/components/book-lookup/book-lookup.js:203-208 | the bulk action above with status "read" |
| `BookLookup.BookLookupElement.OnSearchSuccess` | app/components/book-lookup/book-lookup.js:234-243 | the model becomes the view of the books found, and the flag invariant is kept |
| `BookLookup.BookLookupElement.OnUpdateSuccess` | app/components/book-lookup/book-lookup.js:253-257 | route "list", input "" and an empty table, whatever the state before, so a repeated call changes nothing |
| `BookLookup.BookLookupElement.OnBookShelfChanged` | app/components/book-lookup/book-lookup.js:278-291 | one addition hit with the new shelf, then, when the books API is attached, exactly one single-book update with the id and shelf; selection and input untouched |
| `Scenarios.BulkReadTwoBooks` | app/components/book-lookup/book-lookup.js:203-208 | two ticked books and "Read": one bulk update with both records and status "read", route "list", no alert |
| `Scenarios.BulkAfterUntick` | app/components/book-lookup/book-lookup.js:189-194 | a book ticked then unticked leaves its key in the table, yet "Want To Read" only raises the alert: no bulk update, route unchanged |
| `Scenarios.ConfirmTwice` | app/components/book-lookup/book-lookup.js:253-257 | the first confirmation resets input and table, after one more search for ""; a second confirmation changes nothing |

## Left out

- Analytics hits are reduced to their kind and payload (page, search word,
  shelf). The fixed `hitType`/`eventCategory`/`eventAction` fields and the
  delivery of hits are not modelled.
- `location.hash` is a parameter of `OnPageActive`, not read from the browser.
- `attached` is reduced to "the books API and router now exist". The DOM
  lookup of the router, the construction and appending of the `BooksApi`
  element, and its stray assignment of a top-level `searchResults` property
  are not modelled. The router found by `getElementById` is assumed present.
- The books API is not part of this model. Its calls are logged with their
  arguments; its network requests, its answers and their order are not
  modelled. `onSearchSuccess` and `onUpdateSuccess` may be called at any time.
- The `alert` dialog is a log of messages; blocking the page is not modelled.
- The bulk update log records the table as a value when the call is made.
  In the code, the API receives a reference to the same object. Selections
  made before the confirmation would be visible to the API through that
  reference; this aliasing is not modelled.
- Polymer's path notation in `this.set("selectedBookList." + id, …)`: an id
  containing a dot would address a nested path. Ids are treated as atomic
  keys.
- Polymer's sharing of the object defaults of `model` and `selectedBookList`
  between instances of the element is not modelled; each instance has its own.
- The Polymer `properties`/`listeners` machinery is replaced by direct method
  calls, and `this.set` by field assignment. The only observer effect kept is
  the `userInput` observer, because `_cleanUp` triggers it.
- The `active` property is not a field; its observer `onPageActive` is called
  directly with the new value.
