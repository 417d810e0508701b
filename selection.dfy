/** The selection table of the book-lookup component: the books the user has
    ticked for a bulk shelf update, keyed by book id.

    The component never deletes a key. Selecting writes the book record under
    its id; unselecting overwrites the value with `undefined`, which this model
    writes as `None`. A table is therefore empty when no key maps to a defined
    value, not when it has no keys. */
module Selection {

  datatype Option<T> = None | Some(value: T)

  type BookId = string

  /** A search result. Only the id matters to the component; the rest of the
      display metadata is carried along unchanged. */
  datatype Book = Book(id: BookId, title: string, authors: seq<string>)

  /** `selectedBookList`: a key may be present with an undefined value. */
  type Table = map<BookId, Option<Book>>

  /** The selected books as a plain dictionary: the defined entries only. */
  function Defined(sel: Table): (d: map<BookId, Book>)
    ensures forall k :: k in d <==> k in sel && sel[k].Some?
    ensures forall k :: k in d ==> sel[k] == Some(d[k])
  {
    map k | k in sel && sel[k].Some? :: sel[k].value
  }

  /** No key of the table maps to a defined book. */
  predicate NoneSelected(sel: Table)
  {
    forall k :: k in sel ==> sel[k].None?
  }

  /** An empty table in the sense of the component is one whose defined part
      is the empty dictionary, however many undefined keys it keeps. */
  lemma NoneSelectedIffNothingDefined(sel: Table)
    ensures NoneSelected(sel) <==> Defined(sel) == map[]
  {
    if !NoneSelected(sel) {
      var k :| k in sel && sel[k].Some?;
      assert k in Defined(sel);
    }
  }

  /** `onBookSelected`: write the record under its id. */
  function Select(sel: Table, b: Book): (r: Table)
    ensures r.Keys == sel.Keys + {b.id}
    ensures r[b.id] == Some(b)
    ensures forall k :: k in sel && k != b.id ==> r[k] == sel[k]
  {
    sel[b.id := Some(b)]
  }

  /** `onBookUnselected`: overwrite the entry with undefined; the key stays
      (and is created if it was not there). */
  function Unselect(sel: Table, b: Book): (r: Table)
    ensures r.Keys == sel.Keys + {b.id}
    ensures r[b.id] == None
    ensures forall k :: k in sel && k != b.id ==> r[k] == sel[k]
  {
    sel[b.id := None]
  }

  /** Selecting a book that is already selected changes nothing. */
  lemma SelectIdempotent(sel: Table, b: Book)
    ensures Select(Select(sel, b), b) == Select(sel, b)
  {
  }

  /** On the defined part, selecting is an insert-or-overwrite. */
  lemma DefinedAfterSelect(sel: Table, b: Book)
    ensures Defined(Select(sel, b)) == Defined(sel)[b.id := b]
  {
    assert Defined(Select(sel, b)).Keys == Defined(sel)[b.id := b].Keys;
  }

  /** On the defined part, unselecting is a delete: storing `undefined`
      behaves like removing the key. */
  lemma DefinedAfterUnselect(sel: Table, b: Book)
    ensures Defined(Unselect(sel, b)) == Defined(sel) - {b.id}
  {
    assert Defined(Unselect(sel, b)).Keys == (Defined(sel) - {b.id}).Keys;
  }

  /** Unselecting a book that was never selected adds no defined entry. */
  lemma UnselectUnselected(sel: Table, b: Book)
    requires b.id !in sel || sel[b.id].None?
    ensures Defined(Unselect(sel, b)) == Defined(sel)
    ensures NoneSelected(sel) ==> NoneSelected(Unselect(sel, b))
  {
    DefinedAfterUnselect(sel, b);
    assert Defined(sel) - {b.id} == Defined(sel);
  }

  /** Selecting a book and then unselecting it leaves the defined entries as
      they were apart from that book; from an empty table it gives back an
      empty table. */
  lemma SelectThenUnselect(sel: Table, b: Book)
    ensures Defined(Unselect(Select(sel, b), b)) == Defined(sel) - {b.id}
    ensures NoneSelected(sel) ==> NoneSelected(Unselect(Select(sel, b), b))
  {
    DefinedAfterSelect(sel, b);
    DefinedAfterUnselect(Select(sel, b), b);
    assert Defined(sel)[b.id := b] - {b.id} == Defined(sel) - {b.id};
    if NoneSelected(sel) {
      NoneSelectedIffNothingDefined(sel);
      NoneSelectedIffNothingDefined(Unselect(Select(sel, b), b));
    }
  }

  /** The ONSELECTED / ONUNSELECTED events the child elements send. */
  datatype SelectionEvent = Selected(book: Book) | Unselected(book: Book)

  function Apply(sel: Table, e: SelectionEvent): Table
  {
    match e
    case Selected(b) => Select(sel, b)
    case Unselected(b) => Unselect(sel, b)
  }

  /** The table after a history of events, oldest first. */
  function Replay(start: Table, events: seq<SelectionEvent>): Table
  {
    if events == [] then start
    else Apply(Replay(start, events[..|events| - 1]), events[|events| - 1])
  }

  /** Reference definition: a dictionary that holds exactly the selected
      books and deletes a key on unselection. */
  function DeletingReplay(start: map<BookId, Book>, events: seq<SelectionEvent>): map<BookId, Book>
  {
    if events == [] then start
    else
      var before := DeletingReplay(start, events[..|events| - 1]);
      match events[|events| - 1]
      case Selected(b) => before[b.id := b]
      case Unselected(b) => before - {b.id}
  }

  /** For every history of selections and unselections, the table that keeps
      undefined keys has exactly the defined entries of a table that deletes
      them. */
  lemma {:induction false} ReplayMatchesDeletingTable(start: Table, events: seq<SelectionEvent>)
    ensures Defined(Replay(start, events)) == DeletingReplay(Defined(start), events)
    decreases |events|
  {
    if events != [] {
      var prefix := events[..|events| - 1];
      ReplayMatchesDeletingTable(start, prefix);
      match events[|events| - 1]
      case Selected(b) => DefinedAfterSelect(Replay(start, prefix), b);
      case Unselected(b) => DefinedAfterUnselect(Replay(start, prefix), b);
    }
  }

  /** After any history, the table counts as empty exactly when no book is
      selected in the deleting reference table. */
  lemma ReplayEmptyIffNoneNetSelected(start: Table, events: seq<SelectionEvent>)
    ensures NoneSelected(Replay(start, events)) <==> DeletingReplay(Defined(start), events) == map[]
  {
    ReplayMatchesDeletingTable(start, events);
    NoneSelectedIffNothingDefined(Replay(start, events));
  }

  /** The `for (bookId in selectedBookList)` scan of `isSelectedBookListEmpty`:
      visit the keys in some order and stop at the first defined value. The
      result does not depend on the visiting order. */
  method ScanIsEmpty(sel: Table) returns (isEmpty: bool)
    ensures isEmpty <==> NoneSelected(sel)
  {
    isEmpty := true;
    var todo := sel.Keys;
    while todo != {}
      invariant todo <= sel.Keys
      invariant isEmpty
      invariant forall k :: k in sel && k !in todo ==> sel[k].None?
      decreases todo
    {
      var bookId :| bookId in todo;
      if sel[bookId].Some? {
        isEmpty := false;
        break;
      }
      todo := todo - {bookId};
    }
  }
}
