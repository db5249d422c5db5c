/** The reading-history page (`src/pages/ReadBooks.tsx`): the list, the add
    form, saving, deleting, the total page count, and the searched and
    sorted view. Store calls are replaced by their replies and the current
    year is given, all as inputs of the handlers. */
module ReadBooks {
  import opened Wrappers
  import opened Text
  import Seqs
  import opened Listing
  import JsValues

  datatype ReadBook = ReadBook(
    id: int, title: string, author: string, readYear: Option<int>,
    pages: Option<int>, rating: Option<int>, notes: string)

  function ReadBookId(b: ReadBook): int { b.id }

  datatype Column = Id | Title | Author | ReadYear | Pages | Rating | Notes

  /** `book[column]` as the comparator sees it; a `null` number compares as
      0, as JavaScript's `<` converts it. */
  function KeyOf(b: ReadBook, col: Column): KeyValue {
    match col
    case Id => Num(b.id as real)
    case Title => Str(b.title)
    case Author => Str(b.author)
    case ReadYear => Num(b.readYear.GetOr(0) as real)
    case Pages => Num(b.pages.GetOr(0) as real)
    case Rating => Num(b.rating.GetOr(0) as real)
    case Notes => Str(b.notes)
  }

  /** Every column holds only numbers or only strings, so every sort is
      consistent. */
  lemma ColumnsConsistent(col: Column, dir: Direction)
    ensures StrictWeakOrder(ColumnOrder(KeyOf, col, dir))
  {
    if col in {Id, ReadYear, Pages, Rating} {
      assert NumColumn(KeyOf, col);
    } else {
      assert StrColumn(KeyOf, col);
    }
    ColumnOrderConsistent(KeyOf, col, dir);
  }

  /** `b.pages || 0`. */
  function PagesOr0(b: ReadBook): int {
    b.pages.GetOr(0)
  }

  /** `pagineTotali`: the pages of every listed book, whatever the search. */
  function TotalPages(books: seq<ReadBook>): int {
    Seqs.Sum(books, PagesOr0)
  }

  datatype ReadBookForm = ReadBookForm(
    id: int, author: string, title: string, readYear: string, pages: string,
    rating: string, notes: string)

  /** A blank form; the read year starts at the current year. */
  function BlankForm(id: int, currentYear: string): ReadBookForm {
    ReadBookForm(id, "", "", currentYear, "", "", "")
  }

  datatype ReadBookPayload = ReadBookPayload(
    id: int, title: string, author: string, readYear: Option<int>, pages: int,
    rating: Option<int>, notes: string)

  /** The insert payload: read year and rating parsed with 0 or unparseable
      becoming `null`, pages parsed with a default of 0. */
  function PayloadOf(form: ReadBookForm, conv: JsValues.NumberConv): (r: ReadBookPayload)
    ensures r.id == form.id && r.title == form.title && r.author == form.author && r.notes == form.notes
    ensures r.readYear.None? <==> conv.parseInt(form.readYear) in {None, Some(0)}
    ensures r.readYear.Some? ==> r.readYear == conv.parseInt(form.readYear)
    ensures r.rating.None? <==> conv.parseInt(form.rating) in {None, Some(0)}
    ensures r.rating.Some? ==> r.rating == conv.parseInt(form.rating)
    ensures conv.parseInt(form.pages).Some? ==> r.pages == conv.parseInt(form.pages).value
    ensures conv.parseInt(form.pages).None? ==> r.pages == 0
  {
    ReadBookPayload(form.id, form.title, form.author,
      JsValues.OrNull(conv.parseInt(form.readYear)), JsValues.OrZeroInt(conv.parseInt(form.pages)),
      JsValues.OrNull(conv.parseInt(form.rating)), form.notes)
  }

  /** The search: author or title contains the search, ignoring case. */
  predicate Matches(b: ReadBook, search: string) {
    Contains(ToLower(b.author), ToLower(search)) || Contains(ToLower(b.title), ToLower(search))
  }

  function MatchesSearch(search: string): ReadBook -> bool {
    b => Matches(b, search)
  }

  function View(books: seq<ReadBook>, search: string, cfg: SortConfig<Column>): seq<ReadBook> {
    var items := Seqs.Filter(books, MatchesSearch(search));
    if cfg.key.None? then items else SortBy(items, ColumnOrder(KeyOf, cfg.key.value, cfg.direction))
  }

  /** An empty search shows every book. */
  lemma EmptySearchKeepsAll(books: seq<ReadBook>)
    ensures Seqs.Filter(books, MatchesSearch("")) == books
  {
    forall i | 0 <= i < |books| ensures MatchesSearch("")(books[i]) {
      ContainsEmpty(ToLower(books[i].author));
    }
    Seqs.FilterAll(books, MatchesSearch(""));
  }

  /** The search ignores the case of what is typed. */
  lemma SearchIgnoresCase(b: ReadBook, search: string)
    ensures Matches(b, ToLower(search)) <==> Matches(b, search)
  {
    ToLowerIdempotent(search);
  }

  class ReadBooksPage {
    var books: seq<ReadBook>
    var isModalOpen: bool
    var newItem: ReadBookForm
    var search: string
    var sortConfig: SortConfig<Column>

    constructor(currentYear: string)
      ensures books == [] && !isModalOpen && newItem == BlankForm(0, currentYear)
      ensures search == "" && sortConfig == SortConfig(None, Asc)
    {
      books, isModalOpen, newItem := [], false, BlankForm(0, currentYear);
      search, sortConfig := "", SortConfig(None, Asc);
    }

    method Load(reply: LoadReply<ReadBook>)
      modifies this
      ensures reply.Loaded? && reply.data.Some? ==> books == reply.data.value
      ensures !(reply.Loaded? && reply.data.Some?) ==> books == old(books)
      ensures isModalOpen == old(isModalOpen) && newItem == old(newItem)
      ensures search == old(search) && sortConfig == old(sortConfig)
    {
      if reply.Loaded? && reply.data.Some? {
        books := reply.data.value;
      }
    }

    /** `openNewReadBookModal`: a blank form for the current year whose id is
        one more than the largest listed id (1 for an empty list). */
    method OpenNewReadBookModal(currentYear: string)
      modifies this
      ensures isModalOpen && newItem == BlankForm(NextId(Ids(books, ReadBookId)), currentYear)
      ensures books == [] ==> newItem.id == 1
      ensures forall b :: b in books ==> b.id < newItem.id
      ensures books == old(books) && search == old(search) && sortConfig == old(sortConfig)
    {
      newItem := BlankForm(NextId(Ids(books, ReadBookId)), currentYear);
      NextIdAboveRows(books, ReadBookId);
      isModalOpen := true;
    }

    /** `handleSave`: inserts the payload; the returned row is appended, so
        the page total grows by its pages, and the form closes. On an error
        or no data nothing changes. */
    method HandleSave(conv: JsValues.NumberConv, reply: WriteReply<ReadBook>) returns (sent: ReadBookPayload)
      modifies this
      ensures sent == PayloadOf(old(newItem), conv)
      ensures reply.Written? ==> books == old(books) + [reply.row] && !isModalOpen
      ensures reply.Written? ==> TotalPages(books) == TotalPages(old(books)) + PagesOr0(reply.row)
      ensures !reply.Written? ==> books == old(books) && isModalOpen == old(isModalOpen)
      ensures newItem == old(newItem) && search == old(search) && sortConfig == old(sortConfig)
    {
      sent := PayloadOf(newItem, conv);
      if reply.Written? {
        Seqs.SumAppend(books, [reply.row], PagesOr0);
        books := books + [reply.row];
        isModalOpen := false;
      }
    }

    /** `handleDelete(id)`: after confirmation and a delete without error,
        exactly the books with that id are gone. */
    method HandleDelete(confirmed: bool, id: int, deleteOk: bool)
      modifies this
      ensures confirmed && deleteOk ==> books == RemoveById(old(books), ReadBookId, id)
      ensures !(confirmed && deleteOk) ==> books == old(books)
      ensures isModalOpen == old(isModalOpen) && newItem == old(newItem)
      ensures search == old(search) && sortConfig == old(sortConfig)
    {
      if confirmed && deleteOk {
        books := RemoveById(books, ReadBookId, id);
      }
    }

    method HandleSort(key: Column)
      modifies this
      ensures sortConfig == ToggleSort(old(sortConfig), key)
      ensures books == old(books) && isModalOpen == old(isModalOpen)
      ensures newItem == old(newItem) && search == old(search)
    {
      sortConfig := ToggleSort(sortConfig, key);
    }

    /** `sortedAndFiltered`: the matching books in list order, or, with a
        key, a permutation of them sorted by that column. */
    method SortedAndFiltered() returns (items: seq<ReadBook>)
      ensures items == View(books, search, sortConfig)
      ensures multiset(items) == multiset(Seqs.Filter(books, MatchesSearch(search)))
      ensures sortConfig.key.Some? ==>
        SortedBy(items, ColumnOrder(KeyOf, sortConfig.key.value, sortConfig.direction))
    {
      var filtered := Seqs.Filter(books, MatchesSearch(search));
      items := SortedView(filtered, sortConfig, KeyOf);
      if sortConfig.key.Some? {
        ColumnsConsistent(sortConfig.key.value, sortConfig.direction);
        SortBySorted(filtered, ColumnOrder(KeyOf, sortConfig.key.value, sortConfig.direction));
      }
    }
  }
}
