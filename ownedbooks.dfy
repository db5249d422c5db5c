/** The owned-books page (`src/pages/OwnedBooks.tsx`): the list, the add
    form with its series fields, saving, deleting, and the searched and
    sorted view. Store calls are replaced by their replies, which the
    handlers take as inputs. */
module OwnedBooks {
  import opened Wrappers
  import opened Text
  import Seqs
  import opened Listing
  import JsValues

  /** A book; the series fields are `null` for a book outside a series. */
  datatype Book = Book(
    id: int, title: string, author: string, location: string, cost: real,
    isSeries: bool, seriesName: Option<string>, seriesNumber: Option<int>)

  function BookId(b: Book): int { b.id }

  datatype Column = Id | Title | Author | Location | Cost | IsSeries | SeriesName | SeriesNumber

  /** `book[column]` as the comparator sees it. Booleans and a `null`
      number compare as the numbers JavaScript's `<` converts them to; a
      `null` series name compares as neither smaller nor larger than any
      text. */
  function KeyOf(b: Book, col: Column): KeyValue {
    match col
    case Id => Num(b.id as real)
    case Title => Str(b.title)
    case Author => Str(b.author)
    case Location => Str(b.location)
    case Cost => Num(b.cost)
    case IsSeries => Num(if b.isSeries then 1.0 else 0.0)
    case SeriesName => if b.seriesName.Some? then Str(b.seriesName.value) else Undefined
    case SeriesNumber => Num(b.seriesNumber.GetOr(0) as real)
  }

  /** Every column but the series name holds only numbers or only strings,
      so sorting by it is consistent. */
  lemma ColumnsConsistent(col: Column, dir: Direction)
    requires col != SeriesName
    ensures StrictWeakOrder(ColumnOrder(KeyOf, col, dir))
  {
    if col in {Id, Cost, IsSeries, SeriesNumber} {
      assert NumColumn(KeyOf, col);
    } else {
      assert StrColumn(KeyOf, col);
    }
    ColumnOrderConsistent(KeyOf, col, dir);
  }

  datatype BookForm = BookForm(
    id: int, author: string, title: string, location: string, cost: string,
    isSeries: bool, seriesName: string, seriesNumber: string)

  function BlankForm(id: int): BookForm {
    BookForm(id, "", "", "", "", false, "", "")
  }

  datatype BookPayload = BookPayload(
    id: int, title: string, author: string, location: string, cost: real,
    isSeries: bool, seriesName: Option<string>, seriesNumber: Option<int>)

  /** The insert payload: the series name and number are sent only when the
      series box is ticked (the number as `parseInt` gives it, so a `0`
      stays), `null` otherwise; the cost defaults to 0. */
  function PayloadOf(form: BookForm, conv: JsValues.NumberConv): (r: BookPayload)
    ensures r.id == form.id && r.title == form.title && r.author == form.author
    ensures r.location == form.location && r.isSeries == form.isSeries
    ensures r.cost == JsValues.OrZero(conv.parseFloat(form.cost))
    ensures form.isSeries ==> r.seriesName == Some(form.seriesName) && r.seriesNumber == conv.parseInt(form.seriesNumber)
    ensures !form.isSeries ==> r.seriesName.None? && r.seriesNumber.None?
  {
    BookPayload(form.id, form.title, form.author, form.location,
      JsValues.OrZero(conv.parseFloat(form.cost)), form.isSeries,
      if form.isSeries then Some(form.seriesName) else None,
      if form.isSeries then conv.parseInt(form.seriesNumber) else None)
  }

  /** The search: author, title or non-empty series name contain the
      search, ignoring case. */
  predicate Matches(b: Book, search: string) {
    var s := ToLower(search);
    || Contains(ToLower(b.author), s)
    || Contains(ToLower(b.title), s)
    || (b.seriesName.Some? && b.seriesName.value != "" && Contains(ToLower(b.seriesName.value), s))
  }

  function MatchesSearch(search: string): Book -> bool {
    b => Matches(b, search)
  }

  function View(books: seq<Book>, search: string, cfg: SortConfig<Column>): seq<Book> {
    var items := Seqs.Filter(books, MatchesSearch(search));
    if cfg.key.None? then items else SortBy(items, ColumnOrder(KeyOf, cfg.key.value, cfg.direction))
  }

  /** An empty search shows every book. */
  lemma EmptySearchKeepsAll(books: seq<Book>)
    ensures Seqs.Filter(books, MatchesSearch("")) == books
  {
    forall i | 0 <= i < |books| ensures MatchesSearch("")(books[i]) {
      ContainsEmpty(ToLower(books[i].author));
    }
    Seqs.FilterAll(books, MatchesSearch(""));
  }

  /** A book in a named series is found by the series' name. */
  lemma SeriesFound(b: Book)
    requires b.seriesName.Some? && b.seriesName.value != ""
    ensures Matches(b, b.seriesName.value)
  {
    ContainsSelf(ToLower(b.seriesName.value));
  }

  class OwnedBooksPage {
    var books: seq<Book>
    var isModalOpen: bool
    var newItem: BookForm
    var search: string
    var sortConfig: SortConfig<Column>

    constructor()
      ensures books == [] && !isModalOpen && newItem == BlankForm(0)
      ensures search == "" && sortConfig == SortConfig(None, Asc)
    {
      books, isModalOpen, newItem := [], false, BlankForm(0);
      search, sortConfig := "", SortConfig(None, Asc);
    }

    method Load(reply: LoadReply<Book>)
      modifies this
      ensures reply.Loaded? && reply.data.Some? ==> books == reply.data.value
      ensures !(reply.Loaded? && reply.data.Some?) ==> books == old(books)
      ensures isModalOpen == old(isModalOpen) && newItem == old(newItem)
      ensures search == old(search) && sortConfig == old(sortConfig)
    {
      if reply.Loaded? && reply.data.Some? {
        books := reply.data.value;
      }
    }

    /** `openNewBookModal`: a blank form whose id is one more than the
        largest listed id (1 for an empty list). */
    method OpenNewBookModal()
      modifies this
      ensures isModalOpen && newItem == BlankForm(NextId(Ids(books, BookId)))
      ensures books == [] ==> newItem.id == 1
      ensures forall b :: b in books ==> b.id < newItem.id
      ensures books == old(books) && search == old(search) && sortConfig == old(sortConfig)
    {
      newItem := BlankForm(NextId(Ids(books, BookId)));
      NextIdAboveRows(books, BookId);
      isModalOpen := true;
    }

    /** `handleSave`: inserts the payload; the returned row is appended and
        the form closes. On an error or no data nothing changes. */
    method HandleSave(conv: JsValues.NumberConv, reply: WriteReply<Book>) returns (sent: BookPayload)
      modifies this
      ensures sent == PayloadOf(old(newItem), conv)
      ensures reply.Written? ==> books == old(books) + [reply.row] && !isModalOpen
      ensures !reply.Written? ==> books == old(books) && isModalOpen == old(isModalOpen)
      ensures newItem == old(newItem) && search == old(search) && sortConfig == old(sortConfig)
    {
      sent := PayloadOf(newItem, conv);
      if reply.Written? {
        books := books + [reply.row];
        isModalOpen := false;
      }
    }

    /** `handleDelete(id)`: after confirmation and a delete without error,
        exactly the books with that id are gone. */
    method HandleDelete(confirmed: bool, id: int, deleteOk: bool)
      modifies this
      ensures confirmed && deleteOk ==> books == RemoveById(old(books), BookId, id)
      ensures !(confirmed && deleteOk) ==> books == old(books)
      ensures isModalOpen == old(isModalOpen) && newItem == old(newItem)
      ensures search == old(search) && sortConfig == old(sortConfig)
    {
      if confirmed && deleteOk {
        books := RemoveById(books, BookId, id);
      }
    }

    method HandleSort(key: Column)
      modifies this
      ensures sortConfig == ToggleSort(old(sortConfig), key)
      ensures books == old(books) && isModalOpen == old(isModalOpen)
      ensures newItem == old(newItem) && search == old(search)
    {
      sortConfig := ToggleSort(sortConfig, key);
    }

    /** `sortedAndFiltered`: the matching books in list order, or, with a
        key, a permutation of them sorted by that column. */
    method SortedAndFiltered() returns (items: seq<Book>)
      ensures items == View(books, search, sortConfig)
      ensures multiset(items) == multiset(Seqs.Filter(books, MatchesSearch(search)))
      ensures sortConfig.key.Some? && sortConfig.key.value != SeriesName ==>
        SortedBy(items, ColumnOrder(KeyOf, sortConfig.key.value, sortConfig.direction))
    {
      var filtered := Seqs.Filter(books, MatchesSearch(search));
      items := SortedView(filtered, sortConfig, KeyOf);
      if sortConfig.key.Some? && sortConfig.key.value != SeriesName {
        ColumnsConsistent(sortConfig.key.value, sortConfig.direction);
        SortBySorted(filtered, ColumnOrder(KeyOf, sortConfig.key.value, sortConfig.direction));
      }
    }
  }
}
