/** The CD collection page (`src/pages/CDs.tsx`): the list, the add/edit
    form, saving, deleting, and the searched and sorted view. Store calls
    are replaced by their replies, which the handlers take as inputs. */
module CDs {
  import opened Wrappers
  import opened Text
  import Seqs
  import opened Listing
  import JsValues

  datatype CD = CD(id: int, title: string, artist: string, year: Option<int>, location: string, cost: real)

  function CdId(cd: CD): int { cd.id }

  datatype Column = Id | Title | Artist | Year | Location | Cost

  /** `cd[column]` as the comparator sees it; a `null` year compares as 0,
      as JavaScript's `<` converts it. */
  function KeyOf(cd: CD, col: Column): KeyValue {
    match col
    case Id => Num(cd.id as real)
    case Title => Str(cd.title)
    case Artist => Str(cd.artist)
    case Year => Num(cd.year.GetOr(0) as real)
    case Location => Str(cd.location)
    case Cost => Num(cd.cost)
  }

  /** Every column holds only numbers or only strings, so every sort is
      consistent. */
  lemma ColumnsConsistent(col: Column, dir: Direction)
    ensures StrictWeakOrder(ColumnOrder(KeyOf, col, dir))
  {
    if col in {Id, Year, Cost} {
      assert NumColumn(KeyOf, col);
    } else {
      assert StrColumn(KeyOf, col);
    }
    ColumnOrderConsistent(KeyOf, col, dir);
  }

  /** The form's fields, all text as typed. */
  datatype CDForm = CDForm(id: int, artist: string, title: string, year: string, location: string, cost: string)

  function BlankForm(id: int): CDForm {
    CDForm(id, "", "", "", "", "")
  }

  /** `openEditModal(cd)`: the CD's fields as text; a year of 0 or `null`
      shows as empty. */
  function EditForm(cd: CD, show: real -> string): (r: CDForm)
    ensures r.id == cd.id && r.artist == cd.artist && r.title == cd.title && r.location == cd.location
    ensures r.year == "" <==> cd.year.None? || cd.year.value == 0 || show(cd.year.value as real) == ""
    ensures cd.year.Some? && cd.year.value != 0 ==> r.year == show(cd.year.value as real)
    ensures r.cost == show(cd.cost)
  {
    var year := if cd.year.Some? && cd.year.value != 0 then show(cd.year.value as real) else "";
    CDForm(cd.id, cd.artist, cd.title, year, cd.location, show(cd.cost))
  }

  /** The fields written by a save (without the id). */
  datatype CDPayload = CDPayload(title: string, artist: string, location: string, year: Option<int>, cost: real)

  /** The payload: text fields copied, `parseInt(year) || null` and
      `parseFloat(cost) || 0`. */
  function PayloadOf(form: CDForm, conv: JsValues.NumberConv): (r: CDPayload)
    ensures r.title == form.title && r.artist == form.artist && r.location == form.location
    ensures r.year.None? <==> conv.parseInt(form.year) in {None, Some(0)}
    ensures r.year.Some? ==> r.year == conv.parseInt(form.year)
    ensures r.cost == JsValues.OrZero(conv.parseFloat(form.cost))
  {
    CDPayload(form.title, form.artist, form.location,
      JsValues.OrNull(conv.parseInt(form.year)), JsValues.OrZero(conv.parseFloat(form.cost)))
  }

  /** The write a save sends. */
  datatype CDWrite = Update(id: int, payload: CDPayload) | Insert(payload: CDPayload, newId: int)

  /** The search: artist or title contains the search, ignoring case. */
  predicate Matches(cd: CD, search: string) {
    Contains(ToLower(cd.artist), ToLower(search)) || Contains(ToLower(cd.title), ToLower(search))
  }

  function MatchesSearch(search: string): CD -> bool {
    cd => Matches(cd, search)
  }

  /** `sortedAndFiltered`: the matching CDs, sorted when a key is set. */
  function View(cds: seq<CD>, search: string, cfg: SortConfig<Column>): seq<CD> {
    var items := Seqs.Filter(cds, MatchesSearch(search));
    if cfg.key.None? then items else SortBy(items, ColumnOrder(KeyOf, cfg.key.value, cfg.direction))
  }

  /** An empty search shows every CD. */
  lemma EmptySearchKeepsAll(cds: seq<CD>)
    ensures Seqs.Filter(cds, MatchesSearch("")) == cds
  {
    forall i | 0 <= i < |cds| ensures MatchesSearch("")(cds[i]) {
      ContainsEmpty(ToLower(cds[i].artist));
    }
    Seqs.FilterAll(cds, MatchesSearch(""));
  }

  /** The search ignores the case of what is typed. */
  lemma SearchIgnoresCase(cd: CD, search: string)
    ensures Matches(cd, ToLower(search)) <==> Matches(cd, search)
  {
    ToLowerIdempotent(search);
  }

  /** The page's state. */
  class CDsPage {
    var cds: seq<CD>
    var isModalOpen: bool
    var editingId: Option<int>
    var newItem: CDForm
    var search: string
    var sortConfig: SortConfig<Column>

    constructor()
      ensures cds == [] && !isModalOpen && editingId == None && newItem == BlankForm(0)
      ensures search == "" && sortConfig == SortConfig(None, Asc)
    {
      cds, isModalOpen, editingId, newItem := [], false, None, BlankForm(0);
      search, sortConfig := "", SortConfig(None, Asc);
    }

    /** The initial fetch: data replaces the list; an error or `null`
        leaves it. */
    method Load(reply: LoadReply<CD>)
      modifies this
      ensures reply.Loaded? && reply.data.Some? ==> cds == reply.data.value
      ensures !(reply.Loaded? && reply.data.Some?) ==> cds == old(cds)
      ensures isModalOpen == old(isModalOpen) && editingId == old(editingId) && newItem == old(newItem)
      ensures search == old(search) && sortConfig == old(sortConfig)
    {
      if reply.Loaded? && reply.data.Some? {
        cds := reply.data.value;
      }
    }

    /** `openNewCDModal`: a blank form whose id is one more than the
        largest listed id (1 for an empty list). */
    method OpenNewCDModal()
      modifies this
      ensures editingId == None && isModalOpen
      ensures newItem == BlankForm(NextId(Ids(cds, CdId)))
      ensures cds == [] ==> newItem.id == 1
      ensures forall c :: c in cds ==> c.id < newItem.id
      ensures cds == old(cds) && search == old(search) && sortConfig == old(sortConfig)
    {
      editingId := None;
      newItem := BlankForm(NextId(Ids(cds, CdId)));
      NextIdAboveRows(cds, CdId);
      isModalOpen := true;
    }

    /** `openEditModal(cd)`. */
    method OpenEditModal(cd: CD, show: real -> string)
      modifies this
      ensures editingId == Some(cd.id) && newItem == EditForm(cd, show) && isModalOpen
      ensures cds == old(cds) && search == old(search) && sortConfig == old(sortConfig)
    {
      editingId := Some(cd.id);
      newItem := EditForm(cd, show);
      isModalOpen := true;
    }

    /** `handleSave`: with a non-zero editing id, an update of that id whose
        returned row replaces every CD with the id, in place; otherwise an
        insert with the form's id whose returned row is appended. On an
        error or no data nothing changes. */
    method HandleSave(conv: JsValues.NumberConv, reply: WriteReply<CD>) returns (sent: CDWrite)
      modifies this
      ensures var editing := old(editingId).Some? && old(editingId).value != 0;
        && (editing ==> sent == Update(old(editingId).value, PayloadOf(old(newItem), conv)))
        && (!editing ==> sent == Insert(PayloadOf(old(newItem), conv), old(newItem).id))
        && (reply.Written? && editing ==>
              cds == ReplaceById(old(cds), CdId, old(editingId).value, reply.row)
              && !isModalOpen && editingId == None)
        && (reply.Written? && !editing ==>
              cds == old(cds) + [reply.row] && !isModalOpen && editingId == old(editingId))
        && (!reply.Written? ==>
              cds == old(cds) && isModalOpen == old(isModalOpen) && editingId == old(editingId))
      ensures newItem == old(newItem) && search == old(search) && sortConfig == old(sortConfig)
    {
      var payload := PayloadOf(newItem, conv);
      if editingId.Some? && editingId.value != 0 {
        sent := Update(editingId.value, payload);
        if reply.Written? {
          cds := ReplaceById(cds, CdId, editingId.value, reply.row);
          isModalOpen := false;
          editingId := None;
        }
      } else {
        sent := Insert(payload, newItem.id);
        if reply.Written? {
          cds := cds + [reply.row];
          isModalOpen := false;
        }
      }
    }

    /** `handleDelete(id)`: after confirmation and a delete without error,
        exactly the CDs with that id are gone. */
    method HandleDelete(confirmed: bool, id: int, deleteOk: bool)
      modifies this
      ensures confirmed && deleteOk ==> cds == RemoveById(old(cds), CdId, id)
      ensures !(confirmed && deleteOk) ==> cds == old(cds)
      ensures isModalOpen == old(isModalOpen) && editingId == old(editingId) && newItem == old(newItem)
      ensures search == old(search) && sortConfig == old(sortConfig)
    {
      if confirmed && deleteOk {
        cds := RemoveById(cds, CdId, id);
      }
    }

    /** `handleSort(key)`. */
    method HandleSort(key: Column)
      modifies this
      ensures sortConfig == ToggleSort(old(sortConfig), key)
      ensures cds == old(cds) && isModalOpen == old(isModalOpen) && editingId == old(editingId)
      ensures newItem == old(newItem) && search == old(search)
    {
      sortConfig := ToggleSort(sortConfig, key);
    }

    /** `sortedAndFiltered`: the matching CDs in list order, or, with a
        key, a permutation of them sorted by that column. */
    method SortedAndFiltered() returns (items: seq<CD>)
      ensures items == View(cds, search, sortConfig)
      ensures multiset(items) == multiset(Seqs.Filter(cds, MatchesSearch(search)))
      ensures sortConfig.key.Some? ==>
        SortedBy(items, ColumnOrder(KeyOf, sortConfig.key.value, sortConfig.direction))
    {
      var filtered := Seqs.Filter(cds, MatchesSearch(search));
      items := SortedView(filtered, sortConfig, KeyOf);
      if sortConfig.key.Some? {
        ColumnsConsistent(sortConfig.key.value, sortConfig.direction);
        SortBySorted(filtered, ColumnOrder(KeyOf, sortConfig.key.value, sortConfig.direction));
      }
    }
  }
}
