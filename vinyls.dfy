/** The vinyl collection page (`src/pages/Vinyls.tsx`): the list, the add
    form, saving, deleting, and the searched and sorted view. Store calls
    are replaced by their replies, which the handlers take as inputs. */
module Vinyls {
  import opened Wrappers
  import opened Text
  import Seqs
  import opened Listing
  import JsValues

  /** A vinyl; rows stored before the notes column existed have `null`
      notes. */
  datatype Vinyl = Vinyl(
    id: int, title: string, artist: string, year: Option<int>, location: string,
    cost: real, speed: string, rating: Option<int>, notes: Option<string>)

  function VinylId(v: Vinyl): int { v.id }

  datatype Column = Id | Title | Artist | Year | Location | Cost | Speed | Rating | Notes

  /** `vinyl[column]` as the comparator sees it. A `null` number compares as
      0, as JavaScript's `<` converts it; a `null` note compares as neither
      smaller nor larger than any text. */
  function KeyOf(v: Vinyl, col: Column): KeyValue {
    match col
    case Id => Num(v.id as real)
    case Title => Str(v.title)
    case Artist => Str(v.artist)
    case Year => Num(v.year.GetOr(0) as real)
    case Location => Str(v.location)
    case Cost => Num(v.cost)
    case Speed => Str(v.speed)
    case Rating => Num(v.rating.GetOr(0) as real)
    case Notes => if v.notes.Some? then Str(v.notes.value) else Undefined
  }

  /** Every column but the notes holds only numbers or only strings, so
      sorting by it is consistent. */
  lemma ColumnsConsistent(col: Column, dir: Direction)
    requires col != Notes
    ensures StrictWeakOrder(ColumnOrder(KeyOf, col, dir))
  {
    if col in {Id, Year, Cost, Rating} {
      assert NumColumn(KeyOf, col);
    } else {
      assert StrColumn(KeyOf, col);
    }
    ColumnOrderConsistent(KeyOf, col, dir);
  }

  datatype VinylForm = VinylForm(
    id: int, artist: string, title: string, year: string, location: string,
    cost: string, speed: string, rating: string, notes: string)

  function BlankForm(id: int): VinylForm {
    VinylForm(id, "", "", "", "", "", "", "", "")
  }

  datatype VinylPayload = VinylPayload(
    id: int, title: string, artist: string, location: string, speed: string,
    notes: string, year: Option<int>, cost: real, rating: Option<int>)

  /** The insert payload: the form's id and text copied, year and rating
      parsed with 0 or unparseable becoming `null`, cost parsed with a
      default of 0. */
  function PayloadOf(form: VinylForm, conv: JsValues.NumberConv): (r: VinylPayload)
    ensures r.id == form.id && r.title == form.title && r.artist == form.artist
    ensures r.location == form.location && r.speed == form.speed && r.notes == form.notes
    ensures r.year.None? <==> conv.parseInt(form.year) in {None, Some(0)}
    ensures r.year.Some? ==> r.year == conv.parseInt(form.year)
    ensures r.rating.None? <==> conv.parseInt(form.rating) in {None, Some(0)}
    ensures r.rating.Some? ==> r.rating == conv.parseInt(form.rating)
    ensures r.cost == JsValues.OrZero(conv.parseFloat(form.cost))
  {
    VinylPayload(form.id, form.title, form.artist, form.location, form.speed, form.notes,
      JsValues.OrNull(conv.parseInt(form.year)), JsValues.OrZero(conv.parseFloat(form.cost)),
      JsValues.OrNull(conv.parseInt(form.rating)))
  }

  /** The search: artist, title or non-empty notes contain the search,
      ignoring case. */
  predicate Matches(v: Vinyl, search: string) {
    var s := ToLower(search);
    || Contains(ToLower(v.artist), s)
    || Contains(ToLower(v.title), s)
    || (v.notes.Some? && v.notes.value != "" && Contains(ToLower(v.notes.value), s))
  }

  function MatchesSearch(search: string): Vinyl -> bool {
    v => Matches(v, search)
  }

  function View(vinyls: seq<Vinyl>, search: string, cfg: SortConfig<Column>): seq<Vinyl> {
    var items := Seqs.Filter(vinyls, MatchesSearch(search));
    if cfg.key.None? then items else SortBy(items, ColumnOrder(KeyOf, cfg.key.value, cfg.direction))
  }

  /** An empty search shows every vinyl. */
  lemma EmptySearchKeepsAll(vinyls: seq<Vinyl>)
    ensures Seqs.Filter(vinyls, MatchesSearch("")) == vinyls
  {
    forall i | 0 <= i < |vinyls| ensures MatchesSearch("")(vinyls[i]) {
      ContainsEmpty(ToLower(vinyls[i].artist));
    }
    Seqs.FilterAll(vinyls, MatchesSearch(""));
  }

  /** The notes count only when present and non-empty; then a search for
      their full text finds the vinyl. */
  lemma NotesFound(v: Vinyl)
    requires v.notes.Some? && v.notes.value != ""
    ensures Matches(v, v.notes.value)
  {
    ContainsSelf(ToLower(v.notes.value));
  }

  class VinylsPage {
    var vinyls: seq<Vinyl>
    var isModalOpen: bool
    var newItem: VinylForm
    var search: string
    var sortConfig: SortConfig<Column>

    constructor()
      ensures vinyls == [] && !isModalOpen && newItem == BlankForm(0)
      ensures search == "" && sortConfig == SortConfig(None, Asc)
    {
      vinyls, isModalOpen, newItem := [], false, BlankForm(0);
      search, sortConfig := "", SortConfig(None, Asc);
    }

    method Load(reply: LoadReply<Vinyl>)
      modifies this
      ensures reply.Loaded? && reply.data.Some? ==> vinyls == reply.data.value
      ensures !(reply.Loaded? && reply.data.Some?) ==> vinyls == old(vinyls)
      ensures isModalOpen == old(isModalOpen) && newItem == old(newItem)
      ensures search == old(search) && sortConfig == old(sortConfig)
    {
      if reply.Loaded? && reply.data.Some? {
        vinyls := reply.data.value;
      }
    }

    /** `openNewVinylModal`: a blank form whose id is one more than the
        largest listed id (1 for an empty list). */
    method OpenNewVinylModal()
      modifies this
      ensures isModalOpen && newItem == BlankForm(NextId(Ids(vinyls, VinylId)))
      ensures vinyls == [] ==> newItem.id == 1
      ensures forall v :: v in vinyls ==> v.id < newItem.id
      ensures vinyls == old(vinyls) && search == old(search) && sortConfig == old(sortConfig)
    {
      newItem := BlankForm(NextId(Ids(vinyls, VinylId)));
      NextIdAboveRows(vinyls, VinylId);
      isModalOpen := true;
    }

    /** `handleSave`: inserts the payload; the returned row is appended and
        the form closes. On an error or no data nothing changes. */
    method HandleSave(conv: JsValues.NumberConv, reply: WriteReply<Vinyl>) returns (sent: VinylPayload)
      modifies this
      ensures sent == PayloadOf(old(newItem), conv)
      ensures reply.Written? ==> vinyls == old(vinyls) + [reply.row] && !isModalOpen
      ensures !reply.Written? ==> vinyls == old(vinyls) && isModalOpen == old(isModalOpen)
      ensures newItem == old(newItem) && search == old(search) && sortConfig == old(sortConfig)
    {
      sent := PayloadOf(newItem, conv);
      if reply.Written? {
        vinyls := vinyls + [reply.row];
        isModalOpen := false;
      }
    }

    /** `handleDelete(id)`: after confirmation and a delete without error,
        exactly the vinyls with that id are gone. */
    method HandleDelete(confirmed: bool, id: int, deleteOk: bool)
      modifies this
      ensures confirmed && deleteOk ==> vinyls == RemoveById(old(vinyls), VinylId, id)
      ensures !(confirmed && deleteOk) ==> vinyls == old(vinyls)
      ensures isModalOpen == old(isModalOpen) && newItem == old(newItem)
      ensures search == old(search) && sortConfig == old(sortConfig)
    {
      if confirmed && deleteOk {
        vinyls := RemoveById(vinyls, VinylId, id);
      }
    }

    method HandleSort(key: Column)
      modifies this
      ensures sortConfig == ToggleSort(old(sortConfig), key)
      ensures vinyls == old(vinyls) && isModalOpen == old(isModalOpen)
      ensures newItem == old(newItem) && search == old(search)
    {
      sortConfig := ToggleSort(sortConfig, key);
    }

    /** `sortedAndFiltered`: the matching vinyls in list order, or, with a
        key, a permutation of them sorted by that column. */
    method SortedAndFiltered() returns (items: seq<Vinyl>)
      ensures items == View(vinyls, search, sortConfig)
      ensures multiset(items) == multiset(Seqs.Filter(vinyls, MatchesSearch(search)))
      ensures sortConfig.key.Some? && sortConfig.key.value != Notes ==>
        SortedBy(items, ColumnOrder(KeyOf, sortConfig.key.value, sortConfig.direction))
    {
      var filtered := Seqs.Filter(vinyls, MatchesSearch(search));
      items := SortedView(filtered, sortConfig, KeyOf);
      if sortConfig.key.Some? && sortConfig.key.value != Notes {
        ColumnsConsistent(sortConfig.key.value, sortConfig.direction);
        SortBySorted(filtered, ColumnOrder(KeyOf, sortConfig.key.value, sortConfig.direction));
      }
    }
  }
}
