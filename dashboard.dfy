/** The dashboard (`src/pages/Dashboard.tsx`): the counts of each
    collection, the pages read, the five longest books read, and the
    reading goal with its progress. The four store reads are inputs. */
module Dashboard {
  import opened Wrappers
  import opened Listing
  import Seqs
  import JsValues

  /** A `select('cost')` row; its cost only feeds the collection value. */
  datatype CostRow = CostRow(cost: Option<real>)

  /** A `select('title, pages')` row of the books read. */
  datatype PagesRow = PagesRow(title: string, pages: Option<int>)

  /** `(data || []).length`. */
  function CountOf<T>(data: Option<seq<T>>): (r: nat)
    ensures data.None? ==> r == 0
    ensures data.Some? ==> r == |data.value|
  {
    |data.GetOr([])|
  }

  /** `item.pages || 0`. */
  function PagesOr0(row: PagesRow): int {
    row.pages.GetOr(0)
  }

  /** The pages of every book read, a missing count as 0. */
  function TotalPages(rows: seq<PagesRow>): int {
    Seqs.Sum(rows, PagesOr0)
  }

  /** `(a, b) => (b.pages || 0) - (a.pages || 0)`: more pages first. */
  function ByPagesDesc(a: PagesRow, b: PagesRow): int {
    PagesOr0(b) - PagesOr0(a)
  }

  lemma ByPagesDescConsistent()
    ensures StrictWeakOrder(ByPagesDesc)
  {
  }

  /** The chart's size. */
  const TopCount := 5

  function Min(a: int, b: int): int { if a < b then a else b }

  /** `[...rows].sort(byPagesDesc).slice(0, 5)`. */
  function LongestBooks(rows: seq<PagesRow>): (r: seq<PagesRow>)
    ensures |r| == Min(TopCount, |rows|)
  {
    SortBy(rows, ByPagesDesc)[..Min(TopCount, |rows|)]
  }

  /** The top five: at most five books, taken from the list, by
      non-increasing pages, and no book left out has more pages than any
      book shown. */
  lemma LongestBooksSpec(rows: seq<PagesRow>)
    ensures var top := LongestBooks(rows);
      && multiset(top) <= multiset(rows)
      && (forall i, j :: 0 <= i < j < |top| ==> PagesOr0(top[i]) >= PagesOr0(top[j]))
      && (forall i, j :: 0 <= i < |top| <= j < |rows| ==> PagesOr0(SortBy(rows, ByPagesDesc)[j]) <= PagesOr0(top[i]))
  {
    var sorted := SortBy(rows, ByPagesDesc);
    var n := Min(TopCount, |rows|);
    ByPagesDescConsistent();
    SortBySorted(rows, ByPagesDesc);
    SortByPermutes(rows, ByPagesDesc);
    assert sorted == sorted[..n] + sorted[n..];
    assert multiset(sorted) == multiset(sorted[..n]) + multiset(sorted[n..]);
    forall i, j | 0 <= i < j < |sorted| ensures PagesOr0(sorted[i]) >= PagesOr0(sorted[j]) {
      assert !Precedes(ByPagesDesc, sorted[j], sorted[i]);
    }
  }

  /** What the chart receives: the title and the pages as stored. */
  datatype ChartEntry = ChartEntry(name: string, value: Option<int>)

  function ChartOf(top: seq<PagesRow>): (r: seq<ChartEntry>)
    ensures |r| == |top|
    ensures forall i :: 0 <= i < |top| ==> r[i] == ChartEntry(top[i].title, top[i].pages)
  {
    seq(|top|, i requires 0 <= i < |top| => ChartEntry(top[i].title, top[i].pages))
  }

  /** The dashboard figures, but the floating-point collection value. */
  datatype Stats = Stats(
    booksOwnedCount: nat, vinylsCount: nat, cdsCount: nat, booksReadCount: nat,
    totalPagesRead: int, topLongestBooks: seq<ChartEntry>)

  const InitialStats := Stats(0, 0, 0, 0, 0, [])

  /** What the parallel load returned, or that it threw. */
  datatype Loaded =
    | LoadThrew
    | Replies(ownedBooks: Option<seq<CostRow>>, vinyls: Option<seq<CostRow>>,
              cds: Option<seq<CostRow>>, readBooks: Option<seq<PagesRow>>)

  /** `fetchDashboardData`: every missing list counts as empty; a throw
      keeps the previous figures. */
  function FetchDashboardData(loaded: Loaded, previous: Stats): (r: Stats)
    ensures loaded.LoadThrew? ==> r == previous
    ensures loaded.Replies? ==>
      && r.booksOwnedCount == CountOf(loaded.ownedBooks)
      && r.vinylsCount == CountOf(loaded.vinyls)
      && r.cdsCount == CountOf(loaded.cds)
      && r.booksReadCount == CountOf(loaded.readBooks)
      && r.totalPagesRead == TotalPages(loaded.readBooks.GetOr([]))
      && r.topLongestBooks == ChartOf(LongestBooks(loaded.readBooks.GetOr([])))
      && |r.topLongestBooks| == Min(TopCount, r.booksReadCount)
  {
    match loaded
    case LoadThrew => previous
    case Replies(owned, vinyls, cds, read) =>
      var readRows := read.GetOr([]);
      Stats(CountOf(owned), CountOf(vinyls), CountOf(cds), CountOf(read),
        TotalPages(readRows), ChartOf(LongestBooks(readRows)))
  }

  // ----- the reading goal -----

  const DefaultGoal := 12

  /** `goal`, `isEditingGoal` and the text being typed, `tempGoal`. */
  datatype GoalState = GoalState(goal: int, isEditingGoal: bool, tempGoal: string)

  const InitialGoal := GoalState(DefaultGoal, false, "12")

  /** `saveGoal`: only a parsed goal above 0 is taken, and it ends the
      editing; anything else changes nothing. */
  function SaveGoal(s: GoalState, parseInt: string -> Option<int>): (r: GoalState)
    ensures parseInt(s.tempGoal).Some? && parseInt(s.tempGoal).value > 0 ==>
      r == GoalState(parseInt(s.tempGoal).value, false, s.tempGoal)
    ensures !(parseInt(s.tempGoal).Some? && parseInt(s.tempGoal).value > 0) ==> r == s
    ensures s.goal > 0 ==> r.goal > 0
  {
    var newGoal := parseInt(s.tempGoal);
    if newGoal.Some? && newGoal.value > 0 then GoalState(newGoal.value, false, s.tempGoal) else s
  }

  /** `Math.min(100, Math.round(read / goal * 100))`. */
  function ProgressPercentage(read: nat, goal: int): (r: int)
    requires goal > 0
    ensures 0 <= r <= 100
  {
    JsValues.RoundMonotone(0, read * 100, goal);
    JsValues.RoundExact(0, goal);
    Min(100, JsValues.RoundHalfUp(read * 100, goal))
  }

  /** Reaching the goal shows 100%; reading more never lowers the figure. */
  lemma ProgressReachesFull(read: nat, more: nat, goal: int)
    requires goal > 0
    ensures read >= goal ==> ProgressPercentage(read, goal) == 100
    ensures ProgressPercentage(read, goal) <= ProgressPercentage(read + more, goal)
  {
    JsValues.RoundMonotone(read * 100, (read + more) * 100, goal);
    if read >= goal {
      JsValues.RoundMonotone(goal * 100, read * 100, goal);
      JsValues.RoundExact(100, goal);
    }
  }
}
