/** The one-off cover backfill of `src/components/CoverUpdater.tsx`: it loads
    the vinyls that have no cover, asks the iTunes lookup for each one in
    turn, writes each cover found back to the store, and keeps a counter, a
    progress percentage, a status line and a log. The store is a class over
    the table's rows; the lookup is a given function. */
module CoverUpdater {
  import opened Wrappers
  import Seqs
  import Listing
  import JsValues

  datatype VinylRow = VinylRow(id: int, artist: string, title: string, coverUrl: Option<string>)

  function RowId(row: VinylRow): int { row.id }

  /** The rows `cover_url.is.null,cover_url.eq.""` selects. */
  predicate LacksCover(row: VinylRow) {
    row.coverUrl == None || row.coverUrl == Some("")
  }

  /** `update({ cover_url: url }).eq('id', id)`: every row with that id gets
      the new cover and nothing else changes. */
  function SetCover(table: seq<VinylRow>, id: int, url: string): (r: seq<VinylRow>)
    ensures |r| == |table|
    ensures forall j :: 0 <= j < |table| ==>
      r[j] == if table[j].id == id then table[j].(coverUrl := Some(url)) else table[j]
  {
    seq(|table|, j requires 0 <= j < |table| =>
      if table[j].id == id then table[j].(coverUrl := Some(url)) else table[j])
  }

  /** The `vinyls` table. */
  class VinylStore {
    var rows: seq<VinylRow>

    constructor(rows: seq<VinylRow>)
      ensures this.rows == rows
    {
      this.rows := rows;
    }

    /** The select for rows without a cover, in table order. */
    method SelectMissing() returns (selected: seq<VinylRow>)
      ensures selected == Seqs.Filter(rows, LacksCover)
    {
      selected := Seqs.Filter(rows, LacksCover);
    }

    method UpdateCover(id: int, url: string)
      modifies this
      ensures rows == SetCover(old(rows), id, url)
    {
      rows := SetCover(rows, id, url);
    }
  }

  /** What `findITunesCover(artist, title)` did: returned a URL or `null`,
      or threw. */
  datatype Lookup = Returned(url: Option<string>) | Threw

  /** `if (coverUrl)`: a non-empty URL came back. */
  predicate Found(l: Lookup) {
    l.Returned? && l.url.Some? && l.url.value != ""
  }

  function LookupOf(row: VinylRow, lookup: (string, string) -> Lookup): Lookup {
    lookup(row.artist, row.title)
  }

  /** The store after processing one row. */
  function Step(table: seq<VinylRow>, row: VinylRow, lookup: (string, string) -> Lookup): seq<VinylRow> {
    var l := LookupOf(row, lookup);
    if Found(l) then SetCover(table, row.id, l.url.value) else table
  }

  /** The store after processing `rows` in order; only covers change. */
  function Backfill(table: seq<VinylRow>, rows: seq<VinylRow>, lookup: (string, string) -> Lookup): (r: seq<VinylRow>)
    ensures |r| == |table|
  {
    if rows == [] then table
    else Step(Backfill(table, rows[..|rows| - 1], lookup), rows[|rows| - 1], lookup)
  }

  /** The backfill keeps every row in its place and changes nothing but
      covers. */
  lemma {:induction false} BackfillOnlyCovers(table: seq<VinylRow>, rows: seq<VinylRow>, lookup: (string, string) -> Lookup)
    ensures forall j :: 0 <= j < |table| ==>
      Backfill(table, rows, lookup)[j] == table[j].(coverUrl := Backfill(table, rows, lookup)[j].coverUrl)
  {
    if rows != [] {
      BackfillOnlyCovers(table, rows[..|rows| - 1], lookup);
    }
  }

  /** How many of `rows` got a cover. */
  function CountFound(rows: seq<VinylRow>, lookup: (string, string) -> Lookup): nat {
    if rows == [] then 0
    else CountFound(rows[..|rows| - 1], lookup) + if Found(LookupOf(rows[|rows| - 1], lookup)) then 1 else 0
  }

  /** The log lines: a cover found, or none on iTunes. */
  datatype LogEntry = CoverFound(artist: string) | NoCover(artist: string)

  predicate IsCoverFound(e: LogEntry) { e.CoverFound? }

  /** The line one row adds; a lookup that threw adds none. */
  function LogOf(row: VinylRow, lookup: (string, string) -> Lookup): seq<LogEntry> {
    var l := LookupOf(row, lookup);
    if l.Threw? then [] else if Found(l) then [CoverFound(row.artist)] else [NoCover(row.artist)]
  }

  /** The log after processing `rows`, newest line first. */
  function LogsFor(rows: seq<VinylRow>, lookup: (string, string) -> Lookup): seq<LogEntry> {
    if rows == [] then []
    else LogOf(rows[|rows| - 1], lookup) + LogsFor(rows[..|rows| - 1], lookup)
  }

  /** Processing one more row extends the store, the log and the counter by
      that row's step. */
  lemma ExtendByOne(table: seq<VinylRow>, rows: seq<VinylRow>, i: nat, lookup: (string, string) -> Lookup)
    requires i < |rows|
    ensures Backfill(table, rows[..i + 1], lookup) == Step(Backfill(table, rows[..i], lookup), rows[i], lookup)
    ensures LogsFor(rows[..i + 1], lookup) == LogOf(rows[i], lookup) + LogsFor(rows[..i], lookup)
    ensures CountFound(rows[..i + 1], lookup) ==
              CountFound(rows[..i], lookup) + if Found(LookupOf(rows[i], lookup)) then 1 else 0
  {
    assert rows[..i + 1][..i] == rows[..i];
  }

  /** `Math.round(((i + 1) / total) * 100)` with `done = i + 1`. */
  function Percentage(done: int, total: int): int
    requires total > 0
  {
    JsValues.RoundHalfUp(done * 100, total)
  }

  /** The status line: before the start, after loading, while processing a
      row, and at the end. */
  datatype Status =
    | Ready
    | Started(total: nat)
    | Processing(position: nat, total: nat, artist: string, title: string)
    | Finished(updated: nat, total: nat)

  /** The component's state. */
  class CoverUpdater {
    var loading: bool
    var progress: int
    var status: Status
    var logs: seq<LogEntry>

    constructor()
      ensures !loading && progress == 0 && status == Ready && logs == []
    {
      loading, progress, status, logs := false, 0, Ready, [];
    }

    /** `startUpdate`: `confirmed` is the answer to the confirmation dialog
        and `loadOk` says whether the select returned data without error. */
    method StartUpdate(confirmed: bool, loadOk: bool, store: VinylStore, lookup: (string, string) -> Lookup)
      modifies this, store
      ensures !confirmed ==> unchanged(this) && unchanged(store)
      ensures confirmed && !loadOk ==>
        && unchanged(store)
        && !loading && logs == [] && progress == old(progress) && status == old(status)
      ensures confirmed && loadOk ==>
        var rows := Seqs.Filter(old(store.rows), LacksCover);
        && store.rows == Backfill(old(store.rows), rows, lookup)
        && logs == LogsFor(rows, lookup)
        && progress == (if rows == [] then old(progress) else 100)
        && status == Finished(CountFound(rows, lookup), |rows|)
        && !loading
    {
      if !confirmed {
        return;
      }
      loading := true;
      logs := [];
      if !loadOk {
        loading := false;
        return;
      }
      var vinyls := store.SelectMissing();
      var total := |vinyls|;
      status := Started(total);
      var updatedCount := ProcessAll(vinyls, store, lookup);
      if total > 0 {
        ProgressComplete(total);
      }
      status := Finished(updatedCount, total);
      loading := false;
    }

    /** The loop over the selected rows, in order. */
    method ProcessAll(vinyls: seq<VinylRow>, store: VinylStore, lookup: (string, string) -> Lookup)
      returns (updatedCount: nat)
      requires logs == []
      modifies this, store
      ensures store.rows == Backfill(old(store.rows), vinyls, lookup)
      ensures logs == LogsFor(vinyls, lookup)
      ensures updatedCount == CountFound(vinyls, lookup)
      ensures vinyls == [] ==> progress == old(progress)
      ensures vinyls != [] ==> progress == Percentage(|vinyls|, |vinyls|)
      ensures loading == old(loading)
    {
      ghost var table := store.rows;
      var total := |vinyls|;
      updatedCount := 0;
      var i := 0;
      while i < total
        invariant 0 <= i <= total
        invariant store.rows == Backfill(table, vinyls[..i], lookup)
        invariant logs == LogsFor(vinyls[..i], lookup)
        invariant updatedCount == CountFound(vinyls[..i], lookup)
        invariant i == 0 ==> progress == old(progress)
        invariant i > 0 ==> progress == Percentage(i, total)
        invariant loading == old(loading)
      {
        ExtendByOne(table, vinyls, i, lookup);
        var found := ProcessRow(vinyls[i], i, total, store, lookup);
        if found {
          updatedCount := updatedCount + 1;
        }
        i := i + 1;
      }
      assert vinyls[..i] == vinyls;
    }

    /** One turn of the loop: progress and status for row `i`, the lookup,
        and on a non-empty URL the store update and a "found" line; on `null`
        a "no cover" line; on an exception nothing more. */
    method ProcessRow(v: VinylRow, i: nat, total: nat, store: VinylStore, lookup: (string, string) -> Lookup)
      returns (found: bool)
      requires i < total
      modifies this, store
      ensures found == Found(LookupOf(v, lookup))
      ensures store.rows == Step(old(store.rows), v, lookup)
      ensures logs == LogOf(v, lookup) + old(logs)
      ensures progress == Percentage(i + 1, total)
      ensures status == Processing(i + 1, total, v.artist, v.title)
      ensures loading == old(loading)
    {
      progress := Percentage(i + 1, total);
      status := Processing(i + 1, total, v.artist, v.title);
      var result := lookup(v.artist, v.title);
      found := false;
      match result {
        case Threw =>
        case Returned(coverUrl) =>
          if coverUrl.Some? && coverUrl.value != "" {
            store.UpdateCover(v.id, coverUrl.value);
            logs := [CoverFound(v.artist)] + logs;
            found := true;
          } else {
            logs := [NoCover(v.artist)] + logs;
          }
      }
    }
  }

  /** The progress never goes back and stays within 0..100. */
  lemma ProgressMonotone(i: int, j: int, total: int)
    requires 0 <= i <= j <= total && total > 0
    ensures 0 <= Percentage(i, total) <= Percentage(j, total) <= Percentage(total, total)
  {
    assert 0 <= i * 100 <= j * 100 <= total * 100;
    JsValues.RoundMonotone(i * 100, j * 100, total);
    JsValues.RoundMonotone(j * 100, total * 100, total);
    JsValues.RoundMonotone(0, i * 100, total);
    JsValues.RoundExact(0, total);
  }

  /** After the last row the progress is exactly 100. */
  lemma ProgressComplete(total: int)
    requires total > 0
    ensures Percentage(total, total) == 100
  {
    JsValues.RoundExact(100, total);
  }

  /** The counter never exceeds the number of rows. */
  lemma {:induction false} CountBound(rows: seq<VinylRow>, lookup: (string, string) -> Lookup)
    ensures CountFound(rows, lookup) <= |rows|
  {
    if rows != [] {
      CountBound(rows[..|rows| - 1], lookup);
    }
  }

  /** The counter equals the number of "cover found" log lines. */
  lemma {:induction false} CountMatchesLogs(rows: seq<VinylRow>, lookup: (string, string) -> Lookup)
    ensures |Seqs.Filter(LogsFor(rows, lookup), IsCoverFound)| == CountFound(rows, lookup)
  {
    if rows != [] {
      var init, last := rows[..|rows| - 1], rows[|rows| - 1];
      CountMatchesLogs(init, lookup);
      Seqs.FilterAppend(LogOf(last, lookup), LogsFor(init, lookup), IsCoverFound);
    }
  }

  /** There is one log line per row whose lookup did not throw. */
  lemma {:induction false} OneLogPerCompletedRow(rows: seq<VinylRow>, lookup: (string, string) -> Lookup)
    ensures |LogsFor(rows, lookup)| == CountCompleted(rows, lookup)
  {
    if rows != [] {
      OneLogPerCompletedRow(rows[..|rows| - 1], lookup);
    }
  }

  /** How many of `rows` had a lookup that did not throw. */
  function CountCompleted(rows: seq<VinylRow>, lookup: (string, string) -> Lookup): nat {
    if rows == [] then 0
    else CountCompleted(rows[..|rows| - 1], lookup) + if LookupOf(rows[|rows| - 1], lookup).Threw? then 0 else 1
  }

  /** One row's effect on the store: if every row of `rows` that has the
      id of `table[k]` is that very row, `table[k]` ends up with the cover
      its lookup found when it is among `rows`, and unchanged otherwise. */
  lemma {:induction false} BackfillAt(table: seq<VinylRow>, rows: seq<VinylRow>, lookup: (string, string) -> Lookup, k: nat)
    requires k < |table|
    requires forall r :: r in rows && r.id == table[k].id ==> r == table[k]
    ensures Backfill(table, rows, lookup)[k] ==
      if table[k] in rows && Found(LookupOf(table[k], lookup))
      then table[k].(coverUrl := LookupOf(table[k], lookup).url)
      else table[k]
  {
    if rows != [] {
      var init, last := rows[..|rows| - 1], rows[|rows| - 1];
      assert rows == init + [last];
      BackfillAt(table, init, lookup, k);
      assert table[k] in rows <==> table[k] in init || table[k] == last;
    }
  }

  /** The whole backfill, for a table whose ids are unique: a row gets a
      store update exactly when it had no cover and its lookup returned a
      non-empty URL, and that update sets only its `cover_url`; a row that
      already had a cover is never touched. */
  lemma BackfillEffect(table: seq<VinylRow>, lookup: (string, string) -> Lookup)
    requires Listing.UniqueIds(table, RowId)
    ensures var after := Backfill(table, Seqs.Filter(table, LacksCover), lookup);
      forall k :: 0 <= k < |table| ==>
        after[k] ==
          if LacksCover(table[k]) && Found(LookupOf(table[k], lookup))
          then table[k].(coverUrl := LookupOf(table[k], lookup).url)
          else table[k]
  {
    var rows := Seqs.Filter(table, LacksCover);
    forall k | 0 <= k < |table|
      ensures Backfill(table, rows, lookup)[k] ==
        if LacksCover(table[k]) && Found(LookupOf(table[k], lookup))
        then table[k].(coverUrl := LookupOf(table[k], lookup).url)
        else table[k]
    {
      forall r | r in rows && r.id == table[k].id ensures r == table[k] {
        var j :| 0 <= j < |table| && table[j] == r;
        assert RowId(table[j]) == RowId(table[k]);
      }
      assert table[k] in rows <==> LacksCover(table[k]);
      BackfillAt(table, rows, lookup, k);
    }
  }
}
