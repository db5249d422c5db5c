/** The in-memory list logic that the four collection pages (compact discs,
    vinyl records, owned books, read books) share: choosing the next id,
    appending, replacing and removing rows by id, the sort-direction toggle,
    the column comparator and `Array.prototype.sort`. */
module Listing {
  import opened Wrappers
  import opened Text
  import Seqs

  // ----- ids -----

  function Ids<T>(rows: seq<T>, idOf: T -> int): (r: seq<int>)
    ensures |r| == |rows|
    ensures forall i :: 0 <= i < |rows| ==> r[i] == idOf(rows[i])
  {
    seq(|rows|, i requires 0 <= i < |rows| => idOf(rows[i]))
  }

  /** `Math.max(...xs)` on a non-empty list. */
  function Max(xs: seq<int>): (m: int)
    requires xs != []
    ensures m in xs
    ensures forall x :: x in xs ==> x <= m
  {
    if |xs| == 1 then xs[0]
    else
      var m := Max(xs[1..]);
      assert xs == [xs[0]] + xs[1..];
      if xs[0] >= m then xs[0] else m
  }

  /** The id proposed for a new row: 1 for an empty list, otherwise the
      largest id plus one, so it differs from every listed id. */
  function NextId(ids: seq<int>): (r: int)
    ensures ids == [] ==> r == 1
    ensures forall x :: x in ids ==> x < r
    ensures ids != [] ==> r - 1 in ids
  {
    if ids == [] then 1 else Max(ids) + 1
  }

  /** The proposed id exceeds the id of every listed row. */
  lemma NextIdAboveRows<T>(rows: seq<T>, idOf: T -> int)
    ensures forall x :: x in rows ==> idOf(x) < NextId(Ids(rows, idOf))
  {
    var ids := Ids(rows, idOf);
    forall x | x in rows ensures idOf(x) < NextId(ids) {
      var k :| 0 <= k < |rows| && rows[k] == x;
      assert ids[k] in ids;
    }
  }

  ghost predicate UniqueIds<T>(rows: seq<T>, idOf: T -> int) {
    forall i, j :: 0 <= i < j < |rows| ==> idOf(rows[i]) != idOf(rows[j])
  }

  /** Appending a row that carries the proposed next id keeps ids unique. */
  lemma AppendNextKeepsUnique<T>(rows: seq<T>, idOf: T -> int, row: T)
    requires UniqueIds(rows, idOf)
    requires idOf(row) == NextId(Ids(rows, idOf))
    ensures UniqueIds(rows + [row], idOf)
  {
    var ids := Ids(rows, idOf);
    forall i | 0 <= i < |rows| ensures idOf(rows[i]) != idOf(row) {
      assert ids[i] in ids;
    }
  }

  // ----- delete: `rows.filter(r => r.id !== id)` -----

  function HasOtherId<T>(idOf: T -> int, id: int): T -> bool {
    x => idOf(x) != id
  }

  /** Removes exactly the rows carrying `id`; every other row is kept as many
      times as it occurred. */
  function RemoveById<T(!new)>(rows: seq<T>, idOf: T -> int, id: int): (r: seq<T>)
    ensures forall x :: x in r ==> idOf(x) != id
    ensures forall x {:trigger multiset(r)[x]} :: idOf(x) != id ==> multiset(r)[x] == multiset(rows)[x]
  {
    var r := Seqs.Filter(rows, HasOtherId(idOf, id));
    assert forall x :: idOf(x) != id ==> multiset(r)[x] == multiset(rows)[x] by {
      forall x | idOf(x) != id ensures multiset(r)[x] == multiset(rows)[x] {
        Seqs.FilterCount(rows, HasOtherId(idOf, id), x);
      }
    }
    r
  }

  /** Removal keeps the order of the remaining rows. */
  lemma RemoveKeepsOrder<T(!new)>(a: seq<T>, b: seq<T>, idOf: T -> int, id: int)
    ensures RemoveById(a + b, idOf, id) == RemoveById(a, idOf, id) + RemoveById(b, idOf, id)
  {
    Seqs.FilterAppend(a, b, HasOtherId(idOf, id));
  }

  /** Removal keeps ids unique. */
  lemma {:induction false} RemoveKeepsUnique<T(!new)>(rows: seq<T>, idOf: T -> int, id: int)
    requires UniqueIds(rows, idOf)
    ensures UniqueIds(RemoveById(rows, idOf, id), idOf)
  {
    if rows != [] {
      var tail := rows[1..];
      RemoveKeepsUnique(tail, idOf, id);
      var rt := RemoveById(tail, idOf, id);
      var head := if idOf(rows[0]) != id then [rows[0]] else [];
      assert RemoveById(rows, idOf, id) == head + rt;
      forall x | x in rt ensures idOf(x) != idOf(rows[0]) {
        var k :| 0 <= k < |tail| && tail[k] == x;
        assert rows[k + 1] == x;
      }
    }
  }

  // ----- update: `rows.map(r => r.id === id ? row : r)` -----

  /** Every row carrying `id` is replaced by `row`; the others stay where
      they are. */
  function ReplaceById<T>(rows: seq<T>, idOf: T -> int, id: int, row: T): (r: seq<T>)
    ensures |r| == |rows|
    ensures forall i :: 0 <= i < |rows| && idOf(rows[i]) != id ==> r[i] == rows[i]
    ensures forall i :: 0 <= i < |rows| && idOf(rows[i]) == id ==> r[i] == row
  {
    seq(|rows|, i requires 0 <= i < |rows| => if idOf(rows[i]) == id then row else rows[i])
  }

  /** With unique ids, replacing by id is a point update of the one row that
      carries the id, in place. */
  lemma ReplaceIsPointUpdate<T>(rows: seq<T>, idOf: T -> int, k: nat, row: T)
    requires UniqueIds(rows, idOf) && k < |rows|
    ensures ReplaceById(rows, idOf, idOf(rows[k]), row) == rows[k := row]
  {
    var r := ReplaceById(rows, idOf, idOf(rows[k]), row);
    forall i | 0 <= i < |rows| ensures r[i] == rows[k := row][i] {
      if i != k {
        assert idOf(rows[i]) != idOf(rows[k]) by {
          if i < k {} else {}
        }
      }
    }
  }

  /** A replacement row that keeps the id keeps the list of ids, so ids stay
      unique. */
  lemma ReplaceKeepsIds<T>(rows: seq<T>, idOf: T -> int, id: int, row: T)
    requires idOf(row) == id
    ensures Ids(ReplaceById(rows, idOf, id, row), idOf) == Ids(rows, idOf)
  {
  }

  // ----- store replies -----

  /** What a page's `select('*')` returned: an error, or data, possibly
      `null`. */
  datatype LoadReply<R> = LoadError | Loaded(data: Option<seq<R>>)

  /** What an `insert(...).select()` or `update(...).select()` returned: an
      error, no data, or data whose first row is `row`. */
  datatype WriteReply<R> = WriteError | NoData | Written(row: R)

  // ----- sort configuration -----

  datatype Direction = Asc | Desc

  /** `{ key, direction }`; `key` is `null` until a column header is clicked. */
  datatype SortConfig<K> = SortConfig(key: Option<K>, direction: Direction)

  /** `handleSort(key)`: the clicked column becomes the key; the direction
      flips to descending only when the same column was ascending. */
  function ToggleSort<K(==)>(cfg: SortConfig<K>, key: K): (r: SortConfig<K>)
    ensures r.key == Some(key)
    ensures r.direction == Desc <==> cfg.key == Some(key) && cfg.direction == Asc
  {
    var direction := if cfg.key == Some(key) && cfg.direction == Asc then Desc else Asc;
    SortConfig(Some(key), direction)
  }

  /** Clicking the same header repeatedly alternates the direction. */
  lemma ToggleAlternates<K>(cfg: SortConfig<K>, key: K)
    ensures ToggleSort(ToggleSort(cfg, key), key).direction != ToggleSort(cfg, key).direction
  {
  }

  // ----- the comparator -----

  /** A column value as the comparator sees it. */
  datatype KeyValue = Undefined | Num(n: real) | Str(s: string)

  /** JavaScript's `<` on two numbers or on two strings. */
  predicate JsLess(a: KeyValue, b: KeyValue) {
    match (a, b)
    case (Num(x), Num(y)) => x < y
    case (Str(x), Str(y)) => LexLess(x, y)
    case _ => false
  }

  /** The pages' sort callback: `undefined` compares equal to anything,
      otherwise `<` and `>` decide, flipped for a descending sort. */
  function Compare(a: KeyValue, b: KeyValue, dir: Direction): int {
    if a.Undefined? || b.Undefined? then 0
    else if JsLess(a, b) then (if dir == Asc then -1 else 1)
    else if JsLess(b, a) then (if dir == Asc then 1 else -1)
    else 0
  }

  /** The callback for one column of a page's rows. */
  function ColumnOrder<T, K>(key: (T, K) -> KeyValue, col: K, dir: Direction): (T, T) -> int {
    (x: T, y: T) => Compare(key(x, col), key(y, col), dir)
  }

  predicate Precedes<T>(cmp: (T, T) -> int, x: T, y: T) {
    cmp(x, y) < 0
  }

  /** What `Array.prototype.sort` needs of a callback for a defined result. */
  ghost predicate StrictWeakOrder<T(!new)>(cmp: (T, T) -> int) {
    && (forall x, y :: Precedes(cmp, x, y) ==> !Precedes(cmp, y, x))
    && (forall x, y, z :: Precedes(cmp, x, z) ==> Precedes(cmp, x, y) || Precedes(cmp, y, z))
  }

  ghost predicate NumColumn<T(!new), K>(key: (T, K) -> KeyValue, col: K) {
    forall x: T :: key(x, col).Num?
  }

  ghost predicate StrColumn<T(!new), K>(key: (T, K) -> KeyValue, col: K) {
    forall x: T :: key(x, col).Str?
  }

  lemma JsLessAsymmetric(a: KeyValue, b: KeyValue)
    requires JsLess(a, b)
    ensures !JsLess(b, a)
  {
    if a.Str? && b.Str? && JsLess(b, a) {
      LexLessTransitive(a.s, b.s, a.s);
      LexLessIrreflexive(a.s);
    }
  }

  lemma JsLessNegTransitive(a: KeyValue, b: KeyValue, c: KeyValue)
    requires (a.Num? && b.Num? && c.Num?) || (a.Str? && b.Str? && c.Str?)
    requires JsLess(a, c)
    ensures JsLess(a, b) || JsLess(b, c)
  {
    if a.Str? && !JsLess(a, b) && !JsLess(b, c) {
      if a.s != b.s {
        LexLessTotal(a.s, b.s);
        LexLessTransitive(b.s, a.s, c.s);
      }
    }
  }

  /** A column whose values are all numbers or all strings gives a
      consistent comparator, in either direction. */
  lemma ColumnOrderConsistent<T(!new), K>(key: (T, K) -> KeyValue, col: K, dir: Direction)
    requires NumColumn(key, col) || StrColumn(key, col)
    ensures StrictWeakOrder(ColumnOrder(key, col, dir))
  {
    var cmp := ColumnOrder(key, col, dir);
    forall x: T, y: T | Precedes(cmp, x, y) ensures !Precedes(cmp, y, x) {
      var a, b := key(x, col), key(y, col);
      if JsLess(a, b) { JsLessAsymmetric(a, b); }
      if JsLess(b, a) { JsLessAsymmetric(b, a); }
    }
    forall x: T, y: T, z: T | Precedes(cmp, x, z) ensures Precedes(cmp, x, y) || Precedes(cmp, y, z) {
      var a, b, c := key(x, col), key(y, col), key(z, col);
      if dir == Asc {
        assert JsLess(a, c);
        JsLessNegTransitive(a, b, c);
        if JsLess(a, b) { JsLessAsymmetric(a, b); }
        if JsLess(b, c) { JsLessAsymmetric(b, c); }
      } else {
        assert JsLess(c, a);
        JsLessNegTransitive(c, b, a);
        if JsLess(b, a) { JsLessAsymmetric(b, a); }
        if JsLess(c, b) { JsLessAsymmetric(c, b); }
      }
    }
  }

  // ----- Array.prototype.sort -----

  /** No element is placed after one it should precede. */
  predicate SortedBy<T>(s: seq<T>, cmp: (T, T) -> int) {
    forall i, j :: 0 <= i < j < |s| ==> !Precedes(cmp, s[j], s[i])
  }

  /** Inserts `x` after every element it does not precede (stable). */
  function Insert<T>(sorted: seq<T>, x: T, cmp: (T, T) -> int): (r: seq<T>)
    ensures |r| == |sorted| + 1
  {
    if sorted == [] then [x]
    else
      var n := |sorted| - 1;
      assert sorted == sorted[..n] + [sorted[n]];
      if Precedes(cmp, x, sorted[n]) then Insert(sorted[..n], x, cmp) + [sorted[n]]
      else sorted + [x]
  }

  /** The stable sort of `s` by the callback `cmp`. For a consistent callback
      every stable sort, and so `Array.prototype.sort`, gives this result. */
  function SortBy<T>(s: seq<T>, cmp: (T, T) -> int): (r: seq<T>)
    ensures |r| == |s|
  {
    if s == [] then []
    else
      var n := |s| - 1;
      assert s == s[..n] + [s[n]];
      Insert(SortBy(s[..n], cmp), s[n], cmp)
  }

  lemma {:induction false} InsertKeeps<T>(sorted: seq<T>, x: T, cmp: (T, T) -> int)
    ensures multiset(Insert(sorted, x, cmp)) == multiset(sorted) + multiset{x}
  {
    if sorted != [] {
      var n := |sorted| - 1;
      assert sorted == sorted[..n] + [sorted[n]];
      if Precedes(cmp, x, sorted[n]) {
        InsertKeeps(sorted[..n], x, cmp);
      }
    }
  }

  /** Sorting only reorders: the result is a permutation of the input. */
  lemma {:induction false} SortByPermutes<T>(s: seq<T>, cmp: (T, T) -> int)
    ensures multiset(SortBy(s, cmp)) == multiset(s)
  {
    if s != [] {
      var n := |s| - 1;
      assert s == s[..n] + [s[n]];
      SortByPermutes(s[..n], cmp);
      InsertKeeps(SortBy(s[..n], cmp), s[n], cmp);
    }
  }

  lemma {:induction false} InsertSorted<T(!new)>(sorted: seq<T>, x: T, cmp: (T, T) -> int)
    requires StrictWeakOrder(cmp) && SortedBy(sorted, cmp)
    ensures SortedBy(Insert(sorted, x, cmp), cmp)
  {
    if sorted != [] {
      var n := |sorted| - 1;
      var last := sorted[n];
      if Precedes(cmp, x, last) {
        var init := sorted[..n];
        InsertSorted(init, x, cmp);
        var ins := Insert(init, x, cmp);
        InsertKeeps(init, x, cmp);
        forall e | e in ins ensures !Precedes(cmp, last, e) {
          assert e in multiset(ins);
          if e != x {
            assert e in multiset(init);
            var k :| 0 <= k < n && init[k] == e;
            assert sorted[k] == e;
          }
        }
        var r := ins + [last];
        forall i, j | 0 <= i < j < |r| ensures !Precedes(cmp, r[j], r[i]) {
          if j == |r| - 1 {
            assert r[i] in ins;
          }
        }
      } else {
        var r := sorted + [x];
        forall i | 0 <= i < n + 1 ensures !Precedes(cmp, x, sorted[i]) {
          if i < n {
            assert !Precedes(cmp, last, sorted[i]);
          }
        }
        forall i, j | 0 <= i < j < |r| ensures !Precedes(cmp, r[j], r[i]) {
        }
      }
    }
  }

  /** With a consistent callback the result is sorted. */
  lemma {:induction false} SortBySorted<T(!new)>(s: seq<T>, cmp: (T, T) -> int)
    requires StrictWeakOrder(cmp)
    ensures SortedBy(SortBy(s, cmp), cmp)
  {
    if s != [] {
      var n := |s| - 1;
      SortBySorted(s[..n], cmp);
      InsertSorted(SortBy(s[..n], cmp), s[n], cmp);
    }
  }

  lemma InsertStep<T>(p: seq<T>, x: T, cmp: (T, T) -> int, j: nat)
    requires 0 < j <= |p| && Precedes(cmp, x, p[j - 1])
    ensures Insert(p[..j], x, cmp) + p[j..] == Insert(p[..j - 1], x, cmp) + p[j - 1..]
  {
    assert p[..j][..j - 1] == p[..j - 1];
    assert p[j - 1..] == [p[j - 1]] + p[j..];
  }

  lemma InsertStop<T>(p: seq<T>, x: T, cmp: (T, T) -> int, j: nat)
    requires j <= |p| && (j == 0 || !Precedes(cmp, x, p[j - 1]))
    ensures Insert(p[..j], x, cmp) == p[..j] + [x]
  {
  }

  lemma SwapShift<T>(p: seq<T>, x: T, j: nat, rest: seq<T>)
    requires 0 < j <= |p|
    ensures (p[..j] + [x] + p[j..] + rest)[j - 1 := x][j := p[j - 1]] == p[..j - 1] + [x] + p[j - 1..] + rest
  {
    var lhs := (p[..j] + [x] + p[j..] + rest)[j - 1 := x][j := p[j - 1]];
    var rhs := p[..j - 1] + [x] + p[j - 1..] + rest;
    assert |lhs| == |rhs|;
    forall k | 0 <= k < |lhs| ensures lhs[k] == rhs[k] {
      if k < j - 1 {
      } else if k == j - 1 {
      } else if k == j {
      } else if k <= |p| {
      } else {
      }
    }
  }

  method SwapBack<T>(a: array<T>, j: nat)
    requires 0 < j < a.Length
    modifies a
    ensures a[..] == old(a[..])[j - 1 := old(a[j])][j := old(a[j - 1])]
  {
    a[j - 1], a[j] := a[j], a[j - 1];
  }

  /** One insertion step: moves `a[i]` left past the elements it precedes. */
  method InsertAt<T>(a: array<T>, i: nat, cmp: (T, T) -> int)
    requires i < a.Length
    modifies a
    ensures a[..] == Insert(old(a[..i]), old(a[i]), cmp) + old(a[i + 1..])
  {
    ghost var prefix := a[..i];
    ghost var rest := a[i + 1..];
    var x := a[i];
    assert a[..] == prefix + [x] + rest;
    assert prefix[..i] == prefix && prefix[i..] == [];
    var j := i;
    assert Insert(prefix, x, cmp) == Insert(prefix[..j], x, cmp) + prefix[j..];
    while j > 0 && cmp(x, a[j - 1]) < 0
      invariant 0 <= j <= i
      invariant a[..] == prefix[..j] + [x] + prefix[j..] + rest
      invariant Insert(prefix, x, cmp) == Insert(prefix[..j], x, cmp) + prefix[j..]
    {
      assert a[j - 1] == prefix[j - 1];
      InsertStep(prefix, x, cmp, j);
      SwapShift(prefix, x, j, rest);
      SwapBack(a, j);
      j := j - 1;
    }
    if j > 0 {
      assert a[j - 1] == prefix[j - 1];
    }
    InsertStop(prefix, x, cmp, j);
  }

  /** The state before an outer step of the in-place sort: the sorted prefix,
      the element to insert and the untouched rest; the next sorted prefix is
      that element's insertion. */
  lemma SortStep<T>(input: seq<T>, i: nat, cur: seq<T>, cmp: (T, T) -> int)
    requires i < |input| && cur == SortBy(input[..i], cmp) + input[i..]
    ensures cur[..i] == SortBy(input[..i], cmp) && cur[i] == input[i] && cur[i + 1..] == input[i + 1..]
    ensures SortBy(input[..i + 1], cmp) == Insert(SortBy(input[..i], cmp), input[i], cmp)
  {
    assert input[..i + 1][..i] == input[..i];
  }

  /** `items.sort(cmp)` on an array, in place (an insertion sort, which is
      stable like the engines' sort). */
  method SortInPlace<T>(a: array<T>, cmp: (T, T) -> int)
    modifies a
    ensures a[..] == SortBy(old(a[..]), cmp)
  {
    ghost var input := a[..];
    var i := 0;
    while i < a.Length
      invariant 0 <= i <= a.Length
      invariant a[..] == SortBy(input[..i], cmp) + input[i..]
    {
      SortStep(input, i, a[..], cmp);
      InsertAt(a, i, cmp);
      i := i + 1;
    }
    assert input[..a.Length] == input;
  }

  /** The sorting half of the pages' `sortedAndFiltered`: with no key the
      filtered order is kept, otherwise the rows are sorted by the key in
      the configured direction. */
  method SortedView<T, K>(items: seq<T>, cfg: SortConfig<K>, key: (T, K) -> KeyValue) returns (r: seq<T>)
    ensures cfg.key.None? ==> r == items
    ensures cfg.key.Some? ==> r == SortBy(items, ColumnOrder(key, cfg.key.value, cfg.direction))
    ensures multiset(r) == multiset(items)
  {
    if cfg.key.None? {
      return items;
    }
    var a := new T[|items|](i requires 0 <= i < |items| => items[i]);
    assert a[..] == items;
    SortInPlace(a, ColumnOrder(key, cfg.key.value, cfg.direction));
    r := a[..];
    SortByPermutes(items, ColumnOrder(key, cfg.key.value, cfg.direction));
  }

  /** What sortedness by a column means for its values: ascending, no later
      value is `<` an earlier one; descending, no earlier value is `<` a
      later one. */
  lemma SortedColumnMeaning<T(!new), K>(s: seq<T>, key: (T, K) -> KeyValue, col: K, dir: Direction, i: nat, j: nat)
    requires NumColumn(key, col) || StrColumn(key, col)
    requires SortedBy(s, ColumnOrder(key, col, dir)) && i < j < |s|
    ensures dir == Asc ==> !JsLess(key(s[j], col), key(s[i], col))
    ensures dir == Desc ==> !JsLess(key(s[i], col), key(s[j], col))
  {
    assert !Precedes(ColumnOrder(key, col, dir), s[j], s[i]);
    var a, b := key(s[j], col), key(s[i], col);
    if JsLess(a, b) { JsLessAsymmetric(a, b); }
    if JsLess(b, a) { JsLessAsymmetric(b, a); }
  }
}
