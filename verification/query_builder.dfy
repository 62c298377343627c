/** What the query `findWithOrder` builds means, over the order rows: keep
    the rows equal to every criterion, order them by the `orderBy` entries
    (the first the primary key, later ones breaking ties, a `customOrder`
    entry ranking values through its table with 999999 for any other
    value), then cut out the requested page. */
module QueryBuilder {
  import opened Common

  /** The columns of the orders table a query can name. */
  datatype Column = Id | OrderDate | Status | Code | PaymentStatus

  /** A column value: numbers (ids, timestamps) or text. */
  datatype Value = Num(n: int) | Text(s: string)

  datatype Direction = Asc | Desc

  /** One `orderBy` entry; `customOrder` maps values to their rank. */
  datatype OrderBy = OrderBy(field: Column, direction: Direction, customOrder: Option<map<string, int>>)

  /** A page request; page numbers start at 1. */
  datatype Pagination = Pagination(page: int, pageSize: Option<nat>)

  datatype FindOptions = FindOptions(criteria: Option<map<Column, Value>>, orderBy: seq<OrderBy>, pagination: Option<Pagination>)

  const DefaultPageSize: nat := 10

  /** The rank of a value a `customOrder` table does not list. */
  const Unranked: int := 999999

  function FieldOf(o: Order, c: Column): Value {
    match c
    case Id => Num(o.id)
    case OrderDate => Num(o.orderDate)
    case Status => Text(o.status)
    case Code => Text(o.code)
    case PaymentStatus => Text(o.paymentStatus)
  }

  /** The row passes the WHERE clause: one equality per criterion, all of them. */
  predicate Matches(o: Order, criteria: Option<map<Column, Value>>) {
    match criteria
    case None => true
    case Some(m) => forall c :: c in m ==> FieldOf(o, c) == m[c]
  }

  /** The rows that pass the WHERE clause, in table order. */
  function Filter(rows: seq<Order>, criteria: Option<map<Column, Value>>): (r: seq<Order>)
    ensures forall k :: 0 <= k < |r| ==> Matches(r[k], criteria)
    ensures forall o :: multiset(r)[o] == if Matches(o, criteria) then multiset(rows)[o] else 0
  {
    if rows == [] then []
    else
      assert rows == [rows[0]] + rows[1..];
      (if Matches(rows[0], criteria) then [rows[0]] else []) + Filter(rows[1..], criteria)
  }

  /** The CASE expression: the table's rank of a listed text value, else 999999. */
  function Rank(v: Value, custom: map<string, int>): int {
    match v
    case Text(s) => if s in custom then custom[s] else Unranked
    case Num(_) => Unranked
  }

  /** What an `orderBy` entry sorts a row by. */
  function SortKey(o: Order, e: OrderBy): Value {
    match e.customOrder
    case Some(custom) => Num(Rank(FieldOf(o, e.field), custom))
    case None => FieldOf(o, e.field)
  }

  function CmpInt(a: int, b: int): int {
    if a < b then -1 else if a == b then 0 else 1
  }

  /** Text order: character by character, a proper prefix first. */
  function CmpText(a: string, b: string): (c: int)
    ensures -1 <= c <= 1
  {
    if a == [] && b == [] then 0
    else if a == [] then -1
    else if b == [] then 1
    else if a[0] < b[0] then -1
    else if a[0] > b[0] then 1
    else CmpText(a[1..], b[1..])
  }

  function CmpValue(a: Value, b: Value): int {
    match (a, b)
    case (Num(x), Num(y)) => CmpInt(x, y)
    case (Text(x), Text(y)) => CmpText(x, y)
    case (Num(_), Text(_)) => -1
    case (Text(_), Num(_)) => 1
  }

  function Directed(c: int, d: Direction): int {
    if d == Asc then c else -c
  }

  /** ORDER BY with several entries: the first entry decides unless it ties,
      then the next, and so on; negative means `a` comes first. */
  function CompareRows(a: Order, b: Order, orderBy: seq<OrderBy>): int
    decreases |orderBy|
  {
    if orderBy == [] then 0
    else
      var c := Directed(CmpValue(SortKey(a, orderBy[0]), SortKey(b, orderBy[0])), orderBy[0].direction);
      if c != 0 then c else CompareRows(a, b, orderBy[1..])
  }

  /** Every row is ordered no later than every row after it. */
  predicate Sorted(s: seq<Order>, orderBy: seq<OrderBy>) {
    forall i, j :: 0 <= i < j < |s| ==> CompareRows(s[i], s[j], orderBy) <= 0
  }

  /** Text order is a total order: swapping the operands negates it, it is
      zero only on equal texts, and it is transitive. */
  lemma {:induction false} CmpTextOrder(a: string, b: string, c: string)
    ensures CmpText(a, b) == -CmpText(b, a)
    ensures CmpText(a, b) == 0 <==> a == b
    ensures CmpText(a, b) <= 0 && CmpText(b, c) <= 0 ==> CmpText(a, c) <= 0
    decreases |a|
  {
    if a != [] && b != [] && c != [] {
      CmpTextOrder(a[1..], b[1..], c[1..]);
      if a[0] == b[0] {
        assert a == [a[0]] + a[1..] && b == [b[0]] + b[1..];
      }
    } else if a != [] && b != [] {
      CmpTextOrder(a[1..], b[1..], []);
      if a[0] == b[0] {
        assert a == [a[0]] + a[1..] && b == [b[0]] + b[1..];
      }
    }
  }

  /** Column values are totally ordered. */
  lemma CmpValueOrder(a: Value, b: Value, c: Value)
    ensures CmpValue(a, b) == -CmpValue(b, a)
    ensures CmpValue(a, b) == 0 <==> a == b
    ensures CmpValue(a, b) <= 0 && CmpValue(b, c) <= 0 ==> CmpValue(a, c) <= 0
  {
    if a.Text? && b.Text? && c.Text? {
      CmpTextOrder(a.s, b.s, c.s);
    } else if a.Text? && b.Text? {
      CmpTextOrder(a.s, b.s, "");
    }
  }

  /** Each direction orders values totally. */
  lemma DirectedOrder(a: Value, b: Value, c: Value, d: Direction)
    ensures Directed(CmpValue(a, b), d) == -Directed(CmpValue(b, a), d)
    ensures Directed(CmpValue(a, b), d) == 0 <==> a == b
    ensures Directed(CmpValue(a, b), d) <= 0 && Directed(CmpValue(b, c), d) <= 0 ==> Directed(CmpValue(a, c), d) <= 0
  {
    CmpValueOrder(a, b, c);
    CmpValueOrder(c, b, a);
    CmpValueOrder(a, c, b);
  }

  /** Swapping two rows negates their comparison. */
  lemma {:induction false} CompareRowsAntisymmetric(a: Order, b: Order, orderBy: seq<OrderBy>)
    ensures CompareRows(a, b, orderBy) == -CompareRows(b, a, orderBy)
    decreases |orderBy|
  {
    if orderBy != [] {
      DirectedOrder(SortKey(a, orderBy[0]), SortKey(b, orderBy[0]), SortKey(a, orderBy[0]), orderBy[0].direction);
      CompareRowsAntisymmetric(a, b, orderBy[1..]);
    }
  }

  /** The row order is transitive. */
  lemma {:induction false} CompareRowsTransitive(a: Order, b: Order, c: Order, orderBy: seq<OrderBy>)
    requires CompareRows(a, b, orderBy) <= 0 && CompareRows(b, c, orderBy) <= 0
    ensures CompareRows(a, c, orderBy) <= 0
    decreases |orderBy|
  {
    if orderBy != [] {
      var e := orderBy[0];
      var ka, kb, kc := SortKey(a, e), SortKey(b, e), SortKey(c, e);
      DirectedOrder(ka, kb, kc, e.direction);
      DirectedOrder(kc, kb, ka, e.direction);
      DirectedOrder(ka, kc, kb, e.direction);
      if Directed(CmpValue(ka, kb), e.direction) == 0 && Directed(CmpValue(kb, kc), e.direction) == 0 {
        CompareRowsTransitive(a, b, c, orderBy[1..]);
      }
    }
  }

  /** Insert `x` into sorted rows before the first row it does not follow. */
  function Insert(x: Order, s: seq<Order>, orderBy: seq<OrderBy>): (r: seq<Order>)
    requires Sorted(s, orderBy)
    ensures Sorted(r, orderBy)
    ensures multiset(r) == multiset(s) + multiset{x}
  {
    if s == [] then [x]
    else if CompareRows(x, s[0], orderBy) <= 0 then
      InsertFrontSorted(x, s, orderBy);
      [x] + s
    else
      var rest := Insert(x, s[1..], orderBy);
      InsertAfterHead(x, s, rest, orderBy);
      [s[0]] + rest
  }

  /** When `x` follows the head of sorted rows, the head stays first. */
  lemma InsertAfterHead(x: Order, s: seq<Order>, rest: seq<Order>, orderBy: seq<OrderBy>)
    requires Sorted(s, orderBy) && s != [] && CompareRows(x, s[0], orderBy) > 0
    requires Sorted(rest, orderBy) && multiset(rest) == multiset(s[1..]) + multiset{x}
    ensures Sorted([s[0]] + rest, orderBy)
    ensures multiset([s[0]] + rest) == multiset(s) + multiset{x}
  {
    assert s == [s[0]] + s[1..];
    assert forall k :: 0 <= k < |s[1..]| ==> s[1..][k] == s[k + 1];
    CompareRowsAntisymmetric(x, s[0], orderBy);
    forall m | 0 <= m < |rest|
      ensures CompareRows(s[0], rest[m], orderBy) <= 0
    {
      HeadBeforeMember(s[0], x, s[1..], rest, orderBy, m);
    }
    HeadBeforeRest(s[0], rest, orderBy);
  }

  lemma InsertFrontSorted(x: Order, s: seq<Order>, orderBy: seq<OrderBy>)
    requires Sorted(s, orderBy) && s != [] && CompareRows(x, s[0], orderBy) <= 0
    ensures Sorted([x] + s, orderBy)
  {
    var r := [x] + s;
    forall i, j | 0 <= i < j < |r|
      ensures CompareRows(r[i], r[j], orderBy) <= 0
    {
      if i == 0 && j > 1 {
        CompareRowsTransitive(x, s[0], s[j - 1], orderBy);
      }
    }
  }

  /** Prepending a row that comes no later than any row of sorted rows keeps them sorted. */
  lemma HeadBeforeRest(h: Order, rest: seq<Order>, orderBy: seq<OrderBy>)
    requires forall m :: 0 <= m < |rest| ==> CompareRows(h, rest[m], orderBy) <= 0
    requires Sorted(rest, orderBy)
    ensures Sorted([h] + rest, orderBy)
  {
    var r := [h] + rest;
    forall i, j | 0 <= i < j < |r|
      ensures CompareRows(r[i], r[j], orderBy) <= 0
    {
      if i == 0 {
        assert r[j] == rest[j - 1];
      } else {
        assert r[i] == rest[i - 1] && r[j] == rest[j - 1];
      }
    }
  }

  lemma HeadBeforeMember(h: Order, x: Order, t: seq<Order>, rest: seq<Order>, orderBy: seq<OrderBy>, m: int)
    requires forall k :: 0 <= k < |t| ==> CompareRows(h, t[k], orderBy) <= 0
    requires CompareRows(h, x, orderBy) <= 0
    requires multiset(rest) == multiset(t) + multiset{x}
    requires 0 <= m < |rest|
    ensures CompareRows(h, rest[m], orderBy) <= 0
  {
    var y := rest[m];
    assert y in multiset(rest);
    if y != x {
      assert y in multiset(t);
      var k :| 0 <= k < |t| && t[k] == y;
    }
  }

  /** Insertion sort: one arrangement of the rows that ORDER BY may return. */
  function SortRows(rows: seq<Order>, orderBy: seq<OrderBy>): (r: seq<Order>)
    ensures Sorted(r, orderBy)
    ensures multiset(r) == multiset(rows)
  {
    if rows == [] then []
    else
      assert rows == [rows[0]] + rows[1..];
      Insert(rows[0], SortRows(rows[1..], orderBy), orderBy)
  }

  /** `pageSize || 10`: a missing or zero page size means 10. */
  function PageSize(p: Pagination): (n: nat)
    ensures n > 0
    ensures p.pageSize.Some? && p.pageSize.value > 0 ==> n == p.pageSize.value
    ensures p.pageSize.None? || p.pageSize.value == 0 ==> n == DefaultPageSize
  {
    match p.pageSize
    case Some(k) => if k == 0 then DefaultPageSize else k
    case None => DefaultPageSize
  }

  /** SKIP `skip`, TAKE `size`: the rows from `skip` on, at most `size` of them. */
  function Window(rows: seq<Order>, skip: nat, size: nat): (r: seq<Order>)
    ensures |r| == (if skip >= |rows| then 0 else if |rows| - skip < size then |rows| - skip else size)
    ensures forall k :: 0 <= k < |r| ==> skip + k < |rows| && r[k] == rows[skip + k]
  {
    if skip >= |rows| then []
    else if |rows| - skip < size then rows[skip..]
    else rows[skip..skip + size]
  }

  /** SKIP (page - 1) * size, TAKE size; only for a page number above 0. */
  function Page(rows: seq<Order>, pagination: Option<Pagination>): (r: seq<Order>)
    ensures pagination.None? || pagination.value.page <= 0 ==> r == rows
    ensures pagination.Some? && pagination.value.page > 0 ==>
              var size := PageSize(pagination.value);
              var skip := (pagination.value.page - 1) * size;
              && |r| == (if skip >= |rows| then 0 else if |rows| - skip < size then |rows| - skip else size)
              && forall k :: 0 <= k < |r| ==> skip + k < |rows| && r[k] == rows[skip + k]
  {
    match pagination
    case None => rows
    case Some(p) =>
      if p.page <= 0 then rows
      else Window(rows, (p.page - 1) * PageSize(p), PageSize(p))
  }

  /** Every row is on exactly one page: row i is entry i mod size of page
      i div size + 1. */
  lemma PageLocation(rows: seq<Order>, size: nat, i: int)
    requires size > 0 && 0 <= i < |rows|
    ensures var r := Page(rows, Some(Pagination(i / size + 1, Some(size))));
            i % size < |r| && r[i % size] == rows[i]
  {
    var q, m := i / size, i % size;
    DivSplit(i, size);
    PageEntry(rows, size, q, m);
  }

  lemma DivSplit(i: int, size: nat)
    requires size > 0 && 0 <= i
    ensures 0 <= i % size < size && 0 <= i / size
    ensures (i / size) * size + i % size == i
  {
  }

  /** Entry m of page q + 1 is row q * size + m, when that row exists. */
  lemma PageEntry(rows: seq<Order>, size: nat, q: int, m: int)
    requires size > 0 && 0 <= q && 0 <= m < size && q * size + m < |rows|
    ensures var r := Page(rows, Some(Pagination(q + 1, Some(size))));
            m < |r| && r[m] == rows[q * size + m]
  {
    var p := Pagination(q + 1, Some(size));
    assert PageSize(p) == size;
    assert (p.page - 1) * size == q * size;
  }

  /** `findWithOrder` over the order rows. */
  function FindWithOrder(table: seq<Order>, options: FindOptions): (r: seq<Order>)
    ensures forall k :: 0 <= k < |r| ==> Matches(r[k], options.criteria)
    ensures Sorted(r, options.orderBy)
    ensures options.pagination.None? || options.pagination.value.page <= 0 ==>
              forall o :: multiset(r)[o] == if Matches(o, options.criteria) then multiset(table)[o] else 0
    ensures options.pagination.Some? && options.pagination.value.page > 0 ==>
              |r| <= PageSize(options.pagination.value)
  {
    var filtered := Filter(table, options.criteria);
    var sorted := SortRows(filtered, options.orderBy);
    var r := Page(sorted, options.pagination);
    PermutationMatches(filtered, sorted, options.criteria);
    SliceSorted(sorted, r, options);
    r
  }

  lemma PermutationMatches(filtered: seq<Order>, sorted: seq<Order>, criteria: Option<map<Column, Value>>)
    requires forall k :: 0 <= k < |filtered| ==> Matches(filtered[k], criteria)
    requires multiset(sorted) == multiset(filtered)
    ensures forall k :: 0 <= k < |sorted| ==> Matches(sorted[k], criteria)
  {
    forall k | 0 <= k < |sorted|
      ensures Matches(sorted[k], criteria)
    {
      assert sorted[k] in multiset(filtered);
      var m :| 0 <= m < |filtered| && filtered[m] == sorted[k];
    }
  }

  lemma SliceSorted(sorted: seq<Order>, r: seq<Order>, options: FindOptions)
    requires Sorted(sorted, options.orderBy)
    requires forall k :: 0 <= k < |sorted| ==> Matches(sorted[k], options.criteria)
    requires r == Page(sorted, options.pagination)
    ensures Sorted(r, options.orderBy)
    ensures forall k :: 0 <= k < |r| ==> Matches(r[k], options.criteria)
  {
    match options.pagination
    case None =>
    case Some(p) =>
      if p.page > 0 {
        var size := PageSize(p);
        var skip := (p.page - 1) * size;
        assert r == Window(sorted, skip, size);
        WindowSorted(sorted, r, skip, options);
      }
  }

  lemma WindowSorted(sorted: seq<Order>, r: seq<Order>, skip: int, options: FindOptions)
    requires Sorted(sorted, options.orderBy)
    requires forall k :: 0 <= k < |sorted| ==> Matches(sorted[k], options.criteria)
    requires 0 <= skip
    requires forall k :: 0 <= k < |r| ==> skip + k < |sorted| && r[k] == sorted[skip + k]
    ensures Sorted(r, options.orderBy)
    ensures forall k :: 0 <= k < |r| ==> Matches(r[k], options.criteria)
  {
    forall i, j | 0 <= i < j < |r|
      ensures CompareRows(r[i], r[j], options.orderBy) <= 0
    {
      var a, b := r[i], r[j];
      assert skip + i < skip + j < |sorted|;
      assert a == sorted[skip + i] && b == sorted[skip + j];
    }
  }

  /** The ORDER BY is lexicographic: in sorted rows the first entry's key
      never goes backwards, and where it ties the remaining entries order
      the rows. */
  lemma SortedIsLexicographic(s: seq<Order>, orderBy: seq<OrderBy>, i: int, j: int)
    requires Sorted(s, orderBy) && orderBy != [] && 0 <= i < j < |s|
    ensures Directed(CmpValue(SortKey(s[i], orderBy[0]), SortKey(s[j], orderBy[0])), orderBy[0].direction) <= 0
    ensures SortKey(s[i], orderBy[0]) == SortKey(s[j], orderBy[0]) ==> CompareRows(s[i], s[j], orderBy[1..]) <= 0
  {
    var e := orderBy[0];
    DirectedOrder(SortKey(s[i], e), SortKey(s[j], e), SortKey(s[i], e), e.direction);
  }
}
