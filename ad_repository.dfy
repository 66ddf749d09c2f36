/** The advertisements table and its listing query
    (internal/repository/advertisement_repository.go). The table is a
    sequence of rows; the query filters by the active price bounds, orders by
    the ORDER BY clause the code builds, and takes the OFFSET/LIMIT window. */
module AdRepository {
  import opened Wrappers
  import opened Domain
  import opened GoStrings

  // ---------------------------------------------------------------------------
  // ORDER BY

  datatype Column = Price | CreatedAt
  datatype Direction = Asc | Desc
  datatype Ordering = Ordering(column: Column, direction: Direction)

  const DefaultOrderClause := "created_at DESC"

  /** The error the database reports for an ORDER BY clause it cannot run. */
  const ErrOrderClause := "invalid ORDER BY clause"

  /** The ORDER BY text the query is given: the requested column and
      direction, or newest first when no column is requested. */
  function OrderClause(sortBy: string, order: string): (clause: string)
    ensures sortBy == "" ==> clause == DefaultOrderClause
    ensures sortBy != "" && ' ' !in sortBy ==> SplitFirst(clause, ' ') == Some((sortBy, order))
  {
    if sortBy != "" then
      assert ' ' !in sortBy ==> SplitFirst(sortBy + " " + order, ' ') == Some((sortBy, order)) by {
        if ' ' !in sortBy {
          SplitFirstJoin(sortBy, ' ', order);
        }
      }
      sortBy + " " + order
    else DefaultOrderClause
  }

  function ColumnNamed(name: string): Option<Column> {
    if name == "price" then Some(Price)
    else if name == "created_at" then Some(CreatedAt)
    else None
  }

  /** The direction keywords, ascending when the keyword is missing. */
  function DirectionNamed(keyword: string): Option<Direction> {
    if keyword == "" || keyword == "asc" || keyword == "ASC" then Some(Asc)
    else if keyword == "desc" || keyword == "DESC" then Some(Desc)
    else None
  }

  /** The ordering a column name and a direction keyword ask for. */
  function OrderingNamed(name: string, keyword: string): Option<Ordering> {
    match (ColumnNamed(name), DirectionNamed(keyword))
    case (Some(c), Some(d)) => Some(Ordering(c, d))
    case _ => None
  }

  /** How the database reads a one-column ORDER BY clause: a column name,
      then after a single space an optional direction keyword, ascending when
      it is missing. Anything else is refused. */
  function Interpret(clause: string): Option<Ordering> {
    match SplitFirst(clause, ' ')
    case None => OrderingNamed(clause, "")
    case Some((name, keyword)) => OrderingNamed(name, keyword)
  }

  /** A clause joined from a column name and a keyword at a single space is
      read as that name and keyword. */
  lemma InterpretJoin(name: string, keyword: string)
    requires ' ' !in name
    ensures Interpret(name + " " + keyword) == OrderingNamed(name, keyword)
  {
    SplitFirstJoin(name, ' ', keyword);
    assert name + [' '] + keyword == name + " " + keyword;
  }

  /** The clause built when no column is requested means newest first. */
  lemma DefaultClauseMeansNewestFirst()
    ensures Interpret(DefaultOrderClause) == Some(Ordering(CreatedAt, Desc))
  {
    var name, keyword := "created_at", "DESC";
    assert name + " " + keyword == DefaultOrderClause;
    assert ' ' !in name;
    InterpretJoin(name, keyword);
    assert DirectionNamed(keyword) == Some(Desc);
  }

  /** A named column with a whitelisted direction reads back as that column,
      descending only for "desc". */
  lemma NamedClause(sortBy: string, order: string)
    requires sortBy == "price" || sortBy == "created_at"
    requires order == "" || order == "asc" || order == "desc"
    ensures Interpret(sortBy + " " + order) ==
            Some(Ordering(ColumnNamed(sortBy).value, if order == "desc" then Desc else Asc))
  {
    assert ' ' !in sortBy;
    InterpretJoin(sortBy, order);
  }

  /** Every (column, direction) pair the service can pass yields a clause the
      database accepts: an empty column means newest first whatever the
      direction, and an empty direction means ascending. */
  lemma ClauseAccepted(sortBy: string, order: string)
    requires sortBy == "" || sortBy == "price" || sortBy == "created_at"
    requires order == "" || order == "asc" || order == "desc"
    ensures sortBy == "" ==> Interpret(OrderClause(sortBy, order)) == Some(Ordering(CreatedAt, Desc))
    ensures sortBy != "" ==>
              Interpret(OrderClause(sortBy, order)) ==
              Some(Ordering(ColumnNamed(sortBy).value, if order == "desc" then Desc else Asc))
  {
    if sortBy == "" {
      DefaultClauseMeansNewestFirst();
    } else {
      NamedClause(sortBy, order);
    }
  }

  /** The sort key of an ad for a column. */
  function Key(ad: Advertisement, column: Column): real {
    match column
    case Price => ad.price
    case CreatedAt => ad.createdAt as real
  }

  /** `a` may stand before `b` in a result ordered by `o`. */
  predicate InOrder(a: Advertisement, b: Advertisement, o: Ordering) {
    if o.direction == Asc then Key(a, o.column) <= Key(b, o.column)
    else Key(a, o.column) >= Key(b, o.column)
  }

  predicate Sorted(s: seq<Advertisement>, o: Ordering) {
    forall i, j :: 0 <= i < j < |s| ==> InOrder(s[i], s[j], o)
  }

  /** `x` placed before the first element it may precede. */
  function Insert(x: Advertisement, s: seq<Advertisement>, o: Ordering): (r: seq<Advertisement>)
    ensures multiset(r) == multiset(s) + multiset{x}
  {
    if s == [] || InOrder(x, s[0], o) then [x] + s
    else
      assert s == [s[0]] + s[1..];
      [s[0]] + Insert(x, s[1..], o)
  }

  /** The database's ORDER BY, modelled as a stable insertion sort: rows
      with equal keys keep their table order (the database leaves their
      order unspecified). */
  function SortAds(s: seq<Advertisement>, o: Ordering): (r: seq<Advertisement>)
    ensures multiset(r) == multiset(s)
  {
    if s == [] then []
    else
      assert s == [s[0]] + s[1..];
      Insert(s[0], SortAds(s[1..], o), o)
  }

  lemma {:induction false} InsertSorted(x: Advertisement, s: seq<Advertisement>, o: Ordering)
    requires Sorted(s, o)
    ensures Sorted(Insert(x, s, o), o)
  {
    if s == [] || InOrder(x, s[0], o) {
      var r := [x] + s;
      forall i, j | 0 <= i < j < |r| ensures InOrder(r[i], r[j], o) {
        if i == 0 && j > 1 {
          assert InOrder(s[0], s[j - 1], o);
        }
      }
    } else {
      var tail := Insert(x, s[1..], o);
      InsertSorted(x, s[1..], o);
      var r := [s[0]] + tail;
      forall j | 0 < j < |r| ensures InOrder(s[0], r[j], o) {
        assert r[j] in multiset(tail);
        assert r[j] in multiset(s[1..]) + multiset{x};
        if r[j] in multiset(s[1..]) {
          var k :| 0 <= k < |s[1..]| && s[1..][k] == r[j];
          assert s[k + 1] == r[j];
        }
      }
    }
  }

  /** SortAds orders its input. */
  lemma {:induction false} SortAdsSorted(s: seq<Advertisement>, o: Ordering)
    ensures Sorted(SortAds(s, o), o)
  {
    if s != [] {
      SortAdsSorted(s[1..], o);
      InsertSorted(s[0], SortAds(s[1..], o), o);
    }
  }

  // ---------------------------------------------------------------------------
  // WHERE price >= ? / price <= ?

  /** The price bounds the query applies: only a positive bound is active. */
  predicate InPriceRange(ad: Advertisement, minPrice: real, maxPrice: real) {
    (minPrice > 0.0 ==> ad.price >= minPrice) && (maxPrice > 0.0 ==> ad.price <= maxPrice)
  }

  /** The rows within the active price bounds, in table order. */
  function FilterByPrice(rows: seq<Advertisement>, minPrice: real, maxPrice: real): (r: seq<Advertisement>)
    ensures forall a :: a in r <==> a in rows && InPriceRange(a, minPrice, maxPrice)
    ensures forall a :: multiset(r)[a] == if InPriceRange(a, minPrice, maxPrice) then multiset(rows)[a] else 0
  {
    if rows == [] then []
    else
      assert rows == [rows[0]] + rows[1..];
      var rest := FilterByPrice(rows[1..], minPrice, maxPrice);
      if InPriceRange(rows[0], minPrice, maxPrice) then [rows[0]] + rest else rest
  }

  /** The whole ordered result before pagination. */
  function Listing(rows: seq<Advertisement>, minPrice: real, maxPrice: real, o: Ordering): (r: seq<Advertisement>)
    ensures Sorted(r, o)
    ensures forall a :: a in r <==> a in rows && InPriceRange(a, minPrice, maxPrice)
    ensures forall a :: multiset(r)[a] == if InPriceRange(a, minPrice, maxPrice) then multiset(rows)[a] else 0
  {
    var filtered := FilterByPrice(rows, minPrice, maxPrice);
    SortAdsSorted(filtered, o);
    assert forall a :: a in SortAds(filtered, o) <==> a in multiset(filtered);
    SortAds(filtered, o)
  }

  /** No two rows share an id. */
  predicate DistinctIds(s: seq<Advertisement>) {
    forall i, j :: 0 <= i < j < |s| ==> s[i].id != s[j].id
  }

  /** A row of a sequence with distinct ids occurs in it at most once. */
  lemma {:induction false} DistinctIdsOnce(s: seq<Advertisement>, x: Advertisement)
    requires DistinctIds(s)
    ensures multiset(s)[x] <= 1
  {
    if s != [] {
      assert s == [s[0]] + s[1..];
      assert DistinctIds(s[1..]) by {
        forall i, j | 0 <= i < j < |s[1..]| ensures s[1..][i].id != s[1..][j].id {
          assert s[1..][i] == s[i + 1] && s[1..][j] == s[j + 1];
        }
      }
      DistinctIdsOnce(s[1..], x);
      if s[0] == x {
        assert x !in s[1..] by {
          forall k | 0 <= k < |s[1..]| ensures s[1..][k] != x {
            assert s[1..][k] == s[k + 1];
          }
        }
      }
    }
  }

  /** A value at two positions of a sequence occurs in it at least twice. */
  lemma TwiceAtTwoPositions<T>(s: seq<T>, i: int, j: int)
    requires 0 <= i < j < |s| && s[i] == s[j]
    ensures multiset(s)[s[i]] >= 2
  {
    assert s == s[..j] + [s[j]] + s[j + 1..];
    assert s[..j][i] == s[i];
  }

  /** When the table's ids are distinct, so are the ids of the ordered
      result: no row is listed twice. */
  lemma ListingDistinct(rows: seq<Advertisement>, minPrice: real, maxPrice: real, o: Ordering)
    requires DistinctIds(rows)
    ensures DistinctIds(Listing(rows, minPrice, maxPrice, o))
  {
    var l := Listing(rows, minPrice, maxPrice, o);
    forall i, j | 0 <= i < j < |l| ensures l[i].id != l[j].id {
      if l[i].id == l[j].id {
        assert l[i] in rows && l[j] in rows;
        var p :| 0 <= p < |rows| && rows[p] == l[i];
        var q :| 0 <= q < |rows| && rows[q] == l[j];
        assert p == q;
        TwiceAtTwoPositions(l, i, j);
        DistinctIdsOnce(rows, l[i]);
        assert false;
      }
    }
  }

  // ---------------------------------------------------------------------------
  // OFFSET / LIMIT

  function Min(a: int, b: int): int { if a <= b then a else b }

  /** The first row of page `page` of `limit` rows. */
  function Offset(page: int, limit: int): (offset: int)
    ensures page == 1 ==> offset == 0
    ensures page >= 1 && limit >= 0 ==> offset >= 0
    ensures page >= 1 && limit >= 1 ==> offset % limit == 0 && offset / limit == page - 1
  {
    assert page >= 1 && limit >= 1 ==> ((page - 1) * limit) % limit == 0 && ((page - 1) * limit) / limit == page - 1 by {
      if page >= 1 && limit >= 1 {
        MultipleDivMod(page - 1, limit);
      }
    }
    (page - 1) * limit
  }

  lemma ProductSign(a: int, m: int)
    requires m >= 1
    ensures a >= 1 ==> a * m >= m
    ensures a <= -1 ==> a * m <= -m
  {
  }

  /** A multiple of `m` divides by `m` exactly. */
  lemma MultipleDivMod(k: nat, m: int)
    requires m >= 1
    ensures (k * m) % m == 0 && (k * m) / m == k
  {
    var q := (k * m) / m;
    var r := (k * m) % m;
    assert (k - q) * m == r;
    ProductSign(k - q, m);
  }

  /** What `Offset(offset).Limit(limit)` selects: a non-positive offset adds
      no OFFSET and a negative limit no LIMIT. The window is the contiguous
      run of at most `limit` rows that starts at the offset. */
  function Window<T>(s: seq<T>, offset: int, limit: int): (w: seq<T>)
    ensures var start := if offset > 0 then Min(offset, |s|) else 0;
            && (limit >= 0 ==> |w| == Min(limit, |s| - start))
            && (limit < 0 ==> |w| == |s| - start)
            && w == s[start..start + |w|]
  {
    var start := if offset > 0 then Min(offset, |s|) else 0;
    var rest := s[start..];
    if 0 <= limit < |rest| then rest[..limit] else rest
  }

  /** Pages 1 to `k` in sequence. */
  function Pages<T>(s: seq<T>, limit: int, k: nat): seq<T> {
    if k == 0 then [] else Pages(s, limit, k - 1) + Window(s, Offset(k, limit), limit)
  }

  /** A window at a non-negative offset, in terms of its two ends. */
  lemma WindowBetween<T>(s: seq<T>, offset: int, limit: int)
    requires offset >= 0 && limit >= 0
    ensures Window(s, offset, limit) == s[Min(offset, |s|)..Min(offset + limit, |s|)]
  {
    var w := Window(s, offset, limit);
    if offset >= |s| {
      assert |w| == 0;
    } else {
      assert |w| == Min(limit, |s| - offset);
      assert offset + |w| == Min(offset + limit, |s|);
    }
  }

  /** A window keeps the order of the sequence it is cut from. */
  lemma WindowSorted(s: seq<Advertisement>, offset: int, limit: int, o: Ordering)
    requires Sorted(s, o)
    ensures Sorted(Window(s, offset, limit), o)
  {
    var w := Window(s, offset, limit);
    var start := if offset > 0 then Min(offset, |s|) else 0;
    assert w == s[start..start + |w|];
    forall i, j | 0 <= i < j < |w| ensures InOrder(w[i], w[j], o) {
      assert w[i] == s[start + i] && w[j] == s[start + j];
    }
  }

  /** Every element of a window is an element of the sequence. */
  lemma WindowWithin<T>(s: seq<T>, offset: int, limit: int)
    ensures forall x :: x in Window(s, offset, limit) ==> x in s
  {
    var w := Window(s, offset, limit);
    var start := if offset > 0 then Min(offset, |s|) else 0;
    assert w == s[start..start + |w|];
    forall x | x in w ensures x in s {
      var i :| 0 <= i < |w| && w[i] == x;
      assert s[start + i] == x;
    }
  }

  /** Page k starts where page k - 1 ends. */
  lemma OffsetStep(k: nat, limit: int)
    requires k > 0 && limit >= 1
    ensures Offset(k, limit) >= 0
    ensures Offset(k, limit) + limit == k * limit
  {
  }

  /** With a positive limit, the pages are disjoint consecutive windows:
      pages 1 to k together are exactly the first k * limit rows. */
  lemma {:induction false} PagesTile<T>(s: seq<T>, limit: int, k: nat)
    requires limit >= 1
    ensures Pages(s, limit, k) == s[..Min(k * limit, |s|)]
  {
    if k > 0 {
      PagesTile(s, limit, k - 1);
      OffsetStep(k, limit);
      var a := Offset(k, limit);
      assert a == (k - 1) * limit;
      WindowBetween(s, a, limit);
      var b := Min(a + limit, |s|);
      assert Pages(s, limit, k) == s[..Min(a, |s|)] + s[Min(a, |s|)..b];
      assert s[..Min(a, |s|)] + s[Min(a, |s|)..b] == s[..b];
    }
  }

  /** Element `i` of page `page` is element `(page - 1) * limit + i` of the
      ordered result. */
  lemma PageElement<T>(s: seq<T>, page: int, limit: int, i: int)
    requires page >= 1 && limit >= 1
    requires 0 <= i < |Window(s, Offset(page, limit), limit)|
    ensures Offset(page, limit) + i < |s|
    ensures Window(s, Offset(page, limit), limit)[i] == s[Offset(page, limit) + i]
  {
    OffsetStep(page, limit);
    WindowBetween(s, Offset(page, limit), limit);
  }

  /** A page that starts at or past the end of the result is empty. */
  lemma PageBeyondEndIsEmpty<T>(s: seq<T>, page: int, limit: int)
    requires Offset(page, limit) >= |s|
    ensures Window(s, Offset(page, limit), limit) == []
  {
  }

  /** Go's `int` is 64 bits wide: arithmetic wraps modulo 2^64. */
  const TwoTo64: int := 0x1_0000_0000_0000_0000

  function WrapInt64(x: int): (w: int)
    ensures MinInt64 <= w <= MaxInt64
    ensures (x - w) % TwoTo64 == 0
  {
    var m := x % TwoTo64;
    if m > MaxInt64 then m - TwoTo64 else m
  }

  /** The offset as the source computes it, in 64-bit `int` arithmetic. */
  function OffsetAsWritten(page: int, limit: int): (offset: int)
    ensures MinInt64 <= offset <= MaxInt64
    ensures MinInt64 <= Offset(page, limit) <= MaxInt64 ==> offset == Offset(page, limit)
  {
    WrapInt64((page - 1) * limit)
  }

  /** Page 2^62 + 1 of 4 rows, both within Go's `int`: the offset wraps to 0
      and the query returns the first page, where the unbounded offset is past
      the end of any table of fewer than 2^64 rows and gives nothing. */
  lemma OffsetOverflowReturnsFirstPage<T>(s: seq<T>)
    requires 0 < |s| < TwoTo64
    ensures var page := 0x4000_0000_0000_0001;
            && MinInt64 <= page <= MaxInt64
            && OffsetAsWritten(page, 4) == 0
            && Window(s, OffsetAsWritten(page, 4), 4) == Window(s, Offset(1, 4), 4)
            && Window(s, Offset(1, 4), 4) != []
            && Window(s, Offset(page, 4), 4) == []
  {
    var page := 0x4000_0000_0000_0001;
    assert (page - 1) * 4 == TwoTo64;
  }

  // ---------------------------------------------------------------------------
  // The table

  function PreloadAll(s: seq<Advertisement>, users: map<nat, User>): (r: seq<Advertisement>)
    ensures |r| == |s| && forall i :: 0 <= i < |s| ==> r[i] == Preload(s[i], users)
  {
    seq(|s|, i requires 0 <= i < |s| => Preload(s[i], users))
  }

  lemma PreloadKeepsOrder(s: seq<Advertisement>, users: map<nat, User>, o: Ordering)
    requires Sorted(s, o)
    ensures Sorted(PreloadAll(s, users), o)
  {
    var r := PreloadAll(s, users);
    forall i, j | 0 <= i < j < |r| ensures InOrder(r[i], r[j], o) {
      assert InOrder(s[i], s[j], o);
    }
  }

  class AdTable {
    var rows: seq<Advertisement>
    var nextId: nat
    /** A database failure: when set, every statement returns it. */
    var fault: Option<string>

    /** Rows never carry `isOwner`, and ids are positive, increasing and
        below the next id to hand out. */
    ghost predicate Valid()
      reads this
    {
      && nextId >= 1
      && (forall i :: 0 <= i < |rows| ==> !rows[i].isOwner && 1 <= rows[i].id < nextId)
      && (forall i, j :: 0 <= i < j < |rows| ==> rows[i].id < rows[j].id)
    }

    constructor (fault: Option<string>)
      ensures Valid() && rows == [] && this.fault == fault
    {
      rows := [];
      nextId := 1;
      this.fault := fault;
    }

    /** Inserts `ad` at instant `now`: it gets the next id and its creation
        time, its row is appended, and the rows already there are unchanged. */
    method Create(ad: Advertisement, now: int) returns (r: Result<Advertisement>)
      requires Valid()
      modifies this
      ensures Valid() && fault == old(fault)
      ensures old(fault).Some? ==> r == Err(old(fault).value) && rows == old(rows) && nextId == old(nextId)
      ensures old(fault).None? ==>
                && r == Ok(ad.(id := old(nextId), createdAt := now))
                && rows == old(rows) + [Persisted(r.value)]
                && nextId == old(nextId) + 1
    {
      if fault.Some? {
        return Err(fault.value);
      }
      var created := ad.(id := nextId, createdAt := now);
      rows := rows + [Persisted(created)];
      nextId := nextId + 1;
      return Ok(created);
    }

    /** The listing query: owners preloaded from `users`, rows in the active
        price bounds, ordered by the clause built from `sortBy` and `order`,
        page `page` of `limit` rows. The page starts at the true offset;
        `OffsetAsWritten` is the source's 64-bit product, which can wrap. */
    function GetAll(users: map<nat, User>, page: int, limit: int, sortBy: string, order: string,
                    minPrice: real, maxPrice: real): (r: Result<seq<Advertisement>>)
      reads this
      ensures fault.Some? ==> r == Err(fault.value)
      ensures fault.None? && Interpret(OrderClause(sortBy, order)).None? ==> r == Err(ErrOrderClause)
      ensures fault.None? && Interpret(OrderClause(sortBy, order)).Some? ==> r.Ok?
      ensures r.Ok? ==>
                var o := Interpret(OrderClause(sortBy, order)).value;
                && r.value == PreloadAll(Window(Listing(rows, minPrice, maxPrice, o), Offset(page, limit), limit), users)
                && Sorted(r.value, o)
                && (limit >= 0 ==> |r.value| <= limit)
                && (forall i :: 0 <= i < |r.value| ==>
                      && InPriceRange(r.value[i], minPrice, maxPrice)
                      && (r.value[i].userId in users ==> r.value[i].user == users[r.value[i].userId])
                      && FromTable(r.value[i], rows, users))
      ensures r.Ok? && Valid() ==> DistinctIds(r.value)
    {
      if fault.Some? then Err(fault.value)
      else match Interpret(OrderClause(sortBy, order))
        case None => Err(ErrOrderClause)
        case Some(o) =>
          ResultFacts(rows, users, page, limit, minPrice, maxPrice, o);
          assert Valid() ==> DistinctIds(PreloadAll(Window(Listing(rows, minPrice, maxPrice, o), Offset(page, limit), limit), users)) by {
            if Valid() {
              PageDistinct(rows, users, page, limit, minPrice, maxPrice, o);
            }
          }
          Ok(PreloadAll(Window(Listing(rows, minPrice, maxPrice, o), Offset(page, limit), limit), users))
    }
  }

  /** `ad` is a row of the table with its owner preloaded. */
  ghost predicate FromTable(ad: Advertisement, rows: seq<Advertisement>, users: map<nat, User>) {
    exists j :: 0 <= j < |rows| && ad == Preload(rows[j], users)
  }

  lemma ResultFacts(rows: seq<Advertisement>, users: map<nat, User>, page: int, limit: int,
                    minPrice: real, maxPrice: real, o: Ordering)
    ensures var r := PreloadAll(Window(Listing(rows, minPrice, maxPrice, o), Offset(page, limit), limit), users);
            && Sorted(r, o)
            && (limit >= 0 ==> |r| <= limit)
            && (forall i :: 0 <= i < |r| ==>
                  && InPriceRange(r[i], minPrice, maxPrice)
                  && (r[i].userId in users ==> r[i].user == users[r[i].userId])
                  && FromTable(r[i], rows, users))
  {
    var listed := Listing(rows, minPrice, maxPrice, o);
    var w := Window(listed, Offset(page, limit), limit);
    var r := PreloadAll(w, users);
    WindowSorted(listed, Offset(page, limit), limit, o);
    PreloadKeepsOrder(w, users, o);
    WindowWithin(listed, Offset(page, limit), limit);
    forall i | 0 <= i < |r|
      ensures InPriceRange(r[i], minPrice, maxPrice) && FromTable(r[i], rows, users)
    {
      assert w[i] in listed;
      var j :| 0 <= j < |rows| && rows[j] == w[i];
      assert r[i] == Preload(rows[j], users);
    }
  }

  /** A window of a sequence with distinct ids has distinct ids. */
  lemma WindowDistinct(s: seq<Advertisement>, offset: int, limit: int)
    requires DistinctIds(s)
    ensures DistinctIds(Window(s, offset, limit))
  {
    var w := Window(s, offset, limit);
    var start := if offset > 0 then Min(offset, |s|) else 0;
    assert w == s[start..start + |w|];
    forall i, j | 0 <= i < j < |w| ensures w[i].id != w[j].id {
      assert w[i] == s[start + i] && w[j] == s[start + j];
    }
  }

  /** A page of a table whose ids are distinct lists no row twice. */
  lemma PageDistinct(rows: seq<Advertisement>, users: map<nat, User>, page: int, limit: int,
                     minPrice: real, maxPrice: real, o: Ordering)
    requires DistinctIds(rows)
    ensures DistinctIds(PreloadAll(Window(Listing(rows, minPrice, maxPrice, o), Offset(page, limit), limit), users))
  {
    var listed := Listing(rows, minPrice, maxPrice, o);
    ListingDistinct(rows, minPrice, maxPrice, o);
    var w := Window(listed, Offset(page, limit), limit);
    WindowDistinct(listed, Offset(page, limit), limit);
    var r := PreloadAll(w, users);
    forall i, j | 0 <= i < j < |r| ensures r[i].id != r[j].id {
      assert r[i].id == w[i].id && r[j].id == w[j].id;
    }
  }
}
