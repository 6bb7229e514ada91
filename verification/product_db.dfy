/**
 * The product gateway over an abstract table. The table is a sequence of rows
 * in insertion order; the `id` column is the primary key, so a second row
 * with the same id is refused. Reads are decided by the table alone; every
 * statement that writes, and the listing query, may also fail in the backend,
 * which the `fault` input stands for.
 */
module ProductDB {
  import opened Wrappers
  import opened GoInt
  import opened ProductEntity
  import opened CreationOrder
  import opened Database

  /** The `products` table, rows in insertion order. */
  type Store = seq<Product>

  /** The primary-key constraint: no two rows share an id. */
  predicate UniqueIds(s: Store) {
    forall i, j :: 0 <= i < j < |s| ==> s[i].id != s[j].id
  }

  predicate Stored(s: Store, id: Id) {
    exists i :: 0 <= i < |s| && s[i].id == id
  }

  function Min(a: int, b: int): int { if a <= b then a else b }
  function Max(a: int, b: int): int { if a >= b then a else b }

  /** The position of the first row with the given id. */
  function IndexOf(s: Store, id: Id): (r: Option<nat>)
    ensures r.None? <==> !Stored(s, id)
    ensures r.Some? ==> r.value < |s| && s[r.value].id == id
    ensures r.Some? ==> forall j :: 0 <= j < r.value ==> s[j].id != id
  {
    if s == [] then None
    else if s[0].id == id then Some(0)
    else
      match IndexOf(s[1..], id)
      case None =>
        assert forall j :: 0 < j < |s| ==> s[j] == s[1..][j - 1];
        None
      case Some(k) => Some(k + 1)
  }

  /** `Create`: an INSERT of one row. */
  function Create(s: Store, p: Product, fault: bool): (r: Result<Store, DbError>)
    ensures fault ==> r == Failure(BackendFailure)
    ensures !fault && Stored(s, p.id) ==> r == Failure(DuplicateKey)
    ensures r.Success? <==> !fault && !Stored(s, p.id)
    ensures r.Success? ==> |r.value| == |s| + 1 && r.value[..|s|] == s && r.value[|s|] == p
    ensures r.Success? && UniqueIds(s) ==> UniqueIds(r.value)
  {
    if fault then Failure(BackendFailure)
    else if IndexOf(s, p.id).Some? then Failure(DuplicateKey)
    else Success(s + [p])
  }

  /** `FindByID`: `First` with `id = ?`. */
  function FindByID(s: Store, id: Id): (r: Result<Product, DbError>)
    ensures r.Success? <==> Stored(s, id)
    ensures r.Failure? ==> r.error == RecordNotFound
    ensures r.Success? ==> r.value.id == id && r.value in s
    ensures UniqueIds(s) ==> forall i :: 0 <= i < |s| && s[i].id == id ==> r == Success(s[i])
  {
    match IndexOf(s, id)
    case None => Failure(RecordNotFound)
    case Some(i) => Success(s[i])
  }

  /** Every row whose id is `p.id` replaced by `p`: `UPDATE … WHERE id = p.id` with all columns. */
  function Overwrite(s: Store, p: Product): (r: Store)
    ensures |r| == |s|
    ensures forall i :: 0 <= i < |s| ==> r[i] == if s[i].id == p.id then p else s[i]
  {
    seq(|s|, i requires 0 <= i < |s| => if s[i].id == p.id then p else s[i])
  }

  /**
   * `DB.Save`: all columns of the row with `p.id` are written, `createdAt`
   * included; when no row has that id the library falls back to an insert.
   */
  function Save(s: Store, p: Product, fault: bool): (r: Result<Store, DbError>)
    ensures fault <==> r.Failure?
    ensures r.Failure? ==> r.error == BackendFailure
    ensures r.Success? && Stored(s, p.id) ==> r.value == Overwrite(s, p)
    ensures r.Success? && !Stored(s, p.id) ==> r.value == s + [p]
  {
    if fault then Failure(BackendFailure)
    else if IndexOf(s, p.id).Some? then Success(Overwrite(s, p))
    else Success(s + [p])
  }

  /** `Update`: probe by id, fail fast with the probe's error, otherwise `Save`. */
  function Update(s: Store, p: Product, fault: bool): (r: Result<Store, DbError>)
    ensures !Stored(s, p.id) ==> r == Failure(RecordNotFound)
    ensures Stored(s, p.id) ==> (r.Success? <==> !fault)
    ensures Stored(s, p.id) && fault ==> r == Failure(BackendFailure)
    ensures r.Success? ==> |r.value| == |s| && p in r.value
    ensures r.Success? ==> forall i :: 0 <= i < |s| ==> r.value[i] == if s[i].id == p.id then p else s[i]
  {
    match FindByID(s, p.id)
    case Failure(e) => Failure(e)
    case Success(_) =>
      var i := IndexOf(s, p.id).value;
      var r := Save(s, p, fault);
      assert r.Success? ==> r.value[i] == p;
      r
  }

  /** The table after `DELETE … WHERE id = ?`: every row with that id is gone, the rest keep their order. */
  function Without(s: Store, id: Id): (r: Store)
    ensures !Stored(r, id)
    ensures forall q :: q in r <==> q in s && q.id != id
    ensures |r| <= |s|
  {
    if s == [] then []
    else if s[0].id == id then Without(s[1..], id)
    else [s[0]] + Without(s[1..], id)
  }

  /** `Delete`: probe by id, fail fast with the probe's error, otherwise delete the found row. */
  function Delete(s: Store, id: Id, fault: bool): (r: Result<Store, DbError>)
    ensures !Stored(s, id) ==> r == Failure(RecordNotFound)
    ensures Stored(s, id) ==> (r.Success? <==> !fault)
    ensures Stored(s, id) && fault ==> r == Failure(BackendFailure)
    ensures r.Success? ==> !Stored(r.value, id)
    ensures r.Success? ==> forall q :: q in r.value <==> q in s && q.id != id
  {
    match FindByID(s, id)
    case Failure(e) => Failure(e)
    case Success(found) =>
      if fault then Failure(BackendFailure) else Success(Without(s, found.id))
  }

  /** The sort parameter after normalisation: anything unknown becomes "asc". */
  function NormalizeSort(sort: string): (r: string)
    ensures r == "" || r == "asc" || r == "desc"
    ensures sort == "" || sort == "asc" || sort == "desc" ==> r == sort
    ensures sort != "" && sort != "asc" && sort != "desc" ==> r == "asc"
  {
    if sort != "" && sort != "asc" && sort != "desc" then "asc" else sort
  }

  /**
   * `ORDER BY created_at <direction>` for a normalised direction: the empty
   * direction is SQL's default, ascending; only "desc" reverses.
   */
  function InCreationOrder(s: Store, direction: string): (r: seq<Product>)
    ensures |r| == |s| && multiset(r) == multiset(s)
    ensures direction == "desc" ==> Descending(r)
    ensures direction != "desc" ==> Ascending(r)
  {
    var ascending := SortAscending(s);
    if direction == "desc" then
      ReversePermutes(ascending);
      ReverseOfAscending(ascending);
      Reverse(ascending)
    else
      ascending
  }

  /**
   * `Limit(limit).Offset(offset)` as the query builder renders it: a negative
   * limit emits no LIMIT clause and a non-positive offset no OFFSET clause.
   */
  function Window(xs: seq<Product>, offset: int, limit: int): (r: seq<Product>)
    ensures limit >= 0 ==> |r| == Min(limit, Max(0, |xs| - Max(offset, 0)))
    ensures limit < 0 ==> |r| == Max(0, |xs| - Max(offset, 0))
    ensures forall i :: 0 <= i < |r| ==> Max(offset, 0) + i < |xs| && r[i] == xs[Max(offset, 0) + i]
  {
    var start := if offset > 0 then Min(offset, |xs|) else 0;
    var end := if limit >= 0 then Min(start + limit, |xs|) else |xs|;
    xs[start..end]
  }

  /** A window shows only rows of the table, in the order the table has them. */
  lemma WindowOfOrdered(xs: seq<Product>, offset: int, limit: int)
    ensures multiset(Window(xs, offset, limit)) <= multiset(xs)
    ensures Ascending(xs) ==> Ascending(Window(xs, offset, limit))
    ensures Descending(xs) ==> Descending(Window(xs, offset, limit))
  {
    var start := if offset > 0 then Min(offset, |xs|) else 0;
    var end := if limit >= 0 then Min(start + limit, |xs|) else |xs|;
    assert Window(xs, offset, limit) == xs[start..end];
    SliceOfOrdered(xs, start, end);
  }

  /** `(page - 1) * limit` in Go's 64-bit `int`. */
  function PageOffset(page: Int64, limit: Int64): (r: Int64)
    ensures MinInt64 <= (page - 1) * limit <= MaxInt64 ==> r == (page - 1) * limit
    ensures (r - (page - 1) * limit) % TwoTo64 == 0
  {
    Wrap((page - 1) * limit)
  }

  /**
   * `FindAll(page, limit, sort)`: with a non-zero page and limit, one window of
   * the ordered table starting at `(page - 1) * limit`; otherwise all of it.
   */
  function FindAll(s: Store, page: Int64, limit: Int64, sort: string, fault: bool)
    : (r: Result<seq<Product>, DbError>)
    ensures r.Failure? <==> fault
    ensures r.Failure? ==> r.error == BackendFailure
    ensures r.Success? && (page == 0 || limit == 0) ==> r.value == InCreationOrder(s, NormalizeSort(sort))
    ensures r.Success? && page != 0 && limit > 0 ==>
      var start := Max(PageOffset(page, limit), 0);
      && |r.value| == Min(limit, Max(0, |s| - start))
      && forall i :: 0 <= i < |r.value| ==> r.value[i] == InCreationOrder(s, NormalizeSort(sort))[start + i]
    ensures r.Success? && page != 0 && limit < 0 ==>
      r.value == InCreationOrder(s, NormalizeSort(sort))[Min(Max(PageOffset(page, limit), 0), |s|)..]
  {
    var ordered := InCreationOrder(s, NormalizeSort(sort));
    if fault then Failure(BackendFailure)
    else if page != 0 && limit != 0 then Success(Window(ordered, PageOffset(page, limit), limit))
    else Success(ordered)
  }

  /**
   * Whatever the paging, the listing holds only stored products, ascending by
   * creation time unless the sort is "desc", in which case descending.
   */
  lemma FindAllIsOrdered(s: Store, page: Int64, limit: Int64, sort: string)
    ensures var r := FindAll(s, page, limit, sort, false).value;
      && multiset(r) <= multiset(s)
      && (sort == "desc" ==> Descending(r))
      && (sort != "desc" ==> Ascending(r))
  {
    var direction := NormalizeSort(sort);
    assert direction == "desc" <==> sort == "desc";
    var ordered := InCreationOrder(s, direction);
    if page != 0 && limit != 0 {
      WindowOfOrdered(ordered, PageOffset(page, limit), limit);
    }
  }
}
