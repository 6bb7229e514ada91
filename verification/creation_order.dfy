/**
 * `ORDER BY created_at [ASC|DESC]` over a product table. The model fixes a
 * stable insertion sort for ascending order and its reversal for descending
 * order; the contracts promise only what SQL promises, a permutation of the
 * rows sorted by creation time.
 */
module CreationOrder {
  import opened ProductEntity

  predicate Ascending(xs: seq<Product>) {
    forall i, j :: 0 <= i < j < |xs| ==> xs[i].createdAt <= xs[j].createdAt
  }

  predicate Descending(xs: seq<Product>) {
    forall i, j :: 0 <= i < j < |xs| ==> xs[i].createdAt >= xs[j].createdAt
  }

  /** Every row in `xs` was created at or after `bound`. */
  predicate NotBefore(bound: int, xs: seq<Product>) {
    forall k :: 0 <= k < |xs| ==> bound <= xs[k].createdAt
  }

  /** Places `p` before the first row created no earlier than it. */
  function Insert(p: Product, xs: seq<Product>): (r: seq<Product>)
    ensures multiset(r) == multiset(xs) + multiset{p}
    ensures |r| == |xs| + 1
  {
    if xs == [] then [p]
    else if p.createdAt <= xs[0].createdAt then [p] + xs
    else
      assert xs == [xs[0]] + xs[1..];
      [xs[0]] + Insert(p, xs[1..])
  }

  /** A lower bound on the creation times survives insertion of a row that respects it. */
  lemma {:induction false} InsertNotBefore(bound: int, p: Product, xs: seq<Product>)
    requires NotBefore(bound, xs) && bound <= p.createdAt
    ensures NotBefore(bound, Insert(p, xs))
  {
    if xs != [] && p.createdAt > xs[0].createdAt {
      InsertNotBefore(bound, p, xs[1..]);
    }
  }

  /** Insertion keeps the rows in ascending creation order. */
  lemma {:induction false} InsertAscending(p: Product, xs: seq<Product>)
    requires Ascending(xs)
    ensures Ascending(Insert(p, xs))
  {
    if xs != [] && p.createdAt > xs[0].createdAt {
      InsertAscending(p, xs[1..]);
      assert NotBefore(xs[0].createdAt, xs[1..]);
      InsertNotBefore(xs[0].createdAt, p, xs[1..]);
      var rest := Insert(p, xs[1..]);
      assert Insert(p, xs) == [xs[0]] + rest;
    }
  }

  /** The rows in ascending creation order. */
  function SortAscending(xs: seq<Product>): (r: seq<Product>)
    ensures Ascending(r)
    ensures multiset(r) == multiset(xs)
    ensures |r| == |xs|
  {
    if xs == [] then []
    else
      assert xs == [xs[0]] + xs[1..];
      InsertAscending(xs[0], SortAscending(xs[1..]));
      Insert(xs[0], SortAscending(xs[1..]))
  }

  function Reverse(xs: seq<Product>): (r: seq<Product>)
    ensures |r| == |xs|
    ensures forall i :: 0 <= i < |xs| ==> r[i] == xs[|xs| - 1 - i]
  {
    if xs == [] then [] else Reverse(xs[1..]) + [xs[0]]
  }

  lemma {:induction false} ReversePermutes(xs: seq<Product>)
    ensures multiset(Reverse(xs)) == multiset(xs)
  {
    if xs != [] {
      ReversePermutes(xs[1..]);
      assert xs == [xs[0]] + xs[1..];
    }
  }

  lemma ReverseOfAscending(xs: seq<Product>)
    requires Ascending(xs)
    ensures Descending(Reverse(xs))
  {
  }

  /** Sorting rows that are already in creation order leaves them where they are. */
  lemma {:induction false} SortAscendingKeepsSorted(xs: seq<Product>)
    requires Ascending(xs)
    ensures SortAscending(xs) == xs
  {
    if xs != [] {
      SortAscendingKeepsSorted(xs[1..]);
      assert xs == [xs[0]] + xs[1..];
    }
  }

  /** A contiguous run of rows holds only rows of the table and keeps their order. */
  lemma SliceOfOrdered(xs: seq<Product>, start: int, end: int)
    requires 0 <= start <= end <= |xs|
    ensures multiset(xs[start..end]) <= multiset(xs)
    ensures Ascending(xs) ==> Ascending(xs[start..end])
    ensures Descending(xs) ==> Descending(xs[start..end])
  {
    assert xs == xs[..start] + xs[start..end] + xs[end..];
  }
}
