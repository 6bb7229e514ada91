/**
 * What the product gateway promises across calls: lookups after writes, the
 * primary-key invariant, and the paging behaviour its tests exercise.
 */
module ProductDBProperties {
  import opened Wrappers
  import opened GoInt
  import opened ProductEntity
  import opened CreationOrder
  import opened Database
  import opened ProductDB

  /** A product just created is found under its id with its own fields. */
  lemma CreateThenFind(s: Store, p: Product, fault: bool)
    requires Create(s, p, fault).Success?
    ensures FindByID(Create(s, p, fault).value, p.id) == Success(p)
  {
  }

  /** Ids stay unique under every successful write of the gateway. */
  lemma {:induction false} WithoutKeepsUniqueIds(s: Store, id: Id)
    requires UniqueIds(s)
    ensures UniqueIds(Without(s, id))
  {
    if s != [] {
      WithoutKeepsUniqueIds(s[1..], id);
      if s[0].id != id {
        var rest := Without(s[1..], id);
        forall k | 0 <= k < |rest|
          ensures rest[k].id != s[0].id
        {
          assert rest[k] in s[1..];
          var m :| 0 <= m < |s[1..]| && s[1..][m] == rest[k];
          assert s[m + 1] == rest[k];
        }
      }
    }
  }

  lemma UpdateKeepsUniqueIds(s: Store, p: Product, fault: bool)
    requires UniqueIds(s) && Update(s, p, fault).Success?
    ensures UniqueIds(Update(s, p, fault).value)
  {
    var s' := Update(s, p, fault).value;
    forall i, j | 0 <= i < j < |s'|
      ensures s'[i].id != s'[j].id
    {
      assert s'[i].id == s[i].id && s'[j].id == s[j].id;
    }
  }

  lemma DeleteKeepsUniqueIds(s: Store, id: Id, fault: bool)
    requires UniqueIds(s) && Delete(s, id, fault).Success?
    ensures UniqueIds(Delete(s, id, fault).value)
  {
    WithoutKeepsUniqueIds(s, id);
  }

  /** After an update the new record is what the id finds; every other id finds what it found before. */
  lemma UpdateThenFind(s: Store, p: Product, fault: bool, other: Id)
    requires UniqueIds(s) && Update(s, p, fault).Success?
    ensures FindByID(Update(s, p, fault).value, p.id) == Success(p)
    ensures other != p.id ==> FindByID(Update(s, p, fault).value, other) == FindByID(s, other)
  {
    var s' := Update(s, p, fault).value;
    UpdateKeepsUniqueIds(s, p, fault);
    var i := IndexOf(s, p.id).value;
    assert s'[i] == p;
    if other != p.id {
      if Stored(s, other) {
        var k := IndexOf(s, other).value;
        assert s'[k] == s[k];
      }
    }
  }

  /** After a delete the id is gone; every other id finds what it found before. */
  lemma DeleteThenFind(s: Store, id: Id, fault: bool, other: Id)
    requires UniqueIds(s) && Delete(s, id, fault).Success?
    ensures FindByID(Delete(s, id, fault).value, id) == Failure(RecordNotFound)
    ensures other != id ==> FindByID(Delete(s, id, fault).value, other) == FindByID(s, other)
  {
    var s' := Delete(s, id, fault).value;
    DeleteKeepsUniqueIds(s, id, fault);
    if other != id {
      if Stored(s, other) {
        var k := IndexOf(s, other).value;
        assert s[k] in s';
        var m :| 0 <= m < |s'| && s'[m] == s[k];
      }
    }
  }

  /**
   * Deleting by id removes exactly the row the probe found: under the
   * primary-key constraint the statement's "every row with this id" is that
   * one row, and the others keep their order.
   */
  lemma {:induction false} DeleteRemovesFoundRow(s: Store, id: Id, fault: bool)
    requires UniqueIds(s) && Delete(s, id, fault).Success?
    ensures var i := IndexOf(s, id).value;
      Delete(s, id, fault).value == s[..i] + s[i + 1..]
    ensures |Delete(s, id, fault).value| == |s| - 1
  {
    var i := IndexOf(s, id).value;
    WithoutOneRow(s, id, i);
  }

  lemma {:induction false} WithoutOneRow(s: Store, id: Id, i: nat)
    requires UniqueIds(s) && i < |s| && s[i].id == id
    ensures Without(s, id) == s[..i] + s[i + 1..]
  {
    if i == 0 {
      WithoutAbsent(s[1..], id);
      assert s[..0] + s[1..] == s[1..];
    } else {
      assert UniqueIds(s[1..]);
      WithoutOneRow(s[1..], id, i - 1);
      assert s[0].id != id;
      assert [s[0]] + (s[1..][..i - 1] + s[1..][i..]) == s[..i] + s[i + 1..];
    }
  }

  lemma {:induction false} WithoutAbsent(s: Store, id: Id)
    requires forall k :: 0 <= k < |s| ==> s[k].id != id
    ensures Without(s, id) == s
  {
    if s != [] {
      WithoutAbsent(s[1..], id);
      assert [s[0]] + s[1..] == s;
    }
  }

  /** `Save` on its own would insert a missing row; `Update`'s probe is what stops that. */
  lemma UpdateIsNotAnUpsert(s: Store, p: Product)
    requires !Stored(s, p.id)
    ensures Save(s, p, false) == Success(s + [p])
    ensures Update(s, p, false) == Failure(RecordNotFound)
  {
  }

  /** Normalisation is idempotent and reverses only for "desc". */
  lemma NormalizeSortIsIdempotent(sort: string)
    ensures NormalizeSort(NormalizeSort(sort)) == NormalizeSort(sort)
    ensures NormalizeSort(sort) == "desc" <==> sort == "desc"
  {
  }

  /** Without both page and limit the listing is every stored product, each exactly as often as stored. */
  lemma FindAllWithoutPaging(s: Store, page: Int64, limit: Int64, sort: string)
    requires page == 0 || limit == 0
    ensures FindAll(s, page, limit, sort, false).Success?
    ensures multiset(FindAll(s, page, limit, sort, false).value) == multiset(s)
    ensures |FindAll(s, page, limit, sort, false).value| == |s|
  {
  }

  /**
   * A positive page and limit, with `(page - 1) * limit` in range, give the
   * at most `limit` products starting at that offset of the ordered table.
   */
  lemma FindAllPage(s: Store, page: Int64, limit: Int64, sort: string)
    requires page >= 1 && limit >= 1 && (page - 1) * limit <= MaxInt64
    ensures var r := FindAll(s, page, limit, sort, false).value;
      var ordered := InCreationOrder(s, NormalizeSort(sort));
      && |r| == Min(limit, Max(0, |s| - (page - 1) * limit))
      && forall i :: 0 <= i < |r| ==> r[i] == ordered[(page - 1) * limit + i]
  {
    var offset := (page - 1) * limit;
    assert 0 <= offset by {
      assert 0 <= page - 1 && 0 <= limit;
    }
    assert PageOffset(page, limit) == offset;
    assert Max(PageOffset(page, limit), 0) == offset;
  }

  /** A negative page with a positive limit shows the first page: the negative offset is dropped. */
  lemma NegativePageIsFirstPage(s: Store, page: Int64, limit: Int64, sort: string)
    requires page < 0 && limit >= 1 && (page - 1) * limit >= MinInt64
    ensures FindAll(s, page, limit, sort, false) == FindAll(s, 1, limit, sort, false)
  {
    assert (page - 1) * limit < 0;
    assert PageOffset(page, limit) < 0;
    assert PageOffset(1, limit) == 0;
  }

  /** The offset wraps in 64 bits: page 2^32 + 1 of size 2^32 is shown as the first page. */
  lemma HugePageWrapsToFirstPage(s: Store, sort: string)
    ensures FindAll(s, 0x1_0000_0001, 0x1_0000_0000, sort, false)
         == FindAll(s, 1, 0x1_0000_0000, sort, false)
  {
    assert (0x1_0000_0001 - 1) * 0x1_0000_0000 == TwoTo64;
    assert PageOffset(0x1_0000_0001, 0x1_0000_0000) == 0;
  }

  /** A table filled in creation order lists its rows as stored (asc) or reversed (desc). */
  lemma InCreationOrderOfSortedTable(s: Store)
    requires Ascending(s)
    ensures InCreationOrder(s, "asc") == s
    ensures InCreationOrder(s, "") == s
    ensures InCreationOrder(s, "desc") == Reverse(s)
  {
    SortAscendingKeepsSorted(s);
  }

  /** A listing that agrees with a run of the ordered rows, element by element, is that run. */
  lemma PageIsSlice(r: seq<Product>, ordered: seq<Product>, offset: nat, len: nat)
    requires |r| == len && offset + len <= |ordered|
    requires forall i :: 0 <= i < len ==> r[i] == ordered[offset + i]
    ensures r == ordered[offset..offset + len]
  {
  }

  /**
   * The listing test: 23 products created one after another, pages of 10.
   * Ascending pages 1 and 2 are products 1..10 and 11..20 (`s[k]` is product k + 1).
   */
  lemma TwentyThreeProductsAscending(s: Store)
    requires |s| == 23
    requires forall i, j :: 0 <= i < j < |s| ==> s[i].createdAt < s[j].createdAt
    ensures FindAll(s, 1, 10, "asc", false) == Success(s[0..10])
    ensures FindAll(s, 2, 10, "asc", false) == Success(s[10..20])
  {
    assert Ascending(s);
    AscendingPage(s, 1, 0);
    AscendingPage(s, 2, 10);
  }

  /** Page `page` of 10 of an ascending table of 23, starting at row `offset`. */
  lemma AscendingPage(s: Store, page: Int64, offset: nat)
    requires |s| == 23 && Ascending(s)
    requires 1 <= page <= 2 && offset == (page - 1) * 10
    ensures FindAll(s, page, 10, "asc", false) == Success(s[offset..offset + 10])
  {
    InCreationOrderOfSortedTable(s);
    assert InCreationOrder(s, NormalizeSort("asc")) == s;
    FindAllPage(s, page, 10, "asc");
    PageIsSlice(FindAll(s, page, 10, "asc", false).value, s, offset, 10);
  }

  /** The same 23 products in descending order: pages 1 and 2 are products 23..14 and 13..4. */
  lemma TwentyThreeProductsDescending(s: Store)
    requires |s| == 23
    requires forall i, j :: 0 <= i < j < |s| ==> s[i].createdAt < s[j].createdAt
    ensures var r := FindAll(s, 1, 10, "desc", false).value;
      |r| == 10 && forall i :: 0 <= i < 10 ==> r[i] == s[22 - i]
    ensures var r := FindAll(s, 2, 10, "desc", false).value;
      |r| == 10 && forall i :: 0 <= i < 10 ==> r[i] == s[12 - i]
  {
    assert Ascending(s);
    FirstDescendingPage(s);
    SecondDescendingPage(s);
  }

  lemma FirstDescendingPage(s: Store)
    requires |s| == 23 && Ascending(s)
    ensures var r := FindAll(s, 1, 10, "desc", false).value;
      |r| == 10 && forall i :: 0 <= i < 10 ==> r[i] == s[22 - i]
  {
    InCreationOrderOfSortedTable(s);
    var reversed := Reverse(s);
    assert InCreationOrder(s, NormalizeSort("desc")) == reversed;
    FindAllPage(s, 1, 10, "desc");
    var r := FindAll(s, 1, 10, "desc", false).value;
    forall i | 0 <= i < 10
      ensures r[i] == s[22 - i]
    {
      assert r[i] == reversed[i];
    }
  }

  lemma SecondDescendingPage(s: Store)
    requires |s| == 23 && Ascending(s)
    ensures var r := FindAll(s, 2, 10, "desc", false).value;
      |r| == 10 && forall i :: 0 <= i < 10 ==> r[i] == s[12 - i]
  {
    InCreationOrderOfSortedTable(s);
    var reversed := Reverse(s);
    assert InCreationOrder(s, NormalizeSort("desc")) == reversed;
    FindAllPage(s, 2, 10, "desc");
    var r := FindAll(s, 2, 10, "desc", false).value;
    forall i | 0 <= i < 10
      ensures r[i] == s[12 - i]
    {
      assert r[i] == reversed[10 + i];
    }
  }

  /** Creating a product later than every stored one keeps the table in creation order. */
  lemma CreateLaterKeepsOrder(s: Store, p: Product, fault: bool)
    requires Ascending(s) && Create(s, p, fault).Success?
    requires forall k :: 0 <= k < |s| ==> s[k].createdAt < p.createdAt
    ensures Ascending(Create(s, p, fault).value)
  {
  }

  /**
   * `Update` writes `createdAt` too, so an update can move a product in the
   * listing: giving the newer of two products an older timestamp puts it first.
   */
  lemma UpdateCanReorder(a: Product, b: Product, b': Product)
    requires a == Product("a", "A", 1.0, 10)
    requires b == Product("b", "B", 1.0, 20)
    requires b' == Product("b", "B", 1.0, 5)
    ensures FindAll([a, b], 0, 0, "asc", false) == Success([a, b])
    ensures Update([a, b], b', false) == Success([a, b'])
    ensures FindAll([a, b'], 0, 0, "asc", false) == Success([b', a])
  {
    ListedBefore(a, b);
    UpdateSecondRow(a, b, b');
    ListedAfter(a, b');
  }

  lemma ListedBefore(a: Product, b: Product)
    requires a.createdAt < b.createdAt
    ensures FindAll([a, b], 0, 0, "asc", false) == Success([a, b])
  {
    assert Ascending([a, b]);
    InCreationOrderOfSortedTable([a, b]);
  }

  lemma UpdateSecondRow(a: Product, b: Product, b': Product)
    requires a.id != b.id && b.id == b'.id
    ensures Update([a, b], b', false) == Success([a, b'])
  {
    assert [a, b][1].id == b'.id;
    var r := Update([a, b], b', false).value;
    assert r[0] == a && r[1] == b';
    assert r == [a, b'];
  }

  lemma ListedAfter(a: Product, b': Product)
    requires b'.createdAt < a.createdAt
    ensures FindAll([a, b'], 0, 0, "asc", false) == Success([b', a])
  {
    assert NormalizeSort("asc") == "asc";
    assert InCreationOrder([a, b'], "asc") == SortAscending([a, b']);
    assert [a, b'][1..] == [b'];
    assert [b'][1..] == [];
    assert SortAscending([b']) == [b'];
    assert SortAscending([a, b']) == Insert(a, [b']);
    assert Insert(a, [b']) == [b'] + Insert(a, []);
    assert Insert(a, []) == [a];
    assert [b'] + [a] == [b', a];
  }
}
