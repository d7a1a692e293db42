/** `BaseService.paginate` and the `WHERE` part of every paginated read:
    `findAndCount({ where, order, skip: (page - 1) * pageSize, take: pageSize })`
    answers one window of the matching rows in order, and their total. */
module Paging {
  import opened Common

  /** `PaginateInfo<T>` */
  datatype Page<T> = Page(data: seq<T>, total: nat, page: int, pageSize: int)

  /** The rows that satisfy `keep`, in their table order (the `WHERE` clause). */
  function Select<T>(s: seq<T>, keep: T -> bool): (r: seq<T>)
    ensures |r| <= |s|
    ensures forall i :: 0 <= i < |r| ==> r[i] in s && keep(r[i])
    ensures forall i :: 0 <= i < |s| && keep(s[i]) ==> s[i] in r
  {
    if s == [] then []
    else
      assert s == [s[0]] + s[1..];
      if keep(s[0]) then [s[0]] + Select(s[1..], keep) else Select(s[1..], keep)
  }

  /** `Select` keeps the relative order of the rows it keeps: whatever holds of
      every ordered pair of the input holds of every ordered pair of the output. */
  lemma {:induction false} SelectKeepsOrder<T>(s: seq<T>, keep: T -> bool, before: (T, T) -> bool)
    requires forall i, j :: 0 <= i < j < |s| ==> before(s[i], s[j])
    ensures forall i, j :: 0 <= i < j < |Select(s, keep)| ==> before(Select(s, keep)[i], Select(s, keep)[j])
  {
    if s != [] {
      var tail := s[1..];
      assert forall i, j :: 0 <= i < j < |tail| ==> before(tail[i], tail[j]) by {
        forall i, j | 0 <= i < j < |tail| ensures before(tail[i], tail[j]) {
          assert tail[i] == s[i + 1] && tail[j] == s[j + 1];
        }
      }
      SelectKeepsOrder(tail, keep, before);
      var rest := Select(tail, keep);
      if keep(s[0]) {
        HeadBeforeSelected(s, keep, before);
        ConsKeepsOrder(s[0], rest, before);
        assert [s[0]] + rest == Select(s, keep);
      } else {
        assert rest == Select(s, keep);
      }
    }
  }

  /** The first row comes before every row kept from the rest. */
  lemma HeadBeforeSelected<T>(s: seq<T>, keep: T -> bool, before: (T, T) -> bool)
    requires s != []
    requires forall i, j :: 0 <= i < j < |s| ==> before(s[i], s[j])
    ensures forall j :: 0 <= j < |Select(s[1..], keep)| ==> before(s[0], Select(s[1..], keep)[j])
  {
    var rest := Select(s[1..], keep);
    forall j | 0 <= j < |rest| ensures before(s[0], rest[j]) {
      assert rest[j] in s[1..];
      var m :| 0 <= m < |s[1..]| && s[1..][m] == rest[j];
      assert s[1..][m] == s[m + 1];
    }
  }

  /** Putting a row in front of ordered rows it precedes keeps them ordered. */
  lemma ConsKeepsOrder<T>(x: T, rest: seq<T>, before: (T, T) -> bool)
    requires forall i, j :: 0 <= i < j < |rest| ==> before(rest[i], rest[j])
    requires forall j :: 0 <= j < |rest| ==> before(x, rest[j])
    ensures forall i, j :: 0 <= i < j < |[x] + rest| ==> before(([x] + rest)[i], ([x] + rest)[j])
  {
    var r := [x] + rest;
    forall i, j | 0 <= i < j < |r| ensures before(r[i], r[j]) {
      if i == 0 {
        assert r[j] == rest[j - 1];
      } else {
        assert r[i] == rest[i - 1] && r[j] == rest[j - 1];
      }
    }
  }

  /** The position of the window: `skip` rows are passed over, at most `take`
      are returned. A skip below zero starts at the first row and a take below
      one returns nothing. */
  function Window(n: nat, skip: int, take: int): (lohi: (nat, nat))
    ensures lohi.0 <= lohi.1 <= n
    ensures lohi.1 - lohi.0 <= (if take < 0 then 0 else take)
  {
    var lo := if skip < 0 then 0 else if skip > n then n else skip;
    var hi := if take <= 0 then lo else if lo + take > n then n else lo + take;
    (lo, hi)
  }

  /** The number of rows a page passes over, `(page - 1) * pageSize`, unfolded
      one page at a time so that each step is an addition. */
  function Skip(page: int, pageSize: int): (skip: int)
    ensures page >= 1 && pageSize >= 0 ==> skip >= 0
    decreases if page >= 1 then page else 2 - page
  {
    if page == 1 then 0
    else if page > 1 then Skip(page - 1, pageSize) + pageSize
    else Skip(page + 1, pageSize) - pageSize
  }

  /** The offset is the product the source computes. */
  lemma {:induction false} SkipProduct(page: int, pageSize: int)
    ensures Skip(page, pageSize) == (page - 1) * pageSize
    decreases if page >= 1 then page else 2 - page
  {
    if page > 1 {
      SkipProduct(page - 1, pageSize);
    } else if page < 1 {
      SkipProduct(page + 1, pageSize);
    }
  }

  /** A window at a non-negative offset starts at that offset and holds the
      rows up to `take` of them. */
  lemma WindowAt<T>(ordered: seq<T>, skip: int, take: int)
    requires skip >= 0 && take >= 0
    ensures var w := Window(|ordered|, skip, take);
      && w.1 - w.0 == (if skip >= |ordered| then 0 else if skip + take <= |ordered| then take else |ordered| - skip)
      && (skip < |ordered| ==> ordered[w.0..w.1] == ordered[skip..skip + (w.1 - w.0)])
  {
  }

  /** `BaseService.paginate` over the rows that match, already in order. */
  function Paginate<T>(ordered: seq<T>, page: Option<int>, pageSize: Option<int>): (r: Page<T>)
    ensures r.total == |ordered|
    ensures r.page == page.GetOr(1) && r.pageSize == pageSize.GetOr(10)
    ensures |r.data| <= (if r.pageSize < 0 then 0 else r.pageSize)
    ensures r.page >= 1 && r.pageSize >= 0 ==>
      var skip := Skip(r.page, r.pageSize);
      && |r.data| == (if skip >= |ordered| then 0 else if skip + r.pageSize <= |ordered| then r.pageSize else |ordered| - skip)
      && (skip < |ordered| ==> r.data == ordered[skip..skip + |r.data|])
  {
    var p := page.GetOr(1);
    var s := pageSize.GetOr(10);
    var skip := Skip(p, s);
    var w := Window(|ordered|, skip, s);
    var r := Page(ordered[w.0..w.1], |ordered|, p, s);
    if p >= 1 && s >= 0 then
      WindowAt(ordered, skip, s);
      r
    else
      r
  }

  /** Whatever the page and page size, the data is one contiguous run of the
      ordered rows. */
  lemma PageIsSlice<T>(ordered: seq<T>, page: Option<int>, pageSize: Option<int>) returns (lo: nat)
    ensures lo + |Paginate(ordered, page, pageSize).data| <= |ordered|
    ensures Paginate(ordered, page, pageSize).data == ordered[lo..lo + |Paginate(ordered, page, pageSize).data|]
  {
    var p := page.GetOr(1);
    var s := pageSize.GetOr(10);
    var w := Window(|ordered|, Skip(p, s), s);
    lo := w.0;
  }

  /** A page holds only rows of its input. */
  lemma PageMembers<T>(ordered: seq<T>, page: Option<int>, pageSize: Option<int>)
    ensures forall i :: 0 <= i < |Paginate(ordered, page, pageSize).data| ==> Paginate(ordered, page, pageSize).data[i] in ordered
  {
    var lo := PageIsSlice(ordered, page, pageSize);
    var data := Paginate(ordered, page, pageSize).data;
    forall i | 0 <= i < |data| ensures data[i] in ordered {
      assert data[i] == ordered[lo + i];
    }
  }

  /** Every row shows up on exactly one page: with page size `s` the row at
      position `i` is the `(i % s)`-th entry of page `i / s + 1`. */
  lemma RowOnPage<T>(ordered: seq<T>, s: int, i: nat)
    requires s >= 1 && i < |ordered|
    ensures var r := Paginate(ordered, Some(i / s + 1), Some(s));
      i % s < |r.data| && r.data[i % s] == ordered[i]
  {
    PageOfRow(s, i);
    RowInWindow(ordered, i / s + 1, s, i % s, i);
  }

  /** A row `m` places past the offset of page `p` is entry `m` of that page. */
  lemma RowInWindow<T>(ordered: seq<T>, p: int, s: int, m: int, i: nat)
    requires p >= 1 && s >= 1 && 0 <= m < s && i < |ordered| && Skip(p, s) == i - m
    ensures var r := Paginate(ordered, Some(p), Some(s));
      m < |r.data| && r.data[m] == ordered[i]
  {
  }

  /** The page holding row `i` starts `i % s` rows before it. */
  lemma PageOfRow(s: int, i: nat)
    requires s >= 1
    ensures Skip(i / s + 1, s) == i - i % s && 0 <= i % s < s
  {
    SkipProduct(i / s + 1, s);
  }

  /** Page 2 of 15 rows with 10 rows a page holds the last 5 rows. */
  lemma SecondPageOfFifteen(ordered: seq<int>)
    requires |ordered| == 15
    ensures Paginate(ordered, Some(2), None).data == ordered[10..]
  {
  }
}
