/** `DashboardService`: the figures behind the dashboard charts, computed over
    the product table. The month series scans soft-deleted products too and
    asks which products were alive at the end of each month; the other figures
    count live products by group, asset type and asset flow, and linked
    products by partner. */
module Dashboard {
  import opened Common
  import opened Tables
  import opened Products

  // ---------------------------------------------------------------------
  // Products alive at a time

  /** Created by `t`, and not deleted or deleted after `t`. */
  predicate AliveAt(p: ProductRow, t: int) {
    p.extra.createdAt <= t && (p.deletedAt.None? || p.deletedAt.value > t)
  }

  /** The number of products alive at `t`, soft-deleted rows included in the
      scan (`withDeleted()`). */
  function AliveCount(products: seq<ProductRow>, t: int): (n: nat)
    ensures n <= |products|
    ensures n == 0 <==> forall i :: 0 <= i < |products| ==> !AliveAt(products[i], t)
  {
    if products == [] then 0
    else
      var rest := AliveCount(products[1..], t);
      assert forall i :: 1 <= i < |products| ==> products[i] == products[1..][i - 1];
      (if AliveAt(products[0], t) then 1 else 0) + rest
  }

  /** Two tables that agree, row by row, on who is alive at `t` count the
      same at `t`. */
  lemma {:induction false} AliveCountSame(a: seq<ProductRow>, b: seq<ProductRow>, t: int)
    requires |a| == |b| && forall i :: 0 <= i < |a| ==> (AliveAt(a[i], t) <==> AliveAt(b[i], t))
    ensures AliveCount(a, t) == AliveCount(b, t)
  {
    if a != [] {
      assert forall i :: 0 <= i < |a[1..]| ==> a[1..][i] == a[i + 1] && b[1..][i] == b[i + 1];
      AliveCountSame(a[1..], b[1..], t);
    }
  }

  /** The past does not change: retiring a product now leaves the count of
      every earlier moment as it was. */
  lemma SoftDeleteKeepsHistory(products: seq<ProductRow>, k: nat, now: int, t: int)
    requires k < |products| && Live(products[k]) && t < now
    ensures AliveCount(SoftDelete(products, k, now), t) == AliveCount(products, t)
  {
    AliveCountSame(SoftDelete(products, k, now), products, t);
  }

  /** Nor does creating a product now. */
  lemma CreateKeepsHistory(products: seq<ProductRow>, p: ProductRow, now: int, t: int)
    requires p.extra.createdAt == now && t < now
    ensures AliveCount(products + [p], t) == AliveCount(products, t)
  {
    var extended := products + [p];
    if products == [] {
      assert extended[1..] == [];
    } else {
      AliveCountAppend(products, p, t);
    }
  }

  /** Counting a table with one more row at the end. */
  lemma {:induction false} AliveCountAppend(products: seq<ProductRow>, p: ProductRow, t: int)
    ensures AliveCount(products + [p], t) == AliveCount(products, t) + (if AliveAt(p, t) then 1 else 0)
  {
    if products == [] {
      assert ([] + [p])[1..] == [];
    } else {
      assert (products + [p])[1..] == products[1..] + [p];
      AliveCountAppend(products[1..], p, t);
    }
  }

  /** `getProductCountByMonth(year)` at time `now`: `ends[m - 1]` is the last
      moment of month `m` of the year. Months are listed from January for as
      long as they have ended, each with the number of products alive at its
      end. */
  method ProductCountByMonth(products: seq<ProductRow>, ends: seq<int>, now: int) returns (r: seq<(int, nat)>)
    requires |ends| == 12
    ensures |r| <= 12
    ensures forall i :: 0 <= i < |r| ==> r[i] == (i + 1, AliveCount(products, ends[i])) && ends[i] <= now
    ensures |r| < 12 ==> ends[|r|] > now
    ensures (forall i, j :: 0 <= i < j < 12 ==> ends[i] < ends[j]) ==> forall m :: |r| <= m < 12 ==> ends[m] > now
  {
    r := [];
    var month := 1;
    while month <= 12
      invariant 1 <= month <= 13 && |r| == month - 1
      invariant forall i :: 0 <= i < |r| ==> r[i] == (i + 1, AliveCount(products, ends[i])) && ends[i] <= now
      decreases 13 - month
    {
      if ends[month - 1] > now {
        break;
      }
      var count := AliveCount(products, ends[month - 1]);
      r := r + [(month, count)];
      month := month + 1;
    }
  }

  // ---------------------------------------------------------------------
  // GROUP BY

  /** How often `k` occurs in `s`. */
  function Occurrences<K(==)>(s: seq<K>, k: K): nat {
    if s == [] then 0 else (if s[0] == k then 1 else 0) + Occurrences(s[1..], k)
  }

  lemma {:induction false} OccurrencesAppend<K>(s: seq<K>, x: K, k: K)
    ensures Occurrences(s + [x], k) == Occurrences(s, k) + (if x == k then 1 else 0)
  {
    if s == [] {
      assert ([] + [x])[1..] == [];
    } else {
      assert (s + [x])[1..] == s[1..] + [x];
      OccurrencesAppend(s[1..], x, k);
    }
  }

  lemma {:induction false} OccurrencesPositive<K>(s: seq<K>, k: K)
    ensures Occurrences(s, k) > 0 <==> k in s
  {
    if s != [] {
      OccurrencesPositive(s[1..], k);
      assert k in s <==> s[0] == k || k in s[1..];
    }
  }

  /** The distinct values of `s`, in order of first appearance. */
  function DistinctKeys<K(==,!new)>(s: seq<K>): (d: seq<K>)
    ensures forall k :: k in d <==> k in s
    ensures forall i, j :: 0 <= i < j < |d| ==> d[i] != d[j]
  {
    if s == [] then []
    else
      var d := DistinctKeys(s[..|s| - 1]);
      var x := s[|s| - 1];
      assert s == s[..|s| - 1] + [x];
      if x in d then d else d + [x]
  }

  /** `SELECT key, COUNT(*) ... GROUP BY key`: one row per distinct key, with
      the number of entries that carry it. */
  function GroupCounts<K(==,!new)>(keys: seq<K>): seq<(K, nat)> {
    var d := DistinctKeys(keys);
    seq(|d|, i requires 0 <= i < |d| => (d[i], Occurrences(keys, d[i])))
  }

  /** The sum of the counts of a list of rows. */
  function Total<K>(rows: seq<(K, nat)>): nat {
    if rows == [] then 0 else rows[0].1 + Total(rows[1..])
  }

  /** Some row of a group-by has key `k`. */
  ghost predicate HasKey<K>(rows: seq<(K, nat)>, k: K) {
    exists i :: 0 <= i < |rows| && rows[i].0 == k
  }

  /** Each key occurs once in a group-by, with a positive count equal to the
      number of its entries. */
  lemma GroupCountsRows<K(!new)>(keys: seq<K>)
    ensures forall k :: HasKey(GroupCounts(keys), k) <==> k in keys
    ensures forall i, j :: 0 <= i < j < |GroupCounts(keys)| ==> GroupCounts(keys)[i].0 != GroupCounts(keys)[j].0
    ensures forall i :: 0 <= i < |GroupCounts(keys)| ==>
              GroupCounts(keys)[i].1 == Occurrences(keys, GroupCounts(keys)[i].0) > 0
    ensures GroupCounts(keys) == [] <==> keys == []
  {
    var d := DistinctKeys(keys);
    var g := GroupCounts(keys);
    if keys != [] {
      assert keys[0] in keys && keys[0] in d;
    }
    forall k | k in keys ensures HasKey(g, k) {
      var i :| 0 <= i < |d| && d[i] == k;
      assert g[i].0 == k;
    }
    forall i | 0 <= i < |g| ensures g[i].1 == Occurrences(keys, g[i].0) > 0 {
      assert d[i] in d;
      OccurrencesPositive(keys, d[i]);
    }
  }

  /** The counts of a group-by add up to the number of entries. */
  lemma {:induction false} GroupCountsTotal<K(!new)>(keys: seq<K>)
    ensures Total(GroupCounts(keys)) == |keys|
  {
    if keys != [] {
      var init := keys[..|keys| - 1];
      var x := keys[|keys| - 1];
      assert keys == init + [x];
      GroupCountsTotal(init);
      var d0 := DistinctKeys(init);
      var d := DistinctKeys(keys);
      forall k ensures Occurrences(keys, k) == Occurrences(init, k) + (if x == k then 1 else 0) {
        OccurrencesAppend(init, x, k);
      }
      TotalBump(d0, init, keys, x);
      if x !in d0 {
        OccurrencesPositive(init, x);
        TotalAppend(d0, keys);
      }
    }
  }

  /** The total over the keys `d` of the counts in `s`. */
  function KeyTotal<K(==)>(d: seq<K>, s: seq<K>): nat {
    if d == [] then 0 else Occurrences(s, d[0]) + KeyTotal(d[1..], s)
  }

  lemma {:induction false} TotalIsKeyTotal<K>(keys: seq<K>, d: seq<K>)
    ensures Total(seq(|d|, i requires 0 <= i < |d| => (d[i], Occurrences(keys, d[i])))) == KeyTotal(d, keys)
  {
    if d != [] {
      var rows := seq(|d|, i requires 0 <= i < |d| => (d[i], Occurrences(keys, d[i])));
      assert rows[1..] == seq(|d[1..]|, i requires 0 <= i < |d[1..]| => (d[1..][i], Occurrences(keys, d[1..][i])));
      TotalIsKeyTotal(keys, d[1..]);
    }
  }

  /** One more entry `x` adds one to the total over keys that include `x`
      once, and nothing over keys without it. */
  lemma {:induction false} KeyTotalBump<K(!new)>(d: seq<K>, s: seq<K>, s': seq<K>, x: K)
    requires forall i, j :: 0 <= i < j < |d| ==> d[i] != d[j]
    requires forall k :: Occurrences(s', k) == Occurrences(s, k) + (if x == k then 1 else 0)
    ensures KeyTotal(d, s') == KeyTotal(d, s) + (if x in d then 1 else 0)
  {
    if d != [] {
      assert forall i, j :: 0 <= i < j < |d[1..]| ==> d[1..][i] != d[1..][j] by {
        forall i, j | 0 <= i < j < |d[1..]| ensures d[1..][i] != d[1..][j] {
          assert d[1..][i] == d[i + 1] && d[1..][j] == d[j + 1];
        }
      }
      KeyTotalBump(d[1..], s, s', x);
      if d[0] == x {
        assert x !in d[1..] by {
          forall i | 0 <= i < |d[1..]| ensures d[1..][i] != x {
            assert d[1..][i] == d[i + 1];
          }
        }
      }
      assert x in d <==> d[0] == x || x in d[1..];
    }
  }

  /** The group-by step of `GroupCountsTotal` when `x` is already a key. */
  lemma TotalBump<K(!new)>(d0: seq<K>, init: seq<K>, keys: seq<K>, x: K)
    requires keys == init + [x] && d0 == DistinctKeys(init)
    requires forall k :: Occurrences(keys, k) == Occurrences(init, k) + (if x == k then 1 else 0)
    requires Total(GroupCounts(init)) == |init|
    ensures x in d0 ==> Total(GroupCounts(keys)) == |keys|
    ensures KeyTotal(d0, keys) == |init| + (if x in d0 then 1 else 0)
  {
    assert keys[..|keys| - 1] == init;
    TotalIsKeyTotal(init, d0);
    KeyTotalBump(d0, init, keys, x);
    if x in d0 {
      assert DistinctKeys(keys) == d0;
      TotalIsKeyTotal(keys, d0);
    }
  }

  /** The group-by step of `GroupCountsTotal` when `x` is a new key. */
  lemma TotalAppend<K(!new)>(d0: seq<K>, keys: seq<K>)
    requires keys != [] && d0 == DistinctKeys(keys[..|keys| - 1]) && keys[|keys| - 1] !in d0
    requires KeyTotal(d0, keys) == |keys| - 1
    requires Occurrences(keys, keys[|keys| - 1]) == 1
    ensures Total(GroupCounts(keys)) == |keys|
  {
    var x := keys[|keys| - 1];
    var d := d0 + [x];
    assert DistinctKeys(keys) == d;
    TotalIsKeyTotal(keys, d);
    KeyTotalAppend(d0, x, keys);
  }

  lemma {:induction false} KeyTotalAppend<K>(d: seq<K>, x: K, s: seq<K>)
    ensures KeyTotal(d + [x], s) == KeyTotal(d, s) + Occurrences(s, x)
  {
    if d == [] {
      assert ([] + [x])[1..] == [];
    } else {
      assert (d + [x])[1..] == d[1..] + [x];
      KeyTotalAppend(d[1..], x, s);
    }
  }

  /** The live products' values of one column. */
  function LiveColumn<K(!new)>(products: seq<ProductRow>, column: ProductRow -> K): (r: seq<K>)
    ensures |r| <= |products|
    ensures forall k :: k in r <==> exists i :: 0 <= i < |products| && Live(products[i]) && column(products[i]) == k
  {
    if products == [] then []
    else
      var rest := LiveColumn(products[1..], column);
      assert forall i :: 1 <= i < |products| ==> products[i] == products[1..][i - 1];
      if Live(products[0]) then [column(products[0])] + rest else rest
  }

  /** A column of the live products is empty exactly when no product is
      live. */
  lemma LiveColumnEmpty<K(!new)>(products: seq<ProductRow>, column: ProductRow -> K)
    ensures LiveColumn(products, column) == [] <==> forall m :: 0 <= m < |products| ==> !Live(products[m])
  {
    var keys := LiveColumn(products, column);
    if keys != [] {
      assert keys[0] in keys;
    }
    if exists m :: 0 <= m < |products| && Live(products[m]) {
      var m :| 0 <= m < |products| && Live(products[m]);
      assert column(products[m]) in keys;
    }
  }

  /** `byGroup`: the live products counted by product group. */
  function CountByGroup(products: seq<ProductRow>): (r: seq<(ProductGroup, nat)>)
    ensures forall i :: 0 <= i < |r| ==> r[i].1 > 0
    ensures forall i, j :: 0 <= i < j < |r| ==> r[i].0 != r[j].0
    ensures r == [] <==> forall m :: 0 <= m < |products| ==> !Live(products[m])
  {
    var keys := LiveColumn(products, (p: ProductRow) => p.extra.group);
    GroupCountsRows(keys);
    LiveColumnEmpty(products, (p: ProductRow) => p.extra.group);
    GroupCounts(keys)
  }

  /** `byType` / `byFlow`: the live products counted by asset type (or flow)
      id, each row labelled with the name the left join finds for the id. */
  function Labelled<X>(rows: seq<Row<X>>, counts: seq<(int, nat)>): seq<(Option<string>, nat)> {
    seq(|counts|, i requires 0 <= i < |counts| => (JoinedName(rows, counts[i].0), counts[i].1))
  }

  function CountByType(products: seq<ProductRow>, types: seq<TypeRow>): (r: seq<(Option<string>, nat)>)
    ensures forall i :: 0 <= i < |r| ==> r[i].1 > 0
    ensures r == [] <==> forall m :: 0 <= m < |products| ==> !Live(products[m])
  {
    var keys := LiveColumn(products, (p: ProductRow) => p.extra.assetTypeId);
    GroupCountsRows(keys);
    LiveColumnEmpty(products, (p: ProductRow) => p.extra.assetTypeId);
    Labelled(types, GroupCounts(keys))
  }

  function CountByFlow(products: seq<ProductRow>, flows: seq<FlowRow>): (r: seq<(Option<string>, nat)>)
    ensures forall i :: 0 <= i < |r| ==> r[i].1 > 0
    ensures r == [] <==> forall m :: 0 <= m < |products| ==> !Live(products[m])
  {
    var keys := LiveColumn(products, (p: ProductRow) => p.extra.assetFlowId);
    GroupCountsRows(keys);
    LiveColumnEmpty(products, (p: ProductRow) => p.extra.assetFlowId);
    Labelled(flows, GroupCounts(keys))
  }

  /** The group chart has one bar per group in use, and the bars add up to
      the number of live products. */
  lemma CountByGroupSound(products: seq<ProductRow>)
    ensures forall g :: HasKey(CountByGroup(products), g) <==>
                          exists m :: 0 <= m < |products| && Live(products[m]) && products[m].extra.group == g
    ensures forall i, j :: 0 <= i < j < |CountByGroup(products)| ==> CountByGroup(products)[i].0 != CountByGroup(products)[j].0
    ensures Total(CountByGroup(products)) == |LiveColumn(products, (p: ProductRow) => p.extra.group)|
  {
    var keys := LiveColumn(products, (p: ProductRow) => p.extra.group);
    GroupCountsRows(keys);
    LiveColumnEmpty(products, (p: ProductRow) => p.extra.group);
    GroupCountsTotal(keys);
  }

  /** The type and flow charts add up to the number of live products too. */
  lemma CountByTypeAndFlowTotal(products: seq<ProductRow>, types: seq<TypeRow>, flows: seq<FlowRow>)
    ensures Total(CountByType(products, types)) == |LiveColumn(products, (p: ProductRow) => p.extra.assetTypeId)|
    ensures Total(CountByFlow(products, flows)) == |LiveColumn(products, (p: ProductRow) => p.extra.assetFlowId)|
  {
    var typeKeys := LiveColumn(products, (p: ProductRow) => p.extra.assetTypeId);
    var flowKeys := LiveColumn(products, (p: ProductRow) => p.extra.assetFlowId);
    GroupCountsTotal(typeKeys);
    GroupCountsTotal(flowKeys);
    LabelledTotal(types, GroupCounts(typeKeys));
    LabelledTotal(flows, GroupCounts(flowKeys));
  }

  lemma {:induction false} LabelledTotal<X>(rows: seq<Row<X>>, counts: seq<(int, nat)>)
    ensures Total(Labelled(rows, counts)) == Total(counts)
  {
    if counts != [] {
      assert Labelled(rows, counts)[1..] == Labelled(rows, counts[1..]);
      LabelledTotal(rows, counts[1..]);
    }
  }

  // ---------------------------------------------------------------------
  // By partner

  /** The number of live products linked to partner `id`. */
  function LinkedProducts(products: seq<ProductRow>, id: int): (n: nat)
    ensures n == 0 <==> forall i :: 0 <= i < |products| ==> !(Live(products[i]) && id in products[i].extra.partners)
  {
    if products == [] then 0
    else
      var rest := LinkedProducts(products[1..], id);
      assert forall i :: 1 <= i < |products| ==> products[i] == products[1..][i - 1];
      (if Live(products[0]) && id in products[0].extra.partners then 1 else 0) + rest
  }

  /** One row of the partner chart: a live partner's code and name, and the
      number of live products linked to it. */
  predicate PartnerEntry(p: PartnerRow, products: seq<ProductRow>, e: (string, string, nat)) {
    Live(p) && e == (p.code, p.name, LinkedProducts(products, p.id))
  }

  /** `getProductCountByPartner`: every live partner, in table order, with its
      code, its name and the number of live products linked to it; the left
      join gives an unlinked partner the count 0. */
  function CountByPartner(partners: seq<PartnerRow>, products: seq<ProductRow>): (r: seq<(string, string, nat)>)
    ensures |r| <= |partners|
    ensures forall i :: 0 <= i < |r| ==> exists m :: 0 <= m < |partners| && PartnerEntry(partners[m], products, r[i])
  {
    if partners == [] then []
    else
      var rest := CountByPartner(partners[1..], products);
      var p := partners[0];
      var r := if Live(p) then [(p.code, p.name, LinkedProducts(products, p.id))] + rest else rest;
      assert forall i :: 0 <= i < |r| ==> exists m :: 0 <= m < |partners| && PartnerEntry(partners[m], products, r[i]) by {
        forall i | 0 <= i < |r| ensures exists m :: 0 <= m < |partners| && PartnerEntry(partners[m], products, r[i]) {
          if Live(p) && i == 0 {
            assert PartnerEntry(partners[0], products, r[i]);
          } else {
            var n := if Live(p) then i - 1 else i;
            assert r[i] == rest[n];
            var m :| 0 <= m < |partners[1..]| && PartnerEntry(partners[1..][m], products, rest[n]);
            assert partners[1..][m] == partners[m + 1];
            assert PartnerEntry(partners[m + 1], products, r[i]);
          }
        }
      }
      r
  }

  /** The number of live partners. */
  function LiveCount<X>(rows: seq<Row<X>>): nat {
    if rows == [] then 0 else (if Live(rows[0]) then 1 else 0) + LiveCount(rows[1..])
  }

  /** One entry per live partner, unlinked partners included. */
  lemma CountByPartnerComplete(partners: seq<PartnerRow>, products: seq<ProductRow>)
    ensures |CountByPartner(partners, products)| == LiveCount(partners)
    ensures forall m :: 0 <= m < |partners| && Live(partners[m]) ==>
              exists i :: 0 <= i < |CountByPartner(partners, products)| && PartnerEntry(partners[m], products, CountByPartner(partners, products)[i])
  {
    CountByPartnerLength(partners, products);
    forall m | 0 <= m < |partners| && Live(partners[m])
      ensures exists i :: 0 <= i < |CountByPartner(partners, products)| && PartnerEntry(partners[m], products, CountByPartner(partners, products)[i])
    {
      var i := EntryOfPartner(partners, products, m);
    }
  }

  lemma {:induction false} CountByPartnerLength(partners: seq<PartnerRow>, products: seq<ProductRow>)
    ensures |CountByPartner(partners, products)| == LiveCount(partners)
  {
    if partners != [] {
      CountByPartnerLength(partners[1..], products);
    }
  }

  /** The position of a live partner's entry in the chart. */
  lemma {:induction false} EntryOfPartner(partners: seq<PartnerRow>, products: seq<ProductRow>, m: nat) returns (i: nat)
    requires m < |partners| && Live(partners[m])
    ensures i < |CountByPartner(partners, products)| && PartnerEntry(partners[m], products, CountByPartner(partners, products)[i])
  {
    var rest := CountByPartner(partners[1..], products);
    var r := CountByPartner(partners, products);
    var p := partners[0];
    assert r == if Live(p) then [(p.code, p.name, LinkedProducts(products, p.id))] + rest else rest;
    if m == 0 {
      i := 0;
    } else {
      var j := EntryOfPartner(partners[1..], products, m - 1);
      assert partners[1..][m - 1] == partners[m];
      i := if Live(partners[0]) then j + 1 else j;
      assert r[i] == rest[j];
    }
  }
}
