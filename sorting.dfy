/** `ORDER BY column ASC|DESC` over the rows a query selected. A column value is
    a `SortKey`: NULL sorts before every value (MySQL's rule for ascending
    order), numbers (ids, enumeration positions) by value and text by the
    character-wise order of module Text. Rows with equal keys keep their table
    order. */
module Sorting {
  import opened Common
  import opened Text

  datatype SortKey = NullKey | NumKey(n: int) | TextKey(s: string)

  predicate KeyLe(a: SortKey, b: SortKey) {
    match (a, b)
    case (NullKey, _) => true
    case (NumKey(x), NumKey(y)) => x <= y
    case (NumKey(_), TextKey(_)) => true
    case (TextKey(x), TextKey(y)) => LexLe(x, y)
    case _ => false
  }

  /** `a` may come before `b` in the given direction. */
  predicate InOrder(a: SortKey, b: SortKey, dir: Direction) {
    if dir == Asc then KeyLe(a, b) else KeyLe(b, a)
  }

  lemma InOrderTotal(a: SortKey, b: SortKey, dir: Direction)
    ensures InOrder(a, b, dir) || InOrder(b, a, dir)
  {
    if a.TextKey? && b.TextKey? {
      LexLeTotal(a.s, b.s);
    }
  }

  lemma InOrderTrans(a: SortKey, b: SortKey, c: SortKey, dir: Direction)
    requires InOrder(a, b, dir) && InOrder(b, c, dir)
    ensures InOrder(a, c, dir)
  {
    if a.TextKey? && b.TextKey? && c.TextKey? {
      if dir == Asc {
        LexLeTrans(a.s, b.s, c.s);
      } else {
        LexLeTrans(c.s, b.s, a.s);
      }
    }
  }

  predicate SortedBy<T>(s: seq<T>, key: T -> SortKey, dir: Direction) {
    forall i, j :: 0 <= i < j < |s| ==> InOrder(key(s[i]), key(s[j]), dir)
  }

  /** Places `x` before the first element it may precede. */
  function Insert<T>(x: T, s: seq<T>, key: T -> SortKey, dir: Direction): (r: seq<T>)
    ensures multiset(r) == multiset(s) + multiset{x}
  {
    if s == [] || InOrder(key(x), key(s[0]), dir) then [x] + s
    else
      assert s == [s[0]] + s[1..];
      [s[0]] + Insert(x, s[1..], key, dir)
  }

  /** Insertion sort, stable with respect to the input order. */
  function SortBy<T>(s: seq<T>, key: T -> SortKey, dir: Direction): (r: seq<T>)
    ensures multiset(r) == multiset(s)
  {
    if s == [] then []
    else
      assert s == [s[0]] + s[1..];
      Insert(s[0], SortBy(s[1..], key, dir), key, dir)
  }

  lemma {:induction false} InsertSorted<T>(x: T, s: seq<T>, key: T -> SortKey, dir: Direction)
    requires SortedBy(s, key, dir)
    ensures SortedBy(Insert(x, s, key, dir), key, dir)
    decreases |s|
  {
    var r := Insert(x, s, key, dir);
    if s == [] || InOrder(key(x), key(s[0]), dir) {
      forall i, j | 0 <= i < j < |r| ensures InOrder(key(r[i]), key(r[j]), dir) {
        if i == 0 && j > 1 {
          InOrderTrans(key(x), key(s[0]), key(s[j - 1]), dir);
        }
      }
    } else {
      InOrderTotal(key(x), key(s[0]), dir);
      InsertSorted(x, s[1..], key, dir);
      var tail := Insert(x, s[1..], key, dir);
      assert r == [s[0]] + tail;
      forall j | 0 <= j < |tail| ensures InOrder(key(s[0]), key(tail[j]), dir) {
        assert tail[j] in multiset(tail);
        assert tail[j] == x || tail[j] in multiset(s[1..]);
        if tail[j] != x {
          var m :| 0 <= m < |s[1..]| && s[1..][m] == tail[j];
          assert s[1..][m] == s[m + 1];
        }
      }
    }
  }

  /** The result of `SortBy` is in order and holds exactly the input rows. */
  lemma {:induction false} SortByCorrect<T>(s: seq<T>, key: T -> SortKey, dir: Direction)
    ensures SortedBy(SortBy(s, key, dir), key, dir)
    ensures multiset(SortBy(s, key, dir)) == multiset(s)
  {
    if s != [] {
      SortByCorrect(s[1..], key, dir);
      InsertSorted(s[0], SortBy(s[1..], key, dir), key, dir);
    }
  }

  /** Sorting brings in no row that was not there. */
  lemma SortByMembers<T>(s: seq<T>, key: T -> SortKey, dir: Direction)
    ensures forall i :: 0 <= i < |SortBy(s, key, dir)| ==> SortBy(s, key, dir)[i] in s
  {
    var r := SortBy(s, key, dir);
    forall i | 0 <= i < |r| ensures r[i] in s {
      assert r[i] in multiset(r);
    }
  }

  /** Rows already in order come back unchanged: ordering by `id ASC` a table
      kept in id order returns it as it is. */
  lemma {:induction false} SortedIsFixpoint<T>(s: seq<T>, key: T -> SortKey, dir: Direction)
    requires SortedBy(s, key, dir)
    ensures SortBy(s, key, dir) == s
  {
    if s != [] {
      assert SortedBy(s[1..], key, dir) by {
        forall i, j | 0 <= i < j < |s[1..]| ensures InOrder(key(s[1..][i]), key(s[1..][j]), dir) {
          assert s[1..][i] == s[i + 1] && s[1..][j] == s[j + 1];
        }
      }
      SortedIsFixpoint(s[1..], key, dir);
      if |s| > 1 {
        assert InOrder(key(s[0]), key(s[1]), dir);
      }
    }
  }

  /** A contiguous run of rows in order is in order. */
  lemma SortedSlice<T>(s: seq<T>, lo: nat, hi: nat, key: T -> SortKey, dir: Direction)
    requires lo <= hi <= |s| && SortedBy(s, key, dir)
    ensures SortedBy(s[lo..hi], key, dir)
  {
    forall i, j | 0 <= i < j < hi - lo ensures InOrder(key(s[lo..hi][i]), key(s[lo..hi][j]), dir) {
      assert s[lo..hi][i] == s[lo + i] && s[lo..hi][j] == s[lo + j];
    }
  }
}
