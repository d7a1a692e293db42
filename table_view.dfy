/** `DataTable`, the front end's shared list component: what a click on a
    column header asks the parent to sort by, the pager's arithmetic and
    buttons, the multi-select filter toggle and the text shown for a
    multi-select filter. The component holds no catalogue state; every
    interaction becomes a callback to its parent. */
module DataTable {
  import opened Common
  import opened Text

  /** The props with a default: the sort direction, the page, the page size
      and the total. An absent prop takes its default. */
  datatype PagerProps = PagerProps(orderDirection: Option<Direction>, page: Option<int>,
                                   pageSize: Option<int>, total: Option<int>)

  datatype Pager = Pager(orderDirection: Direction, page: int, pageSize: int, total: int)

  function WithDefaults(p: PagerProps): (r: Pager)
    ensures p.orderDirection.None? ==> r.orderDirection == Desc
    ensures p.page.None? ==> r.page == 1
    ensures p.pageSize.None? ==> r.pageSize == 10
    ensures p.total.None? ==> r.total == 0
    ensures p.orderDirection.Some? ==> r.orderDirection == p.orderDirection.value
    ensures p.page.Some? ==> r.page == p.page.value
    ensures p.pageSize.Some? ==> r.pageSize == p.pageSize.value
    ensures p.total.Some? ==> r.total == p.total.value
  {
    Pager(p.orderDirection.GetOr(Desc), p.page.GetOr(1), p.pageSize.GetOr(10), p.total.GetOr(0))
  }

  // ---------------------------------------------------------------- sorting

  /** `handleSort`: the sort the parent is asked for, or nothing when it
      passed no `onSortChange`. The current column flips its direction;
      another column starts descending. */
  function HandleSort<K(==)>(hasCallback: bool, orderBy: Option<K>, direction: Direction, column: K)
    : (r: Option<(K, Direction)>)
    ensures r.None? <==> !hasCallback
    ensures r.Some? ==> r.value.0 == column
    ensures r.Some? && orderBy == Some(column) ==> r.value.1 != direction
    ensures r.Some? && orderBy != Some(column) ==> r.value.1 == Desc
  {
    if !hasCallback then None
    else if orderBy == Some(column) then Some((column, if direction == Desc then Asc else Desc))
    else Some((column, Desc))
  }

  /** Two clicks on a column header, with the parent applying each request,
      leave that column sorted descending then ascending, and a third click
      returns to descending. */
  lemma ClicksCycleDirection<K>(orderBy: Option<K>, direction: Direction, column: K)
    ensures var first := HandleSort(true, orderBy, direction, column).value;
            var second := HandleSort(true, Some(first.0), first.1, column).value;
            var third := HandleSort(true, Some(second.0), second.1, column).value;
            (orderBy != Some(column) ==> first.1 == Desc && second.1 == Asc && third.1 == Desc)
            && third.1 == first.1
  {
  }

  // ------------------------------------------------------------------ pager

  /** `Math.ceil(total / pageSize)` for a positive page size and a
      non-negative total. */
  function TotalPages(total: nat, pageSize: nat): (pages: nat)
    requires pageSize > 0
    ensures (pages - 1) * pageSize < total <= pages * pageSize || (total == 0 && pages == 0)
    ensures pages == 0 <==> total == 0
  {
    (total + pageSize - 1) / pageSize
  }

  /** The page count is the least one that holds every row. */
  lemma TotalPagesLeast(total: nat, pageSize: nat, k: nat)
    requires pageSize > 0 && total <= k * pageSize
    ensures TotalPages(total, pageSize) <= k
  {
    var pages := TotalPages(total, pageSize);
    if pages > k {
      assert (pages - 1) * pageSize >= k * pageSize by {
        MultiplyMonotone(k, pages - 1, pageSize);
      }
    }
  }

  lemma MultiplyMonotone(a: nat, b: nat, c: nat)
    requires a <= b
    ensures a * c <= b * c
  {
  }

  /** Prev is disabled on the first page. */
  predicate PrevDisabled(page: int) {
    page == 1
  }

  /** Next is disabled from the last page on. */
  predicate NextDisabled(page: int, totalPages: int) {
    page >= totalPages
  }

  datatype Button = Prev | Next

  /** The page a press asks the parent for, or nothing when the button is
      disabled. */
  function Press(b: Button, page: int, totalPages: int): (r: Option<int>)
    ensures b == Prev ==> (r.None? <==> PrevDisabled(page)) && (r.Some? ==> r.value == page - 1)
    ensures b == Next ==> (r.None? <==> NextDisabled(page, totalPages)) && (r.Some? ==> r.value == page + 1)
  {
    match b
    case Prev => if PrevDisabled(page) then None else Some(page - 1)
    case Next => if NextDisabled(page, totalPages) then None else Some(page + 1)
  }

  /** Starting on a page between 1 and the last, any press either does
      nothing or moves to a page that is still between 1 and the last. */
  lemma PressStaysInRange(b: Button, page: int, totalPages: int)
    requires 1 <= page <= totalPages
    ensures var r := Press(b, page, totalPages);
            r.Some? ==> 1 <= r.value <= totalPages
  {
  }

  /** With no rows there are no pages, and Next is disabled on page 1. */
  lemma EmptyTableHasNoNext(pageSize: nat)
    requires pageSize > 0
    ensures TotalPages(0, pageSize) == 0
    ensures Press(Next, 1, TotalPages(0, pageSize)) == None
  {
  }

  /** The callbacks the table calls, in order. */
  datatype Request = SortChange(column: string, direction: Direction) | PageChange(page: int) | PageSizeChange(size: int)

  /** Choosing a page size asks for that size and then for page 1. */
  function ChoosePageSize(size: int): (r: seq<Request>)
    ensures |r| == 2 && r[0] == PageSizeChange(size) && r[1] == PageChange(1)
  {
    [PageSizeChange(size), PageChange(1)]
  }

  /** The pager state a parent reaches by applying requests in order. */
  function ApplyRequests(p: Pager, rs: seq<Request>): (r: Pager)
    ensures r.total == p.total
    decreases |rs|
  {
    if rs == [] then p
    else
      var next := match rs[0]
        case SortChange(_, d) => p.(orderDirection := d)
        case PageChange(n) => p.(page := n)
        case PageSizeChange(n) => p.(pageSize := n);
      ApplyRequests(next, rs[1..])
  }

  /** After a page-size change the parent is on page 1 at the new size, and
      page 1 is within range whenever there is a row. */
  lemma PageSizeChangeRestarts(p: Pager, size: int)
    ensures var r := ApplyRequests(p, ChoosePageSize(size));
            r.page == 1 && r.pageSize == size && r.orderDirection == p.orderDirection
    ensures size > 0 && p.total > 0 ==> 1 <= TotalPages(p.total, size)
  {
    var rs := ChoosePageSize(size);
    var sized := p.(pageSize := size);
    assert ApplyRequests(p, rs) == ApplyRequests(sized, rs[1..]);
    assert rs[1..][0] == PageChange(1) && rs[1..][1..] == [];
    assert ApplyRequests(sized, rs[1..]) == ApplyRequests(sized.(page := 1), []);
  }

  // ------------------------------------------------------------ multi-select

  /** A multi-select filter value: an array of selected values, or anything
      else (absent, a string), which the table reads as no selection. */
  datatype Selection<V> = Selected(values: seq<V>) | NotAnArray

  function Current<V>(s: Selection<V>): seq<V> {
    if s.Selected? then s.values else []
  }

  /** All occurrences of `v` removed, the rest in order. */
  function Without<V(==,!new)>(xs: seq<V>, v: V): (r: seq<V>)
    ensures forall x :: x in r <==> x in xs && x != v
    ensures multiset(r) == multiset(xs)[v := 0]
  {
    if xs == [] then []
    else
      assert xs == [xs[0]] + xs[1..];
      if xs[0] == v then Without(xs[1..], v)
      else [xs[0]] + Without(xs[1..], v)
  }

  /** Filtering a concatenation filters each part: the values kept stay in
      their order. */
  lemma {:induction false} WithoutConcat<V(!new)>(a: seq<V>, b: seq<V>, v: V)
    ensures Without(a + b, v) == Without(a, v) + Without(b, v)
  {
    if a == [] {
      assert a + b == b;
    } else {
      assert (a + b)[0] == a[0];
      assert (a + b)[1..] == a[1..] + b;
      WithoutConcat(a[1..], b, v);
    }
  }

  /** Removing a value that is not there changes nothing. */
  lemma {:induction false} WithoutAbsent<V(!new)>(xs: seq<V>, v: V)
    requires v !in xs
    ensures Without(xs, v) == xs
  {
    if xs != [] {
      WithoutAbsent(xs[1..], v);
      assert [xs[0]] + xs[1..] == xs;
    }
  }

  /** Clicking an option of a multi-select filter: a selected value is
      removed everywhere, any other value is appended at the end. */
  function Toggle<V(==,!new)>(s: Selection<V>, v: V): (r: seq<V>)
    ensures v in Current(s) ==> multiset(r) == multiset(Current(s))[v := 0]
    ensures v !in Current(s) ==> r == Current(s) + [v]
  {
    var current := Current(s);
    if v in current then Without(current, v) else current + [v]
  }

  /** Clicking the same option twice restores a selection that did not hold
      it. */
  lemma ToggleTwice<V(!new)>(s: Selection<V>, v: V)
    requires v !in Current(s)
    ensures Toggle(Selected(Toggle(s, v)), v) == Current(s)
  {
    var once := Current(s) + [v];
    assert Without(once, v) == Without(Current(s), v) by {
      WithoutAppend(Current(s), v);
    }
    WithoutAbsent(Current(s), v);
  }

  /** Unselecting a value that was selected once leaves the values before
      it and the values after it in their order. */
  lemma ToggleKeepsOrder<V(!new)>(before: seq<V>, v: V, after: seq<V>)
    requires v !in before && v !in after
    ensures Toggle(Selected(before + [v] + after), v) == before + after
  {
    WithoutConcat(before + [v], after, v);
    WithoutAppend(before, v);
    WithoutAbsent(before, v);
    WithoutAbsent(after, v);
  }

  lemma {:induction false} WithoutAppend<V(!new)>(xs: seq<V>, v: V)
    ensures Without(xs + [v], v) == Without(xs, v)
  {
    if xs == [] {
      assert [v][1..] == [];
    } else {
      assert (xs + [v])[1..] == xs[1..] + [v];
      WithoutAppend(xs[1..], v);
    }
  }

  /** An option of a select filter: what is shown and what is sent. */
  datatype SelectOption<V> = SelectOption(caption: string, value: V)

  /** The labels of the options whose value is selected, in option order. */
  function SelectedLabels<V(==,!new)>(options: seq<SelectOption<V>>, selected: seq<V>): (r: seq<string>)
    ensures |r| <= |options|
    ensures forall l :: l in r ==> exists o :: o in options && o.value in selected && o.caption == l
    ensures forall o :: o in options && o.value in selected ==> o.caption in r
    ensures (forall o :: o in options ==> o.value !in selected) ==> r == []
  {
    if options == [] then []
    else
      var rest := SelectedLabels(options[1..], selected);
      assert forall o :: o in options[1..] ==> o in options;
      if options[0].value in selected then [options[0].caption] + rest else rest
  }

  /** The labels of a concatenation of options are the labels of the first
      part followed by those of the second: option order is kept. */
  lemma {:induction false} SelectedLabelsConcat<V(!new)>(a: seq<SelectOption<V>>, b: seq<SelectOption<V>>, selected: seq<V>)
    ensures SelectedLabels(a + b, selected) == SelectedLabels(a, selected) + SelectedLabels(b, selected)
  {
    if a == [] {
      assert a + b == b;
    } else {
      var ab := a + b;
      assert ab[0] == a[0];
      assert ab[1..] == a[1..] + b;
      SelectedLabelsConcat(a[1..], b, selected);
    }
  }

  /** Some option selected gives at least one label. */
  lemma {:induction false} SelectedLabelsNonEmpty<V(!new)>(options: seq<SelectOption<V>>, selected: seq<V>, k: nat)
    requires k < |options| && options[k].value in selected
    ensures SelectedLabels(options, selected) != []
  {
    if k > 0 && options[0].value !in selected {
      SelectedLabelsNonEmpty(options[1..], selected, k - 1);
    }
  }

  /** `getMultiSelectLabel`: empty when the value is not an array or the
      column has no options, else the selected options' labels joined with
      ", ". */
  function MultiSelectLabel<V(==,!new)>(options: Option<seq<SelectOption<V>>>, s: Selection<V>): (r: string)
    ensures s.NotAnArray? || options.None? ==> r == ""
  {
    match (options, s)
    case (Some(opts), Selected(values)) => Join(SelectedLabels(opts, values), ", ")
    case _ => ""
  }

  /** With non-empty labels, the text is empty exactly when no option of
      the column is selected. */
  lemma MultiSelectLabelEmptyIff<V(!new)>(options: seq<SelectOption<V>>, values: seq<V>)
    requires forall o :: o in options ==> o.caption != ""
    ensures MultiSelectLabel(Some(options), Selected(values)) == ""
        <==> forall o :: o in options ==> o.value !in values
  {
    var labels := SelectedLabels(options, values);
    if exists o :: o in options && o.value in values {
      var o :| o in options && o.value in values;
      var k :| 0 <= k < |options| && options[k] == o;
      SelectedLabelsNonEmpty(options, values, k);
      assert labels[0] in labels;
      JoinStartsWithFirst(labels, ", ");
    }
  }

  /** The text for the options of `a` followed by those of `b`: the two texts
      joined with ", ", or the one of them that is not empty. */
  lemma MultiSelectLabelConcat<V(!new)>(a: seq<SelectOption<V>>, b: seq<SelectOption<V>>, values: seq<V>)
    ensures var ta, tb := MultiSelectLabel(Some(a), Selected(values)), MultiSelectLabel(Some(b), Selected(values));
      var t := MultiSelectLabel(Some(a + b), Selected(values));
      && (SelectedLabels(a, values) == [] ==> t == tb)
      && (SelectedLabels(b, values) == [] ==> t == ta)
      && (SelectedLabels(a, values) != [] && SelectedLabels(b, values) != [] ==> t == ta + ", " + tb)
  {
    SelectedLabelsConcat(a, b, values);
    var la, lb := SelectedLabels(a, values), SelectedLabels(b, values);
    if la == [] {
      assert la + lb == lb;
    } else if lb == [] {
      assert la + lb == la;
    } else {
      JoinConcat(la, lb, ", ");
    }
  }

  /** A single option shows its caption exactly when its value is selected. */
  lemma MultiSelectLabelOne<V(!new)>(o: SelectOption<V>, values: seq<V>)
    ensures MultiSelectLabel(Some([o]), Selected(values)) == if o.value in values then o.caption else ""
  {
    assert [o][1..] == [];
  }

  /** Joining two non-empty lists puts the separator between their joins. */
  lemma {:induction false} JoinConcat(a: seq<string>, b: seq<string>, sep: string)
    requires a != [] && b != []
    ensures Join(a + b, sep) == Join(a, sep) + sep + Join(b, sep)
  {
    if |a| == 1 {
      assert (a + b)[1..] == b;
    } else {
      assert (a + b)[1..] == a[1..] + b;
      JoinConcat(a[1..], b, sep);
    }
  }

  /** A join of parts whose first part is non-empty is non-empty. */
  lemma JoinStartsWithFirst(parts: seq<string>, sep: string)
    requires parts != [] && parts[0] != ""
    ensures Join(parts, sep) != ""
  {
    if |parts| > 1 {
      assert |Join(parts, sep)| >= |parts[0]|;
    }
  }
}
