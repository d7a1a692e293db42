/** What the asset-group and asset-flow services share: a table of coded rows
    whose code is either supplied (at most 6 characters of `[A-Za-z0-9_/]`) or
    generated from a prefix, and the create and update rules built on it. The
    listing queries of the group, flow and partner services are the same too:
    substring filters on code, name and note, an equality filter on status, an
    optional order column, and one page of the result. */
module Catalog {
  import opened Common
  import opened Text
  import opened Tables
  import opened Sorting
  import opened Paging
  import opened CodeGen

  type CodedRow = Row<()>

  /** The names that differ between the two services: the code prefix, the
      field names in validation errors, and the subject in other errors. */
  datatype Labels = Labels(
    prefix: string,
    codeField: string,
    nameField: string,
    subject: string,
    updateSubject: string)

  const GroupLabels := Labels("NTS", "Group Code", "Group Name", "Asset Group", "Asset group")
  const FlowLabels := Labels("DTS", "Flow Code", "Flow Name", "Asset Flow", "Asset flow")

  /** `CreateAssetGroupDto` / `CreateAssetFlowDto`. An absent or empty code is
      `""` (both are falsy); an absent status or note is `None`. */
  datatype Draft = Draft(code: string, name: string, status: Option<Status>, note: Option<string>)

  /** A supplied code: at most 6 characters, all of `[A-Za-z0-9_/]`. */
  predicate ValidCode(code: string) {
    |code| <= 6 && MatchesCodePattern(code)
  }

  /** A supplied asset-type, product or new-partner code: at most 10
      characters, all of `[A-Za-z0-9_/]`. */
  predicate ValidLongCode(code: string) {
    |code| <= 10 && MatchesCodePattern(code)
  }

  /** A name: present and at most 50 characters. */
  predicate ValidName(name: string) {
    name != [] && |name| <= 50
  }

  /** The code a draft ends up with: the supplied one, or the generated one. */
  function ChosenCode(rows: seq<CodedRow>, labels: Labels, code: string): (c: string)
    ensures code != [] ==> c == code
    ensures code == [] ==> c == NextPatternCode(LiveCodes(rows), labels.prefix)
  {
    if code != [] then code else NextPatternCode(LiveCodes(rows), labels.prefix)
  }

  /** The draft passes validation: a supplied code is valid and the name is. */
  predicate DraftValid(d: Draft) {
    (d.code == [] || ValidCode(d.code)) && ValidName(d.name)
  }

  /** `createAssetGroup` / `createAssetFlow`: the row to append, or the first
      error in the order the service checks. */
  function Create(rows: seq<CodedRow>, nextId: int, labels: Labels, d: Draft): (r: Result<CodedRow>)
    ensures r.Ok? <==> DraftValid(d)
                       && !CodeTaken(rows, ChosenCode(rows, labels, d.code), None)
                       && !NameTaken(rows, d.name, None)
    ensures r.Ok? ==> r.value.id == nextId && Live(r.value) && r.value.name == d.name
                      && r.value.code == ChosenCode(rows, labels, d.code)
                      && r.value.status == d.status.GetOr(Active) && r.value.note == d.note
    ensures d.code != [] && !ValidCode(d.code) ==> r == Err(InvalidateInput(labels.codeField))
    ensures (d.code == [] || ValidCode(d.code)) && !ValidName(d.name) ==> r == Err(InvalidateInput(labels.nameField))
    ensures DraftValid(d) && CodeTaken(rows, ChosenCode(rows, labels, d.code), None) ==>
              r == Err(Existed(labels.subject + " with code " + ChosenCode(rows, labels, d.code)))
  {
    if d.code != [] && !ValidCode(d.code) then Err(InvalidateInput(labels.codeField))
    else if !ValidName(d.name) then Err(InvalidateInput(labels.nameField))
    else
      var code := ChosenCode(rows, labels, d.code);
      if CodeTaken(rows, code, None) then Err(Existed(labels.subject + " with code " + code))
      else if NameTaken(rows, d.name, None) then Err(Existed(labels.subject + " with name " + d.name))
      else Ok(Row(nextId, code, d.name, d.status.GetOr(Active), d.note, (), None))
  }

  /** Appending the created row keeps the table well formed and its live codes
      and names unique. */
  lemma CreatePreserves(rows: seq<CodedRow>, nextId: int, labels: Labels, d: Draft)
    requires nextId >= 1 && WellFormed(rows, nextId) && UniqueLive(rows)
    ensures Create(rows, nextId, labels, d).Ok? ==>
              && WellFormed(rows + [Create(rows, nextId, labels, d).value], nextId + 1)
              && UniqueLive(rows + [Create(rows, nextId, labels, d).value])
  {
    var r := Create(rows, nextId, labels, d);
    if r.Ok? {
      AppendWellFormed(rows, nextId, r.value);
      AppendUnique(rows, r.value);
    }
  }

  /** A draft without a code is created under the generated code when the
      name is valid and neither the code nor the name is taken. */
  lemma CreateGenerated(rows: seq<CodedRow>, nextId: int, labels: Labels, d: Draft, code: string)
    requires d.code == [] && ValidName(d.name)
    requires NextPatternCode(LiveCodes(rows), labels.prefix) == code
    requires !CodeTaken(rows, code, None) && !NameTaken(rows, d.name, None)
    ensures Create(rows, nextId, labels, d) == Ok(Row(nextId, code, d.name, d.status.GetOr(Active), d.note, (), None))
  {
  }

  lemma ToolsTable(rows: seq<CodedRow>)
    requires rows == [Row(1, "NTS999", "Tools", Active, None, (), None)]
    ensures LiveCodes(rows) == ["NTS999"]
    ensures !CodeTaken(rows, "NTS1000", None) && !NameTaken(rows, "Spares", None)
  {
    assert rows[1..] == [];
    assert rows[0].code != "NTS1000" by { assert |rows[0].code| == 6; }
    assert rows[0].name != "Spares" by { assert |rows[0].name| == 5; }
  }

  /** A generated code is not checked against the 6-character rule: after
      `NTS999` an omitted code becomes the 7-character `NTS1000`, and the row
      is accepted. */
  lemma GeneratedCodeNotRevalidated()
    ensures var rows := [Row(1, "NTS999", "Tools", Active, None, (), None)];
      && Create(rows, 2, GroupLabels, Draft("", "Spares", None, None))
           == Ok(Row(2, "NTS1000", "Spares", Active, None, (), None))
      && !ValidCode("NTS1000")
  {
    var rows := [Row(1, "NTS999", "Tools", Active, None, (), None)];
    ToolsTable(rows);
    NextAfterNts999();
    CreateGenerated(rows, 2, GroupLabels, Draft("", "Spares", None, None), "NTS1000");
  }

  /** `updateAssetGroup` / `updateAssetFlow`: the position of the row and the
      row as it is saved, or the first error. An unknown id is reported before
      anything else; the uniqueness checks leave the row itself out; an empty
      code is generated again; an absent status or note keeps the old one. */
  function Update(rows: seq<CodedRow>, labels: Labels, id: int, d: Draft): (r: Result<(nat, CodedRow)>)
    ensures !HasLive(rows, id) ==> r == Err(NotFound(labels.updateSubject + " with id " + IntToString(id)))
    ensures HasLive(rows, id) ==>
              (r.Ok? <==> DraftValid(d)
                          && !CodeTaken(rows, ChosenCode(rows, labels, d.code), Some(id))
                          && !NameTaken(rows, d.name, Some(id)))
    ensures HasLive(rows, id) && d.code != [] && !ValidCode(d.code) ==> r == Err(InvalidateInput(labels.codeField))
    ensures r.Ok? ==>
              var (k, row) := r.value;
              && k < |rows| && rows[k].id == id && Live(rows[k])
              && row == rows[k].(code := ChosenCode(rows, labels, d.code), name := d.name,
                                 status := d.status.GetOr(rows[k].status),
                                 note := if d.note.Some? then d.note else rows[k].note)
  {
    match FindLive(rows, id)
    case None => Err(NotFound(labels.updateSubject + " with id " + IntToString(id)))
    case Some(k) =>
      if d.code != [] && !ValidCode(d.code) then Err(InvalidateInput(labels.codeField))
      else if !ValidName(d.name) then Err(InvalidateInput(labels.nameField))
      else
        var code := ChosenCode(rows, labels, d.code);
        if CodeTaken(rows, code, Some(id)) then Err(Existed(labels.subject + " with code " + code))
        else if NameTaken(rows, d.name, Some(id)) then Err(Existed(labels.subject + " with name " + d.name))
        else
          var old_ := rows[k];
          Ok((k, old_.(code := code, name := d.name, status := d.status.GetOr(old_.status),
                       note := if d.note.Some? then d.note else old_.note)))
  }

  /** Saving the updated row in place keeps the table well formed and its live
      codes and names unique. */
  lemma UpdatePreserves(rows: seq<CodedRow>, nextId: int, labels: Labels, id: int, d: Draft)
    requires WellFormed(rows, nextId) && UniqueLive(rows)
    ensures Update(rows, labels, id, d).Ok? ==>
              var (k, row) := Update(rows, labels, id, d).value;
              WellFormed(rows[k := row], nextId) && UniqueLive(rows[k := row])
  {
    var r := Update(rows, labels, id, d);
    if r.Ok? {
      var (k, row) := r.value;
      ReplaceUnique(rows, nextId, k, row);
    }
  }

  /** Keeping its own code and name is never a conflict for a row: an update
      that resubmits the row's code and name passes the uniqueness checks. */
  lemma UpdateKeepingCodeAndName(rows: seq<CodedRow>, nextId: int, labels: Labels, k: nat, status: Option<Status>, note: Option<string>)
    requires WellFormed(rows, nextId) && UniqueLive(rows)
    requires k < |rows| && Live(rows[k]) && rows[k].code != [] && ValidCode(rows[k].code) && ValidName(rows[k].name)
    ensures Update(rows, labels, rows[k].id, Draft(rows[k].code, rows[k].name, status, note)).Ok?
  {
    var id := rows[k].id;
    assert HasLive(rows, id);
    assert !CodeTaken(rows, rows[k].code, Some(id)) by {
      forall i | 0 <= i < |rows| && Live(rows[i]) && rows[i].code == rows[k].code
        ensures rows[i].id == id
      {
        if i < k || k < i {
          assert false;
        }
      }
    }
    assert !NameTaken(rows, rows[k].name, Some(id)) by {
      forall i | 0 <= i < |rows| && Live(rows[i]) && rows[i].name == rows[k].name
        ensures rows[i].id == id
      {
        if i < k || k < i {
          assert false;
        }
      }
    }
  }

  // ---------------------------------------------------------------------
  // Listing

  /** The columns a listing may be ordered by. */
  datatype Column = IdColumn | CodeColumn | NameColumn | StatusColumn | NoteColumn

  /** `AssetGroupPaginateRequest`, `AssetFlowPaginateRequest` and
      `PartnerPaginateRequest`; an absent search string is `""`. */
  datatype Query = Query(
    page: Option<int>,
    pageSize: Option<int>,
    searchCode: string,
    searchName: string,
    searchStatus: string,
    searchNote: string,
    orderBy: Option<Column>,
    direction: Option<Direction>)

  /** `search && search.trim() !== ""`: the filter is applied. */
  predicate Applies(search: string) {
    !IsBlank(search)
  }

  /** The `where` the service builds: a substring test on code, name and note
      (a missing note never matches), equality on the status name. */
  predicate Matches(row: CodedRow, q: Query) {
    && (Applies(q.searchCode) ==> IsSubstring(q.searchCode, row.code))
    && (Applies(q.searchName) ==> IsSubstring(q.searchName, row.name))
    && (Applies(q.searchStatus) ==> row.status.Name() == q.searchStatus)
    && (Applies(q.searchNote) ==> row.note.Some? && IsSubstring(q.searchNote, row.note.value))
  }

  /** The value a column sorts by; the status enumeration sorts by position. */
  function ColumnKey(c: Column): CodedRow -> SortKey {
    (row: CodedRow) =>
      match c
      case IdColumn => NumKey(row.id)
      case CodeColumn => TextKey(row.code)
      case NameColumn => TextKey(row.name)
      case StatusColumn => NumKey(if row.status == Active then 0 else 1)
      case NoteColumn => if row.note.Some? then TextKey(row.note.value) else NullKey
  }

  /** `order[orderBy] = orderDirection || "ASC"`, or `{ id: "ASC" }`. */
  function OrderColumn(q: Query): Column {
    q.orderBy.GetOr(IdColumn)
  }

  function OrderDirection(q: Query): Direction {
    if q.orderBy.Some? then q.direction.GetOr(Asc) else Asc
  }

  /** A live row the query's filters let through. */
  predicate Picks(row: CodedRow, q: Query) {
    Live(row) && Matches(row, q)
  }

  /** The rows the query selects, in the order it asks for. */
  function Selected(rows: seq<CodedRow>, q: Query): seq<CodedRow> {
    SortBy(Select(rows, (row: CodedRow) => Picks(row, q)), ColumnKey(OrderColumn(q)), OrderDirection(q))
  }

  /** `paginateAssetGroups` / `paginateAssetFlows` / `paginatePartners`. */
  function Listing(rows: seq<CodedRow>, q: Query): (r: Page<CodedRow>)
    ensures r.page == q.page.GetOr(1) && r.pageSize == q.pageSize.GetOr(10)
    ensures r.total <= |rows|
  {
    var picked := Select(rows, (row: CodedRow) => Picks(row, q));
    assert |Selected(rows, q)| == |multiset(Selected(rows, q))| == |multiset(picked)| == |picked|;
    Paginate(Selected(rows, q), q.page, q.pageSize)
  }

  /** The total of a listing counts every live matching row, whatever the
      page. */
  lemma ListingTotal(rows: seq<CodedRow>, q: Query)
    ensures Listing(rows, q).total == |Select(rows, (row: CodedRow) => Picks(row, q))|
  {
    var picked := Select(rows, (row: CodedRow) => Picks(row, q));
    SortByCorrect(picked, ColumnKey(OrderColumn(q)), OrderDirection(q));
    assert |Selected(rows, q)| == |multiset(Selected(rows, q))| == |multiset(picked)| == |picked|;
  }

  /** A listing's page holds only live rows that match the query. */
  lemma ListingMatches(rows: seq<CodedRow>, q: Query)
    ensures forall i :: 0 <= i < |Listing(rows, q).data| ==> Listing(rows, q).data[i] in rows && Picks(Listing(rows, q).data[i], q)
  {
    var picked := Select(rows, (row: CodedRow) => Picks(row, q));
    var ordered := Selected(rows, q);
    SortByMembers(picked, ColumnKey(OrderColumn(q)), OrderDirection(q));
    PageMembers(ordered, q.page, q.pageSize);
    var data := Listing(rows, q).data;
    forall i | 0 <= i < |data| ensures data[i] in rows && Picks(data[i], q) {
      assert data[i] in ordered;
      assert data[i] in picked;
    }
  }

  /** A listing's page is in the requested order. */
  lemma ListingOrdered(rows: seq<CodedRow>, q: Query)
    ensures SortedBy(Listing(rows, q).data, ColumnKey(OrderColumn(q)), OrderDirection(q))
  {
    var picked := Select(rows, (row: CodedRow) => Picks(row, q));
    var ordered := Selected(rows, q);
    SortByCorrect(picked, ColumnKey(OrderColumn(q)), OrderDirection(q));
    var lo := PageIsSlice(ordered, q.page, q.pageSize);
    SortedSlice(ordered, lo, lo + |Listing(rows, q).data|, ColumnKey(OrderColumn(q)), OrderDirection(q));
  }

  /** With no filter and no order column a listing pages through the live rows
      in id order. */
  lemma UnfilteredListing(rows: seq<CodedRow>, nextId: int, q: Query)
    requires WellFormed(rows, nextId)
    requires q.searchCode == q.searchName == q.searchStatus == q.searchNote == [] && q.orderBy.None?
    ensures Listing(rows, q) == Paginate(Select(rows, (row: CodedRow) => Live(row)), q.page, q.pageSize)
  {
    var keep := (row: CodedRow) => Picks(row, q);
    var live := (row: CodedRow) => Live(row);
    SelectSame(rows, keep, live);
    var picked := Select(rows, live);
    SelectKeepsOrder(rows, live, (a: CodedRow, b: CodedRow) => a.id < b.id);
    SortedIsFixpoint(picked, ColumnKey(IdColumn), Asc);
  }

  /** Two filters that agree on every row select the same rows. */
  lemma {:induction false} SelectSame<T>(s: seq<T>, f: T -> bool, g: T -> bool)
    requires forall i :: 0 <= i < |s| ==> f(s[i]) == g(s[i])
    ensures Select(s, f) == Select(s, g)
  {
    if s != [] {
      SelectSame(s[1..], f, g);
    }
  }

  /** A live active row. */
  predicate ActiveRow(row: CodedRow) {
    Live(row) && row.status == Active
  }

  /** The live active rows by name. */
  function ActiveByName(rows: seq<CodedRow>): seq<CodedRow> {
    SortBy(Select(rows, ActiveRow), ColumnKey(NameColumn), Asc)
  }

  /** `getActiveAssetGroups` / `getActiveAssetFlows` / `getActivePartners`:
      the id and name of every live active row, by name. */
  function ActiveEntries(rows: seq<CodedRow>): (r: seq<(int, string)>)
    ensures |r| <= |rows|
    ensures r == [] <==> forall j :: 0 <= j < |rows| ==> !ActiveRow(rows[j])
  {
    var picked := Select(rows, ActiveRow);
    var byName := ActiveByName(rows);
    assert |byName| == |multiset(byName)| == |multiset(picked)| == |picked|;
    assert byName == [] <==> picked == [];
    assert picked != [] ==> picked[0] in picked;
    seq(|byName|, i requires 0 <= i < |byName| => (byName[i].id, byName[i].name))
  }

  /** Every entry of the active list is a live active row. */
  lemma ActiveEntriesSound(rows: seq<CodedRow>)
    ensures forall i :: 0 <= i < |ActiveEntries(rows)| ==>
              exists j :: 0 <= j < |rows| && ActiveRow(rows[j]) && ActiveEntries(rows)[i] == (rows[j].id, rows[j].name)
  {
    var picked := Select(rows, ActiveRow);
    var byName := ActiveByName(rows);
    var r := ActiveEntries(rows);
    SortByMembers(picked, ColumnKey(NameColumn), Asc);
    forall i | 0 <= i < |r|
      ensures exists j :: 0 <= j < |rows| && ActiveRow(rows[j]) && r[i] == (rows[j].id, rows[j].name)
    {
      assert byName[i] in picked;
      var j :| 0 <= j < |rows| && rows[j] == byName[i];
      assert r[i] == (rows[j].id, rows[j].name);
    }
  }

  /** Every live active row is on the active list. */
  lemma ActiveEntriesComplete(rows: seq<CodedRow>)
    ensures forall j :: 0 <= j < |rows| && ActiveRow(rows[j]) ==> (rows[j].id, rows[j].name) in ActiveEntries(rows)
  {
    var picked := Select(rows, ActiveRow);
    var byName := ActiveByName(rows);
    var r := ActiveEntries(rows);
    SortByCorrect(picked, ColumnKey(NameColumn), Asc);
    forall j | 0 <= j < |rows| && ActiveRow(rows[j]) ensures (rows[j].id, rows[j].name) in r {
      assert rows[j] in picked;
      assert rows[j] in multiset(picked);
      assert rows[j] in multiset(byName);
      var i :| 0 <= i < |byName| && byName[i] == rows[j];
      assert r[i] == (rows[j].id, rows[j].name);
    }
  }

  /** The active list is ordered by name. */
  lemma ActiveEntriesByName(rows: seq<CodedRow>)
    ensures forall i, j :: 0 <= i < j < |ActiveEntries(rows)| ==> LexLe(ActiveEntries(rows)[i].1, ActiveEntries(rows)[j].1)
  {
    var picked := Select(rows, ActiveRow);
    var byName := ActiveByName(rows);
    var r := ActiveEntries(rows);
    SortByCorrect(picked, ColumnKey(NameColumn), Asc);
    forall i, j | 0 <= i < j < |r| ensures LexLe(r[i].1, r[j].1) {
      assert InOrder(ColumnKey(NameColumn)(byName[i]), ColumnKey(NameColumn)(byName[j]), Asc);
    }
  }
}
