/** `AssetGroupService`: the asset-group table, its create, update and soft
    delete, and the import of already-read sheet rows. The rules it shares
    with the asset-flow service are in module Catalog. */
module AssetGroups {
  import opened Common
  import opened Text
  import opened Tables
  import opened CodeGen
  import opened Catalog

  /** Some live asset type belongs to the group with this id. */
  predicate GroupInUse(types: seq<TypeRow>, id: int) {
    exists i :: 0 <= i < |types| && Live(types[i]) && types[i].extra.groupId == id
  }

  /** `deleteAssetGroup`: the position of the row to retire, or the error. */
  function DeleteGroup(groups: seq<GroupRow>, types: seq<TypeRow>, id: int): (r: Result<nat>)
    ensures r.Ok? <==> HasLive(groups, id) && !GroupInUse(types, id)
    ensures r.Ok? ==> r.value < |groups| && groups[r.value].id == id && Live(groups[r.value])
    ensures !HasLive(groups, id) ==> r == Err(NotFound("Asset Group with id " + IntToString(id)))
    ensures r.Err? && r.error.CannotDelete? ==>
              GroupInUse(types, id) && exists k :: 0 <= k < |groups| && groups[k].id == id && Live(groups[k])
                                                  && r.error == CannotDelete("Asset Group " + groups[k].code)
  {
    match FindLive(groups, id)
    case None => Err(NotFound("Asset Group with id " + IntToString(id)))
    case Some(k) =>
      if GroupInUse(types, id) then Err(CannotDelete("Asset Group " + groups[k].code))
      else Ok(k)
  }

  /** Every live asset type belongs to a live group. */
  predicate TypesAnchored(groups: seq<GroupRow>, types: seq<TypeRow>) {
    forall i :: 0 <= i < |types| && Live(types[i]) ==> HasLive(groups, types[i].extra.groupId)
  }

  /** Deleting a group never leaves an asset type without its group. */
  lemma DeleteKeepsTypesAnchored(groups: seq<GroupRow>, types: seq<TypeRow>, id: int, now: int)
    requires TypesAnchored(groups, types)
    ensures DeleteGroup(groups, types, id).Ok? ==>
              TypesAnchored(SoftDelete(groups, DeleteGroup(groups, types, id).value, now), types)
  {
    var r := DeleteGroup(groups, types, id);
    if r.Ok? {
      var k := r.value;
      var after := SoftDelete(groups, k, now);
      forall i | 0 <= i < |types| && Live(types[i]) ensures HasLive(after, types[i].extra.groupId) {
        var j :| 0 <= j < |groups| && groups[j].id == types[i].extra.groupId && Live(groups[j]);
        assert j != k;
        assert after[j] == groups[j];
      }
    }
  }

  // ---------------------------------------------------------------------
  // Import

  /** One sheet row as read: the four cells as text (an empty cell is ""). */
  datatype SheetRow = SheetRow(code: string, name: string, status: string, note: string)

  /** Why a sheet row was not imported. */
  datatype ImportIssue =
    | InvalidCode
    | MissingName
    | NameTooLong
    | InvalidStatus
    | CodeExists(code: string)
    | NameExists(name: string)
  {
    function Message(): string {
      match this
      case InvalidCode => "Mã nhóm không hợp lệ"
      case MissingName => "Tên nhóm không được để trống"
      case NameTooLong => "Tên nhóm vượt quá 50 ký tự"
      case InvalidStatus => "Trạng thái phải là ACTIVE hoặc INACTIVE"
      case CodeExists(code) => "Mã nhóm '" + code + "' đã tồn tại"
      case NameExists(name) => "Tên nhóm '" + name + "' đã tồn tại"
    }
  }

  /** An entry of the `errors` list: the sheet row number and the issue. */
  datatype ImportError = ImportError(row: int, issue: ImportIssue)

  /** What one sheet row comes to. */
  datatype RowOutcome = Skipped | Rejected(issue: ImportIssue) | Inserted(row: GroupRow)

  /** The cells as the loop reads them: trimmed, the status also lower-cased. */
  datatype Cells = Cells(code: string, name: string, status: string, note: string)

  function Normalise(s: SheetRow): (c: Cells)
    ensures c.code == Trim(s.code) && c.name == Trim(s.name) && c.note == Trim(s.note)
    ensures |c.status| == |Trim(s.status)|
    ensures forall i :: 0 <= i < |c.status| ==> !('A' <= c.status[i] <= 'Z')
  {
    Cells(Trim(s.code), Trim(s.name), ToLowerAscii(Trim(s.status)), Trim(s.note))
  }

  /** Every cell is empty: the row is passed over. */
  predicate Blank(c: Cells) {
    c.code == [] && c.name == [] && c.status == [] && c.note == []
  }

  /** The outcome of one row against the table as it stands. Unlike
      `createAssetGroup`, a generated code goes through the code check too, and
      the status must read `active` or `inactive`. */
  function Outcome(groups: seq<GroupRow>, nextId: int, c: Cells): (r: RowOutcome)
    ensures r.Skipped? <==> Blank(c)
    ensures r.Inserted? ==>
              && r.row.id == nextId && Live(r.row)
              && ValidCode(r.row.code) && ValidName(r.row.name)
              && !CodeTaken(groups, r.row.code, None) && !NameTaken(groups, r.row.name, None)
              && r.row.name == c.name && r.row.note == Some(c.note)
              && (c.code != [] ==> r.row.code == c.code)
  {
    if Blank(c) then Skipped
    else
      var code := if c.code == [] then NextPatternCode(LiveCodes(groups), "NTS") else c.code;
      if !ValidCode(code) then Rejected(InvalidCode)
      else if c.name == [] then Rejected(MissingName)
      else if |c.name| > 50 then Rejected(NameTooLong)
      else if c.status != "active" && c.status != "inactive" then Rejected(InvalidStatus)
      else if CodeTaken(groups, code, None) then Rejected(CodeExists(code))
      else if NameTaken(groups, c.name, None) then Rejected(NameExists(c.name))
      else Inserted(Row(nextId, code, c.name, if c.status == "active" then Active else Inactive, Some(c.note), (), None))
  }

  /** The table and the two results while the import runs. */
  datatype ImportState = ImportState(groups: seq<GroupRow>, nextId: int, success: nat, errors: seq<ImportError>)

  /** What an outcome does to the state. */
  function Apply(st: ImportState, o: RowOutcome, rowNum: int): ImportState {
    match o
    case Skipped => st
    case Rejected(issue) => st.(errors := st.errors + [ImportError(rowNum, issue)])
    case Inserted(row) => st.(groups := st.groups + [row], nextId := st.nextId + 1, success := st.success + 1)
  }

  /** One turn of the row loop. */
  function Step(st: ImportState, s: SheetRow, rowNum: int): (r: ImportState)
    ensures r.success + |r.errors| == st.success + |st.errors| + (if Blank(Normalise(s)) then 0 else 1)
    ensures |r.groups| == |st.groups| + (r.success - st.success) && st.groups <= r.groups
  {
    var o := Outcome(st.groups, st.nextId, Normalise(s));
    ApplyCounts(st, o, rowNum);
    Apply(st, o, rowNum)
  }

  /** The row loop from sheet row `rowNum` on. */
  function ImportFrom(st: ImportState, sheet: seq<SheetRow>, rowNum: int): ImportState
    decreases |sheet|
  {
    if sheet == [] then st else ImportFrom(Step(st, sheet[0], rowNum), sheet[1..], rowNum + 1)
  }

  /** `importAssetGroups` over the rows from row 3 on. */
  function Import(groups: seq<GroupRow>, nextId: int, sheet: seq<SheetRow>): (r: ImportState)
    ensures r.success + |r.errors| == NonBlank(sheet)
    ensures |r.groups| == |groups| + r.success && groups <= r.groups
  {
    var fin := ImportFrom(ImportState(groups, nextId, 0, []), sheet, 3);
    ImportAccounting(ImportState(groups, nextId, 0, []), sheet, 3);
    assert fin.groups[..|groups|] == groups;
    fin
  }

  /** The rows that are not blank. */
  function NonBlank(sheet: seq<SheetRow>): nat {
    if sheet == [] then 0 else (if Blank(Normalise(sheet[0])) then 0 else 1) + NonBlank(sheet[1..])
  }

  /** The table invariant holds after every turn of the loop. */
  lemma StepPreserves(st: ImportState, s: SheetRow, rowNum: int)
    requires st.nextId >= 1 && WellFormed(st.groups, st.nextId) && UniqueLive(st.groups)
    ensures var st' := Step(st, s, rowNum);
      st'.nextId >= 1 && WellFormed(st'.groups, st'.nextId) && UniqueLive(st'.groups)
  {
    ApplyPreserves(st, Outcome(st.groups, st.nextId, Normalise(s)), rowNum);
  }

  /** The same for an outcome that inserts only rows the checks let through. */
  lemma ApplyPreserves(st: ImportState, o: RowOutcome, rowNum: int)
    requires st.nextId >= 1 && WellFormed(st.groups, st.nextId) && UniqueLive(st.groups)
    requires o.Inserted? ==> o.row.id == st.nextId && !CodeTaken(st.groups, o.row.code, None) && !NameTaken(st.groups, o.row.name, None)
    ensures var st' := Apply(st, o, rowNum);
      st'.nextId >= 1 && WellFormed(st'.groups, st'.nextId) && UniqueLive(st'.groups)
  {
    if o.Inserted? {
      AppendWellFormed(st.groups, st.nextId, o.row);
      AppendUnique(st.groups, o.row);
    }
  }

  /** A turn of the loop applies the outcome of its row. */
  lemma StepApplies(st: ImportState, s: SheetRow, rowNum: int, o: RowOutcome)
    requires o == Outcome(st.groups, st.nextId, Normalise(s))
    ensures Step(st, s, rowNum) == Apply(st, o, rowNum)
  {
  }

  /** An import keeps the table well formed and its live codes and names
      unique, even when the sheet repeats a code or a name. */
  lemma {:induction false} ImportPreserves(st: ImportState, sheet: seq<SheetRow>, rowNum: int)
    requires st.nextId >= 1 && WellFormed(st.groups, st.nextId) && UniqueLive(st.groups)
    ensures var fin := ImportFrom(st, sheet, rowNum);
      fin.nextId >= 1 && WellFormed(fin.groups, fin.nextId) && UniqueLive(fin.groups)
    decreases |sheet|
  {
    if sheet != [] {
      StepPreserves(st, sheet[0], rowNum);
      ImportPreserves(Step(st, sheet[0], rowNum), sheet[1..], rowNum + 1);
    }
  }

  /** The first turn of the loop. */
  lemma ImportFromFirst(st: ImportState, sheet: seq<SheetRow>, rowNum: int)
    requires sheet != []
    ensures ImportFrom(st, sheet, rowNum)
            == ImportFrom(Apply(st, Outcome(st.groups, st.nextId, Normalise(sheet[0])), rowNum), sheet[1..], rowNum + 1)
  {
  }

  /** The turn of the loop for row `k` of the sheet. */
  lemma ImportFromAt(st: ImportState, sheet: seq<SheetRow>, k: nat, rowNum: int)
    requires k < |sheet|
    ensures ImportFrom(st, sheet[k..], rowNum) == ImportFrom(Step(st, sheet[k], rowNum), sheet[k + 1..], rowNum + 1)
  {
    assert sheet[k..][1..] == sheet[k + 1..];
  }

  /** A skipped row changes nothing; any other outcome adds one success or
      one error, and the table only ever grows at its end. */
  lemma ApplyCounts(st: ImportState, o: RowOutcome, rowNum: int)
    ensures var st' := Apply(st, o, rowNum);
      && st'.success + |st'.errors| == st.success + |st.errors| + (if o.Skipped? then 0 else 1)
      && st.success <= st'.success && |st'.groups| == |st.groups| + (st'.success - st.success)
      && (forall i :: 0 <= i < |st.groups| ==> st'.groups[i] == st.groups[i])
      && (o.Rejected? ==> st'.errors == st.errors + [ImportError(rowNum, o.issue)])
      && (!o.Rejected? ==> st'.errors == st.errors)
  {
  }

  /** One turn keeps the error rows below the next row number and ascending. */
  lemma ApplyErrorRows(st: ImportState, o: RowOutcome, rowNum: int)
    requires forall i :: 0 <= i < |st.errors| ==> st.errors[i].row < rowNum
    requires forall i, j :: 0 <= i < j < |st.errors| ==> st.errors[i].row < st.errors[j].row
    ensures RowsFrom(st.errors, Apply(st, o, rowNum).errors, rowNum, rowNum + 1)
    ensures forall i :: 0 <= i < |Apply(st, o, rowNum).errors| ==> Apply(st, o, rowNum).errors[i].row < rowNum + 1
  {
  }

  /** The same for one turn of the loop. */
  lemma StepErrorRows(st: ImportState, s: SheetRow, rowNum: int)
    requires forall i :: 0 <= i < |st.errors| ==> st.errors[i].row < rowNum
    requires forall i, j :: 0 <= i < j < |st.errors| ==> st.errors[i].row < st.errors[j].row
    ensures RowsFrom(st.errors, Step(st, s, rowNum).errors, rowNum, rowNum + 1)
    ensures forall i :: 0 <= i < |Step(st, s, rowNum).errors| ==> Step(st, s, rowNum).errors[i].row < rowNum + 1
  {
    ApplyErrorRows(st, Outcome(st.groups, st.nextId, Normalise(s)), rowNum);
  }

  /** Every row that is not blank yields exactly one outcome: a success or one
      error; a success adds exactly one row at the end of the table and the
      rows already there stay as they are. */
  lemma {:induction false} ImportAccounting(st: ImportState, sheet: seq<SheetRow>, rowNum: int)
    ensures var fin := ImportFrom(st, sheet, rowNum);
      && fin.success + |fin.errors| == st.success + |st.errors| + NonBlank(sheet)
      && st.success <= fin.success && |fin.groups| == |st.groups| + (fin.success - st.success)
      && (forall i :: 0 <= i < |st.groups| ==> fin.groups[i] == st.groups[i])
    decreases |sheet|
  {
    if sheet != [] {
      var o := Outcome(st.groups, st.nextId, Normalise(sheet[0]));
      var st' := Apply(st, o, rowNum);
      ApplyCounts(st, o, rowNum);
      ImportAccounting(st', sheet[1..], rowNum + 1);
      ImportFromFirst(st, sheet, rowNum);
    }
  }

  /** Error rows past `lo` that lie in `[lo, hi)` and ascend. */
  predicate RowsFrom(before: seq<ImportError>, after: seq<ImportError>, lo: int, hi: int) {
    && |before| <= |after|
    && (forall i :: 0 <= i < |before| ==> after[i] == before[i])
    && (forall i :: |before| <= i < |after| ==> lo <= after[i].row < hi)
    && (forall i, j :: 0 <= i < j < |after| ==> after[i].row < after[j].row)
  }

  /** The errors of one turn followed by those of the rest of the loop. */
  lemma RowsFromChain(a: seq<ImportError>, b: seq<ImportError>, c: seq<ImportError>, n: int, hi: int)
    requires n + 1 <= hi && RowsFrom(a, b, n, n + 1) && RowsFrom(b, c, n + 1, hi)
    ensures RowsFrom(a, c, n, hi)
  {
  }

  /** Errors carry the row numbers they were found on, in ascending order,
      each between the first row read and the last. */
  lemma {:induction false} ImportErrorRows(st: ImportState, sheet: seq<SheetRow>, rowNum: int)
    requires forall i :: 0 <= i < |st.errors| ==> st.errors[i].row < rowNum
    requires forall i, j :: 0 <= i < j < |st.errors| ==> st.errors[i].row < st.errors[j].row
    ensures RowsFrom(st.errors, ImportFrom(st, sheet, rowNum).errors, rowNum, rowNum + |sheet|)
    decreases |sheet|
  {
    if sheet != [] {
      var st' := Step(st, sheet[0], rowNum);
      StepErrorRows(st, sheet[0], rowNum);
      ImportErrorRows(st', sheet[1..], rowNum + 1);
      RowsFromChain(st.errors, st'.errors, ImportFrom(st', sheet[1..], rowNum + 1).errors, rowNum, rowNum + |sheet|);
    }
  }

  /** A row whose code is live in the table and that passes the checks
      before the code check is rejected as an existing code. */
  lemma TakenCodeRejected(groups: seq<GroupRow>, nextId: int, c: Cells)
    requires c.code != [] && ValidCode(c.code) && CodeTaken(groups, c.code, None)
    requires c.name != [] && |c.name| <= 50 && (c.status == "active" || c.status == "inactive")
    ensures Outcome(groups, nextId, c) == Rejected(CodeExists(c.code))
  {
  }

  /** The duplicate checks see the rows inserted earlier in the same import:
      when a row goes in, a later row with the same code that passes the other
      checks is reported as an existing code on its own row number. */
  lemma DuplicateWithinImport(st: ImportState, a: SheetRow, b: SheetRow, rowNum: int)
    requires Outcome(st.groups, st.nextId, Normalise(a)).Inserted?
    requires var ca, cb := Normalise(a), Normalise(b);
      && ca.code != [] && cb.code == ca.code
      && cb.name != [] && |cb.name| <= 50 && (cb.status == "active" || cb.status == "inactive")
    ensures var fin := ImportFrom(st, [a, b], rowNum);
      && fin.success == st.success + 1
      && fin.errors == st.errors + [ImportError(rowNum + 1, CodeExists(Normalise(a).code))]
  {
    InsertedStep(st, a, rowNum);
    var st1 := Step(st, a, rowNum);
    RejectedStep(st1, b, rowNum + 1);
    TwoRows(st, a, b, rowNum);
  }

  /** A row that goes in adds one success, keeps the errors, and leaves its
      code live in the table; a supplied code is a valid one. */
  lemma InsertedStep(st: ImportState, a: SheetRow, rowNum: int)
    requires Outcome(st.groups, st.nextId, Normalise(a)).Inserted?
    ensures var st1 := Step(st, a, rowNum);
      && st1.success == st.success + 1 && st1.errors == st.errors
      && CodeTaken(st1.groups, Outcome(st.groups, st.nextId, Normalise(a)).row.code, None)
      && (Normalise(a).code != [] ==> ValidCode(Normalise(a).code)
                                      && Outcome(st.groups, st.nextId, Normalise(a)).row.code == Normalise(a).code)
  {
    var o := Outcome(st.groups, st.nextId, Normalise(a));
    StepApplies(st, a, rowNum, o);
    var st1 := Apply(st, o, rowNum);
    assert st1.groups[|st.groups|] == o.row;
  }

  /** A row whose code is already live, with a name and a status that pass,
      adds the existing-code error on its row number and nothing else. */
  lemma RejectedStep(st: ImportState, b: SheetRow, rowNum: int)
    requires var cb := Normalise(b);
      && cb.code != [] && ValidCode(cb.code) && CodeTaken(st.groups, cb.code, None)
      && cb.name != [] && |cb.name| <= 50 && (cb.status == "active" || cb.status == "inactive")
    ensures Step(st, b, rowNum).success == st.success
    ensures Step(st, b, rowNum).errors == st.errors + [ImportError(rowNum, CodeExists(Normalise(b).code))]
  {
    TakenCodeRejected(st.groups, st.nextId, Normalise(b));
    StepApplies(st, b, rowNum, Rejected(CodeExists(Normalise(b).code)));
  }

  /** An import of two rows is two turns of the loop. */
  lemma TwoRows(st: ImportState, a: SheetRow, b: SheetRow, rowNum: int)
    ensures ImportFrom(st, [a, b], rowNum) == Step(Step(st, a, rowNum), b, rowNum + 1)
  {
    var st1 := Step(st, a, rowNum);
    assert [a, b][1..] == [b] && [b][1..] == [];
    assert ImportFrom(st, [a, b], rowNum) == ImportFrom(st1, [b], rowNum + 1);
    assert ImportFrom(st1, [b], rowNum + 1) == ImportFrom(Step(st1, b, rowNum + 1), [], rowNum + 2);
  }

  /** Unlike `createAssetGroup`, the import checks a generated code: after
      `NTS999` a row without a code is rejected as an invalid code. */
  lemma ImportRevalidatesGeneratedCode()
    ensures var groups := [Row(1, "NTS999", "Tools", Active, None, (), None)];
      Outcome(groups, 2, Normalise(SheetRow("", "Spares", "active", ""))) == Rejected(InvalidCode)
  {
    var groups := [Row(1, "NTS999", "Tools", Active, None, (), None)];
    assert LiveCodes(groups) == ["NTS999"] by {
      assert groups[1..] == [];
    }
    NextAfterNts999();
    assert Trim("Spares") != [] by { assert !IsWhitespace('S'); }
  }

  // ---------------------------------------------------------------------
  // The service

  class AssetGroupService {
    var groups: seq<GroupRow>
    var nextId: int

    ghost predicate Valid()
      reads this
    {
      nextId >= 1 && WellFormed(groups, nextId) && UniqueLive(groups)
    }

    constructor ()
      ensures Valid() && groups == [] && nextId == 1
    {
      groups := [];
      nextId := 1;
    }

    /** `createAssetGroup` */
    method CreateAssetGroup(d: Draft) returns (r: Result<GroupRow>)
      requires Valid()
      modifies this
      ensures Valid()
      ensures r == Create(old(groups), old(nextId), GroupLabels, d)
      ensures r.Ok? ==> groups == old(groups) + [r.value] && nextId == old(nextId) + 1
      ensures r.Err? ==> groups == old(groups) && nextId == old(nextId)
    {
      var code := d.code;
      if code != [] {
        if !ValidCode(code) {
          return Err(InvalidateInput(GroupLabels.codeField));
        }
      } else {
        code := NextPatternCode(LiveCodes(groups), GroupLabels.prefix);
      }
      if !ValidName(d.name) {
        return Err(InvalidateInput(GroupLabels.nameField));
      }
      if CodeTaken(groups, code, None) {
        return Err(Existed(GroupLabels.subject + " with code " + code));
      }
      if NameTaken(groups, d.name, None) {
        return Err(Existed(GroupLabels.subject + " with name " + d.name));
      }
      var row := Row(nextId, code, d.name, d.status.GetOr(Active), d.note, (), None);
      CreatePreserves(groups, nextId, GroupLabels, d);
      groups := groups + [row];
      nextId := nextId + 1;
      r := Ok(row);
    }

    /** `updateAssetGroup`: `merge` then `save` of the one row. */
    method UpdateAssetGroup(id: int, d: Draft) returns (r: Result<GroupRow>)
      requires Valid()
      modifies this
      ensures Valid() && nextId == old(nextId)
      ensures var u := Update(old(groups), GroupLabels, id, d);
        && (u.Ok? ==> r == Ok(u.value.1) && groups == old(groups)[u.value.0 := u.value.1])
        && (u.Err? ==> r == Err(u.error) && groups == old(groups))
    {
      var found := FindLive(groups, id);
      if found.None? {
        return Err(NotFound(GroupLabels.updateSubject + " with id " + IntToString(id)));
      }
      var k := found.value;
      var code := d.code;
      if code != [] {
        if !ValidCode(code) {
          return Err(InvalidateInput(GroupLabels.codeField));
        }
      } else {
        code := NextPatternCode(LiveCodes(groups), GroupLabels.prefix);
      }
      if !ValidName(d.name) {
        return Err(InvalidateInput(GroupLabels.nameField));
      }
      if CodeTaken(groups, code, Some(id)) {
        return Err(Existed(GroupLabels.subject + " with code " + code));
      }
      if NameTaken(groups, d.name, Some(id)) {
        return Err(Existed(GroupLabels.subject + " with name " + d.name));
      }
      var row := groups[k];
      row := row.(code := code, name := d.name);
      if d.status.Some? {
        row := row.(status := d.status.value);
      }
      if d.note.Some? {
        row := row.(note := d.note);
      }
      UpdatePreserves(groups, nextId, GroupLabels, id, d);
      groups := groups[k := row];
      r := Ok(row);
    }

    /** `deleteAssetGroup`: a soft delete at time `now`, refused while an
        asset type belongs to the group. */
    method DeleteAssetGroup(id: int, types: seq<TypeRow>, now: int) returns (r: Result<()>)
      requires Valid()
      modifies this
      ensures Valid() && nextId == old(nextId)
      ensures var d := DeleteGroup(old(groups), types, id);
        && (d.Ok? ==> r == Ok(()) && groups == SoftDelete(old(groups), d.value, now))
        && (d.Err? ==> r == Err(d.error) && groups == old(groups))
    {
      var found := FindLive(groups, id);
      if found.None? {
        return Err(NotFound("Asset Group with id " + IntToString(id)));
      }
      var k := found.value;
      if GroupInUse(types, id) {
        return Err(CannotDelete("Asset Group " + groups[k].code));
      }
      SoftDeletePreserves(groups, nextId, k, now);
      groups := groups[k := groups[k].(deletedAt := Some(now))];
      r := Ok(());
    }

    /** The checks of one sheet row, in the order `importAssetGroups` makes
        them, against the table as it stands. */
    method CheckRow(c: Cells) returns (o: RowOutcome)
      requires Valid()
      ensures o == Outcome(groups, nextId, c)
    {
      if c.code == [] && c.name == [] && c.status == [] && c.note == [] {
        return Skipped;
      }
      var code := c.code;
      if code == [] {
        code := NextPatternCode(LiveCodes(groups), GroupLabels.prefix);
      }
      if !ValidCode(code) {
        return Rejected(InvalidCode);
      }
      if c.name == [] {
        return Rejected(MissingName);
      }
      if |c.name| > 50 {
        return Rejected(NameTooLong);
      }
      if c.status != "active" && c.status != "inactive" {
        return Rejected(InvalidStatus);
      }
      if CodeTaken(groups, code, None) {
        return Rejected(CodeExists(code));
      }
      if NameTaken(groups, c.name, None) {
        return Rejected(NameExists(c.name));
      }
      var status := if c.status == "active" then Active else Inactive;
      o := Inserted(Row(nextId, code, c.name, status, Some(c.note), (), None));
    }

    /** One turn of the row loop: the row's checks, then the error it adds
        or the row it saves. */
    method ImportRow(s: SheetRow, rowNum: int, success: nat, errors: seq<ImportError>)
      returns (success': nat, errors': seq<ImportError>)
      requires Valid()
      modifies this
      ensures Valid()
      ensures ImportState(groups, nextId, success', errors')
              == Step(ImportState(old(groups), old(nextId), success, errors), s, rowNum)
    {
      ghost var st := ImportState(groups, nextId, success, errors);
      var o := CheckRow(Normalise(s));
      StepApplies(st, s, rowNum, o);
      success', errors' := Record(o, rowNum, success, errors);
    }

    /** The error an outcome adds or the row it saves. */
    method Record(o: RowOutcome, rowNum: int, success: nat, errors: seq<ImportError>)
      returns (success': nat, errors': seq<ImportError>)
      requires Valid()
      requires o.Inserted? ==> o.row.id == nextId && !CodeTaken(groups, o.row.code, None) && !NameTaken(groups, o.row.name, None)
      modifies this
      ensures Valid()
      ensures ImportState(groups, nextId, success', errors')
              == Apply(ImportState(old(groups), old(nextId), success, errors), o, rowNum)
    {
      ApplyPreserves(ImportState(groups, nextId, success, errors), o, rowNum);
      success', errors' := success, errors;
      match o {
        case Skipped =>
        case Rejected(issue) =>
          errors' := errors + [ImportError(rowNum, issue)];
        case Inserted(row) =>
          groups := groups + [row];
          nextId := nextId + 1;
          success' := success + 1;
      }
    }

    /** `importAssetGroups`: the row loop over the sheet rows from row 3 on,
        saving each accepted row before the next one is read. */
    method ImportAssetGroups(sheet: seq<SheetRow>) returns (success: nat, errors: seq<ImportError>)
      requires Valid()
      modifies this
      ensures Valid()
      ensures var fin := Import(old(groups), old(nextId), sheet);
        groups == fin.groups && nextId == fin.nextId && success == fin.success && errors == fin.errors
    {
      success := 0;
      errors := [];
      var k := 0;
      assert sheet[0..] == sheet;
      while k < |sheet|
        invariant 0 <= k <= |sheet| && Valid()
        invariant ImportFrom(ImportState(groups, nextId, success, errors), sheet[k..], 3 + k)
                  == Import(old(groups), old(nextId), sheet)
        decreases |sheet| - k
      {
        ImportFromAt(ImportState(groups, nextId, success, errors), sheet, k, 3 + k);
        success, errors := ImportRow(sheet[k], 3 + k, success, errors);
        k := k + 1;
      }
    }
  }
}
