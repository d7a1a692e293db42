/** The in-memory picture of the catalogue tables: one `Row` per record with
    the columns every catalogue entity shares (id, code, name, status, note and
    the soft-delete column), the entity-specific columns in `extra`, and the
    lookups the services make through the ORM.

    Modelling assumption: every default read of the ORM (`findOne`, `find`,
    `findOneBy`, a query builder without `withDeleted`) sees only live rows,
    that is rows whose `deletedAt` is `None`. */
module Tables {
  import opened Common

  datatype Row<X> = Row(
    id: int,
    code: string,
    name: string,
    status: Status,
    note: Option<string>,
    extra: X,
    deletedAt: Option<int>)

  /** `ManagementType` of an asset type. */
  datatype Management = Quantity | ByCode {
    function Name(): string {
      if Quantity? then "quantity" else "code"
    }
  }

  /** The columns of an asset type besides the shared ones: its group. */
  datatype TypeInfo = TypeInfo(groupId: int, management: Management)

  /** `ProductType` */
  datatype ProductKind = Goods | Service {
    function Name(): string {
      if Goods? then "product" else "service"
    }
  }

  /** `ProductGroup` */
  datatype ProductGroup = Telecommunications | IT | RD | FixedAsset | BuildingInfrastructure | OtherGroup {
    function Name(): string {
      match this
      case Telecommunications => "telecommunications"
      case IT => "IT"
      case RD => "RD"
      case FixedAsset => "fixedasset"
      case BuildingInfrastructure => "buildingindorinfras"
      case OtherGroup => "other"
    }
  }

  /** The columns of a product besides the shared ones; `partners` holds the
      ids of the `partner_supplier` links and `createdAt` the creation time. */
  datatype ProductInfo = ProductInfo(
    kind: ProductKind,
    group: ProductGroup,
    assetTypeId: int,
    assetFlowId: int,
    unitId: int,
    partners: seq<int>,
    createdAt: int)

  type GroupRow = Row<()>
  type FlowRow = Row<()>
  type PartnerRow = Row<()>
  type TypeRow = Row<TypeInfo>
  type ProductRow = Row<ProductInfo>

  predicate Live<X>(r: Row<X>) {
    r.deletedAt.None?
  }

  /** Rows are kept in insertion order: auto-increment ids, strictly
      increasing, positive and below the next id to hand out. */
  predicate WellFormed<X>(rows: seq<Row<X>>, nextId: int) {
    && (forall i, j :: 0 <= i < j < |rows| ==> rows[i].id < rows[j].id)
    && (forall i :: 0 <= i < |rows| ==> 1 <= rows[i].id < nextId)
  }

  /** `findOneBy({ id })`: the position of the live row with this id. */
  function FindLive<X>(rows: seq<Row<X>>, id: int): (r: Option<nat>)
    ensures r.Some? ==> r.value < |rows| && rows[r.value].id == id && Live(rows[r.value])
    ensures r.None? ==> forall i :: 0 <= i < |rows| ==> !(rows[i].id == id && Live(rows[i]))
  {
    if rows == [] then None
    else if rows[0].id == id && Live(rows[0]) then Some(0)
    else match FindLive(rows[1..], id)
      case None => None
      case Some(k) => Some(k + 1)
  }

  /** There is a live row with this id. */
  predicate HasLive<X>(rows: seq<Row<X>>, id: int) {
    exists i :: 0 <= i < |rows| && rows[i].id == id && Live(rows[i])
  }

  /** `findOne({ where: { code, id: Not(except) } })` finds a row: some live row,
      other than the one with id `except`, already carries this code. */
  predicate CodeTaken<X>(rows: seq<Row<X>>, code: string, except: Option<int>) {
    exists i :: 0 <= i < |rows| && Live(rows[i]) && rows[i].code == code && Some(rows[i].id) != except
  }

  /** The same lookup on the name column. */
  predicate NameTaken<X>(rows: seq<Row<X>>, name: string, except: Option<int>) {
    exists i :: 0 <= i < |rows| && Live(rows[i]) && rows[i].name == name && Some(rows[i].id) != except
  }

  /** No two live rows share a code, and no two share a name. */
  predicate UniqueLive<X>(rows: seq<Row<X>>) {
    forall i, j :: 0 <= i < j < |rows| && Live(rows[i]) && Live(rows[j]) ==>
      rows[i].code != rows[j].code && rows[i].name != rows[j].name
  }

  /** No two live rows share a name. The tables whose generated codes are
      never checked against the table keep only this. */
  predicate UniqueNames<X>(rows: seq<Row<X>>) {
    forall i, j :: 0 <= i < j < |rows| && Live(rows[i]) && Live(rows[j]) ==> rows[i].name != rows[j].name
  }

  /** The codes of the live rows, in table order. */
  function LiveCodes<X>(rows: seq<Row<X>>): (r: seq<string>)
    ensures forall c :: c in r <==> exists i :: 0 <= i < |rows| && Live(rows[i]) && rows[i].code == c
  {
    if rows == [] then []
    else
      var rest := LiveCodes(rows[1..]);
      assert forall i :: 1 <= i < |rows| ==> rows[i] == rows[1..][i - 1];
      if Live(rows[0]) then [rows[0].code] + rest else rest
  }

  /** Appending a row with the next id keeps the table well formed. */
  lemma AppendWellFormed<X>(rows: seq<Row<X>>, nextId: int, row: Row<X>)
    requires WellFormed(rows, nextId) && row.id == nextId && nextId >= 1
    ensures WellFormed(rows + [row], nextId + 1)
  {
  }

  /** A new live row keeps codes and names unique when neither is taken. */
  lemma AppendUnique<X>(rows: seq<Row<X>>, row: Row<X>)
    requires UniqueLive(rows)
    requires !CodeTaken(rows, row.code, None) && !NameTaken(rows, row.name, None)
    ensures UniqueLive(rows + [row])
  {
    var t := rows + [row];
    forall i, j | 0 <= i < j < |t| && Live(t[i]) && Live(t[j])
      ensures t[i].code != t[j].code && t[i].name != t[j].name
    {
      if j == |rows| {
        assert t[i] == rows[i];
      }
    }
  }

  /** The rows after the first are well formed too, with greater ids. */
  lemma WellFormedTail<X>(rows: seq<Row<X>>, nextId: int)
    requires rows != [] && WellFormed(rows, nextId)
    ensures WellFormed(rows[1..], nextId)
    ensures forall i :: 0 <= i < |rows[1..]| ==> rows[0].id < rows[1..][i].id
  {
    var tail := rows[1..];
    forall i, j | 0 <= i < j < |tail| ensures tail[i].id < tail[j].id {
      assert tail[i] == rows[i + 1] && tail[j] == rows[j + 1];
    }
    forall i | 0 <= i < |tail| ensures rows[0].id < tail[i].id {
      assert tail[i] == rows[i + 1];
    }
  }

  /** A new row whose name is not taken keeps live names unique. */
  lemma AppendUniqueName<X>(rows: seq<Row<X>>, row: Row<X>)
    requires UniqueNames(rows) && !NameTaken(rows, row.name, None)
    ensures UniqueNames(rows + [row])
  {
    var t := rows + [row];
    forall i, j | 0 <= i < j < |t| && Live(t[i]) && Live(t[j]) ensures t[i].name != t[j].name {
      if j == |rows| {
        assert t[i] == rows[i];
      }
    }
  }

  /** Replacing the row at `k` keeps codes and names unique when its new code
      and name are not taken by any other live row. */
  lemma ReplaceUnique<X>(rows: seq<Row<X>>, nextId: int, k: nat, row: Row<X>)
    requires WellFormed(rows, nextId) && UniqueLive(rows)
    requires k < |rows| && row.id == rows[k].id
    requires !CodeTaken(rows, row.code, Some(row.id)) && !NameTaken(rows, row.name, Some(row.id))
    ensures UniqueLive(rows[k := row])
  {
    var t := rows[k := row];
    forall i, j | 0 <= i < j < |t| && Live(t[i]) && Live(t[j])
      ensures t[i].code != t[j].code && t[i].name != t[j].name
    {
      if i == k {
        assert rows[j].id != row.id;
      } else if j == k {
        assert rows[i].id != row.id;
      }
    }
  }

  /** Replacing the row at `k` keeps live names unique when its new name is
      not taken by any other live row. */
  lemma ReplaceUniqueName<X>(rows: seq<Row<X>>, nextId: int, k: nat, row: Row<X>)
    requires WellFormed(rows, nextId) && UniqueNames(rows)
    requires k < |rows| && row.id == rows[k].id && !NameTaken(rows, row.name, Some(row.id))
    ensures UniqueNames(rows[k := row])
  {
    var t := rows[k := row];
    forall i, j | 0 <= i < j < |t| && Live(t[i]) && Live(t[j]) ensures t[i].name != t[j].name {
      if i == k {
        assert rows[j].id != row.id;
      } else if j == k {
        assert rows[i].id != row.id;
      }
    }
  }

  /** `softDelete().where("id = :id")`: the row at `k` gets its deletion time
      and stays in the table. */
  function SoftDelete<X>(rows: seq<Row<X>>, k: nat, now: int): seq<Row<X>>
    requires k < |rows|
  {
    rows[k := rows[k].(deletedAt := Some(now))]
  }

  /** A soft delete keeps every row and every id, retires exactly the row at
      `k`, and keeps the table well formed and its live codes and names unique. */
  lemma SoftDeletePreserves<X>(rows: seq<Row<X>>, nextId: int, k: nat, now: int)
    requires k < |rows| && WellFormed(rows, nextId) && UniqueLive(rows)
    ensures |SoftDelete(rows, k, now)| == |rows|
    ensures forall i :: 0 <= i < |rows| ==> SoftDelete(rows, k, now)[i].id == rows[i].id
    ensures forall i :: 0 <= i < |rows| ==> (Live(SoftDelete(rows, k, now)[i]) <==> i != k && Live(rows[i]))
    ensures WellFormed(SoftDelete(rows, k, now), nextId) && UniqueLive(SoftDelete(rows, k, now))
  {
  }
}
