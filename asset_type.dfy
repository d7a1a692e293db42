/** `AssetTypeService`: asset types belong to an asset group. A supplied code
    has at most 10 characters and is checked for duplicates; an omitted one is
    generated with the `LTS` rule and is not checked. Update validates the
    payload before it looks the row up, and delete removes the row for good. */
module AssetTypes {
  import opened Common
  import opened Text
  import opened Tables
  import opened Sorting
  import opened Paging
  import opened CodeGen
  import opened Catalog
  import opened AssetGroups

  /** `CreateAssetTypeDto`. An absent or empty code or name is `""`; an absent
      group id, management type, status or note is `None`. */
  datatype TypeDraft = TypeDraft(
    code: string,
    name: string,
    groupId: Option<int>,
    management: Option<Management>,
    status: Option<Status>,
    note: Option<string>)

  /** The first live row in table order. */
  function FirstLive<X>(rows: seq<Row<X>>): (r: Option<nat>)
    ensures r.Some? ==> r.value < |rows| && Live(rows[r.value])
                        && forall i :: 0 <= i < r.value ==> !Live(rows[i])
    ensures r.None? ==> forall i :: 0 <= i < |rows| ==> !Live(rows[i])
  {
    if rows == [] then None
    else if Live(rows[0]) then Some(0)
    else match FirstLive(rows[1..])
      case None => None
      case Some(k) => Some(k + 1)
  }

  /** `groupRepo.findOne({ where: { id: groupId } })`. An undefined value in a
      `where` is dropped, so without a group id the lookup answers the first
      live group. */
  function GroupLookup(groups: seq<GroupRow>, groupId: Option<int>): (r: Option<nat>)
    ensures r.Some? ==> r.value < |groups| && Live(groups[r.value])
    ensures groupId.Some? ==> r == FindLive(groups, groupId.value)
    ensures groupId.None? ==> (r.Some? <==> exists i :: 0 <= i < |groups| && Live(groups[i]))
  {
    match groupId
    case Some(id) => FindLive(groups, id)
    case None => FirstLive(groups)
  }

  /** The code a type ends up with: the supplied one, or the generated one. */
  function TypeCode(types: seq<TypeRow>, code: string): string {
    if code != [] then code else NextTypeCode(LiveCodes(types))
  }

  /** The checks `createAssetType` and `updateAssetType` share, in their order:
      a supplied code is valid and not taken by another row, the name is
      valid and not taken, the group exists. `except` is the id an update
      leaves out of the duplicate checks. Answers the group's position. */
  function CheckType(types: seq<TypeRow>, groups: seq<GroupRow>, except: Option<int>, d: TypeDraft): (r: Result<nat>)
    ensures r.Ok? <==> && (d.code != [] ==> ValidLongCode(d.code) && !CodeTaken(types, d.code, except))
                       && ValidName(d.name) && !NameTaken(types, d.name, except)
                       && GroupLookup(groups, d.groupId).Some?
    ensures r.Ok? ==> r.value < |groups| && Live(groups[r.value]) && GroupLookup(groups, d.groupId) == Some(r.value)
    ensures d.code != [] && !ValidLongCode(d.code) ==> r == Err(InvalidateInput("Asset type code"))
    ensures d.code != [] && ValidLongCode(d.code) && CodeTaken(types, d.code, except) ==>
              r == Err(Existed("Asset Type Code " + d.code))
    ensures (d.code != [] ==> ValidLongCode(d.code) && !CodeTaken(types, d.code, except)) && !ValidName(d.name) ==>
              r == Err(InvalidateInput("Asset type name"))
  {
    if d.code != [] && !ValidLongCode(d.code) then Err(InvalidateInput("Asset type code"))
    else if d.code != [] && CodeTaken(types, d.code, except) then Err(Existed("Asset Type Code " + d.code))
    else if !ValidName(d.name) then Err(InvalidateInput("Asset type name"))
    else if NameTaken(types, d.name, except) then Err(Existed("Asset Type Name " + d.name))
    else match GroupLookup(groups, d.groupId)
      case None => Err(NotFound("Asset Group"))
      case Some(g) => Ok(g)
  }

  /** `createAssetType`: the row to append, or the first error. A missing
      management type becomes `quantity` and a missing status `active`. */
  function CreateType(types: seq<TypeRow>, nextId: int, groups: seq<GroupRow>, d: TypeDraft): (r: Result<TypeRow>)
    ensures r.Ok? <==> CheckType(types, groups, None, d).Ok?
    ensures r.Err? ==> r.error == CheckType(types, groups, None, d).error
    ensures r.Ok? ==>
              var g := CheckType(types, groups, None, d).value;
              && r.value == Row(nextId, TypeCode(types, d.code), d.name, d.status.GetOr(Active), d.note,
                                TypeInfo(groups[g].id, d.management.GetOr(Quantity)), None)
              && HasLive(groups, r.value.extra.groupId)
  {
    match CheckType(types, groups, None, d)
    case Err(e) => Err(e)
    case Ok(g) =>
      Ok(Row(nextId, TypeCode(types, d.code), d.name, d.status.GetOr(Active), d.note,
             TypeInfo(groups[g].id, d.management.GetOr(Quantity)), None))
  }

  /** The row a create appends once the checks have found the group. */
  lemma CreateTypeChecked(types: seq<TypeRow>, nextId: int, groups: seq<GroupRow>, d: TypeDraft, g: nat)
    requires CheckType(types, groups, None, d) == Ok(g)
    ensures g < |groups|
    ensures CreateType(types, nextId, groups, d)
            == Ok(Row(nextId, TypeCode(types, d.code), d.name, d.status.GetOr(Active), d.note,
                      TypeInfo(groups[g].id, d.management.GetOr(Quantity)), None))
  {
  }

  /** `updateAssetType`: the position of the row and the row as saved, or the
      first error. The type itself is looked up only after every check has
      passed; an absent management type or status is reset to its default,
      while an absent note keeps the old one. */
  function UpdateType(types: seq<TypeRow>, groups: seq<GroupRow>, id: int, d: TypeDraft): (r: Result<(nat, TypeRow)>)
    ensures CheckType(types, groups, Some(id), d).Err? ==> r == Err(CheckType(types, groups, Some(id), d).error)
    ensures CheckType(types, groups, Some(id), d).Ok? && !HasLive(types, id) ==> r == Err(NotFound("Asset Type"))
    ensures r.Ok? <==> CheckType(types, groups, Some(id), d).Ok? && HasLive(types, id)
    ensures r.Ok? ==>
              var (k, row) := r.value;
              var g := CheckType(types, groups, Some(id), d).value;
              && k < |types| && types[k].id == id && Live(types[k])
              && row == types[k].(code := TypeCode(types, d.code), name := d.name,
                                  extra := TypeInfo(groups[g].id, d.management.GetOr(Quantity)),
                                  status := d.status.GetOr(Active),
                                  note := if d.note.Some? then d.note else types[k].note)
  {
    match CheckType(types, groups, Some(id), d)
    case Err(e) => Err(e)
    case Ok(g) =>
      match FindLive(types, id)
      case None => Err(NotFound("Asset Type"))
      case Some(k) =>
        Ok((k, types[k].(code := TypeCode(types, d.code), name := d.name,
                         extra := TypeInfo(groups[g].id, d.management.GetOr(Quantity)),
                         status := d.status.GetOr(Active),
                         note := if d.note.Some? then d.note else types[k].note)))
  }

  /** Some live product has this asset type. */
  predicate TypeInUse(products: seq<ProductRow>, id: int) {
    exists i :: 0 <= i < |products| && Live(products[i]) && products[i].extra.assetTypeId == id
  }

  /** `deleteAssetType`: the position of the row to remove, or the error. */
  function DeleteType(types: seq<TypeRow>, products: seq<ProductRow>, id: int): (r: Result<nat>)
    ensures r.Ok? <==> HasLive(types, id) && !TypeInUse(products, id)
    ensures r.Ok? ==> r.value < |types| && types[r.value].id == id
    ensures !HasLive(types, id) ==> r == Err(NotFound("Asset Type"))
    ensures HasLive(types, id) && TypeInUse(products, id) ==> r == Err(CannotDelete("This asset type"))
  {
    match FindLive(types, id)
    case None => Err(NotFound("Asset Type"))
    case Some(k) => if TypeInUse(products, id) then Err(CannotDelete("This asset type")) else Ok(k)
  }

  /** `repository.remove`: the row at `k` leaves the table. */
  function Remove<X>(rows: seq<Row<X>>, k: nat): (r: seq<Row<X>>)
    requires k < |rows|
    ensures |r| == |rows| - 1
    ensures forall i :: 0 <= i < k ==> r[i] == rows[i]
    ensures forall i :: k <= i < |r| ==> r[i] == rows[i + 1]
  {
    rows[..k] + rows[k + 1..]
  }

  // ---------------------------------------------------------------------
  // The table invariant

  /** A type that passes the checks keeps the table well formed and its
      names unique, and, since the checks found its group, every live type
      stays anchored to a live group. */
  lemma CreateTypePreserves(types: seq<TypeRow>, nextId: int, groups: seq<GroupRow>, d: TypeDraft)
    requires WellFormed(types, nextId) && nextId >= 1 && UniqueNames(types)
    ensures CreateType(types, nextId, groups, d).Ok? ==>
              var t := types + [CreateType(types, nextId, groups, d).value];
              && WellFormed(t, nextId + 1) && UniqueNames(t)
              && (TypesAnchored(groups, types) ==> TypesAnchored(groups, t))
  {
    var r := CreateType(types, nextId, groups, d);
    if r.Ok? {
      AppendWellFormed(types, nextId, r.value);
      AppendUniqueName(types, r.value);
      AppendTypeAnchored(groups, types, r.value);
    }
  }

  /** Appending a type whose group is live keeps every live type anchored. */
  lemma AppendTypeAnchored(groups: seq<GroupRow>, types: seq<TypeRow>, row: TypeRow)
    requires HasLive(groups, row.extra.groupId)
    ensures TypesAnchored(groups, types) ==> TypesAnchored(groups, types + [row])
  {
  }

  /** An update keeps the table well formed and its names unique, and every
      live type anchored to a live group. */
  lemma UpdateTypePreserves(types: seq<TypeRow>, nextId: int, groups: seq<GroupRow>, id: int, d: TypeDraft)
    requires WellFormed(types, nextId) && UniqueNames(types)
    ensures UpdateType(types, groups, id, d).Ok? ==>
              var (k, row) := UpdateType(types, groups, id, d).value;
              && WellFormed(types[k := row], nextId) && UniqueNames(types[k := row])
              && (TypesAnchored(groups, types) ==> TypesAnchored(groups, types[k := row]))
  {
    var r := UpdateType(types, groups, id, d);
    if r.Ok? {
      var (k, row) := r.value;
      assert !NameTaken(types, row.name, Some(id));
      ReplaceUniqueName(types, nextId, k, row);
      var g := CheckType(types, groups, Some(id), d).value;
      assert Live(groups[g]) && HasLive(groups, groups[g].id);
    }
  }

  /** Removing a row keeps the table well formed and its names unique, and no
      row with that id is left. */
  lemma RemovePreserves(types: seq<TypeRow>, nextId: int, k: nat)
    requires k < |types| && WellFormed(types, nextId) && UniqueNames(types)
    ensures WellFormed(Remove(types, k), nextId) && UniqueNames(Remove(types, k))
    ensures forall i :: 0 <= i < |Remove(types, k)| ==> Remove(types, k)[i].id != types[k].id
  {
    var t := Remove(types, k);
    forall i, j | 0 <= i < j < |t| ensures t[i].id < t[j].id {
      var i' := if i < k then i else i + 1;
      var j' := if j < k then j else j + 1;
      assert t[i] == types[i'] && t[j] == types[j'] && i' < j';
    }
    forall i, j | 0 <= i < j < |t| && Live(t[i]) && Live(t[j]) ensures t[i].name != t[j].name {
      var i' := if i < k then i else i + 1;
      var j' := if j < k then j else j + 1;
      assert t[i] == types[i'] && t[j] == types[j'] && i' < j';
    }
    forall i | 0 <= i < |t| ensures t[i].id != types[k].id {
      var i' := if i < k then i else i + 1;
      assert t[i] == types[i'] && i' != k;
    }
  }

  /** Every live product has a live asset type. */
  predicate ProductsTyped(types: seq<TypeRow>, products: seq<ProductRow>) {
    forall i :: 0 <= i < |products| && Live(products[i]) ==> HasLive(types, products[i].extra.assetTypeId)
  }

  /** Deleting a type never leaves a live product without its type. */
  lemma DeleteKeepsProductsTyped(types: seq<TypeRow>, nextId: int, products: seq<ProductRow>, id: int)
    requires WellFormed(types, nextId) && ProductsTyped(types, products)
    ensures DeleteType(types, products, id).Ok? ==>
              ProductsTyped(Remove(types, DeleteType(types, products, id).value), products)
  {
    var r := DeleteType(types, products, id);
    if r.Ok? {
      var k := r.value;
      var t := Remove(types, k);
      forall i | 0 <= i < |products| && Live(products[i]) ensures HasLive(t, products[i].extra.assetTypeId) {
        var j :| 0 <= j < |types| && types[j].id == products[i].extra.assetTypeId && Live(types[j]);
        assert j != k;
        if j < k {
          assert t[j] == types[j];
        } else {
          assert t[j - 1] == types[j];
        }
      }
    }
  }

  /** Update checks the payload before it looks for the type: an invalid code
      is reported even for an id that does not exist. */
  lemma UpdateValidatesFirst(types: seq<TypeRow>, groups: seq<GroupRow>, id: int, d: TypeDraft)
    requires !HasLive(types, id) && d.code != [] && !ValidLongCode(d.code)
    ensures UpdateType(types, groups, id, d) == Err(InvalidateInput("Asset type code"))
  {
  }

  /** A draft without a code, with a valid free name and a group that
      exists, is created under the generated code. */
  lemma CreateTypeGenerated(types: seq<TypeRow>, nextId: int, groups: seq<GroupRow>, d: TypeDraft, code: string, g: nat)
    requires d.code == [] && ValidName(d.name) && !NameTaken(types, d.name, None)
    requires GroupLookup(groups, d.groupId) == Some(g)
    requires NextTypeCode(LiveCodes(types)) == code
    ensures g < |groups|
    ensures CreateType(types, nextId, groups, d)
            == Ok(Row(nextId, code, d.name, d.status.GetOr(Active), d.note,
                      TypeInfo(groups[g].id, d.management.GetOr(Quantity)), None))
  {
    assert CheckType(types, groups, None, d) == Ok(g);
  }

  /** The live codes of a two-type table whose generator top is the
      non-numeric LTSABC; used by `GeneratedTypeCodeUnchecked`. */
  lemma PumpsAndValves(types: seq<TypeRow>, gid: int)
    requires types == [Row(1, "LTS001", "Pumps", Active, None, TypeInfo(gid, Quantity), None),
                       Row(2, "LTSABC", "Valves", Active, None, TypeInfo(gid, Quantity), None)]
    ensures LiveCodes(types) == ["LTS001", "LTSABC"]
    ensures !NameTaken(types, "Fans", None)
    ensures CodeTaken(types, "LTS001", None)
  {
    assert types[1..][1..] == [];
    assert LiveCodes(types[1..][1..]) == [];
    assert LiveCodes(types[1..]) == ["LTSABC"];
    assert |types[0].name| == 5 && |types[1].name| == 6;
    assert types[0].code == "LTS001" && Live(types[0]);
  }

  /** A generated code is not checked against the table: with `LTS001` and
      `LTSABC` in it, a type created without a code gets `LTS001` again. */
  lemma GeneratedTypeCodeUnchecked(g: GroupRow)
    requires Live(g)
    ensures var types := [Row(1, "LTS001", "Pumps", Active, None, TypeInfo(g.id, Quantity), None),
                          Row(2, "LTSABC", "Valves", Active, None, TypeInfo(g.id, Quantity), None)];
      var r := CreateType(types, 3, [g], TypeDraft("", "Fans", Some(g.id), None, None, None));
      r.Ok? && r.value.code == "LTS001" && CodeTaken(types, r.value.code, None)
  {
    var types := [Row(1, "LTS001", "Pumps", Active, None, TypeInfo(g.id, Quantity), None),
                  Row(2, "LTSABC", "Valves", Active, None, TypeInfo(g.id, Quantity), None)];
    PumpsAndValves(types, g.id);
    TypeCodeCollision();
    assert FindLive([g], g.id) == Some(0);
    CreateTypeGenerated(types, 3, [g], TypeDraft("", "Fans", Some(g.id), None, None, None), "LTS001", 0);
  }

  // ---------------------------------------------------------------------
  // Listing

  /** The columns an asset-type listing may be ordered by. */
  datatype TypeColumn = TypeId | TypeCodeCol | TypeName | GroupName | ManagementCol | TypeStatus | TypeNote

  /** `AssetTypePaginateRequest`; an absent search string is `""`. */
  datatype TypeQuery = TypeQuery(
    page: int,
    pageSize: int,
    searchCode: string,
    searchName: string,
    searchGroupName: string,
    searchManagement: string,
    searchStatus: string,
    searchNote: string,
    orderBy: Option<TypeColumn>,
    direction: Option<Direction>)

  /** `AssetTypeDto`: a type with the name and id of its group. */
  datatype TypeView = TypeView(
    id: int,
    code: string,
    name: string,
    groupName: string,
    groupId: int,
    management: Management,
    status: Status,
    note: Option<string>)

  /** The type joined with its group. */
  function View(groups: seq<GroupRow>, t: TypeRow): (v: TypeView)
    requires HasLive(groups, t.extra.groupId)
    ensures v.id == t.id && v.code == t.code && v.name == t.name && v.groupId == t.extra.groupId
    ensures exists k :: 0 <= k < |groups| && groups[k].id == t.extra.groupId && Live(groups[k]) && v.groupName == groups[k].name
  {
    var k := FindLive(groups, t.extra.groupId).value;
    TypeView(t.id, t.code, t.name, groups[k].name, groups[k].id, t.extra.management, t.status, t.note)
  }

  /** The live types joined with their groups, in table order. */
  function Views(groups: seq<GroupRow>, types: seq<TypeRow>): (r: seq<TypeView>)
    requires TypesAnchored(groups, types)
    ensures |r| <= |types|
  {
    if types == [] then []
    else
      var rest := Views(groups, types[1..]);
      if Live(types[0]) then [View(groups, types[0])] + rest else rest
  }

  /** Entry `i` of the views is the view of a live type of the table. */
  lemma {:induction false} ViewOfLive(groups: seq<GroupRow>, types: seq<TypeRow>, i: nat) returns (k: nat)
    requires TypesAnchored(groups, types)
    requires i < |Views(groups, types)|
    ensures k < |types| && Live(types[k]) && Views(groups, types)[i] == View(groups, types[k])
    decreases |types|
  {
    var tail := types[1..];
    if Live(types[0]) && i == 0 {
      k := 0;
    } else {
      var i' := if Live(types[0]) then i - 1 else i;
      assert Views(groups, types)[i] == Views(groups, tail)[i'];
      var n := ViewOfLive(groups, tail, i');
      k := n + 1;
    }
  }

  /** `if (search)`: a filter applies whenever its text is not empty; it is
      not trimmed. */
  predicate TypeMatches(v: TypeView, q: TypeQuery) {
    && (q.searchCode != [] ==> IsSubstring(q.searchCode, v.code))
    && (q.searchName != [] ==> IsSubstring(q.searchName, v.name))
    && (q.searchGroupName != [] ==> IsSubstring(q.searchGroupName, v.groupName))
    && (q.searchStatus != [] ==> v.status.Name() == q.searchStatus)
    && (q.searchManagement != [] ==> v.management.Name() == q.searchManagement)
    && (q.searchNote != [] ==> v.note.Some? && IsSubstring(q.searchNote, v.note.value))
  }

  /** The value a column sorts by; the enumerations sort by position. */
  function TypeKey(c: TypeColumn): TypeView -> SortKey {
    (v: TypeView) =>
      match c
      case TypeId => NumKey(v.id)
      case TypeCodeCol => TextKey(v.code)
      case TypeName => TextKey(v.name)
      case GroupName => TextKey(v.groupName)
      case ManagementCol => NumKey(if v.management == Quantity then 0 else 1)
      case TypeStatus => NumKey(if v.status == Active then 0 else 1)
      case TypeNote => if v.note.Some? then TextKey(v.note.value) else NullKey
  }

  function TypeOrderColumn(q: TypeQuery): TypeColumn {
    q.orderBy.GetOr(TypeId)
  }

  function TypeOrderDirection(q: TypeQuery): Direction {
    if q.orderBy.Some? then q.direction.GetOr(Asc) else Asc
  }

  /** The matching types in the requested order. */
  function SelectedTypes(groups: seq<GroupRow>, types: seq<TypeRow>, q: TypeQuery): seq<TypeView>
    requires TypesAnchored(groups, types)
  {
    SortBy(Select(Views(groups, types), (v: TypeView) => TypeMatches(v, q)), TypeKey(TypeOrderColumn(q)), TypeOrderDirection(q))
  }

  /** `paginateAssetTypes`: the window is taken from the request's page and
      page size as they are, with no defaults. */
  function TypeListing(groups: seq<GroupRow>, types: seq<TypeRow>, q: TypeQuery): (r: Page<TypeView>)
    requires TypesAnchored(groups, types)
    ensures r.page == q.page && r.pageSize == q.pageSize
    ensures r.total <= |types|
  {
    var picked := Select(Views(groups, types), (v: TypeView) => TypeMatches(v, q));
    assert |SelectedTypes(groups, types, q)| == |multiset(SelectedTypes(groups, types, q))| == |multiset(picked)| == |picked|;
    Paginate(SelectedTypes(groups, types, q), Some(q.page), Some(q.pageSize))
  }

  /** Every entry of a type listing is a live type that matches the query,
      shown with the name of its own group. */
  lemma TypeListingMatches(groups: seq<GroupRow>, types: seq<TypeRow>, q: TypeQuery)
    requires TypesAnchored(groups, types)
    ensures forall i :: 0 <= i < |TypeListing(groups, types, q).data| ==>
              && TypeMatches(TypeListing(groups, types, q).data[i], q)
              && exists j :: 0 <= j < |types| && Live(types[j]) && TypeListing(groups, types, q).data[i] == View(groups, types[j])
  {
    var views := Views(groups, types);
    var picked := Select(views, (v: TypeView) => TypeMatches(v, q));
    var ordered := SelectedTypes(groups, types, q);
    SortByMembers(picked, TypeKey(TypeOrderColumn(q)), TypeOrderDirection(q));
    PageMembers(ordered, Some(q.page), Some(q.pageSize));
    var data := TypeListing(groups, types, q).data;
    forall i | 0 <= i < |data|
      ensures TypeMatches(data[i], q) && exists j :: 0 <= j < |types| && Live(types[j]) && data[i] == View(groups, types[j])
    {
      assert data[i] in ordered;
      assert data[i] in picked;
      var m :| 0 <= m < |views| && views[m] == data[i];
      var k := ViewOfLive(groups, types, m);
    }
  }

  /** A type listing is in the requested order, and its total counts every
      matching type. */
  lemma TypeListingOrdered(groups: seq<GroupRow>, types: seq<TypeRow>, q: TypeQuery)
    requires TypesAnchored(groups, types)
    ensures SortedBy(TypeListing(groups, types, q).data, TypeKey(TypeOrderColumn(q)), TypeOrderDirection(q))
    ensures TypeListing(groups, types, q).total == |Select(Views(groups, types), (v: TypeView) => TypeMatches(v, q))|
  {
    var picked := Select(Views(groups, types), (v: TypeView) => TypeMatches(v, q));
    var ordered := SelectedTypes(groups, types, q);
    SortByCorrect(picked, TypeKey(TypeOrderColumn(q)), TypeOrderDirection(q));
    assert |ordered| == |multiset(ordered)| == |multiset(picked)| == |picked|;
    var lo := PageIsSlice(ordered, Some(q.page), Some(q.pageSize));
    SortedSlice(ordered, lo, lo + |TypeListing(groups, types, q).data|, TypeKey(TypeOrderColumn(q)), TypeOrderDirection(q));
  }

  // ---------------------------------------------------------------------
  // The service

  class AssetTypeService {
    var types: seq<TypeRow>
    var nextId: int

    /** The table is well formed and its live names are unique. */
    ghost predicate Valid()
      reads this
    {
      nextId >= 1 && WellFormed(types, nextId) && UniqueNames(types)
    }

    constructor ()
      ensures Valid() && types == [] && nextId == 1
    {
      types := [];
      nextId := 1;
    }

    /** The checks of create and update, in the order the service makes them. */
    method Check(groups: seq<GroupRow>, except: Option<int>, d: TypeDraft) returns (r: Result<nat>)
      ensures r == CheckType(types, groups, except, d)
    {
      if d.code != [] {
        if !ValidLongCode(d.code) {
          return Err(InvalidateInput("Asset type code"));
        }
        if CodeTaken(types, d.code, except) {
          return Err(Existed("Asset Type Code " + d.code));
        }
      }
      if !ValidName(d.name) {
        return Err(InvalidateInput("Asset type name"));
      }
      if NameTaken(types, d.name, except) {
        return Err(Existed("Asset Type Name " + d.name));
      }
      var g := GroupLookup(groups, d.groupId);
      if g.None? {
        return Err(NotFound("Asset Group"));
      }
      r := Ok(g.value);
    }

    /** `createAssetType` */
    method CreateAssetType(groups: seq<GroupRow>, d: TypeDraft) returns (r: Result<TypeRow>)
      requires Valid()
      modifies this
      ensures Valid()
      ensures r == CreateType(old(types), old(nextId), groups, d)
      ensures r.Ok? ==> types == old(types) + [r.value] && nextId == old(nextId) + 1
      ensures r.Err? ==> types == old(types) && nextId == old(nextId)
      ensures TypesAnchored(groups, old(types)) ==> TypesAnchored(groups, types)
    {
      var c := Check(groups, None, d);
      if c.Err? {
        return Err(c.error);
      }
      var code := d.code;
      if code == [] {
        code := NextTypeCode(LiveCodes(types));
      }
      var management := d.management.GetOr(Quantity);
      var status := d.status.GetOr(Active);
      var row := Row(nextId, code, d.name, status, d.note, TypeInfo(groups[c.value].id, management), None);
      CreateTypeChecked(types, nextId, groups, d, c.value);
      Save(groups, row);
      r := Ok(row);
    }

    /** `save` of a new type that passed the checks: it takes the next id. */
    method Save(groups: seq<GroupRow>, row: TypeRow)
      requires Valid() && row.id == nextId && !NameTaken(types, row.name, None) && HasLive(groups, row.extra.groupId)
      modifies this
      ensures Valid()
      ensures types == old(types) + [row] && nextId == old(nextId) + 1
      ensures TypesAnchored(groups, old(types)) ==> TypesAnchored(groups, types)
    {
      AppendWellFormed(types, nextId, row);
      AppendUniqueName(types, row);
      AppendTypeAnchored(groups, types, row);
      types := types + [row];
      nextId := nextId + 1;
    }

    /** `updateAssetType`: the checks, then the lookup, then `merge` and `save`. */
    method UpdateAssetType(groups: seq<GroupRow>, id: int, d: TypeDraft) returns (r: Result<TypeRow>)
      requires Valid()
      modifies this
      ensures Valid() && nextId == old(nextId)
      ensures var u := UpdateType(old(types), groups, id, d);
        && (u.Ok? ==> r == Ok(u.value.1) && types == old(types)[u.value.0 := u.value.1])
        && (u.Err? ==> r == Err(u.error) && types == old(types))
      ensures TypesAnchored(groups, old(types)) ==> TypesAnchored(groups, types)
    {
      var c := Check(groups, Some(id), d);
      if c.Err? {
        return Err(c.error);
      }
      var code := d.code;
      if code == [] {
        code := NextTypeCode(LiveCodes(types));
      }
      var found := FindLive(types, id);
      if found.None? {
        return Err(NotFound("Asset Type"));
      }
      var k := found.value;
      var row := types[k].(code := code, name := d.name,
                           extra := TypeInfo(groups[c.value].id, d.management.GetOr(Quantity)),
                           status := d.status.GetOr(Active));
      if d.note.Some? {
        row := row.(note := d.note);
      }
      UpdateTypePreserves(types, nextId, groups, id, d);
      types := types[k := row];
      r := Ok(row);
    }

    /** `deleteAssetType`: refused while a product has the type; otherwise the
        row is removed from the table. */
    method DeleteAssetType(products: seq<ProductRow>, id: int) returns (r: Result<()>)
      requires Valid()
      modifies this
      ensures Valid() && nextId == old(nextId)
      ensures var d := DeleteType(old(types), products, id);
        && (d.Ok? ==> r == Ok(()) && types == Remove(old(types), d.value))
        && (d.Err? ==> r == Err(d.error) && types == old(types))
    {
      var found := FindLive(types, id);
      if found.None? {
        return Err(NotFound("Asset Type"));
      }
      if TypeInUse(products, id) {
        return Err(CannotDelete("This asset type"));
      }
      var k := found.value;
      RemovePreserves(types, nextId, k);
      types := types[..k] + types[k + 1..];
      r := Ok(());
    }
  }
}
