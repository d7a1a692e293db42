/** `ProductService`: the goods and services of the catalogue. A product has a
    code (supplied, or generated in the `HHDV` series), a unique name of at
    most 255 characters, a kind and a group, the ids of its asset type, asset
    flow and unit, and one or more supplying partners. The listing joins the
    type, flow and unit names and the linked partners. */
module Products {
  import opened Common
  import opened Text
  import opened Tables
  import opened Sorting
  import opened Paging
  import opened CodeGen
  import opened Catalog
  import opened Partners
  import opened Units

  /** `CreateProductDto`; an absent or empty code is `""`, an absent status or
      note `None`, an absent partner list `[]`. */
  datatype ProductDraft = ProductDraft(
    code: string,
    name: string,
    kind: ProductKind,
    group: ProductGroup,
    assetTypeId: int,
    assetFlowId: int,
    unitId: int,
    status: Option<Status>,
    note: Option<string>,
    partnerIds: seq<int>)

  /** `UpdateProductDto`: every column is optional (`None`); the code, the name
      and the partner list use `""` and `[]` for absent, like a draft. */
  datatype ProductChanges = ProductChanges(
    code: string,
    name: string,
    kind: Option<ProductKind>,
    group: Option<ProductGroup>,
    assetTypeId: Option<int>,
    assetFlowId: Option<int>,
    unitId: Option<int>,
    status: Option<Status>,
    note: Option<string>,
    partnerIds: seq<int>)

  /** A product name: present and at most 255 characters. */
  predicate ValidProductName(name: string) {
    name != [] && |name| <= 255
  }

  /** The code a product ends up with: the supplied one, or the next code of
      the `HHDV` series among the live products. */
  function ProductCode(products: seq<ProductRow>, code: string): (c: string)
    ensures code != [] ==> c == code
    ensures code == [] ==> c == NextProductCode(LiveCodes(products))
  {
    if code != [] then code else NextProductCode(LiveCodes(products))
  }

  // ---------------------------------------------------------------------
  // The partner check

  predicate Distinct(s: seq<int>) {
    forall i, j :: 0 <= i < j < |s| ==> s[i] != s[j]
  }

  predicate Increasing(s: seq<int>) {
    forall i, j :: 0 <= i < j < |s| ==> s[i] < s[j]
  }

  /** `partnerRepo.find({ where: { id: In(ids) } })`: the ids of the live
      partners named in `ids`, each once, in table order. */
  function LinkedPartners(partners: seq<PartnerRow>, ids: seq<int>): (r: seq<int>)
    ensures forall x :: x in r <==> x in ids && HasLive(partners, x)
  {
    if partners == [] then []
    else
      var rest := LinkedPartners(partners[1..], ids);
      assert forall x :: HasLive(partners, x) <==> (partners[0].id == x && Live(partners[0])) || HasLive(partners[1..], x) by {
        forall x | HasLive(partners, x)
          ensures (partners[0].id == x && Live(partners[0])) || HasLive(partners[1..], x)
        {
          var j :| 0 <= j < |partners| && partners[j].id == x && Live(partners[j]);
          if j > 0 {
            assert partners[1..][j - 1] == partners[j];
          }
        }
        forall x | HasLive(partners[1..], x) ensures HasLive(partners, x) {
          var j :| 0 <= j < |partners[1..]| && partners[1..][j].id == x && Live(partners[1..][j]);
          assert partners[j + 1] == partners[1..][j];
        }
      }
      if Live(partners[0]) && partners[0].id in ids then [partners[0].id] + rest else rest
  }

  /** The found ids follow the table's id order, so none is found twice. */
  lemma {:induction false} LinkedIncreasing(partners: seq<PartnerRow>, nextId: int, ids: seq<int>)
    requires WellFormed(partners, nextId)
    ensures Increasing(LinkedPartners(partners, ids))
  {
    if partners != [] {
      var tail := partners[1..];
      WellFormedTail(partners, nextId);
      LinkedIncreasing(tail, nextId, ids);
      var rest := LinkedPartners(tail, ids);
      forall x | x in rest ensures partners[0].id < x {
        var j :| 0 <= j < |tail| && tail[j].id == x && Live(tail[j]);
      }
      var r := LinkedPartners(partners, ids);
      if Live(partners[0]) && partners[0].id in ids {
        forall i, j | 0 <= i < j < |r| ensures r[i] < r[j] {
          assert r[j] == rest[j - 1] && rest[j - 1] in rest;
          if i > 0 {
            assert r[i] == rest[i - 1] && rest[i - 1] < rest[j - 1];
          }
        }
      }
    }
  }

  /** A sequence has at most as many distinct values as entries, and exactly
      as many when no value repeats. */
  lemma {:induction false} DistinctValues(s: seq<int>)
    ensures |set x | x in s| <= |s|
    ensures |set x | x in s| == |s| <==> Distinct(s)
  {
    if s != [] {
      var t := s[1..];
      DistinctValues(t);
      var whole := set x | x in s;
      var tailSet := set x | x in t;
      assert whole == {s[0]} + tailSet;
      if s[0] in t {
        assert whole == tailSet;
        var j :| 0 <= j < |t| && t[j] == s[0];
        assert s[j + 1] == s[0];
      } else {
        assert |whole| == |tailSet| + 1;
        if Distinct(t) {
          forall i, j | 0 <= i < j < |s| ensures s[i] != s[j] {
            assert s[j] == t[j - 1];
            if i > 0 {
              assert s[i] == t[i - 1];
            }
          }
        }
        if Distinct(s) {
          forall i, j | 0 <= i < j < |t| ensures t[i] != t[j] {
            assert t[i] == s[i + 1] && t[j] == s[j + 1];
          }
        }
      }
    }
  }

  /** A subset is no larger, and a subset as large is the whole set. */
  lemma SubsetSize(a: set<int>, b: set<int>)
    requires a <= b
    ensures |a| <= |b|
    ensures |a| == |b| ==> a == b
  {
    assert b == a + (b - a);
    assert a * (b - a) == {};
    if |a| == |b| {
      assert |b - a| == 0;
    }
  }

  /** `partners.length !== params.partnerIds.length`: the lookup finds as many
      partners as ids were sent exactly when the ids are distinct and each
      names a live partner. */
  lemma PartnerCountMatches(partners: seq<PartnerRow>, nextId: int, ids: seq<int>)
    requires WellFormed(partners, nextId)
    ensures |LinkedPartners(partners, ids)| == |ids| <==> Distinct(ids) && forall i :: 0 <= i < |ids| ==> HasLive(partners, ids[i])
  {
    var r := LinkedPartners(partners, ids);
    LinkedIncreasing(partners, nextId, ids);
    DistinctValues(r);
    DistinctValues(ids);
    var found := set x | x in r;
    var sent := set x | x in ids;
    SubsetSize(found, sent);
    if |r| == |ids| {
      assert found == sent;
      forall i | 0 <= i < |ids| ensures HasLive(partners, ids[i]) {
        assert ids[i] in sent;
      }
    }
    if Distinct(ids) && forall i :: 0 <= i < |ids| ==> HasLive(partners, ids[i]) {
      assert found == sent;
    }
  }

  /** The partner check of create and update: the list must not be empty, and
      the lookup must find as many partners as ids were sent. */
  function PartnerCheck(partners: seq<PartnerRow>, ids: seq<int>): (r: Result<seq<int>>)
    ensures ids == [] ==> r == Err(InvalidateInput("Partner"))
    ensures r.Ok? ==> forall x :: x in r.value ==> x in ids && HasLive(partners, x)
    ensures ids != [] && r.Err? ==> r == Err(NotFound("Some partners"))
  {
    if ids == [] then Err(InvalidateInput("Partner"))
    else
      var found := LinkedPartners(partners, ids);
      if |found| != |ids| then Err(NotFound("Some partners")) else Ok(found)
  }

  /** The check passes exactly when the ids are non-empty, distinct and all
      name live partners, and then it links exactly the partners sent. */
  lemma PartnerCheckPasses(partners: seq<PartnerRow>, nextId: int, ids: seq<int>)
    requires WellFormed(partners, nextId)
    ensures PartnerCheck(partners, ids).Ok? <==>
              ids != [] && Distinct(ids) && forall i :: 0 <= i < |ids| ==> HasLive(partners, ids[i])
    ensures PartnerCheck(partners, ids).Ok? ==> forall x :: x in PartnerCheck(partners, ids).value <==> x in ids
  {
    PartnerCountMatches(partners, nextId, ids);
  }

  /** Sending the same partner id twice is reported as a partner not found. */
  lemma RepeatedPartnerRejected(partners: seq<PartnerRow>, nextId: int, ids: seq<int>, i: nat, j: nat)
    requires WellFormed(partners, nextId)
    requires i < j < |ids| && ids[i] == ids[j]
    ensures PartnerCheck(partners, ids) == Err(NotFound("Some partners"))
  {
    PartnerCheckPasses(partners, nextId, ids);
  }

  // ---------------------------------------------------------------------
  // Create, update, delete

  /** The checks create and update share, in the order the service makes
      them: the code and its lookup (only when a code is supplied), the name
      and its lookup, then the partners. The result is the code to store and
      the ids of the partners to link. */
  function ProductCheck(products: seq<ProductRow>, partners: seq<PartnerRow>, except: Option<int>,
                        code: string, name: string, ids: seq<int>): (r: Result<(string, seq<int>)>)
    ensures r.Ok? <==> (code == [] || (ValidLongCode(code) && !CodeTaken(products, code, except)))
                       && ValidProductName(name) && !NameTaken(products, name, except)
                       && PartnerCheck(partners, ids).Ok?
    ensures r.Ok? ==> r.value.0 == ProductCode(products, code) && r.value.1 == PartnerCheck(partners, ids).value
    ensures code != [] && !ValidLongCode(code) ==> r == Err(InvalidateInput("Product code"))
    ensures code != [] && ValidLongCode(code) && CodeTaken(products, code, except) ==> r == Err(Existed("Product code"))
    ensures (code == [] || (ValidLongCode(code) && !CodeTaken(products, code, except))) && !ValidProductName(name) ==>
              r == Err(InvalidateInput("Product name"))
  {
    if code != [] && !ValidLongCode(code) then Err(InvalidateInput("Product code"))
    else if code != [] && CodeTaken(products, code, except) then Err(Existed("Product code"))
    else if !ValidProductName(name) then Err(InvalidateInput("Product name"))
    else if NameTaken(products, name, except) then Err(Existed("Product name"))
    else match PartnerCheck(partners, ids)
      case Err(e) => Err(e)
      case Ok(found) => Ok((ProductCode(products, code), found))
  }

  /** `createProduct` at time `now`: the row to append, or the first error. */
  function ProductCreate(products: seq<ProductRow>, nextId: int, partners: seq<PartnerRow>, d: ProductDraft, now: int): (r: Result<ProductRow>)
    ensures r.Ok? <==> ProductCheck(products, partners, None, d.code, d.name, d.partnerIds).Ok?
    ensures r.Err? ==> r.error == ProductCheck(products, partners, None, d.code, d.name, d.partnerIds).error
    ensures r.Ok? ==>
              var (code, found) := ProductCheck(products, partners, None, d.code, d.name, d.partnerIds).value;
              r.value == Row(nextId, code, d.name, d.status.GetOr(Active), d.note,
                             ProductInfo(d.kind, d.group, d.assetTypeId, d.assetFlowId, d.unitId, found, now), None)
  {
    match ProductCheck(products, partners, None, d.code, d.name, d.partnerIds)
    case Err(e) => Err(e)
    case Ok((code, found)) =>
      Ok(Row(nextId, code, d.name, d.status.GetOr(Active), d.note,
             ProductInfo(d.kind, d.group, d.assetTypeId, d.assetFlowId, d.unitId, found, now), None))
  }

  /** Appending a created product keeps the table well formed, its live names
      unique, and every linked partner live. */
  lemma ProductCreatePreserves(products: seq<ProductRow>, nextId: int, partners: seq<PartnerRow>, d: ProductDraft, now: int)
    requires nextId >= 1 && WellFormed(products, nextId) && UniqueNames(products)
    requires PartnersAnchored(partners, products)
    ensures ProductCreate(products, nextId, partners, d, now).Ok? ==>
              var after := products + [ProductCreate(products, nextId, partners, d, now).value];
              && WellFormed(after, nextId + 1) && UniqueNames(after)
              && PartnersAnchored(partners, after)
  {
    var r := ProductCreate(products, nextId, partners, d, now);
    if r.Ok? {
      var row := r.value;
      var after := products + [row];
      AppendWellFormed(products, nextId, row);
      AppendUniqueName(products, row);
      forall i, p | 0 <= i < |after| && Live(after[i]) && p in after[i].extra.partners ensures HasLive(partners, p) {
        if i < |products| {
          assert after[i] == products[i];
        }
      }
    }
  }

  /** A generated code is never checked against the table: when the next
      `HHDV` code is already held by a live product (the series restarts at
      `HHDV000001` whenever the character-wise greatest `HHDV` code is shorter
      than 9, see `CodeGen.ProductCodeRestart`), a draft without a code that
      passes the other checks is still created, and two live products then
      share a code. */
  lemma GeneratedProductCodeUnchecked(products: seq<ProductRow>, nextId: int, partners: seq<PartnerRow>, d: ProductDraft, now: int)
    requires d.code == [] && CodeTaken(products, NextProductCode(LiveCodes(products)), None)
    requires ValidProductName(d.name) && !NameTaken(products, d.name, None) && PartnerCheck(partners, d.partnerIds).Ok?
    ensures ProductCreate(products, nextId, partners, d, now).Ok?
    ensures CodeTaken(products, ProductCreate(products, nextId, partners, d, now).value.code, None)
  {
  }

  /** `updateProduct`: the position of the product and the row as it is
      saved, or the first error. An unknown id is reported first; the checks
      leave the product itself out; an empty code is generated again; `merge`
      keeps every column the request leaves out, and the partner links are
      replaced. */
  function ProductUpdate(products: seq<ProductRow>, partners: seq<PartnerRow>, id: int, c: ProductChanges): (r: Result<(nat, ProductRow)>)
    ensures !HasLive(products, id) ==> r == Err(NotFound("Product"))
    ensures HasLive(products, id) ==>
              (r.Ok? <==> ProductCheck(products, partners, Some(id), c.code, c.name, c.partnerIds).Ok?)
    ensures HasLive(products, id) && r.Err? ==> r.error == ProductCheck(products, partners, Some(id), c.code, c.name, c.partnerIds).error
    ensures r.Ok? ==> r.value.0 < |products| && products[r.value.0].id == id && Live(products[r.value.0])
    ensures r.Ok? ==>
              var (k, row) := r.value;
              var (code, found) := ProductCheck(products, partners, Some(id), c.code, c.name, c.partnerIds).value;
              var x := products[k].extra;
              row == products[k].(code := code, name := c.name,
                                     status := c.status.GetOr(products[k].status),
                                     note := if c.note.Some? then c.note else products[k].note,
                                     extra := x.(kind := c.kind.GetOr(x.kind), group := c.group.GetOr(x.group),
                                                 assetTypeId := c.assetTypeId.GetOr(x.assetTypeId),
                                                 assetFlowId := c.assetFlowId.GetOr(x.assetFlowId),
                                                 unitId := c.unitId.GetOr(x.unitId), partners := found))
  {
    match FindLive(products, id)
    case None => Err(NotFound("Product"))
    case Some(k) =>
      match ProductCheck(products, partners, Some(id), c.code, c.name, c.partnerIds)
      case Err(e) => Err(e)
      case Ok((code, found)) =>
        var p := products[k];
        var x := p.extra;
        Ok((k, p.(code := code, name := c.name, status := c.status.GetOr(p.status),
                  note := if c.note.Some? then c.note else p.note,
                  extra := x.(kind := c.kind.GetOr(x.kind), group := c.group.GetOr(x.group),
                              assetTypeId := c.assetTypeId.GetOr(x.assetTypeId),
                              assetFlowId := c.assetFlowId.GetOr(x.assetFlowId),
                              unitId := c.unitId.GetOr(x.unitId), partners := found))))
  }

  /** Replacing a product by one linked only to live partners keeps every
      link live. */
  lemma ReplaceAnchored(partners: seq<PartnerRow>, products: seq<ProductRow>, k: nat, row: ProductRow)
    requires PartnersAnchored(partners, products) && k < |products|
    requires forall p :: p in row.extra.partners ==> HasLive(partners, p)
    ensures PartnersAnchored(partners, products[k := row])
  {
    var after := products[k := row];
    forall i, p | 0 <= i < |after| && Live(after[i]) && p in after[i].extra.partners ensures HasLive(partners, p) {
      if i != k {
        assert after[i] == products[i];
      }
    }
  }

  /** Saving the updated product keeps the table well formed, its live names
      unique, and every linked partner live. */
  lemma ProductUpdatePreserves(products: seq<ProductRow>, nextId: int, partners: seq<PartnerRow>, id: int, c: ProductChanges)
    requires WellFormed(products, nextId) && UniqueNames(products)
    requires PartnersAnchored(partners, products)
    ensures ProductUpdate(products, partners, id, c).Ok? ==>
              var (k, row) := ProductUpdate(products, partners, id, c).value;
              && WellFormed(products[k := row], nextId) && UniqueNames(products[k := row])
              && PartnersAnchored(partners, products[k := row])
  {
    var r := ProductUpdate(products, partners, id, c);
    if r.Ok? {
      var (k, row) := r.value;
      var checked := ProductCheck(products, partners, Some(id), c.code, c.name, c.partnerIds);
      assert checked.Ok?;
      assert row.id == id && row.name == c.name && row.extra.partners == checked.value.1;
      assert !NameTaken(products, row.name, Some(id));
      assert forall p :: p in row.extra.partners ==> HasLive(partners, p);
      ReplaceUniqueName(products, nextId, k, row);
      ReplaceAnchored(partners, products, k, row);
    }
  }

  /** `deleteProduct`: the position of the product to retire, or
      `NotFound("Product")`. Nothing refers to a product, so a live product
      can always be deleted. */
  function ProductDelete(products: seq<ProductRow>, id: int): (r: Result<nat>)
    ensures r.Ok? <==> HasLive(products, id)
    ensures r.Ok? ==> r.value < |products| && products[r.value].id == id && Live(products[r.value])
    ensures r.Err? ==> r.error == NotFound("Product")
  {
    match FindLive(products, id)
    case None => Err(NotFound("Product"))
    case Some(k) => Ok(k)
  }

  /** Retiring a product keeps every other product's partner links anchored. */
  lemma ProductDeleteKeepsAnchored(products: seq<ProductRow>, partners: seq<PartnerRow>, id: int, now: int)
    requires PartnersAnchored(partners, products)
    ensures ProductDelete(products, id).Ok? ==>
              PartnersAnchored(partners, SoftDelete(products, ProductDelete(products, id).value, now))
  {
  }

  // ---------------------------------------------------------------------
  // Listing

  /** A linked partner as the listing shows it. */
  datatype PartnerRef = PartnerRef(id: int, code: string, name: string)

  /** `ProductDto` as the listing builds it. A joined name is `None` when the
      left join finds no live row; the DTO shows it as `""`. */
  datatype ProductView = ProductView(
    id: int,
    code: string,
    name: string,
    kind: ProductKind,
    group: ProductGroup,
    assetTypeId: int,
    typeName: Option<string>,
    assetFlowId: int,
    flowName: Option<string>,
    unitId: int,
    unitName: Option<string>,
    status: Status,
    note: Option<string>,
    createdAt: int,
    partners: seq<PartnerRef>)

  /** The name of the live row with this id, as a left join finds it. */
  function JoinedName<X>(rows: seq<Row<X>>, id: int): (r: Option<string>)
    ensures r.Some? <==> HasLive(rows, id)
    ensures r.Some? ==> exists k :: 0 <= k < |rows| && rows[k].id == id && Live(rows[k]) && r.value == rows[k].name
  {
    match FindLive(rows, id)
    case None => None
    case Some(k) => Some(rows[k].name)
  }

  /** The name of the unit with this id. */
  function UnitName(units: seq<UnitRow>, id: int): (r: Option<string>)
    ensures r.Some? <==> exists k :: 0 <= k < |units| && units[k].id == id
    ensures r.Some? ==> exists k :: 0 <= k < |units| && units[k].id == id && r.value == units[k].name
  {
    if units == [] then None
    else if units[0].id == id then Some(units[0].name)
    else
      var rest := UnitName(units[1..], id);
      assert forall k :: 1 <= k < |units| ==> units[k] == units[1..][k - 1];
      rest
  }

  /** A live partner whose id is in `ids`, as a reference. */
  predicate LinkedRef(partners: seq<PartnerRow>, ids: seq<int>, e: PartnerRef) {
    exists j :: 0 <= j < |partners| && Live(partners[j]) && partners[j].id in ids
                && e == PartnerRef(partners[j].id, partners[j].code, partners[j].name)
  }

  /** `partnersMap`: the live partners a product links to, in table order. */
  function LinkedRefs(partners: seq<PartnerRow>, ids: seq<int>): (r: seq<PartnerRef>)
    ensures forall e :: e in r <==> LinkedRef(partners, ids, e)
  {
    if partners == [] then []
    else
      var rest := LinkedRefs(partners[1..], ids);
      var p := partners[0];
      assert forall e :: LinkedRef(partners, ids, e) <==>
                (Live(p) && p.id in ids && e == PartnerRef(p.id, p.code, p.name)) || LinkedRef(partners[1..], ids, e) by {
        forall e | LinkedRef(partners, ids, e)
          ensures (Live(p) && p.id in ids && e == PartnerRef(p.id, p.code, p.name)) || LinkedRef(partners[1..], ids, e)
        {
          var j :| 0 <= j < |partners| && Live(partners[j]) && partners[j].id in ids
                   && e == PartnerRef(partners[j].id, partners[j].code, partners[j].name);
          if j > 0 {
            assert partners[1..][j - 1] == partners[j];
          }
        }
        forall e | LinkedRef(partners[1..], ids, e) ensures LinkedRef(partners, ids, e) {
          var j :| 0 <= j < |partners[1..]| && Live(partners[1..][j]) && partners[1..][j].id in ids
                   && e == PartnerRef(partners[1..][j].id, partners[1..][j].code, partners[1..][j].name);
          assert partners[j + 1] == partners[1..][j];
        }
      }
      if Live(p) && p.id in ids then [PartnerRef(p.id, p.code, p.name)] + rest else rest
  }

  /** The tables a product listing joins. */
  datatype Joined = Joined(types: seq<TypeRow>, flows: seq<FlowRow>, units: seq<UnitRow>, partners: seq<PartnerRow>)

  /** `toProductDtoJoined` of one product. */
  function View(j: Joined, p: ProductRow): (v: ProductView)
    ensures v.id == p.id && v.code == p.code && v.name == p.name && v.status == p.status && v.note == p.note
    ensures v.typeName == JoinedName(j.types, p.extra.assetTypeId) && v.flowName == JoinedName(j.flows, p.extra.assetFlowId)
    ensures v.unitName == UnitName(j.units, p.extra.unitId)
    ensures forall e :: e in v.partners <==> LinkedRef(j.partners, p.extra.partners, e)
  {
    ProductView(p.id, p.code, p.name, p.extra.kind, p.extra.group,
                p.extra.assetTypeId, JoinedName(j.types, p.extra.assetTypeId),
                p.extra.assetFlowId, JoinedName(j.flows, p.extra.assetFlowId),
                p.extra.unitId, UnitName(j.units, p.extra.unitId),
                p.status, p.note, p.extra.createdAt, LinkedRefs(j.partners, p.extra.partners))
  }

  /** The live products joined, in table order. */
  function Views(j: Joined, products: seq<ProductRow>): (r: seq<ProductView>)
    ensures |r| <= |products|
  {
    if products == [] then []
    else
      var rest := Views(j, products[1..]);
      if Live(products[0]) then [View(j, products[0])] + rest else rest
  }

  /** Entry `i` of the views is the view of a live product of the table. */
  lemma {:induction false} ViewOfLive(j: Joined, products: seq<ProductRow>, i: nat) returns (k: nat)
    requires i < |Views(j, products)|
    ensures k < |products| && Live(products[k]) && Views(j, products)[i] == View(j, products[k])
    decreases |products|
  {
    var tail := products[1..];
    if Live(products[0]) && i == 0 {
      k := 0;
    } else {
      var i' := if Live(products[0]) then i - 1 else i;
      assert Views(j, products)[i] == Views(j, tail)[i'];
      var n := ViewOfLive(j, tail, i');
      k := n + 1;
    }
  }

  /** The columns a product listing may be ordered by: the product's own, or
      the joined type, flow or unit name. */
  datatype ProductColumn =
    | ProductId | ProductCodeCol | ProductNameCol | ProductKindCol | ProductGroupCol
    | AssetTypeIdCol | AssetFlowIdCol | UnitIdCol | ProductStatus | ProductNote | CreatedAt
    | AssetTypeName | AssetFlowName | UnitNameCol

  /** `ProductPaginateRequest`; an absent search string is `""`, an absent
      partner filter `[]`. */
  datatype ProductQuery = ProductQuery(
    page: int,
    pageSize: int,
    searchCode: string,
    searchName: string,
    searchKind: string,
    searchGroup: string,
    searchAssetType: string,
    searchAssetFlow: string,
    searchUnit: string,
    searchPartner: seq<int>,
    searchStatus: string,
    searchNote: string,
    orderBy: Option<ProductColumn>,
    direction: Option<Direction>)

  /** `LIKE '%s%'` on a joined name: a missing row never matches. */
  predicate JoinedLike(search: string, name: Option<string>) {
    name.Some? && IsSubstring(search, name.value)
  }

  /** The `andWhere` clauses: each applies when its text is not empty; the
      partner filter keeps a product with some live linked partner among the
      requested ids. */
  predicate ProductMatches(v: ProductView, q: ProductQuery): (r: bool)
    ensures (&& q.searchCode == q.searchName == q.searchKind == q.searchGroup == []
             && q.searchAssetType == q.searchAssetFlow == q.searchUnit == []
             && q.searchPartner == [] && q.searchStatus == q.searchNote == []) ==> r
    ensures q.searchPartner != [] && v.partners == [] ==> !r
    ensures q.searchNote != [] && v.note.None? ==> !r
  {
    && (q.searchCode != [] ==> IsSubstring(q.searchCode, v.code))
    && (q.searchName != [] ==> IsSubstring(q.searchName, v.name))
    && (q.searchKind != [] ==> v.kind.Name() == q.searchKind)
    && (q.searchGroup != [] ==> v.group.Name() == q.searchGroup)
    && (q.searchAssetType != [] ==> JoinedLike(q.searchAssetType, v.typeName))
    && (q.searchAssetFlow != [] ==> JoinedLike(q.searchAssetFlow, v.flowName))
    && (q.searchUnit != [] ==> JoinedLike(q.searchUnit, v.unitName))
    && (q.searchPartner != [] ==> exists i :: 0 <= i < |v.partners| && v.partners[i].id in q.searchPartner)
    && (q.searchStatus != [] ==> v.status.Name() == q.searchStatus)
    && (q.searchNote != [] ==> v.note.Some? && IsSubstring(q.searchNote, v.note.value))
  }

  function NameKey(name: Option<string>): SortKey {
    if name.Some? then TextKey(name.value) else NullKey
  }

  /** The position of a product group in its enumeration. */
  function GroupPosition(g: ProductGroup): int {
    match g
    case Telecommunications => 0
    case IT => 1
    case RD => 2
    case FixedAsset => 3
    case BuildingInfrastructure => 4
    case OtherGroup => 5
  }

  /** The value a column sorts by; the enumerations sort by position and a
      missing joined row is NULL. */
  function ProductKey(c: ProductColumn): ProductView -> SortKey {
    (v: ProductView) =>
      match c
      case ProductId => NumKey(v.id)
      case ProductCodeCol => TextKey(v.code)
      case ProductNameCol => TextKey(v.name)
      case ProductKindCol => NumKey(if v.kind == Goods then 0 else 1)
      case ProductGroupCol => NumKey(GroupPosition(v.group))
      case AssetTypeIdCol => NumKey(v.assetTypeId)
      case AssetFlowIdCol => NumKey(v.assetFlowId)
      case UnitIdCol => NumKey(v.unitId)
      case ProductStatus => NumKey(if v.status == Active then 0 else 1)
      case ProductNote => NameKey(v.note)
      case CreatedAt => NumKey(v.createdAt)
      case AssetTypeName => NameKey(v.typeName)
      case AssetFlowName => NameKey(v.flowName)
      case UnitNameCol => NameKey(v.unitName)
  }

  function ProductOrderColumn(q: ProductQuery): ProductColumn {
    q.orderBy.GetOr(ProductId)
  }

  function ProductOrderDirection(q: ProductQuery): Direction {
    if q.orderBy.Some? then q.direction.GetOr(Asc) else Asc
  }

  /** The matching products in the requested order. */
  function SelectedProducts(j: Joined, products: seq<ProductRow>, q: ProductQuery): seq<ProductView> {
    SortBy(Select(Views(j, products), (v: ProductView) => ProductMatches(v, q)), ProductKey(ProductOrderColumn(q)), ProductOrderDirection(q))
  }

  /** `getPaginatedProducts`: the window is taken from the request's page and
      page size as they are. */
  function ProductListing(j: Joined, products: seq<ProductRow>, q: ProductQuery): (r: Page<ProductView>)
    ensures r.page == q.page && r.pageSize == q.pageSize
    ensures r.total <= |products|
  {
    var picked := Select(Views(j, products), (v: ProductView) => ProductMatches(v, q));
    assert |SelectedProducts(j, products, q)| == |multiset(SelectedProducts(j, products, q))| == |multiset(picked)| == |picked|;
    Paginate(SelectedProducts(j, products, q), Some(q.page), Some(q.pageSize))
  }

  /** Every entry of a product listing is a live product that matches the
      query, joined with its own type, flow, unit and live partners. */
  lemma ProductListingMatches(j: Joined, products: seq<ProductRow>, q: ProductQuery)
    ensures forall i :: 0 <= i < |ProductListing(j, products, q).data| ==>
              && ProductMatches(ProductListing(j, products, q).data[i], q)
              && exists m :: 0 <= m < |products| && Live(products[m]) && ProductListing(j, products, q).data[i] == View(j, products[m])
  {
    var views := Views(j, products);
    var picked := Select(views, (v: ProductView) => ProductMatches(v, q));
    var ordered := SelectedProducts(j, products, q);
    SortByMembers(picked, ProductKey(ProductOrderColumn(q)), ProductOrderDirection(q));
    PageMembers(ordered, Some(q.page), Some(q.pageSize));
    var data := ProductListing(j, products, q).data;
    forall i | 0 <= i < |data|
      ensures ProductMatches(data[i], q) && exists m :: 0 <= m < |products| && Live(products[m]) && data[i] == View(j, products[m])
    {
      assert data[i] in ordered;
      assert data[i] in picked;
      var n :| 0 <= n < |views| && views[n] == data[i];
      var k := ViewOfLive(j, products, n);
    }
  }

  /** A product listing is in the requested order, and its total counts every
      matching product. */
  lemma ProductListingOrdered(j: Joined, products: seq<ProductRow>, q: ProductQuery)
    ensures SortedBy(ProductListing(j, products, q).data, ProductKey(ProductOrderColumn(q)), ProductOrderDirection(q))
    ensures ProductListing(j, products, q).total == |Select(Views(j, products), (v: ProductView) => ProductMatches(v, q))|
  {
    var picked := Select(Views(j, products), (v: ProductView) => ProductMatches(v, q));
    var ordered := SelectedProducts(j, products, q);
    SortByCorrect(picked, ProductKey(ProductOrderColumn(q)), ProductOrderDirection(q));
    assert |ordered| == |multiset(ordered)| == |multiset(picked)| == |picked|;
    var lo := PageIsSlice(ordered, Some(q.page), Some(q.pageSize));
    SortedSlice(ordered, lo, lo + |ProductListing(j, products, q).data|, ProductKey(ProductOrderColumn(q)), ProductOrderDirection(q));
  }

  /** A product whose asset type was retired is still listed, with an empty
      type name, and a search on the type name leaves it out. */
  lemma RetiredTypeShownEmpty(j: Joined, p: ProductRow, q: ProductQuery)
    requires !HasLive(j.types, p.extra.assetTypeId)
    ensures View(j, p).typeName.None?
    ensures q.searchAssetType != [] ==> !ProductMatches(View(j, p), q)
  {
  }

  // ---------------------------------------------------------------------
  // The service

  class ProductService {
    var products: seq<ProductRow>
    var nextId: int

    /** The table is well formed and its live names are unique. Codes are
        not: a generated code is never checked. */
    ghost predicate Valid()
      reads this
    {
      nextId >= 1 && WellFormed(products, nextId) && UniqueNames(products)
    }

    constructor ()
      ensures Valid() && products == [] && nextId == 1
    {
      products := [];
      nextId := 1;
    }

    /** The checks of create and update, in the order the service makes them. */
    method Check(partners: seq<PartnerRow>, except: Option<int>, code: string, name: string, ids: seq<int>)
      returns (r: Result<(string, seq<int>)>)
      ensures r == ProductCheck(products, partners, except, code, name, ids)
    {
      var chosen := code;
      if code != [] {
        if !ValidLongCode(code) {
          return Err(InvalidateInput("Product code"));
        }
        if CodeTaken(products, code, except) {
          return Err(Existed("Product code"));
        }
      } else {
        chosen := NextProductCode(LiveCodes(products));
      }
      if !ValidProductName(name) {
        return Err(InvalidateInput("Product name"));
      }
      if NameTaken(products, name, except) {
        return Err(Existed("Product name"));
      }
      if ids == [] {
        return Err(InvalidateInput("Partner"));
      }
      var found := LinkedPartners(partners, ids);
      if |found| != |ids| {
        return Err(NotFound("Some partners"));
      }
      r := Ok((chosen, found));
    }

    /** `createProduct` at time `now`. */
    method CreateProduct(partners: seq<PartnerRow>, d: ProductDraft, now: int) returns (r: Result<ProductRow>)
      requires Valid()
      modifies this
      ensures Valid()
      ensures r == ProductCreate(old(products), old(nextId), partners, d, now)
      ensures r.Ok? ==> products == old(products) + [r.value] && nextId == old(nextId) + 1
      ensures r.Err? ==> products == old(products) && nextId == old(nextId)
    {
      var c := Check(partners, None, d.code, d.name, d.partnerIds);
      if c.Err? {
        return Err(c.error);
      }
      var (code, found) := c.value;
      var row := Row(nextId, code, d.name, d.status.GetOr(Active), d.note,
                     ProductInfo(d.kind, d.group, d.assetTypeId, d.assetFlowId, d.unitId, found, now), None);
      AppendUniqueName(products, row);
      AppendWellFormed(products, nextId, row);
      products := products + [row];
      nextId := nextId + 1;
      r := Ok(row);
    }

    /** `updateProduct`: `merge`, new partner links, then `save`. */
    method UpdateProduct(partners: seq<PartnerRow>, id: int, c: ProductChanges) returns (r: Result<ProductRow>)
      requires Valid()
      modifies this
      ensures Valid() && nextId == old(nextId)
      ensures var u := ProductUpdate(old(products), partners, id, c);
        && (u.Ok? ==> r == Ok(u.value.1) && products == old(products)[u.value.0 := u.value.1])
        && (u.Err? ==> r == Err(u.error) && products == old(products))
    {
      var found := FindLive(products, id);
      if found.None? {
        return Err(NotFound("Product"));
      }
      var k := found.value;
      var checked := Check(partners, Some(id), c.code, c.name, c.partnerIds);
      if checked.Err? {
        return Err(checked.error);
      }
      var (code, links) := checked.value;
      var p := products[k];
      var x := p.extra;
      x := x.(kind := c.kind.GetOr(x.kind), group := c.group.GetOr(x.group),
              assetTypeId := c.assetTypeId.GetOr(x.assetTypeId), assetFlowId := c.assetFlowId.GetOr(x.assetFlowId),
              unitId := c.unitId.GetOr(x.unitId), partners := links);
      p := p.(code := code, name := c.name, status := c.status.GetOr(p.status), extra := x);
      if c.note.Some? {
        p := p.(note := c.note);
      }
      ReplaceUniqueName(products, nextId, k, p);
      products := products[k := p];
      r := Ok(p);
    }

    /** `deleteProduct`: a soft delete at time `now`. */
    method DeleteProduct(id: int, now: int) returns (r: Result<()>)
      requires Valid()
      modifies this
      ensures Valid() && nextId == old(nextId)
      ensures var d := ProductDelete(old(products), id);
        && (d.Ok? ==> r == Ok(()) && products == SoftDelete(old(products), d.value, now))
        && (d.Err? ==> r == Err(d.error) && products == old(products))
    {
      var found := FindLive(products, id);
      if found.None? {
        return Err(NotFound("Product"));
      }
      var k := found.value;
      products := products[k := products[k].(deletedAt := Some(now))];
      r := Ok(());
    }
  }
}
