/** `AssetFlowService`: the asset-flow table with its create, update and soft
    delete. Create, update and the listings follow the rules in module Catalog
    with the `DTS` prefix; a flow cannot be deleted while a product uses it. */
module AssetFlows {
  import opened Common
  import opened Text
  import opened Tables
  import opened CodeGen
  import opened Catalog

  /** Some live product has this asset flow. */
  predicate FlowInUse(products: seq<ProductRow>, id: int) {
    exists i :: 0 <= i < |products| && Live(products[i]) && products[i].extra.assetFlowId == id
  }

  /** `deleteAssetFlow`: the position of the row to retire, or the error. */
  function DeleteFlow(flows: seq<FlowRow>, products: seq<ProductRow>, id: int): (r: Result<nat>)
    ensures r.Ok? <==> HasLive(flows, id) && !FlowInUse(products, id)
    ensures r.Ok? ==> r.value < |flows| && flows[r.value].id == id && Live(flows[r.value])
    ensures !HasLive(flows, id) ==> r == Err(NotFound("Asset Flow with id " + IntToString(id)))
    ensures r.Err? && r.error.CannotDelete? ==>
              FlowInUse(products, id) && exists k :: 0 <= k < |flows| && flows[k].id == id && Live(flows[k])
                                                    && r.error == CannotDelete("Asset Flow " + flows[k].code)
  {
    match FindLive(flows, id)
    case None => Err(NotFound("Asset Flow with id " + IntToString(id)))
    case Some(k) =>
      if FlowInUse(products, id) then Err(CannotDelete("Asset Flow " + flows[k].code))
      else Ok(k)
  }

  /** Every live product has a live asset flow. */
  predicate ProductsAnchored(flows: seq<FlowRow>, products: seq<ProductRow>) {
    forall i :: 0 <= i < |products| && Live(products[i]) ==> HasLive(flows, products[i].extra.assetFlowId)
  }

  /** Deleting a flow never leaves a product without its flow. */
  lemma DeleteKeepsProductsAnchored(flows: seq<FlowRow>, products: seq<ProductRow>, id: int, now: int)
    requires ProductsAnchored(flows, products)
    ensures DeleteFlow(flows, products, id).Ok? ==>
              ProductsAnchored(SoftDelete(flows, DeleteFlow(flows, products, id).value, now), products)
  {
    var r := DeleteFlow(flows, products, id);
    if r.Ok? {
      var k := r.value;
      var after := SoftDelete(flows, k, now);
      forall i | 0 <= i < |products| && Live(products[i]) ensures HasLive(after, products[i].extra.assetFlowId) {
        var j :| 0 <= j < |flows| && flows[j].id == products[i].extra.assetFlowId && Live(flows[j]);
        assert j != k;
        assert after[j] == flows[j];
      }
    }
  }

  // ---------------------------------------------------------------------
  // The service

  class AssetFlowService {
    var flows: seq<FlowRow>
    var nextId: int

    /** The table is well formed and its live codes and names are unique. */
    ghost predicate Valid()
      reads this
    {
      nextId >= 1 && WellFormed(flows, nextId) && UniqueLive(flows)
    }

    constructor ()
      ensures Valid() && flows == [] && nextId == 1
    {
      flows := [];
      nextId := 1;
    }

    /** `createAssetFlow` */
    method CreateAssetFlow(d: Draft) returns (r: Result<FlowRow>)
      requires Valid()
      modifies this
      ensures Valid()
      ensures r == Create(old(flows), old(nextId), FlowLabels, d)
      ensures r.Ok? ==> flows == old(flows) + [r.value] && nextId == old(nextId) + 1
      ensures r.Err? ==> flows == old(flows) && nextId == old(nextId)
    {
      var code := d.code;
      if code != [] {
        if !ValidCode(code) {
          return Err(InvalidateInput(FlowLabels.codeField));
        }
      } else {
        code := NextPatternCode(LiveCodes(flows), FlowLabels.prefix);
      }
      if !ValidName(d.name) {
        return Err(InvalidateInput(FlowLabels.nameField));
      }
      if CodeTaken(flows, code, None) {
        return Err(Existed(FlowLabels.subject + " with code " + code));
      }
      if NameTaken(flows, d.name, None) {
        return Err(Existed(FlowLabels.subject + " with name " + d.name));
      }
      var row := Row(nextId, code, d.name, d.status.GetOr(Active), d.note, (), None);
      CreatePreserves(flows, nextId, FlowLabels, d);
      flows := flows + [row];
      nextId := nextId + 1;
      r := Ok(row);
    }

    /** `updateAssetFlow`: `merge` then `save` of the one row. */
    method UpdateAssetFlow(id: int, d: Draft) returns (r: Result<FlowRow>)
      requires Valid()
      modifies this
      ensures Valid() && nextId == old(nextId)
      ensures var u := Update(old(flows), FlowLabels, id, d);
        && (u.Ok? ==> r == Ok(u.value.1) && flows == old(flows)[u.value.0 := u.value.1])
        && (u.Err? ==> r == Err(u.error) && flows == old(flows))
    {
      var found := FindLive(flows, id);
      if found.None? {
        return Err(NotFound(FlowLabels.updateSubject + " with id " + IntToString(id)));
      }
      var k := found.value;
      var code := d.code;
      if code != [] {
        if !ValidCode(code) {
          return Err(InvalidateInput(FlowLabels.codeField));
        }
      } else {
        code := NextPatternCode(LiveCodes(flows), FlowLabels.prefix);
      }
      if !ValidName(d.name) {
        return Err(InvalidateInput(FlowLabels.nameField));
      }
      if CodeTaken(flows, code, Some(id)) {
        return Err(Existed(FlowLabels.subject + " with code " + code));
      }
      if NameTaken(flows, d.name, Some(id)) {
        return Err(Existed(FlowLabels.subject + " with name " + d.name));
      }
      var row := flows[k];
      row := row.(code := code, name := d.name);
      if d.status.Some? {
        row := row.(status := d.status.value);
      }
      if d.note.Some? {
        row := row.(note := d.note);
      }
      UpdatePreserves(flows, nextId, FlowLabels, id, d);
      flows := flows[k := row];
      r := Ok(row);
    }

    /** `deleteAssetFlow`: a soft delete at time `now`, refused while a
        product uses the flow. */
    method DeleteAssetFlow(id: int, products: seq<ProductRow>, now: int) returns (r: Result<()>)
      requires Valid()
      modifies this
      ensures Valid() && nextId == old(nextId)
      ensures var d := DeleteFlow(old(flows), products, id);
        && (d.Ok? ==> r == Ok(()) && flows == SoftDelete(old(flows), d.value, now))
        && (d.Err? ==> r == Err(d.error) && flows == old(flows))
    {
      var found := FindLive(flows, id);
      if found.None? {
        return Err(NotFound("Asset Flow with id " + IntToString(id)));
      }
      var k := found.value;
      if FlowInUse(products, id) {
        return Err(CannotDelete("Asset Flow " + flows[k].code));
      }
      SoftDeletePreserves(flows, nextId, k, now);
      flows := flows[k := flows[k].(deletedAt := Some(now))];
      r := Ok(());
    }
  }
}
