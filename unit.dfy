/** `UnitService`: the units of measure a product is counted in. A unit is a
    bare name; creating one only refuses a name that is already there, and the
    listing returns every unit. */
module Units {
  import opened Common

  datatype UnitRow = UnitRow(id: int, name: string)

  /** Ids increase in insertion order and stay below the next one. */
  predicate UnitsWellFormed(units: seq<UnitRow>, nextId: int) {
    && (forall i, j :: 0 <= i < j < |units| ==> units[i].id < units[j].id)
    && (forall i :: 0 <= i < |units| ==> 1 <= units[i].id < nextId)
  }

  /** No two units share a name. */
  predicate DistinctNames(units: seq<UnitRow>) {
    forall i, j :: 0 <= i < j < |units| ==> units[i].name != units[j].name
  }

  /** `findOne({ where: { name } })` finds a unit. The name comes from the
      request body unchecked; when it is absent the `where` is empty and any
      unit matches. */
  predicate UnitNamed(units: seq<UnitRow>, name: Option<string>) {
    match name
    case None => units != []
    case Some(n) => exists i :: 0 <= i < |units| && units[i].name == n
  }

  /** `createUnit`: the unit to append, or `Existed("unit")`. The name is not
      validated: the empty name is accepted once, and a request without a
      name is refused as soon as any unit exists. */
  function UnitCreate(units: seq<UnitRow>, nextId: int, name: Option<string>): (r: Result<UnitRow>)
    ensures name.Some? ==> (r.Ok? <==> forall i :: 0 <= i < |units| ==> units[i].name != name.value)
    ensures name.None? ==> (r.Ok? <==> units == [])
    ensures r.Ok? ==> r.value == UnitRow(nextId, name.GetOr(""))
    ensures r.Err? ==> r.error == Existed("unit")
  {
    if UnitNamed(units, name) then Err(Existed("unit")) else Ok(UnitRow(nextId, name.GetOr("")))
  }

  /** A request without a name answers `Existed("unit")` whenever the table
      has a unit, whatever the units are called. */
  lemma MissingNameMatchesAnyUnit(units: seq<UnitRow>, nextId: int, k: nat)
    requires k < |units|
    ensures UnitCreate(units, nextId, None) == Err(Existed("unit"))
    ensures UnitCreate(units, nextId, Some(units[k].name)) == Err(Existed("unit"))
  {
  }

  /** Appending a created unit keeps the ids increasing and the names
      distinct. */
  lemma UnitCreatePreserves(units: seq<UnitRow>, nextId: int, name: Option<string>)
    requires nextId >= 1 && UnitsWellFormed(units, nextId) && DistinctNames(units)
    ensures UnitCreate(units, nextId, name).Ok? ==>
              var after := units + [UnitCreate(units, nextId, name).value];
              UnitsWellFormed(after, nextId + 1) && DistinctNames(after)
  {
    var r := UnitCreate(units, nextId, name);
    if r.Ok? {
      var after := units + [r.value];
      forall i, j | 0 <= i < j < |after| ensures after[i].name != after[j].name {
        if j == |units| {
          assert after[i] == units[i];
        }
      }
    }
  }

  /** Creating a name a second time fails, whatever was created in between. */
  lemma SecondCreateRefused(units: seq<UnitRow>, nextId: int, name: Option<string>, between: seq<UnitRow>)
    requires UnitCreate(units, nextId, name).Ok?
    ensures var after := units + [UnitCreate(units, nextId, name).value] + between;
      UnitCreate(after, nextId + 1 + |between|, name) == Err(Existed("unit"))
  {
    var after := units + [UnitCreate(units, nextId, name).value] + between;
    assert after[|units|].name == name.GetOr("");
  }

  class UnitService {
    var units: seq<UnitRow>
    var nextId: int

    ghost predicate Valid()
      reads this
    {
      nextId >= 1 && UnitsWellFormed(units, nextId) && DistinctNames(units)
    }

    constructor ()
      ensures Valid() && units == [] && nextId == 1
    {
      units := [];
      nextId := 1;
    }

    /** `createUnit` */
    method CreateUnit(name: Option<string>) returns (r: Result<UnitRow>)
      requires Valid()
      modifies this
      ensures Valid()
      ensures r == UnitCreate(old(units), old(nextId), name)
      ensures r.Ok? ==> units == old(units) + [r.value] && nextId == old(nextId) + 1
      ensures r.Err? ==> units == old(units) && nextId == old(nextId)
    {
      if UnitNamed(units, name) {
        return Err(Existed("unit"));
      }
      var unit := UnitRow(nextId, name.GetOr(""));
      UnitCreatePreserves(units, nextId, name);
      units := units + [unit];
      nextId := nextId + 1;
      r := Ok(unit);
    }

    /** `getAllUnits`: every unit, in table order, with distinct names. */
    method GetAllUnits() returns (r: seq<UnitRow>)
      requires Valid()
      ensures r == units && DistinctNames(r)
    {
      r := units;
    }
  }
}
