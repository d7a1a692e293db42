/** `PartnerService`: the supplier table. Its rows have the shared catalogue
    columns and are listed like asset groups and flows (module Catalog); what
    differs is create, update and delete.

    The code of a `CreatePartnerDto` is optional and nothing is generated for
    it. The uniqueness lookup passes the code through as given, and the ORM
    drops a `where` entry whose value is `undefined`, so a draft without a code
    is looked up against every row. */
module Partners {
  import opened Common
  import opened Text
  import opened Tables
  import opened Catalog

  /** `CreatePartnerDto`: `None` is an absent field (`undefined`). */
  datatype PartnerDraft = PartnerDraft(code: Option<string>, name: string, status: Option<Status>, note: Option<string>)

  /** `if (code)`: the code is present and non-empty, so it is validated. */
  predicate Supplied(code: Option<string>) {
    code.Some? && code.value != []
  }

  /** `findOne({ where: [{ code, id: Not(except) }] })` finds a row. An absent
      code drops out of the `where`, which then matches any live row other than
      `except`. */
  predicate CodeClash(rows: seq<PartnerRow>, code: Option<string>, except: Option<int>) {
    match code
    case None => exists i :: 0 <= i < |rows| && Live(rows[i]) && Some(rows[i].id) != except
    case Some(c) => CodeTaken(rows, c, except)
  }

  /** The code as a template string shows it. */
  function CodeText(code: Option<string>): (t: string)
    ensures code.Some? ==> t == code.value
    ensures code.None? ==> t == "undefined"
  {
    match code
    case None => "undefined"
    case Some(c) => c
  }

  /** `createPartner`: the row to append, or the first error in the order the
      service checks: the code (at most 10 characters), the name, then the
      code and name lookups. */
  function PartnerCreate(rows: seq<PartnerRow>, nextId: int, d: PartnerDraft): (r: Result<PartnerRow>)
    ensures r.Ok? <==> (!Supplied(d.code) || ValidLongCode(d.code.value)) && ValidName(d.name)
                       && !CodeClash(rows, d.code, None) && !NameTaken(rows, d.name, None)
    ensures r.Ok? ==> r.value.id == nextId && Live(r.value) && r.value.code == d.code.GetOr("")
                      && r.value.name == d.name && r.value.status == d.status.GetOr(Active) && r.value.note == d.note
    ensures Supplied(d.code) && !ValidLongCode(d.code.value) ==> r == Err(InvalidateInput("Partner Code"))
    ensures (!Supplied(d.code) || ValidLongCode(d.code.value)) && !ValidName(d.name) ==> r == Err(InvalidateInput("Partner name"))
    ensures (!Supplied(d.code) || ValidLongCode(d.code.value)) && ValidName(d.name) && CodeClash(rows, d.code, None) ==>
              r == Err(Existed("Partner with code " + CodeText(d.code)))
  {
    if Supplied(d.code) && !ValidLongCode(d.code.value) then Err(InvalidateInput("Partner Code"))
    else if !ValidName(d.name) then Err(InvalidateInput("Partner name"))
    else if CodeClash(rows, d.code, None) then Err(Existed("Partner with code " + CodeText(d.code)))
    else if NameTaken(rows, d.name, None) then Err(Existed("Partner with name " + d.name))
    else Ok(Row(nextId, d.code.GetOr(""), d.name, d.status.GetOr(Active), d.note, (), None))
  }

  /** Appending a created partner keeps the table well formed and its live
      codes and names unique. */
  lemma PartnerCreatePreserves(rows: seq<PartnerRow>, nextId: int, d: PartnerDraft)
    requires nextId >= 1 && WellFormed(rows, nextId) && UniqueLive(rows)
    ensures PartnerCreate(rows, nextId, d).Ok? ==>
              && WellFormed(rows + [PartnerCreate(rows, nextId, d).value], nextId + 1)
              && UniqueLive(rows + [PartnerCreate(rows, nextId, d).value])
  {
    var r := PartnerCreate(rows, nextId, d);
    if r.Ok? {
      AppendWellFormed(rows, nextId, r.value);
      assert !CodeTaken(rows, r.value.code, None) by {
        if d.code.None? {
          assert forall i :: 0 <= i < |rows| ==> !Live(rows[i]);
        }
      }
      AppendUnique(rows, r.value);
    }
  }

  /** A partner without a code can only be created while the table has no
      live row: with any live partner present, the code lookup matches it and
      the request fails as a duplicate of the code `undefined`. */
  lemma MissingCodeMatchesAnyPartner(rows: seq<PartnerRow>, nextId: int, name: string, status: Option<Status>, note: Option<string>)
    requires ValidName(name)
    ensures var r := PartnerCreate(rows, nextId, PartnerDraft(None, name, status, note));
      && ((exists i :: 0 <= i < |rows| && Live(rows[i])) ==> r == Err(Existed("Partner with code undefined")))
      && ((forall i :: 0 <= i < |rows| ==> !Live(rows[i])) ==> r.Ok? && r.value.code == "")
  {
    var d := PartnerDraft(None, name, status, note);
    if exists i :: 0 <= i < |rows| && Live(rows[i]) {
      var i :| 0 <= i < |rows| && Live(rows[i]);
      assert CodeClash(rows, d.code, None) by {
        assert Some(rows[i].id) != None;
      }
      assert "Partner with code " + CodeText(d.code) == "Partner with code undefined";
    } else {
      assert !NameTaken(rows, name, None);
    }
  }

  /** `updatePartner`: the position of the row and the row as it is saved, or
      the first error. An unknown id is reported first; a supplied code may
      have at most 6 characters; both lookups leave the row itself out;
      `merge` keeps every field the request leaves out. */
  function PartnerUpdate(rows: seq<PartnerRow>, id: int, d: PartnerDraft): (r: Result<(nat, PartnerRow)>)
    ensures !HasLive(rows, id) ==> r == Err(NotFound("Partner with id " + IntToString(id)))
    ensures HasLive(rows, id) ==>
              (r.Ok? <==> (!Supplied(d.code) || ValidCode(d.code.value)) && ValidName(d.name)
                          && !CodeClash(rows, d.code, Some(id)) && !NameTaken(rows, d.name, Some(id)))
    ensures HasLive(rows, id) && Supplied(d.code) && !ValidCode(d.code.value) ==> r == Err(InvalidateInput("Partner Code"))
    ensures HasLive(rows, id) && (!Supplied(d.code) || ValidCode(d.code.value)) && !ValidName(d.name) ==>
              r == Err(InvalidateInput("Partner Name"))
    ensures r.Ok? ==>
              var (k, row) := r.value;
              && k < |rows| && rows[k].id == id && Live(rows[k])
              && row == rows[k].(code := d.code.GetOr(rows[k].code), name := d.name,
                                 status := d.status.GetOr(rows[k].status),
                                 note := if d.note.Some? then d.note else rows[k].note)
  {
    match FindLive(rows, id)
    case None => Err(NotFound("Partner with id " + IntToString(id)))
    case Some(k) =>
      if Supplied(d.code) && !ValidCode(d.code.value) then Err(InvalidateInput("Partner Code"))
      else if !ValidName(d.name) then Err(InvalidateInput("Partner Name"))
      else if CodeClash(rows, d.code, Some(id)) then Err(Existed("Partner with code " + CodeText(d.code)))
      else if NameTaken(rows, d.name, Some(id)) then Err(Existed("Partner with name " + d.name))
      else
        var old_ := rows[k];
        Ok((k, old_.(code := d.code.GetOr(old_.code), name := d.name, status := d.status.GetOr(old_.status),
                     note := if d.note.Some? then d.note else old_.note)))
  }

  /** Saving the updated partner keeps the table well formed and its live
      codes and names unique. */
  lemma PartnerUpdatePreserves(rows: seq<PartnerRow>, nextId: int, id: int, d: PartnerDraft)
    requires WellFormed(rows, nextId) && UniqueLive(rows)
    ensures PartnerUpdate(rows, id, d).Ok? ==>
              var (k, row) := PartnerUpdate(rows, id, d).value;
              WellFormed(rows[k := row], nextId) && UniqueLive(rows[k := row])
  {
    var r := PartnerUpdate(rows, id, d);
    if r.Ok? {
      var (k, row) := r.value;
      assert !CodeTaken(rows, row.code, Some(id)) by {
        if d.code.None? {
          forall i | 0 <= i < |rows| && Live(rows[i]) ensures rows[i].id == id {
            assert !(Some(rows[i].id) != Some(id));
          }
        }
      }
      ReplaceUnique(rows, nextId, k, row);
    }
  }

  /** The code rule of update is stricter than the one of create: a code of 7
      to 10 allowed characters is accepted when a partner is created and
      refused when the same partner is updated with it. */
  lemma UpdateCodeLimitGap(rows: seq<PartnerRow>, id: int, d: PartnerDraft)
    requires HasLive(rows, id)
    requires d.code.Some? && 6 < |d.code.value| <= 10 && MatchesCodePattern(d.code.value)
    ensures ValidLongCode(d.code.value)
    ensures PartnerUpdate(rows, id, d) == Err(InvalidateInput("Partner Code"))
  {
  }

  /** Some live product is supplied by this partner. */
  predicate PartnerInUse(products: seq<ProductRow>, id: int) {
    exists i :: 0 <= i < |products| && Live(products[i]) && id in products[i].extra.partners
  }

  /** `deletePartner`: the position of the row to retire, or the error. */
  function PartnerDelete(rows: seq<PartnerRow>, products: seq<ProductRow>, id: int): (r: Result<nat>)
    ensures r.Ok? <==> HasLive(rows, id) && !PartnerInUse(products, id)
    ensures r.Ok? ==> r.value < |rows| && rows[r.value].id == id && Live(rows[r.value])
    ensures !HasLive(rows, id) ==> r == Err(NotFound("Partner with id " + IntToString(id)))
    ensures HasLive(rows, id) && PartnerInUse(products, id) ==> r == Err(CannotDelete("Partner"))
  {
    match FindLive(rows, id)
    case None => Err(NotFound("Partner with id " + IntToString(id)))
    case Some(k) => if PartnerInUse(products, id) then Err(CannotDelete("Partner")) else Ok(k)
  }

  /** Every partner a live product links to is a live partner. */
  predicate PartnersAnchored(rows: seq<PartnerRow>, products: seq<ProductRow>) {
    forall i, p :: 0 <= i < |products| && Live(products[i]) && p in products[i].extra.partners ==> HasLive(rows, p)
  }

  /** Deleting a partner never leaves a product linked to a retired partner. */
  lemma DeleteKeepsPartnersAnchored(rows: seq<PartnerRow>, products: seq<ProductRow>, id: int, now: int)
    requires PartnersAnchored(rows, products)
    ensures PartnerDelete(rows, products, id).Ok? ==>
              PartnersAnchored(SoftDelete(rows, PartnerDelete(rows, products, id).value, now), products)
  {
    var r := PartnerDelete(rows, products, id);
    if r.Ok? {
      var k := r.value;
      var after := SoftDelete(rows, k, now);
      forall i, p | 0 <= i < |products| && Live(products[i]) && p in products[i].extra.partners
        ensures HasLive(after, p)
      {
        assert HasLive(rows, p);
        var j :| 0 <= j < |rows| && rows[j].id == p && Live(rows[j]);
        assert j != k;
        assert after[j] == rows[j];
      }
    }
  }

  /** A listing filtered on a status name holds only partners with that
      status. */
  lemma StatusFilteredListing(rows: seq<PartnerRow>, q: Query, s: Status)
    requires q.searchStatus == s.Name()
    ensures forall i :: 0 <= i < |Listing(rows, q).data| ==> Listing(rows, q).data[i].status == s
  {
    ListingMatches(rows, q);
    assert Applies(q.searchStatus) by {
      assert !IsWhitespace(q.searchStatus[0]);
    }
  }

  // ---------------------------------------------------------------------
  // The service

  class PartnerService {
    var partners: seq<PartnerRow>
    var nextId: int

    /** The table is well formed and its live codes and names are unique. */
    ghost predicate Valid()
      reads this
    {
      nextId >= 1 && WellFormed(partners, nextId) && UniqueLive(partners)
    }

    constructor ()
      ensures Valid() && partners == [] && nextId == 1
    {
      partners := [];
      nextId := 1;
    }

    /** `createPartner` */
    method CreatePartner(d: PartnerDraft) returns (r: Result<PartnerRow>)
      requires Valid()
      modifies this
      ensures Valid()
      ensures r == PartnerCreate(old(partners), old(nextId), d)
      ensures r.Ok? ==> partners == old(partners) + [r.value] && nextId == old(nextId) + 1
      ensures r.Err? ==> partners == old(partners) && nextId == old(nextId)
    {
      if Supplied(d.code) && !ValidLongCode(d.code.value) {
        return Err(InvalidateInput("Partner Code"));
      }
      if !ValidName(d.name) {
        return Err(InvalidateInput("Partner name"));
      }
      if CodeClash(partners, d.code, None) {
        return Err(Existed("Partner with code " + CodeText(d.code)));
      }
      if NameTaken(partners, d.name, None) {
        return Err(Existed("Partner with name " + d.name));
      }
      var row := Row(nextId, d.code.GetOr(""), d.name, d.status.GetOr(Active), d.note, (), None);
      PartnerCreatePreserves(partners, nextId, d);
      partners := partners + [row];
      nextId := nextId + 1;
      r := Ok(row);
    }

    /** `updatePartner`: `merge` then `save` of the one row. */
    method UpdatePartner(id: int, d: PartnerDraft) returns (r: Result<PartnerRow>)
      requires Valid()
      modifies this
      ensures Valid() && nextId == old(nextId)
      ensures var u := PartnerUpdate(old(partners), id, d);
        && (u.Ok? ==> r == Ok(u.value.1) && partners == old(partners)[u.value.0 := u.value.1])
        && (u.Err? ==> r == Err(u.error) && partners == old(partners))
    {
      var found := FindLive(partners, id);
      if found.None? {
        return Err(NotFound("Partner with id " + IntToString(id)));
      }
      var k := found.value;
      if Supplied(d.code) && !ValidCode(d.code.value) {
        return Err(InvalidateInput("Partner Code"));
      }
      if !ValidName(d.name) {
        return Err(InvalidateInput("Partner Name"));
      }
      if CodeClash(partners, d.code, Some(id)) {
        return Err(Existed("Partner with code " + CodeText(d.code)));
      }
      if NameTaken(partners, d.name, Some(id)) {
        return Err(Existed("Partner with name " + d.name));
      }
      var row := partners[k];
      row := row.(name := d.name);
      if d.code.Some? {
        row := row.(code := d.code.value);
      }
      if d.status.Some? {
        row := row.(status := d.status.value);
      }
      if d.note.Some? {
        row := row.(note := d.note);
      }
      PartnerUpdatePreserves(partners, nextId, id, d);
      partners := partners[k := row];
      r := Ok(row);
    }

    /** `deletePartner`: a soft delete at time `now`, refused while a product
        links to the partner. */
    method DeletePartner(id: int, products: seq<ProductRow>, now: int) returns (r: Result<()>)
      requires Valid()
      modifies this
      ensures Valid() && nextId == old(nextId)
      ensures var d := PartnerDelete(old(partners), products, id);
        && (d.Ok? ==> r == Ok(()) && partners == SoftDelete(old(partners), d.value, now))
        && (d.Err? ==> r == Err(d.error) && partners == old(partners))
    {
      var found := FindLive(partners, id);
      if found.None? {
        return Err(NotFound("Partner with id " + IntToString(id)));
      }
      if PartnerInUse(products, id) {
        return Err(CannotDelete("Partner"));
      }
      var k := found.value;
      SoftDeletePreserves(partners, nextId, k, now);
      partners := partners[k := partners[k].(deletedAt := Some(now))];
      r := Ok(());
    }
  }
}
