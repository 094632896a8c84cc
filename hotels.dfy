/** The hotel handlers: the list (query rewrite and pagination over the
    whole collection), lookup, create, update and the cascading delete that
    removes the hotel's bookings before the hotel. Mutations are admin only. */
module Hotels {
  import opened Common
  import opened HotelModel
  import BookingModel
  import Bookings
  import ListQuery

  /** Every refusal of these handlers answers 400, except deleteHotel's
      unknown id, which answers 404. */
  datatype Failure = BadRequest | NotFound

  function Status(f: Failure): int
  {
    match f
    case BadRequest => 400
    case NotFound => 404
  }

  /** Whether some hotel other than the one with id `except` already has this
      name (what the unique index on `name` refuses). */
  predicate NameTaken(hs: seq<Hotel>, name: string, except: Option<Id>)
  {
    exists i :: 0 <= i < |hs| && hs[i].name == name && except != Some(hs[i].id)
  }

  class HotelStore {
    var hotels: seq<Hotel>
    /** The id the next stored hotel receives. */
    var nextId: Id

    /** Every stored hotel meets the schema, ids are distinct and below
        `nextId`, and names are unique. */
    ghost predicate Valid()
      reads this
    {
      && IdsUnique(hotels)
      && NamesUnique(hotels)
      && (forall h :: h in hotels ==> HotelModel.Valid(h) && h.id < nextId)
    }

    constructor ()
      ensures Valid() && hotels == []
    {
      hotels := [];
      nextId := 0;
    }

    /** getHotels up to the query execution: the filter is the rewritten
        full query and the pagination counts every hotel, not only those the
        filter selects. */
    method GetHotels(q: ListQuery.Query) returns (plan: ListQuery.ListPlan)
      ensures plan.filter == ListQuery.RewriteOperators(ListQuery.Serialize(q))
      ensures plan.pagination == ListQuery.Paginate(
        ListQuery.PageWindow(ListQuery.TextParam(q, "page"), ListQuery.TextParam(q, "limit")), |hotels|)
    {
      plan := ListQuery.PlanList(q, |hotels|);
    }

    /** getHotel: the hotel with this id, or 400 (not 404) when there is none. */
    method GetHotel(id: Id) returns (r: Result<Hotel, Failure>)
      ensures r.Ok? <==> exists h :: h in hotels && h.id == id
      ensures r.Ok? ==> r.value in hotels && r.value.id == id
      ensures r.Err? ==> Status(r.error) == 400
    {
      var k := Find(hotels, id);
      if k.None? {
        return Err(BadRequest);
      }
      r := Ok(hotels[k.value]);
    }

    /** createHotel (admin only): the body must make a valid hotel whose
        trimmed name no stored hotel has; otherwise 400 and nothing is
        written. */
    method CreateHotel(caller: Actor, f: HotelFields) returns (r: Result<Hotel, Failure>)
      requires caller.admin && Valid()
      modifies this
      ensures Valid()
      ensures r.Ok? <==> FromFields(old(nextId), f).Some? && !NameTaken(old(hotels), FromFields(old(nextId), f).value.name, None)
      ensures r.Ok? ==> r.value == FromFields(old(nextId), f).value
      ensures r.Err? ==> Status(r.error) == 400
      ensures hotels == if r.Ok? then old(hotels) + [r.value] else old(hotels)
    {
      var doc := FromFields(nextId, f);
      if doc.None? || NameTaken(hotels, doc.value.name, None) {
        return Err(BadRequest);
      }
      AppendKeepsInvariants(hotels, doc.value, nextId);
      hotels := hotels + [doc.value];
      nextId := nextId + 1;
      r := Ok(doc.value);
    }

    /** updateHotel (admin only): an unknown id, a patch the validators
        refuse and a name another hotel has all answer 400; on success the
        stored hotel is the patched one and nothing else changes. */
    method UpdateHotel(caller: Actor, id: Id, f: HotelFields) returns (r: Result<Hotel, Failure>)
      requires caller.admin && Valid()
      modifies this
      ensures Valid() && nextId == old(nextId)
      ensures r.Ok? <==>
        (&& Find(old(hotels), id).Some?
         && ApplyPatch(old(hotels)[Find(old(hotels), id).value], f).Some?
         && !NameTaken(old(hotels), ApplyPatch(old(hotels)[Find(old(hotels), id).value], f).value.name, Some(id)))
      ensures r.Ok? ==>
        && r.value == ApplyPatch(old(hotels)[Find(old(hotels), id).value], f).value
        && hotels == old(hotels)[Find(old(hotels), id).value := r.value]
      ensures r.Err? ==> Status(r.error) == 400 && hotels == old(hotels)
    {
      var k := Find(hotels, id);
      if k.None? {
        return Err(BadRequest);
      }
      var patched := ApplyPatch(hotels[k.value], f);
      if patched.None? || NameTaken(hotels, patched.value.name, Some(id)) {
        return Err(BadRequest);
      }
      UpdateKeepsNamesUnique(hotels, k.value, patched.value);
      hotels := hotels[k.value := patched.value];
      r := Ok(patched.value);
    }

    /** deleteHotel (admin only): 404 and nothing deleted for an unknown id;
        otherwise every booking of the hotel is removed first, then the hotel.
        Rooms are not touched (the room store is outside this method's frame). */
    method DeleteHotel(caller: Actor, id: Id, engine: Bookings.BookingEngine) returns (r: Result<Hotel, Failure>)
      requires caller.admin && Valid() && engine.Valid()
      modifies this, engine
      ensures Valid() && engine.Valid() && nextId == old(nextId)
      ensures r.Err? <==> Find(old(hotels), id).None?
      ensures r.Err? ==> r.error == NotFound && hotels == old(hotels) && engine.bookings == old(engine.bookings)
      ensures r.Ok? ==> r.value in old(hotels) && r.value.id == id
      ensures r.Ok? ==> forall h :: h in hotels <==> h in old(hotels) && h.id != id
      ensures r.Ok? ==> engine.bookings == BookingModel.NotAtHotel(old(engine.bookings), id)
      ensures r.Ok? ==> forall b :: b in engine.bookings ==> b.hotel != id
    {
      var k := Find(hotels, id);
      if k.None? {
        return Err(NotFound);
      }
      engine.DeleteAtHotel(id);
      r := Ok(hotels[k.value]);
      RemoveKeepsInvariants(hotels, k.value);
      hotels := hotels[..k.value] + hotels[k.value + 1..];
    }
  }

  /** Appending a valid hotel under a fresh id and a name no hotel uses
      keeps every store invariant, with the counter moved past the new id. */
  lemma AppendKeepsInvariants(hs: seq<Hotel>, h: Hotel, nextId: Id)
    requires IdsUnique(hs) && NamesUnique(hs)
    requires forall x :: x in hs ==> HotelModel.Valid(x) && x.id < nextId
    requires HotelModel.Valid(h) && h.id == nextId && !NameTaken(hs, h.name, None)
    ensures IdsUnique(hs + [h]) && NamesUnique(hs + [h])
    ensures forall x :: x in hs + [h] ==> HotelModel.Valid(x) && x.id < nextId + 1
  {
    var s := hs + [h];
    forall i, j | 0 <= i < j < |s| ensures s[i].id != s[j].id && s[i].name != s[j].name {
      if j == |hs| {
        assert s[i] == hs[i] && s[i] in hs;
      }
    }
  }

  /** Writing a hotel whose name no other hotel uses, under the same id,
      keeps ids and names unique. */
  lemma UpdateKeepsNamesUnique(hs: seq<Hotel>, k: nat, h: Hotel)
    requires IdsUnique(hs) && NamesUnique(hs) && k < |hs| && h.id == hs[k].id
    requires !NameTaken(hs, h.name, Some(h.id))
    ensures IdsUnique(hs[k := h]) && NamesUnique(hs[k := h])
  {
    var s := hs[k := h];
    forall i, j | 0 <= i < j < |s| ensures s[i].name != s[j].name {
      if i == k {
        assert hs[j].id != h.id;
      } else if j == k {
        assert hs[i].id != h.id;
      }
    }
  }

  /** Removing one hotel keeps ids and names unique and removes exactly the
      hotels with its id. */
  lemma RemoveKeepsInvariants(hs: seq<Hotel>, k: nat)
    requires IdsUnique(hs) && NamesUnique(hs) && k < |hs|
    ensures IdsUnique(hs[..k] + hs[k + 1..]) && NamesUnique(hs[..k] + hs[k + 1..])
    ensures forall h :: h in hs[..k] + hs[k + 1..] <==> h in hs && h.id != hs[k].id
  {
    var s := hs[..k] + hs[k + 1..];
    forall i, j | 0 <= i < j < |s| ensures s[i].id != s[j].id && s[i].name != s[j].name {
      var i', j' := if i < k then i else i + 1, if j < k then j else j + 1;
      assert s[i] == hs[i'] && s[j] == hs[j'];
    }
    forall h | h in s ensures h.id != hs[k].id {
      var i :| 0 <= i < |s| && s[i] == h;
      var i' := if i < k then i else i + 1;
      assert s[i] == hs[i'];
    }
    forall h | h in hs && h.id != hs[k].id ensures h in s {
      var i :| 0 <= i < |hs| && hs[i] == h;
      if i < k { assert s[i] == h; } else { assert s[i - 1] == h; }
    }
  }
}
