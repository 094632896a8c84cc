/** The hospital handlers, written line for line like the hotel handlers:
    the list, lookup, create, update, and the delete that removes the
    hospital's appointments before the hospital. The Hospital and
    Appointment schemas are not part of this model: a hospital document is
    an opaque field map, and whether the schema accepts a body is an input
    to the handler. */
module Hospitals {
  import opened Common
  import ListQuery

  datatype Hospital = Hospital(id: Id, fields: map<string, string>)

  /** An appointment, reduced to the reference the cascade follows. */
  datatype Appointment = Appointment(id: Id, hospital: Id)

  /** Every refusal answers 400, except deleteHospital's unknown id (404). */
  datatype Failure = BadRequest | NotFound

  function Status(f: Failure): int
  {
    match f
    case BadRequest => 400
    case NotFound => 404
  }

  predicate IdsUnique(hs: seq<Hospital>)
  {
    forall i, j :: 0 <= i < j < |hs| ==> hs[i].id != hs[j].id
  }

  /** Hospital.findById: the position of the hospital with this id. */
  function Find(hs: seq<Hospital>, id: Id): (r: Option<nat>)
    ensures r.None? <==> forall h :: h in hs ==> h.id != id
    ensures r.Some? ==> r.value < |hs| && hs[r.value].id == id
  {
    if hs == [] then None
    else if hs[0].id == id then Some(0)
    else match Find(hs[1..], id)
      case None => None
      case Some(k) => Some(k + 1)
  }

  /** Appointment.deleteMany({ hospital: id }): the appointments that stay,
      in their order. */
  function NotAtHospital(appts: seq<Appointment>, hospital: Id): (r: seq<Appointment>)
    ensures |r| <= |appts|
    ensures forall a :: a in r <==> a in appts && a.hospital != hospital
  {
    if appts == [] then []
    else if appts[0].hospital == hospital then NotAtHospital(appts[1..], hospital)
    else [appts[0]] + NotAtHospital(appts[1..], hospital)
  }

  /** The appointment table. */
  class AppointmentStore {
    var appointments: seq<Appointment>

    ghost predicate Valid()
      reads this
    {
      AppointmentIdsUnique(appointments)
    }

    constructor ()
      ensures Valid() && appointments == []
    {
      appointments := [];
    }

    /** The `appointments` virtual of a hospital: the appointments that
        reference it. */
    function AppointmentsOf(hospital: Id): (r: seq<Appointment>)
      reads this
      ensures forall a :: a in r <==> a in appointments && a.hospital == hospital
    {
      AtHospital(appointments, hospital)
    }

    method DeleteAtHospital(hospital: Id)
      requires Valid()
      modifies this
      ensures Valid()
      ensures appointments == NotAtHospital(old(appointments), hospital)
    {
      SubsequenceKeepsIds(appointments, hospital);
      appointments := NotAtHospital(appointments, hospital);
    }
  }

  predicate AppointmentIdsUnique(appts: seq<Appointment>)
  {
    forall i, j :: 0 <= i < j < |appts| ==> appts[i].id != appts[j].id
  }

  /** The appointments that reference `hospital`, in their order. */
  function AtHospital(appts: seq<Appointment>, hospital: Id): (r: seq<Appointment>)
    ensures forall a :: a in r <==> a in appts && a.hospital == hospital
  {
    if appts == [] then []
    else if appts[0].hospital == hospital then [appts[0]] + AtHospital(appts[1..], hospital)
    else AtHospital(appts[1..], hospital)
  }

  /** The appointments of one hospital and those of all others together are
      the whole table, counted with multiplicity. */
  lemma {:induction false} CascadeSplit(appts: seq<Appointment>, hospital: Id)
    ensures multiset(AtHospital(appts, hospital)) + multiset(NotAtHospital(appts, hospital)) == multiset(appts)
  {
    if appts != [] {
      var tail := appts[1..];
      CascadeSplit(tail, hospital);
      assert appts == [appts[0]] + tail;
      if appts[0].hospital == hospital {
        assert AtHospital(appts, hospital) == [appts[0]] + AtHospital(tail, hospital);
        assert NotAtHospital(appts, hospital) == NotAtHospital(tail, hospital);
      } else {
        assert AtHospital(appts, hospital) == AtHospital(tail, hospital);
        assert NotAtHospital(appts, hospital) == [appts[0]] + NotAtHospital(tail, hospital);
      }
    }
  }

  /** Dropping appointments keeps ids distinct. */
  lemma {:induction false} SubsequenceKeepsIds(appts: seq<Appointment>, hospital: Id)
    requires AppointmentIdsUnique(appts)
    ensures AppointmentIdsUnique(NotAtHospital(appts, hospital))
  {
    if appts != [] {
      SubsequenceKeepsIds(appts[1..], hospital);
      var rest := NotAtHospital(appts[1..], hospital);
      assert forall a :: a in rest ==> a in appts[1..];
      assert forall k :: 0 <= k < |rest| ==> rest[k] in appts[1..];
    }
  }


  class HospitalStore {
    var hospitals: seq<Hospital>
    /** The id the next stored hospital receives. */
    var nextId: Id

    ghost predicate Valid()
      reads this
    {
      && IdsUnique(hospitals)
      && (forall h :: h in hospitals ==> h.id < nextId)
    }

    constructor ()
      ensures Valid() && hospitals == []
    {
      hospitals := [];
      nextId := 0;
    }

    /** getHospitals up to the query execution: the filter is the rewritten
        full query and the pagination counts every hospital. */
    method GetHospitals(q: ListQuery.Query) returns (plan: ListQuery.ListPlan)
      ensures plan.filter == ListQuery.RewriteOperators(ListQuery.Serialize(q))
      ensures plan.pagination == ListQuery.Paginate(
        ListQuery.PageWindow(ListQuery.TextParam(q, "page"), ListQuery.TextParam(q, "limit")), |hospitals|)
    {
      plan := ListQuery.PlanList(q, |hospitals|);
    }

    /** getHospital: the hospital with this id, or 400 when there is none. */
    method GetHospital(id: Id) returns (r: Result<Hospital, Failure>)
      ensures r.Ok? <==> exists h :: h in hospitals && h.id == id
      ensures r.Ok? ==> r.value in hospitals && r.value.id == id
      ensures r.Err? ==> Status(r.error) == 400
    {
      var k := Find(hospitals, id);
      if k.None? {
        return Err(BadRequest);
      }
      r := Ok(hospitals[k.value]);
    }

    /** createHospital: the stored document when the schema
        accepts the body (`accepted`), 400 and nothing written otherwise. */
    method CreateHospital(body: map<string, string>, accepted: bool) returns (r: Result<Hospital, Failure>)
      requires Valid()
      modifies this
      ensures Valid()
      ensures r.Ok? <==> accepted
      ensures r.Ok? ==> r.value == Hospital(old(nextId), body) && hospitals == old(hospitals) + [r.value]
      ensures r.Err? ==> Status(r.error) == 400 && hospitals == old(hospitals)
    {
      if !accepted {
        return Err(BadRequest);
      }
      var h := Hospital(nextId, body);
      hospitals := hospitals + [h];
      nextId := nextId + 1;
      r := Ok(h);
    }

    /** updateHospital: a body the update validators refuse (`accepted`
        false) and an unknown id both answer 400; otherwise the stored fields
        are overwritten by the body's and nothing else changes. */
    method UpdateHospital(id: Id, body: map<string, string>, accepted: bool) returns (r: Result<Hospital, Failure>)
      requires Valid()
      modifies this
      ensures Valid() && nextId == old(nextId)
      ensures r.Ok? <==> accepted && Find(old(hospitals), id).Some?
      ensures r.Ok? ==>
        var k := Find(old(hospitals), id).value;
        && r.value == Hospital(id, old(hospitals)[k].fields + body)
        && hospitals == old(hospitals)[k := r.value]
      ensures r.Err? ==> Status(r.error) == 400 && hospitals == old(hospitals)
    {
      if !accepted {
        return Err(BadRequest);
      }
      var k := Find(hospitals, id);
      if k.None? {
        return Err(BadRequest);
      }
      var h := Hospital(id, hospitals[k.value].fields + body);
      hospitals := hospitals[k.value := h];
      r := Ok(h);
    }

    /** deleteHospital: 404 and nothing deleted for an unknown id; otherwise
        every appointment of the hospital is removed first, then the
        hospital. */
    method DeleteHospital(id: Id, appts: AppointmentStore) returns (r: Result<Hospital, Failure>)
      requires Valid() && appts.Valid()
      modifies this, appts
      ensures Valid() && appts.Valid() && nextId == old(nextId)
      ensures r.Err? <==> Find(old(hospitals), id).None?
      ensures r.Err? ==> r.error == NotFound && hospitals == old(hospitals) && appts.appointments == old(appts.appointments)
      ensures r.Ok? ==> r.value in old(hospitals) && r.value.id == id
      ensures r.Ok? ==> forall h :: h in hospitals <==> h in old(hospitals) && h.id != id
      ensures r.Ok? ==> appts.appointments == NotAtHospital(old(appts.appointments), id)
    {
      var k := Find(hospitals, id);
      if k.None? {
        return Err(NotFound);
      }
      appts.DeleteAtHospital(id);
      r := Ok(hospitals[k.value]);
      RemoveKeepsIds(hospitals, k.value);
      hospitals := hospitals[..k.value] + hospitals[k.value + 1..];
    }
  }

  /** Removing one hospital keeps ids unique and removes exactly the
      hospitals with its id. */
  lemma RemoveKeepsIds(hs: seq<Hospital>, k: nat)
    requires IdsUnique(hs) && k < |hs|
    ensures IdsUnique(hs[..k] + hs[k + 1..])
    ensures forall h :: h in hs[..k] + hs[k + 1..] <==> h in hs && h.id != hs[k].id
  {
    var s := hs[..k] + hs[k + 1..];
    forall i, j | 0 <= i < j < |s| ensures s[i].id != s[j].id {
      var i', j' := if i < k then i else i + 1, if j < k then j else j + 1;
      assert s[i] == hs[i'] && s[j] == hs[j'];
    }
    forall h | h in s ensures h.id != hs[k].id {
      var i :| 0 <= i < |s| && s[i] == h;
      var i' := if i < k then i else i + 1;
      assert s[i] == hs[i'];
    }
    forall h | h in hs && h.id != hs[k].id ensures h in s {
      var i :| 0 <= i < |hs| && hs[i] == h;
      if i < k { assert s[i] == h; } else { assert s[i - 1] == h; }
    }
  }
}
