/** The booking controller: who sees which bookings, and the checks that
    stand between a request and a write to the Booking collection — the
    hotel/room lookup, the date checks, the room-conflict query, the
    3-night quota and the owner-or-admin gate.

    The pure functions state each handler's decision; the class
    BookingEngine owns the collection, computes the same decisions step by
    step (the night-summing loop of the handlers included) and writes the
    collection only when the decision is a success. */
module Bookings {
  import opened Common
  import opened BookingModel
  import HotelModel
  import RoomModel

  /** The most nights a non-admin user may hold in total. */
  const NightsCap := 3

  /** Why a handler answers without writing, one kind per early return. */
  datatype Failure =
    | NotFound                   // hotel, room or booking missing, or room of another hotel
    | MissingDates               // a check-in or check-out date is absent
    | InvalidDateRange           // check-out is not after check-in
    | RoomTaken                  // the conflict query found a booking
    | QuotaExceeded(booked: int) // the message reports the nights already booked
    | NotAuthorized              // neither the owner nor an admin

  /** The HTTP status each early return answers with. */
  function Status(f: Failure): int
  {
    match f
    case NotFound => 404
    case MissingDates => 400
    case InvalidDateRange => 400
    case RoomTaken => 409
    case QuotaExceeded(_) => 400
    case NotAuthorized => 401
  }

  /** The fields of an add-booking body that the handler reads. Any `hotel`
      or `user` the body names is overwritten from the path and the acting
      user, so they play no part. */
  datatype BookingRequest = BookingRequest(room: Option<Id>, checkIn: Option<Day>, checkOut: Option<Day>)

  /** An update body: findByIdAndUpdate writes every field it supplies. */
  datatype BookingPatch = BookingPatch(
    user: Option<Id>,
    hotel: Option<Id>,
    room: Option<Id>,
    checkIn: Option<Day>,
    checkOut: Option<Day>)

  function Pick<T>(v: Option<T>, d: T): T
  {
    if v.Some? then v.value else d
  }

  /** The stored document after an update: supplied fields replaced, id kept. */
  function Apply(b: Booking, p: BookingPatch): (r: Booking)
    ensures r.id == b.id
    ensures p == BookingPatch(None, None, None, None, None) ==> r == b
    // each supplied field is written, each absent one kept
    ensures p.user.Some? ==> r.user == p.user.value
    ensures p.user.None? ==> r.user == b.user
    ensures p.hotel.Some? ==> r.hotel == p.hotel.value
    ensures p.hotel.None? ==> r.hotel == b.hotel
    ensures p.room.Some? ==> r.room == p.room.value
    ensures p.room.None? ==> r.room == b.room
    ensures p.checkIn.Some? ==> r.checkIn == p.checkIn.value
    ensures p.checkIn.None? ==> r.checkIn == b.checkIn
    ensures p.checkOut.Some? ==> r.checkOut == p.checkOut.value
    ensures p.checkOut.None? ==> r.checkOut == b.checkOut
  {
    Booking(b.id, Pick(p.user, b.user), Pick(p.hotel, b.hotel), Pick(p.room, b.room),
            Pick(p.checkIn, b.checkIn), Pick(p.checkOut, b.checkOut))
  }

  // ---------------------------------------------------------------- list

  /** GET /bookings and GET /hotels/:hotelId/bookings: a non-admin sees
      exactly their own bookings (whatever hotel the path names); an admin
      sees the path hotel's bookings, or every booking without one. */
  function Visible(bs: seq<Booking>, actor: Actor, hotelId: Option<Id>): (r: seq<Booking>)
    ensures !actor.admin ==> forall b :: b in r <==> b in bs && b.user == actor.id
    ensures actor.admin && hotelId.Some? ==> forall b :: b in r <==> b in bs && b.hotel == hotelId.value
    ensures actor.admin && hotelId.None? ==> r == bs
  {
    if !actor.admin then OwnedBy(bs, actor.id, None)
    else if hotelId.Some? then AtHotel(bs, hotelId.value)
    else bs
  }

  // ------------------------------------------------------ conflict detector

  /** Booking `b` blocks a new stay [checkIn, checkOut) on `room`: same room,
      not ended before `today`, and the stays overlap. */
  predicate Blocks(b: Booking, room: Id, checkIn: Day, checkOut: Day, today: Day)
  {
    b.room == room && b.checkOut >= today && Overlap(b.checkIn, b.checkOut, checkIn, checkOut)
  }

  predicate Conflict(bs: seq<Booking>, room: Id, checkIn: Day, checkOut: Day, today: Day)
  {
    exists i :: 0 <= i < |bs| && Blocks(bs[i], room, checkIn, checkOut, today)
  }

  /** Booking.findOne on the conflict filter: the first blocking booking at
      or after position `from`. */
  function FirstConflict(bs: seq<Booking>, from: nat, room: Id, checkIn: Day, checkOut: Day, today: Day): (r: Option<nat>)
    requires from <= |bs|
    decreases |bs| - from
    ensures r.None? <==> forall i :: from <= i < |bs| ==> !Blocks(bs[i], room, checkIn, checkOut, today)
    ensures r.Some? ==> from <= r.value < |bs| && Blocks(bs[r.value], room, checkIn, checkOut, today)
    ensures r.Some? ==> forall i :: from <= i < r.value ==> !Blocks(bs[i], room, checkIn, checkOut, today)
  {
    if from == |bs| then None
    else if Blocks(bs[from], room, checkIn, checkOut, today) then Some(from)
    else FirstConflict(bs, from + 1, room, checkIn, checkOut, today)
  }

  /** Stays that only touch (one checks out the day the other checks in)
      never conflict. */
  lemma BackToBack(b: Booking, room: Id, checkIn: Day, checkOut: Day, today: Day)
    requires b.checkOut == checkIn || b.checkIn == checkOut
    ensures !Blocks(b, room, checkIn, checkOut, today)
  {
  }

  // ------------------------------------------------------------ create

  /** The lookup of addBooking succeeds: the path hotel exists, the body names
      a room that exists, and that room belongs to the path hotel. */
  predicate RoomOfHotel(hotels: seq<HotelModel.Hotel>, rooms: seq<RoomModel.Room>, hotelId: Id, roomId: Option<Id>)
  {
    && HotelModel.Find(hotels, hotelId).Some?
    && roomId.Some?
    && RoomModel.Find(rooms, roomId.value).Some?
    && rooms[RoomModel.Find(rooms, roomId.value).value].hotel == hotelId
  }

  /** addBooking's decision, with `today` supplied by the caller and `newId`
      the id the store hands out: the lookup (404), the dates (400), the
      conflict query (409), the quota (400), else the booking to store. */
  function CreateVerdict(
    bs: seq<Booking>, hotels: seq<HotelModel.Hotel>, rooms: seq<RoomModel.Room>,
    actor: Actor, hotelId: Id, req: BookingRequest, today: Day, newId: Id): (r: Result<Booking, Failure>)
    // the lookup comes first: a missing or mismatched hotel/room is 404 whatever the dates
    ensures !RoomOfHotel(hotels, rooms, hotelId, req.room) <==> r == Err(NotFound)
    ensures r == Err(MissingDates) <==>
      RoomOfHotel(hotels, rooms, hotelId, req.room) && (req.checkIn.None? || req.checkOut.None?)
    // the stored booking takes its hotel from the path and its user from the actor
    ensures r.Ok? ==> r.value == Booking(newId, actor.id, hotelId, req.room.value, req.checkIn.value, req.checkOut.value)
    ensures r.Ok? ==> Nights(r.value) > 0
    ensures r.Ok? ==> !Conflict(bs, r.value.room, r.value.checkIn, r.value.checkOut, today)
    // a successful non-admin create leaves the actor within the cap
    ensures r.Ok? && !actor.admin ==> UserNights(bs + [r.value], actor.id, None) <= NightsCap
    ensures r == Err(RoomTaken) ==> Conflict(bs, req.room.value, req.checkIn.value, req.checkOut.value, today)
    ensures r.Err? && r.error.QuotaExceeded? ==>
      && !actor.admin
      && r.error.booked == UserNights(bs, actor.id, None)
      && r.error.booked + (req.checkOut.value - req.checkIn.value) > NightsCap
  {
    if !RoomOfHotel(hotels, rooms, hotelId, req.room) then Err(NotFound)
    else if req.checkIn.None? || req.checkOut.None? then Err(MissingDates)
    else
      var checkIn, checkOut := req.checkIn.value, req.checkOut.value;
      var nights := checkOut - checkIn;
      if nights <= 0 then Err(InvalidDateRange)
      else if FirstConflict(bs, 0, req.room.value, checkIn, checkOut, today).Some? then Err(RoomTaken)
      else
        var total := UserNights(bs, actor.id, None);
        if total + nights > NightsCap && !actor.admin then Err(QuotaExceeded(total))
        else
          var b := Booking(newId, actor.id, hotelId, req.room.value, checkIn, checkOut);
          UserNightsAfterAppend(bs, b, actor.id);
          Ok(b)
  }

  /** With the lookup passed and both dates given, the outcome is decided by
      the night count, then the conflict query, then the quota, in that
      order; admins are never refused by the quota. */
  lemma CreateOrder(
    bs: seq<Booking>, hotels: seq<HotelModel.Hotel>, rooms: seq<RoomModel.Room>,
    actor: Actor, hotelId: Id, req: BookingRequest, today: Day, newId: Id)
    requires RoomOfHotel(hotels, rooms, hotelId, req.room) && req.checkIn.Some? && req.checkOut.Some?
    ensures var r := CreateVerdict(bs, hotels, rooms, actor, hotelId, req, today, newId);
      var nights := req.checkOut.value - req.checkIn.value;
      var taken := Conflict(bs, req.room.value, req.checkIn.value, req.checkOut.value, today);
      var total := UserNights(bs, actor.id, None);
      && (nights <= 0 <==> r == Err(InvalidDateRange))
      && (nights > 0 && taken <==> r == Err(RoomTaken))
      && (nights > 0 && !taken && !actor.admin && total + nights > NightsCap <==> r == Err(QuotaExceeded(total)))
      && (nights > 0 && !taken && (actor.admin || total + nights <= NightsCap) <==> r.Ok?)
  {
    var r := CreateVerdict(bs, hotels, rooms, actor, hotelId, req, today, newId);
    var taken := Conflict(bs, req.room.value, req.checkIn.value, req.checkOut.value, today);
    assert taken <==> FirstConflict(bs, 0, req.room.value, req.checkIn.value, req.checkOut.value, today).Some?;
  }

  /** A same-day stay is refused as an invalid range whatever the state. */
  lemma SameDayRefused(
    bs: seq<Booking>, hotels: seq<HotelModel.Hotel>, rooms: seq<RoomModel.Room>,
    actor: Actor, hotelId: Id, room: Id, day: Day, today: Day, newId: Id)
    requires RoomOfHotel(hotels, rooms, hotelId, Some(room))
    ensures CreateVerdict(bs, hotels, rooms, actor, hotelId, BookingRequest(Some(room), Some(day), Some(day)), today, newId)
         == Err(InvalidDateRange)
  {
  }

  /** No two bookings on one room that have not ended before `today` share a night. */
  ghost predicate NoLiveOverlap(bs: seq<Booking>, today: Day)
  {
    forall i, j :: 0 <= i < |bs| && 0 <= j < |bs| && i != j
      && bs[i].room == bs[j].room && bs[i].checkOut >= today && bs[j].checkOut >= today
      ==> !Overlap(bs[i].checkIn, bs[i].checkOut, bs[j].checkIn, bs[j].checkOut)
  }

  /** A create that succeeds keeps the room calendar free of overlaps among
      bookings that have not ended. */
  lemma CreateKeepsRoomsDisjoint(
    bs: seq<Booking>, hotels: seq<HotelModel.Hotel>, rooms: seq<RoomModel.Room>,
    actor: Actor, hotelId: Id, req: BookingRequest, today: Day, newId: Id)
    requires NoLiveOverlap(bs, today)
    requires CreateVerdict(bs, hotels, rooms, actor, hotelId, req, today, newId).Ok?
    ensures NoLiveOverlap(bs + [CreateVerdict(bs, hotels, rooms, actor, hotelId, req, today, newId).value], today)
  {
    var b := CreateVerdict(bs, hotels, rooms, actor, hotelId, req, today, newId).value;
    var s := bs + [b];
    forall i, j | 0 <= i < |s| && 0 <= j < |s| && i != j
      && s[i].room == s[j].room && s[i].checkOut >= today && s[j].checkOut >= today
      ensures !Overlap(s[i].checkIn, s[i].checkOut, s[j].checkIn, s[j].checkOut)
    {
      if i == |bs| {
        assert !Blocks(bs[j], b.room, b.checkIn, b.checkOut, today);
      } else if j == |bs| {
        assert !Blocks(bs[i], b.room, b.checkIn, b.checkOut, today);
      }
    }
  }

  /** The quota as a store invariant: every user in `capped` (users who are
      not admins) holds at most three nights. A successful create keeps it,
      provided an admin actor is not one of the capped users. */
  lemma CreateKeepsQuota(
    bs: seq<Booking>, hotels: seq<HotelModel.Hotel>, rooms: seq<RoomModel.Room>,
    actor: Actor, hotelId: Id, req: BookingRequest, today: Day, newId: Id, capped: set<Id>)
    requires forall u :: u in capped ==> UserNights(bs, u, None) <= NightsCap
    requires actor.admin ==> actor.id !in capped
    requires CreateVerdict(bs, hotels, rooms, actor, hotelId, req, today, newId).Ok?
    ensures forall u :: u in capped ==>
      UserNights(bs + [CreateVerdict(bs, hotels, rooms, actor, hotelId, req, today, newId).value], u, None) <= NightsCap
  {
    var b := CreateVerdict(bs, hotels, rooms, actor, hotelId, req, today, newId).value;
    forall u | u in capped
      ensures UserNights(bs + [b], u, None) <= NightsCap
    {
      UserNightsAfterAppend(bs, b, u);
    }
  }

  // ------------------------------------------------------ update / delete

  /** The owner-or-admin gate of update and delete. */
  predicate MayChange(b: Booking, actor: Actor)
  {
    b.user == actor.id || actor.admin
  }

  /** updateBooking's decision: unknown id (404), then the gate (401); the
      range and quota checks run only when both dates are supplied and the
      actor is not an admin, and the quota then counts the actor's other
      bookings. No room-conflict check is made. */
  function UpdateVerdict(bs: seq<Booking>, actor: Actor, id: Id, p: BookingPatch): (r: Result<Booking, Failure>)
    requires IdsUnique(bs)
    ensures Find(bs, id).None? <==> r == Err(NotFound)
    ensures r == Err(NotAuthorized) <==> Find(bs, id).Some? && !MayChange(bs[Find(bs, id).value], actor)
    ensures r.Ok? ==> r.value == Apply(bs[Find(bs, id).value], p)
    // a checked update leaves the acting user within the cap
    ensures r.Ok? && !actor.admin && p.checkIn.Some? && p.checkOut.Some? ==>
      UserNights(bs[Find(bs, id).value := r.value], actor.id, None) <= NightsCap
    // without both dates, or for an admin, nothing but the gate is checked
    ensures (Find(bs, id).Some? && MayChange(bs[Find(bs, id).value], actor)
             && (actor.admin || p.checkIn.None? || p.checkOut.None?)) ==> r.Ok?
    ensures r.Err? && r.error.QuotaExceeded? ==> r.error.booked == UserNights(bs, actor.id, Some(id))
    // a checked update: the night count, then the quota over the actor's
    // other bookings, decide the outcome
    ensures Find(bs, id).Some? && MayChange(bs[Find(bs, id).value], actor)
            && !actor.admin && p.checkIn.Some? && p.checkOut.Some? ==>
      var nights := p.checkOut.value - p.checkIn.value;
      var others := UserNights(bs, actor.id, Some(id));
      && (r == Err(InvalidDateRange) <==> nights <= 0)
      && (r == Err(QuotaExceeded(others)) <==> nights > 0 && others + nights > NightsCap)
      && (r.Ok? <==> nights > 0 && others + nights <= NightsCap)
  {
    match Find(bs, id)
    case None => Err(NotFound)
    case Some(k) =>
      var b := bs[k];
      if !MayChange(b, actor) then Err(NotAuthorized)
      else if p.checkIn.Some? && p.checkOut.Some? && !actor.admin then
        var newNights := p.checkOut.value - p.checkIn.value;
        if newNights <= 0 then Err(InvalidDateRange)
        else
          var others := UserNights(bs, actor.id, Some(id));
          if others + newNights > NightsCap then Err(QuotaExceeded(others))
          else
            var b2 := Apply(b, p);
            UserNightsAfterReplace(bs, k, b2, actor.id);
            Ok(b2)
      else Ok(Apply(b, p))
  }

  /** deleteBooking's decision: the position to remove, or 404 / 401. */
  function DeleteVerdict(bs: seq<Booking>, actor: Actor, id: Id): (r: Result<nat, Failure>)
    ensures Find(bs, id).None? <==> r == Err(NotFound)
    ensures r == Err(NotAuthorized) <==> Find(bs, id).Some? && !MayChange(bs[Find(bs, id).value], actor)
    ensures r.Ok? ==> r.value < |bs| && bs[r.value].id == id && MayChange(bs[r.value], actor)
    ensures Find(bs, id).Some? && MayChange(bs[Find(bs, id).value], actor) ==> r == Ok(Find(bs, id).value)
  {
    match Find(bs, id)
    case None => Err(NotFound)
    case Some(k) => if MayChange(bs[k], actor) then Ok(k) else Err(NotAuthorized)
  }

  /** Removing the record at `k` from a collection with distinct ids removes
      exactly the records with that id. */
  lemma RemoveExactly(bs: seq<Booking>, k: nat)
    requires IdsUnique(bs) && k < |bs|
    ensures IdsUnique(bs[..k] + bs[k + 1..])
    ensures forall x :: x in bs[..k] + bs[k + 1..] <==> x in bs && x.id != bs[k].id
  {
    var s := bs[..k] + bs[k + 1..];
    OthersHaveOtherIds(bs, k);
    forall x | x in bs && x.id != bs[k].id ensures x in s {
      var i :| 0 <= i < |bs| && bs[i] == x;
      if i < k { assert s[i] == x; } else { assert i != k; assert s[i - 1] == x; }
    }
    forall i, j | 0 <= i < j < |s| ensures s[i].id != s[j].id {
      var i', j' := if i < k then i else i + 1, if j < k then j else j + 1;
      assert s[i] == bs[i'] && s[j] == bs[j'];
    }
  }

  /** With the actor's only booking B of three nights, an update that
      supplies only a new check-out is not checked, so a non-admin ends up
      holding more than three nights. */
  lemma SingleDateUpdateSkipsQuota()
    ensures var bs := [Booking(7, 1, 2, 3, 10, 13)];
      var r := UpdateVerdict(bs, Actor(1, false), 7, BookingPatch(None, None, None, None, Some(20)));
      r.Ok? && UserNights(bs[0 := r.value], 1, None) == 10
  {
    var bs := [Booking(7, 1, 2, 3, 10, 13)];
    var b2 := Booking(7, 1, 2, 3, 10, 20);
    assert UpdateVerdict(bs, Actor(1, false), 7, BookingPatch(None, None, None, None, Some(20))) == Ok(b2);
    UserNightsSingle(b2, 1);
  }

  // ------------------------------------------------- the code as written

  /** The status addBooking answers with as written. The conflict query's
      filter uses `today`, an identifier the file never declares; building
      the filter throws a ReferenceError, which the handler's catch answers
      with 500. So every request that passes the date checks fails. */
  function AddBookingStatusAsWritten(
    hotels: seq<HotelModel.Hotel>, rooms: seq<RoomModel.Room>, hotelId: Id, req: BookingRequest): (status: int)
    ensures status in {400, 404, 500}
  {
    if !RoomOfHotel(hotels, rooms, hotelId, req.room) then 404
    else if req.checkIn.None? || req.checkOut.None? then 400
    else if req.checkOut.value - req.checkIn.value <= 0 then 400
    else 500
  }

  /** The code as written never stores a booking: it agrees with the
      corrected decision on every request refused before the conflict
      query, and answers 500 to every request that reaches it, including
      every request the corrected decision accepts. */
  lemma {:induction false} TodayDefect(
    bs: seq<Booking>, hotels: seq<HotelModel.Hotel>, rooms: seq<RoomModel.Room>,
    actor: Actor, hotelId: Id, req: BookingRequest, today: Day, newId: Id)
    ensures var r := CreateVerdict(bs, hotels, rooms, actor, hotelId, req, today, newId);
      var status := AddBookingStatusAsWritten(hotels, rooms, hotelId, req);
      && (r.Err? && (r.error.NotFound? || r.error.MissingDates? || r.error.InvalidDateRange?) ==> status == Status(r.error))
      && (r.Ok? ==> status == 500)
  {
    var r := CreateVerdict(bs, hotels, rooms, actor, hotelId, req, today, newId);
    if RoomOfHotel(hotels, rooms, hotelId, req.room) && req.checkIn.Some? && req.checkOut.Some? {
      CreateOrder(bs, hotels, rooms, actor, hotelId, req, today, newId);
    }
  }

  /** A request the corrected handler accepts: hotel 1 with room 5, no
      bookings yet, two nights for an ordinary user. As written, the same
      request is answered with 500. */
  lemma CorrectedAcceptsFreshBooking()
    ensures var hotels := [HotelModel.Hotel(1, "Grand", "1 Main Rd", "Pathum Wan", "Bangkok", "10330", None, "Central")];
      var rooms := [RoomModel.Room(5, 1, "101", RoomModel.Single, 1200, None)];
      var req := BookingRequest(Some(5), Some(10), Some(12));
      && CreateVerdict([], hotels, rooms, Actor(9, false), 1, req, 0, 0) == Ok(Booking(0, 9, 1, 5, 10, 12))
      && AddBookingStatusAsWritten(hotels, rooms, 1, req) == 500
  {
    var hotels := [HotelModel.Hotel(1, "Grand", "1 Main Rd", "Pathum Wan", "Bangkok", "10330", None, "Central")];
    var rooms := [RoomModel.Room(5, 1, "101", RoomModel.Single, 1200, None)];
    assert HotelModel.Find(hotels, 1) == Some(0);
    assert RoomModel.Find(rooms, 5) == Some(0);
    assert UserNights([], 9, None) == 0;
  }

  // ------------------------------------------------------------ the store

  /** The Booking collection and the handlers that read and write it. */
  class BookingEngine {
    var bookings: seq<Booking>
    /** The id the next stored booking receives. */
    var nextId: Id

    ghost predicate Valid()
      reads this
    {
      IdsUnique(bookings) && forall b :: b in bookings ==> b.id < nextId
    }

    constructor ()
      ensures Valid() && bookings == []
    {
      bookings := [];
      nextId := 0;
    }

    /** getBookings. */
    function GetBookings(actor: Actor, hotelId: Option<Id>): (r: seq<Booking>)
      reads this
      ensures forall b :: b in r ==> b in bookings
      ensures !actor.admin ==> forall b :: b in r <==> b in bookings && b.user == actor.id
      ensures actor.admin && hotelId.Some? ==> forall b :: b in r <==> b in bookings && b.hotel == hotelId.value
      ensures actor.admin && hotelId.None? ==> r == bookings
    {
      Visible(bookings, actor, hotelId)
    }

    /** getBooking: the booking with this id, or 404. */
    method GetBooking(id: Id) returns (r: Result<Booking, Failure>)
      ensures r.Ok? <==> exists b :: b in bookings && b.id == id
      ensures r.Ok? ==> r.value in bookings && r.value.id == id
      ensures r.Err? ==> r.error == NotFound
    {
      var k := Find(bookings, id);
      if k.None? {
        return Err(NotFound);
      }
      r := Ok(bookings[k.value]);
    }

    /** The handlers' night-summing loop over Booking.find({ user, _id: { $ne } }). */
    method TotalNights(user: Id, exclude: Option<Id>) returns (total: int)
      ensures total == UserNights(bookings, user, exclude)
    {
      var existing := OwnedBy(bookings, user, exclude);
      total := 0;
      var i := 0;
      while i < |existing|
        invariant 0 <= i <= |existing|
        invariant total == SumNights(existing[..i])
      {
        SumNightsAppend(existing[..i], [existing[i]]);
        assert existing[..i + 1] == existing[..i] + [existing[i]];
        total := total + Nights(existing[i]);
        i := i + 1;
      }
      assert existing[..i] == existing;
    }

    /** addBooking, with `today` as a parameter (see AddBookingStatusAsWritten
        for the code as written). On success the new booking is appended;
        on any refusal the collection is unchanged. */
    method AddBooking(
      hotels: seq<HotelModel.Hotel>, rooms: seq<RoomModel.Room>,
      actor: Actor, hotelId: Id, req: BookingRequest, today: Day) returns (r: Result<Booking, Failure>)
      requires Valid()
      modifies this
      ensures Valid()
      ensures r == CreateVerdict(old(bookings), hotels, rooms, actor, hotelId, req, today, old(nextId))
      ensures bookings == if r.Ok? then old(bookings) + [r.value] else old(bookings)
    {
      var hotel := HotelModel.Find(hotels, hotelId);
      var room := if req.room.Some? then RoomModel.Find(rooms, req.room.value) else None;
      if hotel.None? || room.None? || rooms[room.value].hotel != hotelId {
        return Err(NotFound);
      }
      if req.checkIn.None? || req.checkOut.None? {
        return Err(MissingDates);
      }
      var checkIn, checkOut := req.checkIn.value, req.checkOut.value;
      var nightsToBook := checkOut - checkIn;
      if nightsToBook <= 0 {
        return Err(InvalidDateRange);
      }
      var conflict := FirstConflict(bookings, 0, req.room.value, checkIn, checkOut, today);
      if conflict.Some? {
        return Err(RoomTaken);
      }
      var totalNights := TotalNights(actor.id, None);
      if totalNights + nightsToBook > NightsCap && !actor.admin {
        return Err(QuotaExceeded(totalNights));
      }
      var booking := Booking(nextId, actor.id, hotelId, req.room.value, checkIn, checkOut);
      bookings := bookings + [booking];
      nextId := nextId + 1;
      r := Ok(booking);
    }

    /** updateBooking. On success the record is replaced in place; on any
        refusal the collection is unchanged. */
    method UpdateBooking(actor: Actor, id: Id, p: BookingPatch) returns (r: Result<Booking, Failure>)
      requires Valid()
      modifies this
      ensures Valid() && nextId == old(nextId)
      ensures r == UpdateVerdict(old(bookings), actor, id, p)
      ensures bookings == if r.Ok? then old(bookings)[Find(old(bookings), id).value := r.value] else old(bookings)
    {
      var k := Find(bookings, id);
      if k.None? {
        return Err(NotFound);
      }
      var booking := bookings[k.value];
      if booking.user != actor.id && !actor.admin {
        return Err(NotAuthorized);
      }
      if p.checkIn.Some? && p.checkOut.Some? && !actor.admin {
        var newNights := p.checkOut.value - p.checkIn.value;
        if newNights <= 0 {
          return Err(InvalidDateRange);
        }
        var totalNights := TotalNights(actor.id, Some(id));
        if totalNights + newNights > NightsCap {
          return Err(QuotaExceeded(totalNights));
        }
      }
      var updated := Apply(booking, p);
      bookings := bookings[k.value := updated];
      r := Ok(updated);
      assert forall b :: b in bookings ==> b in old(bookings) || b == updated;
    }

    /** deleteBooking. On success exactly the target booking is gone; on any
        refusal the collection is unchanged. */
    method DeleteBooking(actor: Actor, id: Id) returns (r: Result<Booking, Failure>)
      requires Valid()
      modifies this
      ensures Valid() && nextId == old(nextId)
      ensures r.Ok? <==> DeleteVerdict(old(bookings), actor, id).Ok?
      ensures r.Err? ==> r == Err(DeleteVerdict(old(bookings), actor, id).error) && bookings == old(bookings)
      ensures r.Ok? ==> r.value.id == id && r.value in old(bookings)
      ensures r.Ok? ==> forall b :: b in bookings <==> b in old(bookings) && b.id != id
      ensures r.Ok? ==> |bookings| == |old(bookings)| - 1
      ensures r.Ok? ==> forall u ::
                UserNights(bookings, u, None)
                == UserNights(old(bookings), u, None) - (if r.value.user == u then Nights(r.value) else 0)
    {
      var k := Find(bookings, id);
      if k.None? {
        return Err(NotFound);
      }
      var booking := bookings[k.value];
      if booking.user != actor.id && !actor.admin {
        return Err(NotAuthorized);
      }
      RemoveExactly(bookings, k.value);
      forall u ensures UserNights(bookings[..k.value] + bookings[k.value + 1..], u, None)
        == UserNights(bookings, u, None) - (if booking.user == u then Nights(booking) else 0)
      {
        UserNightsAfterRemove(bookings, k.value, u);
      }
      bookings := bookings[..k.value] + bookings[k.value + 1..];
      r := Ok(booking);
    }

    /** Booking.deleteMany({ hotel }), the first step of deleteHotel. */
    method DeleteAtHotel(hotel: Id)
      requires Valid()
      modifies this
      ensures Valid() && nextId == old(nextId)
      ensures bookings == NotAtHotel(old(bookings), hotel)
      ensures forall b :: b in bookings <==> b in old(bookings) && b.hotel != hotel
    {
      NotAtHotelKeepsIdsUnique(bookings, hotel);
      bookings := NotAtHotel(bookings, hotel);
    }
  }
}
