/** The room controller: room create/update/delete over the Room collection
    (admin-only routes), the list of a hotel's rooms, and the availability
    listing, which marks each room of a hotel free or taken for a date
    window. */
module Rooms {
  import opened Common
  import opened RoomModel
  import BookingModel
  import Bookings

  datatype Failure =
    | Invalid        // 400: a validation error or a duplicate room number
    | NotFound       // 404
    | MissingDates   // 400: the availability query lacks a date

  function Status(f: Failure): int
  {
    match f
    case Invalid => 400
    case NotFound => 404
    case MissingDates => 400
  }

  /** Room.find({ hotel }): the rooms of one hotel, in collection order. */
  function RoomsOfHotel(rs: seq<Room>, hotelId: Id): (r: seq<Room>)
    ensures |r| <= |rs|
    ensures forall x :: x in r <==> x in rs && x.hotel == hotelId
  {
    if rs == [] then []
    else
      var rest := RoomsOfHotel(rs[1..], hotelId);
      if rs[0].hotel == hotelId then [rs[0]] + rest else rest
  }

  // ------------------------------------------------------- availability

  /** One entry of the availability listing. */
  datatype RoomAvailability = RoomAvailability(
    id: Id,
    roomNumber: string,
    roomType: RoomType,
    price: int,
    description: Option<string>,
    available: bool)

  /** The per-room query of the listing finds a booking: same room, ending
      after the window opens and starting before it closes. There is no
      "not yet ended" filter here. */
  predicate Taken(b: BookingModel.Booking, room: Id, checkIn: Day, checkOut: Day)
  {
    b.room == room && b.checkOut > checkIn && b.checkIn < checkOut
  }

  predicate Free(bs: seq<BookingModel.Booking>, room: Id, checkIn: Day, checkOut: Day)
  {
    forall i :: 0 <= i < |bs| ==> !Taken(bs[i], room, checkIn, checkOut)
  }

  /** The entry built for one room: its listed fields copied, plus whether
      the query found no booking. */
  function Entry(r: Room, bs: seq<BookingModel.Booking>, checkIn: Day, checkOut: Day): (e: RoomAvailability)
    ensures e.id == r.id && e.roomNumber == r.roomNumber && e.roomType == r.roomType
    ensures e.price == r.price && e.description == r.description
    ensures e.available <==>
      !exists b :: b in bs && b.room == r.id && BookingModel.Overlap(b.checkIn, b.checkOut, checkIn, checkOut)
  {
    RoomAvailability(r.id, r.roomNumber, r.roomType, r.price, r.description,
                     forall i :: 0 <= i < |bs| ==> !Taken(bs[i], r.id, checkIn, checkOut))
  }

  /** rooms.map(...) awaited with Promise.all: one entry per room, in order. */
  function Entries(rs: seq<Room>, bs: seq<BookingModel.Booking>, checkIn: Day, checkOut: Day): (es: seq<RoomAvailability>)
    ensures |es| == |rs|
    ensures forall i :: 0 <= i < |rs| ==> es[i] == Entry(rs[i], bs, checkIn, checkOut)
  {
    if rs == [] then [] else [Entry(rs[0], bs, checkIn, checkOut)] + Entries(rs[1..], bs, checkIn, checkOut)
  }

  /** getRoomsByHotelWithAvailability: 400 before any lookup when a date is
      missing; otherwise one entry per room of the hotel, in room order,
      copying the room's id, number, type, price and description, and marked
      available exactly when no booking on that room overlaps the window. */
  function Availability(rs: seq<Room>, bs: seq<BookingModel.Booking>, hotelId: Id, checkIn: Option<Day>, checkOut: Option<Day>)
    : (r: Result<seq<RoomAvailability>, Failure>)
    ensures checkIn.None? || checkOut.None? <==> r == Err(MissingDates)
    ensures checkIn.Some? && checkOut.Some? ==> r.Ok?
    ensures r.Err? ==> Status(r.error) == 400
    ensures r.Ok? ==>
      var mine := RoomsOfHotel(rs, hotelId);
      && |r.value| == |mine|
      && forall i :: 0 <= i < |mine| ==>
        && r.value[i].id == mine[i].id
        && r.value[i].roomNumber == mine[i].roomNumber
        && r.value[i].roomType == mine[i].roomType
        && r.value[i].price == mine[i].price
        && r.value[i].description == mine[i].description
        && (r.value[i].available <==> Free(bs, mine[i].id, checkIn.value, checkOut.value))
  {
    if checkIn.None? || checkOut.None? then Err(MissingDates)
    else Ok(Entries(RoomsOfHotel(rs, hotelId), bs, checkIn.value, checkOut.value))
  }

  /** A booking that checks out the day the window opens, or checks in the
      day it closes, does not make the room unavailable. */
  lemma TouchingIsFree(b: BookingModel.Booking, checkIn: Day, checkOut: Day)
    requires b.checkOut == checkIn || b.checkIn == checkOut
    ensures Free([b], b.room, checkIn, checkOut)
  {
  }

  /** A room the listing shows as available is never refused as taken by
      addBooking for the same stay, whatever `today` is: the create-time
      conflict query looks at a subset of what the listing looks at. */
  lemma AvailableMeansBookable(bs: seq<BookingModel.Booking>, room: Id, checkIn: Day, checkOut: Day, today: Day)
    requires Free(bs, room, checkIn, checkOut)
    ensures !Bookings.Conflict(bs, room, checkIn, checkOut, today)
  {
    forall i | 0 <= i < |bs| ensures !Bookings.Blocks(bs[i], room, checkIn, checkOut, today) {
      assert !Taken(bs[i], room, checkIn, checkOut);
    }
  }

  /** The two checks disagree on bookings that ended before `today`: such a
      booking still makes the room unavailable in the listing, yet does not
      stop a new booking over it. */
  lemma EndedBookingsStillBlockListing()
    ensures var b := BookingModel.Booking(1, 2, 3, 4, 10, 14);
      !Free([b], 4, 11, 13) && !Bookings.Conflict([b], 4, 11, 13, 20)
  {
    var b := BookingModel.Booking(1, 2, 3, 4, 10, 14);
    assert Taken([b][0], 4, 11, 13);
  }

  // -------------------------------------------------------------- store

  /** The Room collection and the handlers that write it. */
  class RoomStore {
    var rooms: seq<Room>
    /** The id the next stored room receives. */
    var nextId: Id

    /** Every stored room meets the schema, ids are distinct and below
        `nextId`, and room numbers are unique across all hotels. */
    ghost predicate Valid()
      reads this
    {
      && IdsUnique(rooms)
      && NumbersUnique(rooms)
      && (forall r :: r in rooms ==> RoomModel.Valid(r) && r.id < nextId)
    }

    constructor ()
      ensures Valid() && rooms == []
    {
      rooms := [];
      nextId := 0;
    }

    /** getRoomsByHotel: exactly the rooms whose hotel is the path id; the
        response's count is the length of this list. */
    function GetRoomsByHotel(hotelId: Id): (r: seq<Room>)
      reads this
      ensures |r| <= |rooms|
      ensures forall x :: x in r <==> x in rooms && x.hotel == hotelId
    {
      RoomsOfHotel(rooms, hotelId)
    }

    /** addRoom (admin only): the room is stored with the path hotel, whatever
        hotel the body names; a validation error or a duplicate room number
        answers 400 and stores nothing. */
    method AddRoom(caller: Actor, hotelId: Id, f: RoomFields) returns (r: Result<Room, Failure>)
      requires caller.admin && Valid()
      modifies this
      ensures Valid()
      ensures r.Ok? <==> FromFields(old(nextId), hotelId, f).Some? && !NumberTaken(old(rooms), f.roomNumber.value, None)
      ensures r.Ok? ==> r.value == FromFields(old(nextId), hotelId, f).value && r.value.hotel == hotelId
      ensures r.Err? ==> r.error == Invalid && Status(r.error) == 400
      ensures rooms == if r.Ok? then old(rooms) + [r.value] else old(rooms)
    {
      var doc := FromFields(nextId, hotelId, f);
      if doc.None? || NumberTaken(rooms, doc.value.roomNumber, None) {
        return Err(Invalid);
      }
      rooms := rooms + [doc.value];
      nextId := nextId + 1;
      r := Ok(doc.value);
    }

    /** updateRoom (admin only): the update validators first (400), then the
        lookup (404), then the unique index on the room number (400); on
        success the stored room is the patched one. Nothing changes on a
        refusal. */
    method UpdateRoom(caller: Actor, roomId: Id, f: RoomFields) returns (r: Result<Room, Failure>)
      requires caller.admin && Valid()
      modifies this
      ensures Valid() && nextId == old(nextId)
      ensures !PatchValid(f) ==> r == Err(Invalid)
      ensures PatchValid(f) && Find(old(rooms), roomId).None? ==> r == Err(NotFound)
      ensures r.Ok? ==>
        && Find(old(rooms), roomId).Some?
        && r.value == ApplyPatch(old(rooms)[Find(old(rooms), roomId).value], f)
        && rooms == old(rooms)[Find(old(rooms), roomId).value := r.value]
      ensures r.Err? ==> rooms == old(rooms)
      ensures r.Err? ==> Status(r.error) == if r.error == NotFound then 404 else 400
      ensures r.Ok? <==>
        && PatchValid(f)
        && Find(old(rooms), roomId).Some?
        && !(f.roomNumber.Some? && NumberTaken(old(rooms), f.roomNumber.value, Some(roomId)))
      ensures r == Err(Invalid) <==>
        (|| !PatchValid(f)
         || (Find(old(rooms), roomId).Some? && f.roomNumber.Some? && NumberTaken(old(rooms), f.roomNumber.value, Some(roomId))))
    {
      if !PatchValid(f) {
        return Err(Invalid);
      }
      var k := Find(rooms, roomId);
      if k.None? {
        return Err(NotFound);
      }
      if f.roomNumber.Some? && NumberTaken(rooms, f.roomNumber.value, Some(roomId)) {
        return Err(Invalid);
      }
      var updated := ApplyPatch(rooms[k.value], f);
      UpdateKeepsNumbersUnique(rooms, k.value, updated);
      rooms := rooms[k.value := updated];
      r := Ok(updated);
    }

    /** deleteRoom (admin only): 404 for an unknown id; otherwise exactly that
        room is removed. Bookings that reference it are left as they are
        (this method cannot touch the Booking collection). */
    method DeleteRoom(caller: Actor, roomId: Id) returns (r: Result<Room, Failure>)
      requires caller.admin && Valid()
      modifies this
      ensures Valid() && nextId == old(nextId)
      ensures r.Err? <==> Find(old(rooms), roomId).None?
      ensures r.Err? ==> r.error == NotFound && Status(r.error) == 404 && rooms == old(rooms)
      ensures r.Ok? ==> r.value in old(rooms) && r.value.id == roomId
      ensures r.Ok? ==> forall x :: x in rooms <==> x in old(rooms) && x.id != roomId
    {
      var k := Find(rooms, roomId);
      if k.None? {
        return Err(NotFound);
      }
      r := Ok(rooms[k.value]);
      RemoveKeepsInvariants(rooms, k.value);
      rooms := rooms[..k.value] + rooms[k.value + 1..];
    }
  }

  /** Writing a room whose number no other room uses, under the same id,
      keeps ids and numbers unique. */
  lemma UpdateKeepsNumbersUnique(rs: seq<Room>, k: nat, x: Room)
    requires IdsUnique(rs) && NumbersUnique(rs) && k < |rs| && x.id == rs[k].id
    requires !NumberTaken(rs, x.roomNumber, Some(x.id)) || x.roomNumber == rs[k].roomNumber
    ensures IdsUnique(rs[k := x]) && NumbersUnique(rs[k := x])
  {
    var s := rs[k := x];
    forall i, j | 0 <= i < j < |s| ensures s[i].roomNumber != s[j].roomNumber {
      if i == k {
        assert rs[j].id != x.id;
      } else if j == k {
        assert rs[i].id != x.id;
      }
    }
  }

  /** Removing one room keeps every store invariant and removes exactly the
      rooms with its id. */
  lemma RemoveKeepsInvariants(rs: seq<Room>, k: nat)
    requires IdsUnique(rs) && NumbersUnique(rs) && k < |rs|
    ensures IdsUnique(rs[..k] + rs[k + 1..]) && NumbersUnique(rs[..k] + rs[k + 1..])
    ensures forall x :: x in rs[..k] + rs[k + 1..] <==> x in rs && x.id != rs[k].id
  {
    var s := rs[..k] + rs[k + 1..];
    forall i, j | 0 <= i < j < |s| ensures s[i].id != s[j].id && s[i].roomNumber != s[j].roomNumber {
      var i', j' := if i < k then i else i + 1, if j < k then j else j + 1;
      assert s[i] == rs[i'] && s[j] == rs[j'];
    }
    forall x | x in s ensures x.id != rs[k].id {
      var i :| 0 <= i < |s| && s[i] == x;
      var i' := if i < k then i else i + 1;
      assert s[i] == rs[i'];
    }
    forall x | x in rs && x.id != rs[k].id ensures x in s {
      var i :| 0 <= i < |rs| && rs[i] == x;
      if i < k { assert s[i] == x; } else { assert s[i - 1] == x; }
    }
  }
}
