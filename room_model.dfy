/** RoomSchema: a room references its hotel, has a room number that is unique
    across the whole Room collection, a type from a fixed enumeration, a
    price and an optional description. */
module RoomModel {
  import opened Common

  datatype RoomType = Single | Double | Suite

  /** The enum values as stored. */
  function TypeName(t: RoomType): string
  {
    match t
    case Single => "single"
    case Double => "double"
    case Suite => "suite"
  }

  /** The enum validator on `type`: accepts exactly the three names. */
  function ParseType(s: string): (r: Option<RoomType>)
    ensures r.Some? ==> TypeName(r.value) == s
    ensures forall t :: TypeName(t) == s ==> r == Some(t)
  {
    if s == "single" then Some(Single)
    else if s == "double" then Some(Double)
    else if s == "suite" then Some(Suite)
    else None
  }

  datatype Room = Room(
    id: Id,
    hotel: Id,
    roomNumber: string,
    roomType: RoomType,
    price: int,
    description: Option<string>)

  /** The schema fields a request body carries; None is a field the body leaves out. */
  datatype RoomFields = RoomFields(
    hotel: Option<Id>,
    roomNumber: Option<string>,
    roomType: Option<string>,
    price: Option<int>,
    description: Option<string>)

  /** Every rule of RoomSchema that concerns one document holds (the type is
      in the enumeration by construction). */
  predicate Valid(r: Room)
  {
    r.roomNumber != []
  }

  /** `r` holds exactly what the body supplies, except that its hotel is `hotel`. */
  predicate Carries(r: Room, hotel: Id, f: RoomFields)
  {
    && r.hotel == hotel
    && f.roomNumber == Some(r.roomNumber)
    && f.roomType == Some(TypeName(r.roomType))
    && f.price == Some(r.price)
    && f.description == r.description
  }

  /** The document Room.create({ ...body, hotel }) validates: `hotel` overrides
      whatever hotel the body names; a missing or empty room number, a
      missing or unknown type or a missing price is a validation error. */
  function FromFields(id: Id, hotel: Id, f: RoomFields): (r: Option<Room>)
    ensures r.Some? ==> Valid(r.value) && r.value.id == id && Carries(r.value, hotel, f)
    ensures forall x: Room :: x.id == id && Valid(x) && Carries(x, hotel, f) ==> r == Some(x)
  {
    if f.roomNumber.Some? && f.roomNumber.value != [] && f.roomType.Some?
       && ParseType(f.roomType.value).Some? && f.price.Some?
    then Some(Room(id, hotel, f.roomNumber.value, ParseType(f.roomType.value).value,
                   f.price.value, f.description))
    else None
  }

  /** `x` is `r` with the supplied fields of the patch written over it
      (including `hotel`, which an update may change) and the id kept. */
  predicate Patched(r: Room, f: RoomFields, x: Room)
  {
    && x.id == r.id
    && x.hotel == (if f.hotel.Some? then f.hotel.value else r.hotel)
    && x.roomNumber == (if f.roomNumber.Some? then f.roomNumber.value else r.roomNumber)
    && (if f.roomType.Some? then f.roomType == Some(TypeName(x.roomType)) else x.roomType == r.roomType)
    && x.price == (if f.price.Some? then f.price.value else r.price)
    && x.description == (if f.description.Some? then f.description else r.description)
  }

  /** The update validators (runValidators) on the supplied fields: an empty
      room number or a type outside the enumeration is refused. */
  predicate PatchValid(f: RoomFields)
  {
    && (f.roomNumber.Some? ==> f.roomNumber.value != [])
    && (f.roomType.Some? ==> ParseType(f.roomType.value).Some?)
  }

  /** The document findByIdAndUpdate writes: the one valid patched room. */
  function ApplyPatch(r: Room, f: RoomFields): (x: Room)
    requires Valid(r) && PatchValid(f)
    ensures Valid(x) && Patched(r, f, x)
    ensures forall y: Room :: Patched(r, f, y) ==> y == x
  {
    Room(r.id,
         if f.hotel.Some? then f.hotel.value else r.hotel,
         if f.roomNumber.Some? then f.roomNumber.value else r.roomNumber,
         if f.roomType.Some? then ParseType(f.roomType.value).value else r.roomType,
         if f.price.Some? then f.price.value else r.price,
         if f.description.Some? then f.description else r.description)
  }

  /** The unique index on `roomNumber`: over all rooms, not per hotel. */
  predicate NumbersUnique(rs: seq<Room>)
  {
    forall i, j :: 0 <= i < j < |rs| ==> rs[i].roomNumber != rs[j].roomNumber
  }

  predicate IdsUnique(rs: seq<Room>)
  {
    forall i, j :: 0 <= i < j < |rs| ==> rs[i].id != rs[j].id
  }

  /** Room.findById: the position of the room with this id. */
  function Find(rs: seq<Room>, id: Id): (r: Option<nat>)
    ensures r.None? <==> forall x :: x in rs ==> x.id != id
    ensures r.Some? ==> r.value < |rs| && rs[r.value].id == id
  {
    if rs == [] then None
    else if rs[0].id == id then Some(0)
    else match Find(rs[1..], id)
      case None => None
      case Some(k) => Some(k + 1)
  }

  /** Whether some room other than the one with id `except` already uses this
      number (what the unique index refuses). */
  predicate NumberTaken(rs: seq<Room>, roomNumber: string, except: Option<Id>)
  {
    exists i :: 0 <= i < |rs| && rs[i].roomNumber == roomNumber && except != Some(rs[i].id)
  }
}
