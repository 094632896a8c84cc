/** HotelSchema: the fields of a hotel document, the rules the schema puts on
    them (required, trimmed, maximum lengths, a unique name), and the
    `bookings` reverse relation. A document is built from a request body by
    running the `trim` setter and then the validators. */
module HotelModel {
  import opened Common
  import opened BookingModel

  /** The limit the schema enforces on `name` (its error text says 50).
      Both limits count UTF-16 code units, as `maxlength` does. */
  const NameMaxLength := 500
  const PostalCodeMaxLength := 5

  datatype Hotel = Hotel(
    id: Id,
    name: string,
    address: string,
    district: string,
    province: string,
    postalcode: string,
    tel: Option<string>,
    region: string)

  /** The schema fields a request body carries; None is a field the body leaves out. */
  datatype HotelFields = HotelFields(
    name: Option<string>,
    address: Option<string>,
    district: Option<string>,
    province: Option<string>,
    postalcode: Option<string>,
    tel: Option<string>,
    region: Option<string>)

  /** Mongoose's `required` check on a String path: present and not empty. */
  predicate Filled(s: string)
  {
    s != []
  }

  /** Every rule of HotelSchema holds of a stored document. */
  predicate Valid(h: Hotel)
  {
    && Filled(h.name) && JsLength(h.name) <= NameMaxLength && Trim(h.name) == h.name
    && Filled(h.address)
    && Filled(h.district)
    && Filled(h.province)
    && Filled(h.postalcode) && JsLength(h.postalcode) <= PostalCodeMaxLength
    && Filled(h.region)
  }

  /** `h` holds exactly what the body supplies, with the name trimmed. */
  predicate Carries(h: Hotel, f: HotelFields)
  {
    && f.name.Some? && h.name == Trim(f.name.value)
    && f.address == Some(h.address)
    && f.district == Some(h.district)
    && f.province == Some(h.province)
    && f.postalcode == Some(h.postalcode)
    && f.tel == h.tel
    && f.region == Some(h.region)
  }

  function Or(v: Option<string>, d: string): string
  {
    if v.Some? then v.value else d
  }

  /** Hotel.create's document step: the body becomes a hotel with id `id` when
      every rule holds, and is refused (a validation error) otherwise. The
      result is the one valid hotel that carries the body. */
  function FromFields(id: Id, f: HotelFields): (r: Option<Hotel>)
    ensures r.Some? ==> Valid(r.value) && r.value.id == id && Carries(r.value, f)
    ensures forall h: Hotel :: h.id == id && Valid(h) && Carries(h, f) ==> r == Some(h)
  {
    var h := Hotel(id, Trim(Or(f.name, "")), Or(f.address, ""), Or(f.district, ""),
                   Or(f.province, ""), Or(f.postalcode, ""), f.tel, Or(f.region, ""));
    if f.name.Some? && f.address.Some? && f.district.Some? && f.province.Some?
       && f.postalcode.Some? && f.region.Some? && Valid(h)
    then Some(h) else None
  }

  /** `h2` is `h` with the supplied fields of the patch written over it, the
      name trimmed, and the id kept. */
  predicate Patched(h: Hotel, f: HotelFields, h2: Hotel)
  {
    && h2.id == h.id
    && h2.name == (if f.name.Some? then Trim(f.name.value) else h.name)
    && h2.address == Or(f.address, h.address)
    && h2.district == Or(f.district, h.district)
    && h2.province == Or(f.province, h.province)
    && h2.postalcode == Or(f.postalcode, h.postalcode)
    && h2.tel == (if f.tel.Some? then f.tel else h.tel)
    && h2.region == Or(f.region, h.region)
  }

  /** findByIdAndUpdate with runValidators: the update validators check the
      supplied fields; the result is the one valid patched document, or a
      validation error when there is none. */
  function ApplyPatch(h: Hotel, f: HotelFields): (r: Option<Hotel>)
    ensures r.Some? ==> Valid(r.value) && Patched(h, f, r.value)
    ensures forall h2: Hotel :: Valid(h2) && Patched(h, f, h2) ==> r == Some(h2)
  {
    var h2 := Hotel(h.id, if f.name.Some? then Trim(f.name.value) else h.name,
                    Or(f.address, h.address), Or(f.district, h.district),
                    Or(f.province, h.province), Or(f.postalcode, h.postalcode),
                    if f.tel.Some? then f.tel else h.tel, Or(f.region, h.region));
    if Valid(h2) then Some(h2) else None
  }

  /** An empty patch leaves a valid hotel as it is. */
  lemma EmptyPatch(h: Hotel)
    requires Valid(h)
    ensures ApplyPatch(h, HotelFields(None, None, None, None, None, None, None)) == Some(h)
  {
  }

  /** A name that is blank once trimmed, or longer than 500 code units once
      trimmed, or a postal code longer than 5 code units, is refused both on
      create and on update. */
  lemma RejectedFields(id: Id, h: Hotel, f: HotelFields)
    requires
      || (f.name.Some? && (Trim(f.name.value) == [] || JsLength(Trim(f.name.value)) > NameMaxLength))
      || (f.postalcode.Some? && JsLength(f.postalcode.value) > PostalCodeMaxLength)
    ensures FromFields(id, f).None?
    ensures ApplyPatch(h, f).None?
  {
  }

  /** Three digits from outside the Basic Multilingual Plane are six code
      units, so they do not fit the postal-code limit of five. */
  lemma AstralPostalCodeRefused(id: Id, h: Hotel, f: HotelFields)
    requires f.postalcode == Some("\U{1D7CF}\U{1D7D0}\U{1D7D1}")
    ensures FromFields(id, f).None? && ApplyPatch(h, f).None?
  {
    var code := "\U{1D7CF}\U{1D7D0}\U{1D7D1}";
    assert code[1..][1..][1..] == [];
    assert JsLength(code) == 6;
    RejectedFields(id, h, f);
  }

  /** The unique index on `name`. */
  predicate NamesUnique(hs: seq<Hotel>)
  {
    forall i, j :: 0 <= i < j < |hs| ==> hs[i].name != hs[j].name
  }

  predicate IdsUnique(hs: seq<Hotel>)
  {
    forall i, j :: 0 <= i < j < |hs| ==> hs[i].id != hs[j].id
  }

  /** Hotel.findById: the position of the hotel with this id. */
  function Find(hs: seq<Hotel>, id: Id): (r: Option<nat>)
    ensures r.None? <==> forall h :: h in hs ==> h.id != id
    ensures r.Some? ==> r.value < |hs| && hs[r.value].id == id
  {
    if hs == [] then None
    else if hs[0].id == id then Some(0)
    else match Find(hs[1..], id)
      case None => None
      case Some(k) => Some(k + 1)
  }

  /** The `bookings` virtual: the Booking records whose `hotel` is this
      hotel's id, in collection order. */
  function BookingsOf(h: Hotel, all: seq<Booking>): (r: seq<Booking>)
    ensures forall b :: b in r <==> b in all && b.hotel == h.id
  {
    AtHotel(all, h.id)
  }
}
