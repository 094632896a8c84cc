/** The Booking collection as the controllers use it: a booking record, its
    night count, and the queries the handlers send to the collection
    (find by id, by user with an excluded id, by hotel, by room). The
    collection is a sequence in insertion order, which is the order in which
    a query without a sort returns documents. */
module BookingModel {
  import opened Common

  /** One reservation: its owner, the hotel and room it references, and the
      half-open stay [checkIn, checkOut) in day numbers. */
  datatype Booking = Booking(id: Id, user: Id, hotel: Id, room: Id, checkIn: Day, checkOut: Day)

  /** Whole days between check-in and check-out
      (dayjs(checkOut).diff(dayjs(checkIn), "day") on day numbers). */
  function Nights(b: Booking): int
  {
    b.checkOut - b.checkIn
  }

  /** Two half-open stays [in1, out1) and [in2, out2) share a night. */
  predicate Overlap(in1: Day, out1: Day, in2: Day, out2: Day)
  {
    in1 < out2 && in2 < out1
  }

  /** No two records of the collection share an id. */
  predicate IdsUnique(bs: seq<Booking>)
  {
    forall i, j :: 0 <= i < j < |bs| ==> bs[i].id != bs[j].id
  }

  /** Booking.findById: the position of the record with this id. */
  function Find(bs: seq<Booking>, id: Id): (r: Option<nat>)
    ensures r.None? <==> forall b :: b in bs ==> b.id != id
    ensures r.Some? ==> r.value < |bs| && bs[r.value].id == id
    ensures r.Some? ==> forall k :: 0 <= k < r.value ==> bs[k].id != id
  {
    if bs == [] then None
    else if bs[0].id == id then Some(0)
    else match Find(bs[1..], id)
      case None => None
      case Some(k) => Some(k + 1)
  }

  /** Booking.find({ user, _id: { $ne: exclude } }): the user's records,
      leaving out the one with the excluded id. */
  function OwnedBy(bs: seq<Booking>, user: Id, exclude: Option<Id>): (r: seq<Booking>)
    ensures |r| <= |bs|
    ensures forall b :: b in r <==> b in bs && b.user == user && exclude != Some(b.id)
  {
    if bs == [] then []
    else
      var rest := OwnedBy(bs[1..], user, exclude);
      if bs[0].user == user && exclude != Some(bs[0].id) then [bs[0]] + rest else rest
  }

  /** Booking.find({ hotel }): the records of one hotel. */
  function AtHotel(bs: seq<Booking>, hotel: Id): (r: seq<Booking>)
    ensures |r| <= |bs|
    ensures forall b :: b in r <==> b in bs && b.hotel == hotel
  {
    if bs == [] then []
    else
      var rest := AtHotel(bs[1..], hotel);
      if bs[0].hotel == hotel then [bs[0]] + rest else rest
  }

  /** Booking.deleteMany({ hotel }): the records that survive. */
  function NotAtHotel(bs: seq<Booking>, hotel: Id): (r: seq<Booking>)
    ensures |r| <= |bs|
    ensures forall b :: b in r <==> b in bs && b.hotel != hotel
  {
    if bs == [] then []
    else
      var rest := NotAtHotel(bs[1..], hotel);
      if bs[0].hotel != hotel then [bs[0]] + rest else rest
  }

  /** The records kept by deleteMany({ hotel }) and the ones it removes
      together account for the whole collection. */
  lemma {:induction false} HotelSplit(bs: seq<Booking>, hotel: Id)
    ensures |AtHotel(bs, hotel)| + |NotAtHotel(bs, hotel)| == |bs|
  {
    if bs != [] {
      HotelSplit(bs[1..], hotel);
    }
  }

  /** Removing records keeps ids distinct. */
  lemma {:induction false} NotAtHotelKeepsIdsUnique(bs: seq<Booking>, hotel: Id)
    requires IdsUnique(bs)
    ensures IdsUnique(NotAtHotel(bs, hotel))
  {
    if bs != [] {
      NotAtHotelKeepsIdsUnique(bs[1..], hotel);
      var rest := NotAtHotel(bs[1..], hotel);
      assert forall b :: b in rest ==> b in bs[1..];
      assert forall k :: 0 <= k < |rest| ==> rest[k] in bs[1..];
    }
  }

  /** The total nights of a list of bookings, as the handlers' loops add them up. */
  function SumNights(bs: seq<Booking>): int
  {
    if bs == [] then 0 else Nights(bs[0]) + SumNights(bs[1..])
  }

  lemma {:induction false} SumNightsAppend(a: seq<Booking>, b: seq<Booking>)
    ensures SumNights(a + b) == SumNights(a) + SumNights(b)
  {
    if a == [] {
      assert a + b == b;
    } else {
      assert (a + b)[1..] == a[1..] + b;
      SumNightsAppend(a[1..], b);
    }
  }

  /** The quota base: the nights a user holds, leaving out one booking id. */
  function UserNights(bs: seq<Booking>, user: Id, exclude: Option<Id>): int
  {
    SumNights(OwnedBy(bs, user, exclude))
  }

  /** Filtering by owner commutes with appending. */
  lemma {:induction false} OwnedByAppend(a: seq<Booking>, b: seq<Booking>, user: Id, exclude: Option<Id>)
    ensures OwnedBy(a + b, user, exclude) == OwnedBy(a, user, exclude) + OwnedBy(b, user, exclude)
  {
    if a == [] {
      assert a + b == b;
    } else {
      assert (a + b)[1..] == a[1..] + b;
      OwnedByAppend(a[1..], b, user, exclude);
    }
  }

  /** Storing a new booking raises its owner's total by its nights and leaves
      every other user's total alone. */
  lemma UserNightsAfterAppend(bs: seq<Booking>, b: Booking, user: Id)
    ensures UserNights(bs + [b], user, None)
         == UserNights(bs, user, None) + (if b.user == user then Nights(b) else 0)
  {
    OwnedByAppend(bs, [b], user, None);
    SumNightsAppend(OwnedBy(bs, user, None), OwnedBy([b], user, None));
  }

  /** Excluding an id that no record carries changes nothing. */
  lemma {:induction false} ExcludeAbsent(bs: seq<Booking>, user: Id, id: Id)
    requires forall b :: b in bs ==> b.id != id
    ensures OwnedBy(bs, user, Some(id)) == OwnedBy(bs, user, None)
  {
    if bs != [] {
      ExcludeAbsent(bs[1..], user, id);
    }
  }

  /** The quota base of a collection cut in three around one record. */
  lemma UserNightsSplit(pre: seq<Booking>, x: Booking, post: seq<Booking>, user: Id, exclude: Option<Id>)
    ensures UserNights(pre + [x] + post, user, exclude)
         == UserNights(pre, user, exclude) + UserNights([x], user, exclude) + UserNights(post, user, exclude)
  {
    OwnedByAppend(pre + [x], post, user, exclude);
    OwnedByAppend(pre, [x], user, exclude);
    var o1, o2, o3 := OwnedBy(pre, user, exclude), OwnedBy([x], user, exclude), OwnedBy(post, user, exclude);
    SumNightsAppend(o1 + o2, o3);
    SumNightsAppend(o1, o2);
  }

  /** In a collection with distinct ids, the records before and after the
      one at `k` carry other ids. */
  lemma OthersHaveOtherIds(bs: seq<Booking>, k: nat)
    requires IdsUnique(bs) && k < |bs|
    ensures forall x :: x in bs[..k] ==> x.id != bs[k].id
    ensures forall x :: x in bs[k + 1..] ==> x.id != bs[k].id
  {
    forall x | x in bs[..k] ensures x.id != bs[k].id {
      var i :| 0 <= i < k && bs[..k][i] == x;
    }
    forall x | x in bs[k + 1..] ensures x.id != bs[k].id {
      var i :| 0 <= i < |bs| - k - 1 && bs[k + 1..][i] == x;
      assert bs[k + 1 + i] == x;
    }
  }

  /** Replacing the record at `k` by `b` (same id, as findByIdAndUpdate does):
      the owner's new total is the total of the user's other bookings plus
      the nights of the new version. */
  lemma UserNightsAfterReplace(bs: seq<Booking>, k: nat, b: Booking, user: Id)
    requires IdsUnique(bs) && k < |bs| && b.id == bs[k].id
    ensures UserNights(bs[k := b], user, None)
         == UserNights(bs, user, Some(b.id)) + (if b.user == user then Nights(b) else 0)
  {
    var pre, post := bs[..k], bs[k + 1..];
    assert bs == pre + [bs[k]] + post;
    assert bs[k := b] == pre + [b] + post;
    OthersHaveOtherIds(bs, k);
    ExcludeAbsent(pre, user, b.id);
    ExcludeAbsent(post, user, b.id);
    UserNightsSplit(pre, b, post, user, None);
    UserNightsSplit(pre, bs[k], post, user, Some(b.id));
    assert OwnedBy([bs[k]], user, Some(b.id)) == [];
  }

  /** Removing the record at `k` lowers its owner's total by its nights and
      leaves every other user's total alone. */
  lemma UserNightsAfterRemove(bs: seq<Booking>, k: nat, user: Id)
    requires k < |bs|
    ensures UserNights(bs[..k] + bs[k + 1..], user, None)
         == UserNights(bs, user, None) - (if bs[k].user == user then Nights(bs[k]) else 0)
  {
    var pre, post := bs[..k], bs[k + 1..];
    assert bs == pre + [bs[k]] + post;
    UserNightsSplit(pre, bs[k], post, user, None);
    UserNightsJoin(pre, post, user);
    UserNightsSingle(bs[k], user);
  }

  lemma UserNightsSingle(x: Booking, user: Id)
    ensures UserNights([x], user, None) == if x.user == user then Nights(x) else 0
  {
    assert [x][1..] == [];
    assert OwnedBy([x], user, None) == if x.user == user then [x] else [];
    assert SumNights([x]) == Nights(x) + SumNights([x][1..]);
  }

  lemma UserNightsJoin(a: seq<Booking>, b: seq<Booking>, user: Id)
    ensures UserNights(a + b, user, None) == UserNights(a, user, None) + UserNights(b, user, None)
  {
    OwnedByAppend(a, b, user, None);
    SumNightsAppend(OwnedBy(a, user, None), OwnedBy(b, user, None));
  }
}
