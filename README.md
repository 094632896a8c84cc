# Hotel booking backend — a Dafny model

This project models the request handlers of a small hotel-booking REST
backend (Express and Mongoose). It covers:

- **The booking controller** (`controllers/bookings.js`): who sees which
  bookings, and the checks on create, update and delete. Create checks the
  hotel and room lookup, the dates, the room-conflict query and the
  three-night quota. Update and delete check the owner-or-admin gate.
- **The room controller** (`controllers/room.js`): room create, update and
  delete, the list of a hotel's rooms, and the availability listing for a
  date window.
- **The hotel and hospital controllers** (`controllers/hotels.js`,
  `controllers/hospitals.js`):
  - the list handler's query rewrite (whole-word `gt|gte|lt|lte|in` gain a
    `$`);
  - the select and sort lists;
  - `parseInt`-based paging and the next/prev links;
  - lookup, create and update;
  - the cascading delete, which removes the children before the parent.
- **The schemas** (`models/Hotel.js`, `models/Room.js`): required fields,
  trimming, maximum lengths, the room-type enumeration, unique names and
  room numbers, and the hotel's `bookings` reverse relation.

Dates are whole day numbers, so a stay's nights are `checkOut - checkIn`. An
absent request field is `None`. Ids are natural numbers that a per-collection
counter hands out.

Each collection the handlers write is a class with a `seq` field:

- `Bookings.BookingEngine`
- `Rooms.RoomStore`
- `Hotels.HotelStore`
- `Hospitals.HospitalStore`
- `Hospitals.AppointmentStore`

Each class has a `Valid()` invariant: ids are unique, and where the schema
says so, names or room numbers are unique and every document meets the
schema. The booking handlers' decisions are also pure functions:
`Bookings.CreateVerdict`, `Bookings.UpdateVerdict` and
`Bookings.DeleteVerdict`. `AddBooking` and `UpdateBooking` are proved to
return their verdict, and `DeleteBooking` to succeed exactly when its
verdict does; each writes only on success. The room, hotel and hospital
stores state their decisions directly in their methods' contracts. The route files make hotel and room mutations admin-only. The model
takes this as a `requires caller.admin` and does not model the router.

Modules and files:

| file | module | models |
|---|---|---|
| common.dfy | Common | ids, days, Option and Result, the acting user, `String.prototype.trim` |
| booking_model.dfy | BookingModel | booking records and per-user night sums |
| hotel_model.dfy | HotelModel | HotelSchema |
| room_model.dfy | RoomModel | RoomSchema |
| bookings.dfy | Bookings | the booking controller |
| rooms.dfy | Rooms | the room controller |
| list_query.dfy | ListQuery | the list handler shared by hotels and hospitals |
| hotels.dfy | Hotels | the hotel controller |
| hospitals.dfy | Hospitals | the hospital controller |

One place in the code cannot run as written. The create-time conflict
query compares against an identifier `today` that the file never declares.
The evident intent is that only bookings that have not yet ended block a
new stay. The model follows the code as written in
`Bookings.AddBookingStatusAsWritten`. Everywhere else it uses the evident
intent, with `today` as a parameter. See "Findings".

## Model

| member | source | states |
|---|---|---|
| Common.Trim | models/Hotel.js:8 | the result neither starts nor ends with white space; it is a contiguous slice of the input, and everything cut off either side is white space |
| Common.TrimIdempotent | models/Hotel.js:8 | trimming a trimmed name changes nothing |
| Common.JsLength | models/Hotel.js:9 | the length `maxlength` checks is counted in UTF-16 code units: between the character count and twice it, and equal to the character count exactly when no character lies outside the Basic Multilingual Plane |
| Common.JsLengthAppend | models/Hotel.js:9 | the code-unit length of a concatenation is the sum of the two lengths |
| BookingModel.Find | controllers/bookings.js:178-184 | `findById`: None exactly when no booking has the id; otherwise the first position holding it |
| BookingModel.OwnedBy | controllers/bookings.js:204-207 | `Booking.find({user, _id: {$ne}})`: exactly the user's bookings other than the excluded id |
| BookingModel.AtHotel | controllers/bookings.js:21-27 | `Booking.find({hotel})`: exactly the bookings of that hotel |
| BookingModel.NotAtHotel | controllers/hotels.js:164 | `Booking.deleteMany({hotel})` leaves exactly the bookings of other hotels |
| BookingModel.HotelSplit | controllers/hotels.js:164 | a hotel's bookings plus the others are every booking, counted once |
| BookingModel.NotAtHotelKeepsIdsUnique | controllers/hotels.js:164 | the cascade keeps booking ids distinct |
| BookingModel.SumNightsAppend | controllers/bookings.js:145-148 | the night sum of two lists joined is the sum of their sums |
| BookingModel.OwnedByAppend | controllers/bookings.js:144 | filtering by owner commutes with appending |
| BookingModel.UserNightsAfterAppend | controllers/bookings.js:143-158 | storing a booking adds its nights to its owner's total and nothing to anyone else's |
| BookingModel.ExcludeAbsent | controllers/bookings.js:204-207 | excluding an id no booking has changes nothing |
| BookingModel.UserNightsAfterReplace | controllers/bookings.js:204-225 | after an update, the user's total is their other bookings' nights plus the new record's |
| BookingModel.UserNightsAfterRemove | controllers/bookings.js:262 | deleting a booking takes its nights off its owner's total only |
| BookingModel.UserNightsJoin | controllers/bookings.js:144-148 | a user's total over two lists joined is the sum of the two totals |
| HotelModel.FromFields | models/Hotel.js:3-34 | the body becomes a hotel exactly when some valid hotel carries it (name trimmed, required fields present, maximum lengths kept in UTF-16 code units), and it is that hotel |
| HotelModel.ApplyPatch | controllers/hotels.js:130-133 | `findByIdAndUpdate` with `runValidators`: the one valid document with the supplied fields written over the stored ones, or a refusal when there is none |
| HotelModel.EmptyPatch | controllers/hotels.js:130-133 | an empty body leaves a valid hotel unchanged |
| HotelModel.RejectedFields | models/Hotel.js:4-27 | a blank name, a trimmed name over 500 code units or a postal code over 5 code units is refused on create and on update |
| HotelModel.AstralPostalCodeRefused | models/Hotel.js:26 | a postal code of three characters from outside the Basic Multilingual Plane (six code units) is refused on create and on update |
| HotelModel.Find | controllers/hotels.js:96 | `Hotel.findById`: None exactly when no hotel has the id |
| HotelModel.BookingsOf | models/Hotel.js:41-46 | the `bookings` virtual is exactly the bookings whose hotel is this hotel |
| RoomModel.ParseType | models/Room.js:14-18 | the enum accepts exactly "single", "double" and "suite" |
| RoomModel.FromFields | models/Room.js:3-24 | the body becomes a room exactly when some valid room carries it (room number present and not empty, known type, price present), with the given hotel |
| RoomModel.ApplyPatch | controllers/room.js:65-68 | the one room with the supplied fields written over the stored ones, which is valid |
| RoomModel.Find | controllers/room.js:65 | `Room.findById`: None exactly when no room has the id |
| Bookings.Apply | controllers/bookings.js:222-225 | an update keeps the id; each field the body supplies is written and each one it omits is kept, so an empty body changes nothing |
| Bookings.Visible | controllers/bookings.js:12-36 | a non-admin sees exactly their own bookings, whatever hotel the path names; an admin sees the path hotel's bookings, or every booking without a hotel id |
| Bookings.FirstConflict | controllers/bookings.js:123-132 | `Booking.findOne` on the conflict filter: None exactly when no booking blocks the stay, otherwise the first blocking booking |
| Bookings.BackToBack | controllers/bookings.js:126-131 | stays that only touch never conflict |
| Bookings.CreateVerdict | controllers/bookings.js:89-171 | 404 exactly when the hotel or room is missing or mismatched, before any date check; 400 exactly for a missing date; a stored booking takes its hotel from the path and its user from the actor, has positive nights, conflicts with nothing and leaves a non-admin within 3 nights; 409 only on a real conflict; a quota refusal reports the user's current total |
| Bookings.CreateOrder | controllers/bookings.js:107-156 | with the lookup passed and both dates given, the outcome is decided by the night count, then the conflict, then the quota (admins exempt), each as an if-and-only-if |
| Bookings.SameDayRefused | controllers/bookings.js:114-120 | a same-day stay is always an invalid range |
| Bookings.CreateKeepsRoomsDisjoint | controllers/bookings.js:122-141 | a successful create keeps every room free of overlapping bookings that have not ended |
| Bookings.CreateKeepsQuota | controllers/bookings.js:143-156 | a successful create keeps every non-admin user within 3 nights |
| Bookings.UpdateVerdict | controllers/bookings.js:176-238 | 404 exactly for an unknown id; 401 exactly for someone neither owner nor admin; success writes the patched record; when a non-admin owner gives both dates, a night count of 0 or less is 400 (invalid range), and otherwise more than 3 nights counting the actor's other bookings is the quota refusal, which reports those other nights; the update succeeds exactly when neither applies, and it then leaves the actor within 3 nights; without both dates, or for an admin, only the gate is checked |
| Bookings.DeleteVerdict | controllers/bookings.js:243-262 | 404 exactly for an unknown id, then 401 exactly for someone neither owner nor admin, and for an existing id with an owner or admin caller, always the position of the target |
| Bookings.RemoveExactly | controllers/bookings.js:262 | removing the target keeps ids unique and removes exactly the record with its id |
| Bookings.SingleDateUpdateSkipsQuota | controllers/bookings.js:194-225 | an update that supplies only a check-out is not checked, so a non-admin can end up with 10 nights |
| Bookings.AddBookingStatusAsWritten | controllers/bookings.js:122-170 | as written, the answer is always 400, 404 or 500 and never a stored booking |
| Bookings.TodayDefect | controllers/bookings.js:125 | as written, the code agrees with the corrected decision on every early refusal, and answers 500 wherever the corrected decision stores a booking |
| Bookings.CorrectedAcceptsFreshBooking | controllers/bookings.js:122-163 | a concrete two-night request that the corrected handler stores, and that the code as written answers with 500 |
| Bookings.BookingEngine.GetBookings | controllers/bookings.js:9-52 | the role filter over the stored bookings |
| Bookings.BookingEngine.GetBooking | controllers/bookings.js:57-84 | the booking with the id, or 404 exactly when there is none |
| Bookings.BookingEngine.TotalNights | controllers/bookings.js:143-148 | the summing loop computes the user's night total, optionally excluding one id |
| Bookings.BookingEngine.AddBooking | controllers/bookings.js:89-171 | returns CreateVerdict; appends the booking on success, and changes nothing on a refusal |
| Bookings.BookingEngine.UpdateBooking | controllers/bookings.js:176-238 | returns UpdateVerdict; replaces the record in place on success, and changes nothing on a refusal |
| Bookings.BookingEngine.DeleteBooking | controllers/bookings.js:243-275 | follows DeleteVerdict; on success exactly the target is gone, the store is one shorter, and the target's nights come off its owner's total and no one else's; nothing changes on a refusal |
| Bookings.BookingEngine.DeleteAtHotel | controllers/hotels.js:164 | exactly the bookings of other hotels remain |
| Rooms.RoomsOfHotel | controllers/room.js:16 | `Room.find({hotel})`: exactly the rooms of that hotel |
| Rooms.Entry | controllers/room.js:36-49 | the entry copies the room's id, number, type, price and description; it is available exactly when no booking on that room shares a night with the window (the same half-open overlap the booking model uses) |
| Rooms.Entries | controllers/room.js:35-52 | one entry per room, in order |
| Rooms.Availability | controllers/room.js:23-61 | 400 exactly when a date is missing, and success whenever both dates are given: one entry per room of the hotel, in order, copying id, number, type, price and description, each available exactly when free |
| Rooms.TouchingIsFree | controllers/room.js:36-40 | a booking that only touches the window leaves the room available |
| Rooms.AvailableMeansBookable | controllers/room.js:36-40 | a room listed as available is never refused as taken by the create-time conflict query, whatever `today` is |
| Rooms.EndedBookingsStillBlockListing | controllers/room.js:36-40 | a booking that ended before `today` still makes the room unavailable in the listing, yet does not block a new booking |
| Rooms.RoomStore.GetRoomsByHotel | controllers/room.js:14-21 | exactly the rooms whose hotel is the path id |
| Rooms.RoomStore.AddRoom | controllers/room.js:5-12 | the stored room has the path hotel whatever the body says; a validation error or duplicate number is 400 with nothing written |
| Rooms.RoomStore.UpdateRoom | controllers/room.js:63-80 | validation errors are 400, then an unknown id is 404, then a number another room uses is 400; the update succeeds exactly when none of these applies, and the stored room is then the patched one; nothing changes on a refusal |
| Rooms.RoomStore.DeleteRoom | controllers/room.js:82-96 | 404 exactly for an unknown id; otherwise exactly that room is removed (bookings are outside its frame) |
| Rooms.UpdateKeepsNumbersUnique | models/Room.js:9-13 | writing a room whose number no other room uses keeps ids and numbers unique |
| Rooms.RemoveKeepsInvariants | controllers/room.js:84 | removing a room keeps ids and numbers unique and removes exactly that id |
| ListQuery.MatchIsWholeWord | controllers/hotels.js:25 | at the start of a word, the regex alternatives match exactly when the whole word is an operator, and then consume the whole word |
| ListQuery.RewriteMarksWholeWords | controllers/hotels.js:24-27 | the regex replacement equals the reference definition: a `$` before each whole word that is an operator, and nothing else changed |
| ListQuery.UnmarkMarked | controllers/hotels.js:24-27 | removing the `$` before operators undoes the rewrite: no character is lost or altered |
| ListQuery.MarkedSplit | controllers/hotels.js:24-27 | the rewrite distributes over a concatenation split at a word boundary |
| ListQuery.EscapeMarked | controllers/hotels.js:23-27 | on text without control characters, the rewrite commutes with JSON string escaping |
| ListQuery.MarkQuery | controllers/hotels.js:23-27 | the rewrite acts on each key and value by itself, in order |
| ListQuery.FilterIsMarkedQuery | controllers/hotels.js:23-29 | the rewritten `JSON.stringify(req.query)` is the serialization of the query with every key and value rewritten |
| ListQuery.Without | controllers/hotels.js:19 | `delete reqQuery[param]` leaves exactly the other parameters |
| ListQuery.RemoveControlParams | controllers/hotels.js:13-19 | the loop leaves exactly the parameters other than select, sort, page and limit |
| ListQuery.ControlParamsReachFilter | controllers/hotels.js:13-29 | the filter is built from the full query, so select, sort, page and limit still reach it, unchanged in name |
| ListQuery.ParseDecimal | controllers/hotels.js:46-47 | `parseInt` reads back every decimal numeral |
| ListQuery.ParseStopsAtNonDigit | controllers/hotels.js:46-47 | `parseInt` stops at the first non-digit |
| ListQuery.NumberOr | controllers/hotels.js:46-47 | `parseInt(x, 10) \|\| d` is never 0 when the fallback is not |
| ListQuery.PageWindow | controllers/hotels.js:46-49 | page and limit are never 0 |
| ListQuery.DefaultWindow | controllers/hotels.js:46-49 | with no page or limit, the result is page 1, limit 25 and items 0 to 25 |
| ListQuery.FallbackPages | controllers/hotels.js:46 | a page of "0" or of non-numeric text is page 1 |
| ListQuery.ThirdPageOfTen | controllers/hotels.js:46-49 | page "3" of limit "10" gives startIndex 20 and endIndex 30 |
| ListQuery.PaginationMeaning | controllers/hotels.js:59-73 | for page and limit at least 1: `next` is {page+1, limit} exactly when more items remain after this page; `prev` is {page-1, limit} exactly when page > 1 |
| ListQuery.Split | controllers/hotels.js:33 | `split` gives at least one part, and no part contains the separator |
| ListQuery.ReplaceChar | controllers/hotels.js:33 | every comma becomes a space, and every other character stays |
| ListQuery.SplitJoin | controllers/hotels.js:32-43 | `split(",").join(" ")` replaces every comma with a space |
| ListQuery.SplitJoinSame | controllers/hotels.js:33 | splitting and joining on the same character gives the text back |
| ListQuery.TextParam | controllers/hotels.js:32 | the first parameter under that name decides: its text when it is a plain string, nothing when it is an object, and nothing when no parameter has the name |
| ListQuery.Paging | controllers/hotels.js:45-73 | the window computed step by step is the page window of the page and limit parameters, and the pagination object it builds is the one `Paginate` describes, whose meaning PaginationMeaning states |
| ListQuery.PlanList | controllers/hotels.js:9-73 | the filter is the rewritten full query; select and sort are comma-to-space, and sort defaults to "-createdAt"; skip and limit come from the page window; pagination counts the given total |
| Hotels.HotelStore.GetHotels | controllers/hotels.js:9-86 | the filter is the rewritten full query, and pagination counts every hotel |
| Hotels.HotelStore.GetHotel | controllers/hotels.js:94-104 | the hotel with the id, or 400 exactly when there is none |
| Hotels.HotelStore.CreateHotel | controllers/hotels.js:113-120 | stores the hotel built from the body exactly when it is valid and its name is not taken; otherwise 400 and nothing written |
| Hotels.HotelStore.UpdateHotel | controllers/hotels.js:128-143 | an unknown id, a refused patch and a taken name are all 400; on success the stored hotel is the patched one, in place |
| Hotels.HotelStore.DeleteHotel | controllers/hotels.js:151-171 | 404 with nothing deleted exactly for an unknown id; otherwise the hotel's bookings are removed and then exactly that hotel |
| Hotels.AppendKeepsInvariants | models/Hotel.js:4-9 | storing a valid hotel under a fresh id with a name no hotel has keeps ids and names unique and every hotel valid |
| Hotels.UpdateKeepsNamesUnique | models/Hotel.js:4-9 | writing a hotel whose name no other hotel has keeps names and ids unique |
| Hotels.RemoveKeepsInvariants | controllers/hotels.js:165 | removing a hotel keeps names and ids unique and removes exactly that id |
| Hospitals.Find | controllers/hospitals.js:96 | `Hospital.findById`: None exactly when no hospital has the id |
| Hospitals.NotAtHospital | controllers/hospitals.js:164 | `Appointment.deleteMany({hospital})` leaves exactly the appointments of other hospitals |
| Hospitals.AtHospital | controllers/hospitals.js:29 | exactly the appointments of the hospital |
| Hospitals.CascadeSplit | controllers/hospitals.js:164 | the appointments deleted and those kept are, as a multiset, the whole table |
| Hospitals.SubsequenceKeepsIds | controllers/hospitals.js:164 | the cascade keeps appointment ids distinct |
| Hospitals.AppointmentStore.AppointmentsOf | controllers/hospitals.js:29 | the `appointments` relation is exactly the appointments of the hospital |
| Hospitals.AppointmentStore.DeleteAtHospital | controllers/hospitals.js:164 | exactly the appointments of other hospitals remain |
| Hospitals.HospitalStore.GetHospitals | controllers/hospitals.js:9-86 | the filter is the rewritten full query, and pagination counts every hospital |
| Hospitals.HospitalStore.GetHospital | controllers/hospitals.js:94-104 | the hospital with the id, or 400 exactly when there is none |
| Hospitals.HospitalStore.CreateHospital | controllers/hospitals.js:113-120 | the body stored, under the next id, exactly when the schema accepts it; otherwise 400 and nothing written |
| Hospitals.HospitalStore.UpdateHospital | controllers/hospitals.js:128-143 | a refused body and an unknown id are both 400; on success the body's fields overwrite the stored ones, in place |
| Hospitals.HospitalStore.DeleteHospital | controllers/hospitals.js:151-171 | 404 with nothing deleted exactly for an unknown id; otherwise the hospital's appointments are removed and then exactly that hospital |
| Hospitals.RemoveKeepsIds | controllers/hospitals.js:165 | removing a hospital keeps ids unique and removes exactly that id |

## Left out

- I/O: HTTP requests and responses, JSON bodies, `console.log` and `console.error`.
- The `catch` blocks, in part. Cast errors (a malformed id) and store outages are not modelled. The 400s that the catch blocks give for schema validation errors and duplicate keys are modelled, and so is the 500 for the `today` ReferenceError.
- Dates: `dayjs` parsing, time of day, time zones and the truncation in `diff(..., "day")`. Dates are whole day numbers.
- Mongoose mechanics: ObjectId casting, `populate` and projections, how `skip` and `limit` run, and how the unique index is built. Uniqueness is a store invariant.
- The list handler stops at the filter text. `JSON.parse` and running the query against the collection are not modelled.
- ListQuery.FilterIsMarkedQuery: requires that no key or value contains a control character. JSON escapes those as `\uXXXX`, and the hex digits can join a neighbouring word, which changes what the regex sees.
- ListQuery.PlanList: a `select` or `sort` that arrives as an object (`select[x]=...`) or as an array makes `split` throw before the `try` block. The model treats an object as absent. A repeated key, which the query parser turns into an array, is read as its first occurrence, where the code throws. Query values are modelled as text or one-level objects only.
- ListQuery.TextParam: a key that appears twice becomes an array in the query parser, which the model does not have. The model reads the first occurrence.
- ListQuery.Serialize: keys are written in the order they appear. A JavaScript object lists integer-like keys first, so `JSON.stringify` can order such keys differently. The filter text is parsed again before use, so the order does not change which documents match.
- ListQuery.NumberOr: the leading white space that `parseInt` skips is ASCII only, as in Common.Trim. Page and limit are unbounded integers. Float precision and the 'e' notation of very large numerals are not modelled.
- Prices are integers, not floating-point numbers.
- The `createdAt` timestamp behind the default sort is not modelled.
- Concurrency:
  - the `Promise.all` fan-out in the availability listing is a sequential map;
  - the race between addBooking's conflict query and its write is not modelled.
- Common.Trim: only the ASCII white-space characters are stripped. Unicode spaces and line terminators, which JavaScript's `trim` also strips, are not.
- Hospitals.HospitalStore.CreateHospital: the Hospital and Appointment schemas are not part of this model. Whether the schema accepts a body is an input, and a hospital document is an opaque field map.
- Hospitals.HospitalStore.UpdateHospital: whether the update validators accept a body is likewise an input.
- The Booking schema is not part of this model. A booking is its id, user, hotel, room and two dates.
- The routers (`routes/hotels.js`, `routes/rooms.js`) and the auth middleware: the admin-only rule is a precondition of the hotel and room mutations. No hospital routes file is part of this model, so the hospital handlers have no such precondition.
- `server.js` (bootstrapping, middleware, rate limiting) and `uitls/sendHotelNotification.js` (e-mail over SMTP) are not part of this model.

## Findings

| source | as written | input that shows it | evidently intended | confidence | as-written member | corrected member |
|---|---|---|---|---|---|---|
| controllers/bookings.js:125 | The conflict filter refers to `today`, which is never declared. Building the filter throws a ReferenceError, and the catch answers 500. So no booking is ever created. | Hotel 1 with room 5, no bookings, and an ordinary user asking for room 5 from day 10 to day 12. As written the answer is 500. | Only bookings that have not ended before the current date block a new stay. The booking is stored with status 200. | not executed | Bookings.AddBookingStatusAsWritten (shown by Bookings.TodayDefect and Bookings.CorrectedAcceptsFreshBooking) | Bookings.CreateVerdict (with Bookings.CreateOrder, Bookings.CreateKeepsRoomsDisjoint and Bookings.CreateKeepsQuota) |
