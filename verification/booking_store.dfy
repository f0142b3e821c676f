/** The part of the hosted database the review function touches: the
    `admins` allow-list, the `booking_inquiries` table and the `bookings`
    table with its exclusion constraint. The constraint is the database's
    behaviour, modelled as an insert that refuses a booking whose half-open
    time range `[start, end)` meets the range of a stored booking. */
module BookingStore {
  import opened Wrappers
  import opened DbErrors

  datatype Status = Pending | Confirmed | Rejected | Cancelled

  /** A `booking_inquiries` row; the row's id is its key in `Store.inquiries`. */
  datatype Inquiry = Inquiry(
    userId: string,
    eventDate: string,
    eventTime: string,
    desiredDuration: string,
    status: Status)

  /** A `bookings` row; times are milliseconds since the Unix epoch, UTC. */
  datatype Booking = Booking(inquiryId: string, userId: string, startMs: int, endMs: int)

  datatype Store = Store(admins: set<string>, inquiries: map<string, Inquiry>, bookings: seq<Booking>)

  /** PostgreSQL's SQLSTATE for an exclusion-constraint violation. */
  const ExclusionViolation := "23P01"

  /** Two half-open ranges `[start, end)` share an instant. */
  predicate Overlaps(a: Booking, b: Booking) {
    a.startMs < b.endMs && b.startMs < a.endMs
  }

  predicate OverlapsAny(b: Booking, bs: seq<Booking>) {
    exists i :: 0 <= i < |bs| && Overlaps(b, bs[i])
  }

  /** The exclusion constraint: no two stored bookings overlap. */
  predicate NoOverlap(bs: seq<Booking>) {
    forall i, j :: 0 <= i < j < |bs| ==> !Overlaps(bs[i], bs[j])
  }

  /** Every confirmed inquiry has a booking row: the state the review
      function's write order is designed to keep. */
  predicate ConfirmedAreBooked(s: Store) {
    forall id :: id in s.inquiries && s.inquiries[id].status == Confirmed ==>
      exists i :: 0 <= i < |s.bookings| && s.bookings[i].inquiryId == id
  }

  /** `insert` into `bookings`: refused with code 23P01 when the new range
      overlaps a stored one, refused with `fault` when the database fails
      otherwise, else appended. */
  function InsertBooking(s: Store, b: Booking, fault: Option<DbError>): (r: Result<Store, DbError>)
    ensures r.Ok? <==> !OverlapsAny(b, s.bookings) && fault.None?
    ensures r.Ok? ==> r.value == s.(bookings := s.bookings + [b])
    ensures r.Err? && OverlapsAny(b, s.bookings) ==> r.error.code == ExclusionViolation
    ensures r.Ok? && NoOverlap(s.bookings) ==> NoOverlap(r.value.bookings)
  {
    if OverlapsAny(b, s.bookings) then
      Err(DbError(ExclusionViolation, "conflicting key value violates exclusion constraint", "", ""))
    else
      match fault
      case Some(e) => Err(e)
      case None =>
        var bs := s.bookings + [b];
        assert NoOverlap(s.bookings) ==> NoOverlap(bs) by {
          if NoOverlap(s.bookings) {
            forall i, j | 0 <= i < j < |bs|
              ensures !Overlaps(bs[i], bs[j])
            {
              if j == |s.bookings| {
                assert !Overlaps(b, s.bookings[i]);
              }
            }
          }
        }
        Ok(s.(bookings := bs))
  }

  /** `update({status}).eq("id", id)`. */
  function SetStatus(s: Store, id: string, status: Status): (r: Store)
    requires id in s.inquiries
    ensures r.admins == s.admins && r.bookings == s.bookings
    ensures r.inquiries.Keys == s.inquiries.Keys
    ensures r.inquiries[id].status == status
    ensures forall k :: k in s.inquiries && k != id ==> r.inquiries[k] == s.inquiries[k]
  {
    s.(inquiries := s.inquiries[id := s.inquiries[id].(status := status)])
  }

  /** `update({status: "rejected"}).eq("id", id).in("status", ["pending", "confirmed"])`:
      only a pending or confirmed inquiry is rejected; any other row, and
      every booking, is left as it was. */
  function DenyUpdate(s: Store, id: string): (r: Store)
    ensures r.admins == s.admins && r.bookings == s.bookings
    ensures r.inquiries.Keys == s.inquiries.Keys
    ensures forall k :: k in s.inquiries && k != id ==> r.inquiries[k] == s.inquiries[k]
    ensures id in s.inquiries ==>
      r.inquiries[id].status ==
        (if s.inquiries[id].status in {Pending, Confirmed} then Rejected else s.inquiries[id].status)
    ensures id in s.inquiries ==> r.inquiries[id] == s.inquiries[id].(status := r.inquiries[id].status)
  {
    if id in s.inquiries && s.inquiries[id].status in {Pending, Confirmed} then SetStatus(s, id, Rejected)
    else s
  }
}
