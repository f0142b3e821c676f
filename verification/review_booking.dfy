/** supabase/functions/admin-review-booking/index.ts: the request handler an
    admin calls to confirm or deny a booking inquiry. The handler is a pure
    function from a request and the store to a response and the new store.
    The authentication service is a map from bearer tokens to user ids, the
    date parser a function parameter, and database failures other than the
    exclusion constraint a `Faults` parameter. */
module ReviewBooking {
  import opened Wrappers
  import opened Text
  import opened Js
  import opened DbErrors
  import opened Duration
  import opened BookingStore

  /** The `x-jwt-claims` header: absent, not JSON, or JSON whose `sub` field is given. */
  datatype Claims = NoClaims | MalformedClaims | ParsedClaims(sub: JsValue)

  /** The body as `req.json()` sees it: a parse failure (with the thrown
      message) or the `inquiryId` and `action` fields (`Nullish` when missing,
      and for a body that is JSON `null`). */
  datatype Body = UnreadableBody(message: string) | JsonBody(inquiryId: JsValue, action: JsValue)

  /** Header values are "" when the header is absent. */
  datatype Request = Request(
    verb: string,
    authorization: string,
    authUserHeader: string,
    claims: Claims,
    body: Body)

  datatype Env = Env(supabaseUrl: string, serviceRoleKey: string)

  /** Errors the database may report on each call; `None` means the call succeeds. */
  datatype Faults = Faults(
    adminLookup: Option<DbError>,
    inquiryLookup: Option<DbError>,
    denyUpdate: Option<DbError>,
    bookingInsert: Option<DbError>,
    statusUpdate: Option<DbError>)

  const NoFaults := Faults(None, None, None, None, None)

  datatype Reply = Preflight | Success(status: string) | Failure(error: string)

  datatype Response = Response(code: nat, reply: Reply)

  datatype Outcome = Outcome(response: Response, store: Store)

  /** The largest magnitude of a valid JavaScript `Date` time value, in ms. */
  const MaxTimeMs := 8_640_000_000_000_000

  const MsPerMinute := 60_000

  const OverlapMessage := "This booking overlaps with an existing confirmed booking."

  // ---------------------------------------------------------------- identity

  /** The user behind an `Authorization: Bearer <token>` header (scheme
      matched case-insensitively, token trimmed), when the auth service
      knows the token and the user has an id. */
  function BearerUser(authorization: string, sessions: map<string, string>): (r: Option<string>)
    ensures r.Some? ==> r.value != "" && r.value in sessions.Values
  {
    if StartsWith(ToLower(authorization), "bearer ") then
      var token := Trim(authorization[7..]);
      if token != "" && token in sessions && sessions[token] != "" then Some(sessions[token]) else None
    else None
  }

  /** A header `Bearer <token>` with a trimmed, known token names the token's user. */
  lemma BearerOfToken(token: string, sessions: map<string, string>)
    requires token != "" && Trim(token) == token
    requires token in sessions && sessions[token] != ""
    ensures BearerUser("Bearer " + token, sessions) == Some(sessions[token])
  {
    BearerScheme(token);
  }

  lemma BearerScheme(token: string)
    ensures StartsWith(ToLower("Bearer " + token), "bearer ")
    ensures ("Bearer " + token)[7..] == token
  {
    ToLowerConcat("Bearer ", token);
    assert ToLower("Bearer ") == "bearer ";
    assert ToLower("Bearer " + token)[..7] == "bearer ";
  }

  /** `resolveAuthUserId`: a valid bearer token wins; else the
      `x-supabase-auth-user` header; else the `sub` claim of a well-formed
      `x-jwt-claims` header; else no identity. */
  function ResolveAuthUserId(req: Request, sessions: map<string, string>): (r: Option<string>)
    ensures r.Some? ==> r.value != ""
    ensures r.Some? ==>
      || r == BearerUser(req.authorization, sessions)
      || r.value == req.authUserHeader
      || (req.claims.ParsedClaims? && r.value == ToString(req.claims.sub))
    ensures BearerUser(req.authorization, sessions).Some? ==> r == BearerUser(req.authorization, sessions)
    ensures r.None? ==> req.authUserHeader == "" && !(req.claims.ParsedClaims? && Truthy(req.claims.sub))
  {
    var bearer := BearerUser(req.authorization, sessions);
    if bearer.Some? then bearer
    else if req.authUserHeader != "" then Some(req.authUserHeader)
    else match req.claims
      case ParsedClaims(sub) => if Truthy(sub) then Some(ToString(sub)) else None
      case _ => None
  }

  /** Identity precedence: a valid bearer token decides the caller whatever
      the other two headers say, and a non-empty `x-supabase-auth-user`
      header decides it over any claims. */
  lemma IdentityPrecedence(req: Request, sessions: map<string, string>, header: string, claims: Claims)
    ensures BearerUser(req.authorization, sessions).Some? ==>
      ResolveAuthUserId(req.(authUserHeader := header, claims := claims), sessions)
        == ResolveAuthUserId(req, sessions)
    ensures req.authUserHeader != "" ==>
      ResolveAuthUserId(req.(claims := claims), sessions) == ResolveAuthUserId(req, sessions)
    ensures req.claims == MalformedClaims ==>
      ResolveAuthUserId(req, sessions) == ResolveAuthUserId(req.(claims := NoClaims), sessions)
  {
  }

  // ---------------------------------------------------------------- confirm

  /** The text handed to `new Date(...)` for the start of the booking: the
      date, then the first five characters of the time (`HH:MM`). */
  function StartText(inq: Inquiry): string {
    inq.eventDate + "T" + Prefix(inq.eventTime, 5) + ":00Z"
  }

  /** A JavaScript `Date` with this time value is valid (not NaN). */
  predicate ValidTime(t: int) {
    -MaxTimeMs <= t <= MaxTimeMs
  }

  /** Lines 141-151: the minute count and the `[start, start + minutes)` range
      of the booking to insert, or the 400 response that stops the confirm. */
  function BookingFor(id: string, user: string, duration: string, start: string,
                      parseUtc: string -> Option<int>): (r: Result<Booking, Response>)
    ensures r.Err? ==> r.error.code == 400
    ensures r.Err? && DurationToMinutes(duration) in {Unresolved, Minutes(0)} ==>
      r.error.reply == Failure("Invalid inquiry duration.")
    ensures DurationToMinutes(duration) == Inherited ==> r == Err(Response(400, Failure("Invalid inquiry time.")))
    ensures r.Err? && DurationToMinutes(duration).Minutes? && DurationToMinutes(duration).minutes > 0 ==>
      r.error.reply == Failure("Invalid inquiry time.")
    ensures r.Ok? ==>
      && DurationToMinutes(duration).Minutes?
      && DurationToMinutes(duration).minutes > 0
      && r.value.endMs - r.value.startMs == DurationToMinutes(duration).minutes * MsPerMinute
      && parseUtc(start) == Some(r.value.startMs)
      && ValidTime(r.value.startMs) && ValidTime(r.value.endMs)
      && r.value.inquiryId == id && r.value.userId == user
    ensures r.Ok? <==>
      && DurationToMinutes(duration).Minutes?
      && DurationToMinutes(duration).minutes > 0
      && parseUtc(start).Some?
      && ValidTime(parseUtc(start).value)
      && ValidTime(parseUtc(start).value + DurationToMinutes(duration).minutes * MsPerMinute)
  {
    match DurationToMinutes(duration)
    case Unresolved => Err(Response(400, Failure("Invalid inquiry duration.")))
    case Inherited => Err(Response(400, Failure("Invalid inquiry time.")))
    case Minutes(m) =>
      if m == 0 then Err(Response(400, Failure("Invalid inquiry duration.")))
      else
        match parseUtc(start)
        case None => Err(Response(400, Failure("Invalid inquiry time.")))
        case Some(start) =>
          var end := start + m * MsPerMinute;
          if !ValidTime(start) || !ValidTime(end) then Err(Response(400, Failure("Invalid inquiry time.")))
          else Ok(Booking(id, user, start, end))
  }

  /** The booking planned for inquiry `id` from its stored row. */
  function Plan(id: string, inq: Inquiry, parseUtc: string -> Option<int>): Result<Booking, Response> {
    BookingFor(id, inq.userId, inq.desiredDuration, StartText(inq), parseUtc)
  }

  /** The writes of the `confirm` branch once booking `b` is planned: insert
      it first, and mark the inquiry confirmed only once the insert
      succeeded. */
  function Commit(s: Store, id: string, b: Booking, faults: Faults): (out: Outcome)
    requires id in s.inquiries
    ensures out.store.admins == s.admins && out.store.inquiries.Keys == s.inquiries.Keys
    ensures out.response.code in {200, 400, 409}
    ensures out.response.code == 200 <==>
      !OverlapsAny(b, s.bookings) && faults.bookingInsert.None? && faults.statusUpdate.None?
    ensures out.response.code == 200 ==>
      && out.response.reply == Success("confirmed")
      && out.store == SetStatus(s.(bookings := s.bookings + [b]), id, Confirmed)
    ensures OverlapsAny(b, s.bookings) ==> out == Outcome(Response(409, Failure(OverlapMessage)), s)
    ensures !OverlapsAny(b, s.bookings) && faults.bookingInsert.Some? ==>
      out == Outcome(
        if faults.bookingInsert.value.code == ExclusionViolation then Response(409, Failure(OverlapMessage))
        else Response(400, Failure(faults.bookingInsert.value.message)),
        s)
    ensures !OverlapsAny(b, s.bookings) && faults.bookingInsert.None? && faults.statusUpdate.Some? ==>
      out == Outcome(Response(400, Failure(faults.statusUpdate.value.message)), s.(bookings := s.bookings + [b]))
    ensures out.store.inquiries != s.inquiries ==> out.response.code == 200
    ensures out.store.bookings == s.bookings || out.store.bookings == s.bookings + [b]
    ensures out.store.bookings != s.bookings ==> !OverlapsAny(b, s.bookings)
    ensures NoOverlap(s.bookings) ==> NoOverlap(out.store.bookings)
  {
    match InsertBooking(s, b, faults.bookingInsert)
    case Err(e) =>
      if e.code == ExclusionViolation then Outcome(Response(409, Failure(OverlapMessage)), s)
      else Outcome(Response(400, Failure(e.message)), s)
    case Ok(s1) =>
      match faults.statusUpdate
      case Some(e) => Outcome(Response(400, Failure(e.message)), s1)
      case None => Outcome(Response(200, Success("confirmed")), SetStatus(s1, id, Confirmed))
  }

  /** The `confirm` branch: plan the booking from the inquiry, then commit
      it. The inquiry's current status is never consulted. */
  function Confirm(s: Store, id: string, parseUtc: string -> Option<int>, faults: Faults): (out: Outcome)
    requires id in s.inquiries
    ensures Plan(id, s.inquiries[id], parseUtc).Err? ==>
      out == Outcome(Plan(id, s.inquiries[id], parseUtc).error, s)
    ensures Plan(id, s.inquiries[id], parseUtc).Ok? ==>
      out == Commit(s, id, Plan(id, s.inquiries[id], parseUtc).value, faults)
  {
    match Plan(id, s.inquiries[id], parseUtc)
    case Err(response) => Outcome(response, s)
    case Ok(b) => Commit(s, id, b, faults)
  }

  /** The `deny` branch: a guarded update, answered with "rejected" whether
      or not the guard matched the row. */
  function Deny(s: Store, id: string, fault: Option<DbError>): (out: Outcome)
    ensures fault.Some? ==> out == Outcome(Response(400, Failure(fault.value.message)), s)
    ensures fault.None? ==> out.response == Response(200, Success("rejected"))
    ensures fault.None? ==> out.store == DenyUpdate(s, id)
    ensures out.store.bookings == s.bookings && out.store.admins == s.admins
  {
    match fault
    case Some(e) => Outcome(Response(400, Failure(e.message)), s)
    case None => Outcome(Response(200, Success("rejected")), DenyUpdate(s, id))
  }

  // ---------------------------------------------------------------- handler

  /** The validated payload: a non-empty inquiry id and a lower-cased action
      that is `confirm` or `deny`. */
  function Payload(body: Body): (r: Option<(string, string)>)
    ensures body.UnreadableBody? ==> r.None?
    ensures body.JsonBody? ==>
      (r.Some? <==> TextOr(body.inquiryId) != "" && ToLower(TextOr(body.action)) in {"confirm", "deny"})
    ensures r.Some? ==> r.value.0 == TextOr(body.inquiryId) && r.value.1 == ToLower(TextOr(body.action))
  {
    match body
    case UnreadableBody(_) => None
    case JsonBody(idValue, actionValue) =>
      var id := TextOr(idValue);
      var action := ToLower(TextOr(actionValue));
      if id == "" || (action != "confirm" && action != "deny") then None else Some((id, action))
  }

  /** Every check before a write passes: not a preflight, configured, an
      identified admin, a valid payload and an existing inquiry. */
  predicate Admitted(env: Env, sessions: map<string, string>, faults: Faults, req: Request, s: Store) {
    && req.verb != "OPTIONS"
    && env.supabaseUrl != "" && env.serviceRoleKey != ""
    && ResolveAuthUserId(req, sessions).Some?
    && faults.adminLookup.None? && ResolveAuthUserId(req, sessions).value in s.admins
    && Payload(req.body).Some?
    && faults.inquiryLookup.None? && Payload(req.body).value.0 in s.inquiries
  }

  /** The whole handler (lines 79-180). */
  function Handle(env: Env, sessions: map<string, string>, parseUtc: string -> Option<int>,
                  faults: Faults, req: Request, s: Store): (out: Outcome)
    ensures out.response.code in {200, 400, 401, 403, 404, 409, 500}
    ensures req.verb == "OPTIONS" ==> out == Outcome(Response(200, Preflight), s)
    ensures req.verb != "OPTIONS" && (env.supabaseUrl == "" || env.serviceRoleKey == "") ==>
      out == Outcome(Response(500, Failure("Missing Supabase environment configuration.")), s)
    ensures (&& req.verb != "OPTIONS" && env.supabaseUrl != "" && env.serviceRoleKey != ""
             && ResolveAuthUserId(req, sessions).Some?
             && faults.adminLookup.None? && ResolveAuthUserId(req, sessions).value in s.admins
             && req.body.UnreadableBody?) ==>
      out == Outcome(Response(500, Failure(req.body.message)), s)
    ensures req.verb != "OPTIONS" && env.supabaseUrl != "" && env.serviceRoleKey != ""
            && ResolveAuthUserId(req, sessions).None? ==>
      out == Outcome(Response(401, Failure("Unauthorized.")), s)
    ensures (&& req.verb != "OPTIONS" && env.supabaseUrl != "" && env.serviceRoleKey != ""
             && ResolveAuthUserId(req, sessions).Some?
             && (faults.adminLookup.Some? || ResolveAuthUserId(req, sessions).value !in s.admins)) ==>
      out == Outcome(Response(403, Failure("Admin access required.")), s)
    ensures out.store != s ==> Admitted(env, sessions, faults, req, s)
    ensures out.store.admins == s.admins && out.store.inquiries.Keys == s.inquiries.Keys
    ensures NoOverlap(s.bookings) ==> NoOverlap(out.store.bookings)
    ensures req.verb != "OPTIONS" && env.supabaseUrl != "" && env.serviceRoleKey != "" ==>
      (out.response.code == 401 <==> ResolveAuthUserId(req, sessions).None?)
    ensures (&& req.verb != "OPTIONS" && env.supabaseUrl != "" && env.serviceRoleKey != ""
             && ResolveAuthUserId(req, sessions).Some?) ==>
      (out.response.code == 403 <==>
        faults.adminLookup.Some? || ResolveAuthUserId(req, sessions).value !in s.admins)
  {
    if req.verb == "OPTIONS" then Outcome(Response(200, Preflight), s)
    else if env.supabaseUrl == "" || env.serviceRoleKey == "" then
      Outcome(Response(500, Failure("Missing Supabase environment configuration.")), s)
    else
      match ResolveAuthUserId(req, sessions)
      case None => Outcome(Response(401, Failure("Unauthorized.")), s)
      case Some(user) =>
        if faults.adminLookup.Some? || user !in s.admins then
          Outcome(Response(403, Failure("Admin access required.")), s)
        else if req.body.UnreadableBody? then
          Outcome(Response(500, Failure(req.body.message)), s)
        else
          match Payload(req.body)
          case None => Outcome(Response(400, Failure("Invalid payload.")), s)
          case Some((id, action)) =>
            if faults.inquiryLookup.Some? || id !in s.inquiries then
              Outcome(Response(404, Failure("Inquiry not found.")), s)
            else if action == "deny" then Deny(s, id, faults.denyUpdate)
            else Confirm(s, id, parseUtc, faults)
  }

  // ---------------------------------------------------------------- properties

  /** The write order keeps every confirmed inquiry backed by a booking row:
      the status changes to confirmed only after the insert succeeded, and a
      booking with the inquiry's id is what was inserted. */
  lemma CommitPreservesConfirmedAreBooked(s: Store, id: string, b: Booking, faults: Faults)
    requires id in s.inquiries && b.inquiryId == id
    requires ConfirmedAreBooked(s)
    ensures ConfirmedAreBooked(Commit(s, id, b, faults).store)
  {
    var out := Commit(s, id, b, faults);
    var t := out.store;
    forall k | k in t.inquiries && t.inquiries[k].status == Confirmed
      ensures exists i :: 0 <= i < |t.bookings| && t.bookings[i].inquiryId == k
    {
      if out.response.code == 200 && k == id {
        assert t.bookings[|s.bookings|].inquiryId == k;
      } else {
        assert s.inquiries[k].status == Confirmed;
        var i :| 0 <= i < |s.bookings| && s.bookings[i].inquiryId == k;
        assert t.bookings[i] == s.bookings[i];
      }
    }
  }

  lemma DenyPreservesConfirmedAreBooked(s: Store, id: string)
    requires ConfirmedAreBooked(s)
    ensures ConfirmedAreBooked(DenyUpdate(s, id))
  {
    var t := DenyUpdate(s, id);
    forall k | k in t.inquiries && t.inquiries[k].status == Confirmed
      ensures exists i :: 0 <= i < |t.bookings| && t.bookings[i].inquiryId == k
    {
      assert s.inquiries[k].status == Confirmed;
    }
  }

  /** No request, whatever its headers, body or the database's failures,
      leaves a confirmed inquiry without a booking row. */
  lemma HandlePreservesConfirmedAreBooked(env: Env, sessions: map<string, string>,
      parseUtc: string -> Option<int>, faults: Faults, req: Request, s: Store)
    requires ConfirmedAreBooked(s)
    ensures ConfirmedAreBooked(Handle(env, sessions, parseUtc, faults, req, s).store)
  {
    if Admitted(env, sessions, faults, req, s) {
      var (id, action) := Payload(req.body).value;
      HandleAdmitted(env, sessions, parseUtc, faults, req, s);
      if action == "deny" {
        assert ConfirmedAreBooked(Deny(s, id, faults.denyUpdate).store) by {
          if faults.denyUpdate.None? {
            DenyPreservesConfirmedAreBooked(s, id);
          }
        }
      } else {
        assert ConfirmedAreBooked(Confirm(s, id, parseUtc, faults).store) by {
          var plan := Plan(id, s.inquiries[id], parseUtc);
          if plan.Ok? {
            CommitPreservesConfirmedAreBooked(s, id, plan.value, faults);
          }
        }
      }
    }
  }

  /** Past every check, the handler is the deny or the confirm branch. */
  lemma HandleAdmitted(env: Env, sessions: map<string, string>,
      parseUtc: string -> Option<int>, faults: Faults, req: Request, s: Store)
    requires Admitted(env, sessions, faults, req, s)
    ensures var (id, action) := Payload(req.body).value;
      Handle(env, sessions, parseUtc, faults, req, s)
        == if action == "deny" then Deny(s, id, faults.denyUpdate) else Confirm(s, id, parseUtc, faults)
  {
  }

  /** The two rungs after the admin check: an invalid payload answers 400,
      and a payload naming no readable inquiry answers 404, neither with a
      write. */
  lemma PayloadAndInquiryRungs(env: Env, sessions: map<string, string>,
      parseUtc: string -> Option<int>, faults: Faults, req: Request, s: Store)
    requires req.verb != "OPTIONS" && env.supabaseUrl != "" && env.serviceRoleKey != ""
    requires ResolveAuthUserId(req, sessions).Some?
    requires faults.adminLookup.None? && ResolveAuthUserId(req, sessions).value in s.admins
    requires req.body.JsonBody?
    ensures Payload(req.body).None? ==>
      Handle(env, sessions, parseUtc, faults, req, s) == Outcome(Response(400, Failure("Invalid payload.")), s)
    ensures Payload(req.body).Some? && (faults.inquiryLookup.Some? || Payload(req.body).value.0 !in s.inquiries) ==>
      Handle(env, sessions, parseUtc, faults, req, s) == Outcome(Response(404, Failure("Inquiry not found.")), s)
  {
  }

  /** The confirm path never reads the inquiry's status: an inquiry that is
      already confirmed, rejected or cancelled gets the same answer as a
      pending one. */
  lemma ConfirmIgnoresStatus(s: Store, id: string, status: Status,
      parseUtc: string -> Option<int>, faults: Faults)
    requires id in s.inquiries
    ensures Confirm(SetStatus(s, id, status), id, parseUtc, faults).response
         == Confirm(s, id, parseUtc, faults).response
  {
    var s2 := SetStatus(s, id, status);
    PlanIgnoresStatus(id, s.inquiries[id], status, parseUtc);
    var plan := Plan(id, s.inquiries[id], parseUtc);
    if plan.Ok? {
      CommitResponseOnlyReadsBookings(s, s2, id, plan.value, faults);
    }
  }

  lemma PlanIgnoresStatus(id: string, inq: Inquiry, status: Status, parseUtc: string -> Option<int>)
    ensures Plan(id, inq.(status := status), parseUtc) == Plan(id, inq, parseUtc)
  {
    assert StartText(inq.(status := status)) == StartText(inq);
  }

  lemma CommitResponseOnlyReadsBookings(s: Store, s2: Store, id: string, b: Booking, faults: Faults)
    requires id in s.inquiries && id in s2.inquiries && s.bookings == s2.bookings
    ensures Commit(s2, id, b, faults).response == Commit(s, id, b, faults).response
  {
  }

  /** Confirming an inquiry a second time is refused with 409: its booking
      is already stored and a non-empty range overlaps itself. */
  lemma ConfirmTwiceConflicts(s: Store, id: string, parseUtc: string -> Option<int>, faults: Faults, later: Faults)
    requires id in s.inquiries
    requires Confirm(s, id, parseUtc, faults).response.code == 200
    ensures var s1 := Confirm(s, id, parseUtc, faults).store;
      Confirm(s1, id, parseUtc, later) == Outcome(Response(409, Failure(OverlapMessage)), s1)
  {
    var b := Plan(id, s.inquiries[id], parseUtc).value;
    var s1 := Confirm(s, id, parseUtc, faults).store;
    assert s1.inquiries[id] == s.inquiries[id].(status := Confirmed);
    PlanIgnoresStatus(id, s.inquiries[id], Confirmed, parseUtc);
    assert s1.bookings[|s.bookings|] == b;
    assert Overlaps(b, b);
  }

  /** Denying is idempotent: a second deny changes nothing more. */
  lemma DenyIdempotent(s: Store, id: string)
    ensures DenyUpdate(DenyUpdate(s, id), id) == DenyUpdate(s, id)
  {
  }

  /** The booking planned for an inquiry on 2024-06-01 at 14:00 lasting
      "2 hours": from 14:00 to 16:00 UTC that day. */
  lemma TwoHourBookingExample(id: string, user: string, parseUtc: string -> Option<int>)
    requires parseUtc("2024-06-01T14:00:00Z") == Some(1_717_250_400_000)
    ensures Plan(id, Inquiry(user, "2024-06-01", "14:00", "2 hours", Pending), parseUtc)
         == Ok(Booking(id, user, 1_717_250_400_000, 1_717_257_600_000))
  {
    LabelMinutes();
    assert StartText(Inquiry(user, "2024-06-01", "14:00", "2 hours", Pending)) == "2024-06-01T14:00:00Z";
  }
}
