/** scripts/admin-requests.js: the admin list of booking inquiries with its
    Confirm and Deny buttons. Rendering produces one record per inquiry
    instead of markup; the locale date formatting is the `formatDate`
    parameter, and the function call's answer is the `invoked` parameter. */
module AdminRequests {
  import opened Wrappers
  import opened Text
  import opened Js
  import opened Html
  import ReviewBooking

  /** A `booking_inquiries` row as the page selects it; a null column is "". */
  datatype Row = Row(
    id: string,
    userId: string,
    eventType: string,
    eventDate: string,
    eventTime: string,
    desiredDuration: string,
    status: string)

  /** The parts of one rendered `<article>`: escaped texts, the status
      modifier of its CSS class, and the inquiry id its buttons carry when
      it has them. */
  datatype Item = Item(
    heading: string,
    statusClass: string,
    statusText: string,
    user: string,
    date: string,
    duration: string,
    actionsFor: Option<string>)

  /** `(row.status || "pending")`. */
  function StatusOrPending(status: string): (r: string)
    ensures r != ""
    ensures status != "" ==> r == status
  {
    if status != "" then status else "pending"
  }

  /** Renders one row. */
  function RenderRow(row: Row, formatDate: (string, string) -> string): (r: Item)
    ensures r.actionsFor.Some? <==> row.status == "" || row.status == "pending"
    ensures r.actionsFor.Some? ==> r.actionsFor.value == row.id
    ensures Unescape(r.statusClass) == ToLower(StatusOrPending(row.status)) && r.statusClass != ""
    ensures Unescape(r.heading) == row.eventType && Unescape(r.user) == row.userId
    ensures Unescape(r.duration) == row.desiredDuration && Unescape(r.statusText) == row.status
    ensures MarkupSafe(r.heading) && MarkupSafe(r.statusClass) && MarkupSafe(r.statusText)
    ensures MarkupSafe(r.user) && MarkupSafe(r.date) && MarkupSafe(r.duration)
  {
    var status := StatusOrPending(row.status);
    Item(
      EscapeValue(Str(row.eventType)),
      EscapeValue(Str(ToLower(status))),
      EscapeValue(Str(row.status)),
      EscapeValue(Str(row.userId)),
      EscapeValue(Str(formatDate(row.eventDate, row.eventTime))),
      EscapeValue(Str(row.desiredDuration)),
      if status == "pending" then Some(row.id) else None)
  }

  /** A status that differs from "pending" only in case gets the pending
      CSS class but no buttons: the class is lower-cased, the button test is
      not. */
  lemma UppercasePendingHasNoButtons(row: Row, formatDate: (string, string) -> string)
    requires row.status == "PENDING"
    ensures Unescape(RenderRow(row, formatDate).statusClass) == "pending"
    ensures RenderRow(row, formatDate).actionsFor.None?
  {
    assert ToLower("PENDING") == "pending";
  }

  /** `render`: the items and the page message. */
  function Render(data: seq<Row>, formatDate: (string, string) -> string): (r: (seq<Item>, string))
    ensures |r.0| == |data|
    ensures data == [] <==> r.1 == "No booking inquiries yet."
    ensures data != [] ==> r.1 == ""
    ensures forall i :: 0 <= i < |data| ==> r.0[i] == RenderRow(data[i], formatDate)
  {
    if |data| == 0 then ([], "No booking inquiries yet.")
    else (seq(|data|, i requires 0 <= i < |data| => RenderRow(data[i], formatDate)), "")
  }

  /** Exactly the pending rows (status missing or "pending") get buttons. */
  lemma ButtonsOnlyForPending(data: seq<Row>, formatDate: (string, string) -> string, i: nat)
    requires i < |data|
    ensures Render(data, formatDate).0[i].actionsFor.Some? <==> data[i].status in {"", "pending"}
  {
  }

  /** The result of loading: an error message, or the list and message. */
  datatype Loaded = LoadFailed(message: string) | Shown(items: seq<Item>, message: string)

  /** `loadInquiries`: a failed select shows an error; otherwise the rows
      (none when the select returned no data) are rendered. */
  function LoadInquiries(result: Result<Option<seq<Row>>, string>, formatDate: (string, string) -> string): (r: Loaded)
    ensures result.Err? ==> r == LoadFailed("Failed to load booking inquiries.")
    ensures result.Ok? ==> r.Shown? && |r.items| == |result.value.GetOr([])|
    ensures result.Ok? ==> (r.message == "No booking inquiries yet." <==> result.value.GetOr([]) == [])
  {
    match result
    case Err(_) => LoadFailed("Failed to load booking inquiries.")
    case Ok(data) =>
      var (items, message) := Render(data.GetOr([]), formatDate);
      Shown(items, message)
  }

  // ------------------------------------------------------------ actions

  /** The request a button click sends to the review function. */
  function ReviewRequest(token: string, id: string, action: string): (r: ReviewBooking.Request)
    ensures r.verb == "POST" && r.body == ReviewBooking.JsonBody(Str(id), Str(action))
    ensures StartsWith(r.authorization, "Bearer ") && r.authorization[7..] == token
  {
    var auth := "Bearer " + token;
    assert auth[..7] == "Bearer ";
    ReviewBooking.Request("POST", auth, "", ReviewBooking.NoClaims, ReviewBooking.JsonBody(Str(id), Str(action)))
  }

  /** The review function identifies the page's caller by its session
      token. */
  lemma ReviewRequestIdentifiesCaller(token: string, id: string, action: string, sessions: map<string, string>)
    requires token != "" && Trim(token) == token
    requires token in sessions && sessions[token] != ""
    ensures ReviewBooking.ResolveAuthUserId(ReviewRequest(token, id, action), sessions) == Some(sessions[token])
  {
    ReviewBooking.BearerOfToken(token, sessions);
  }

  /** The function call's answer: a transport error (with its message, ""
      when it has none) and the `error` field of the returned JSON ("" when
      absent). */
  datatype Invoked = Invoked(transportError: Option<string>, dataError: string)

  /** What a click leads to. */
  datatype Click =
    | Ignored
    | ClickFailed(message: string)
    | Reloaded

  /** The list's click handler: a click on an element without an action or
      an id does nothing; without a session token, or when the call fails,
      the error is shown and the button enabled again; otherwise the list is
      reloaded. */
  function OnClick(action: string, id: string, token: string, invoked: Invoked): (r: Click)
    ensures action == "" || id == "" ==> r == Ignored
    ensures action != "" && id != "" && token == "" ==>
      r == ClickFailed("Your session expired. Please log in again.")
    ensures r.ClickFailed? ==> r.message != ""
    ensures r == Reloaded <==>
      action != "" && id != "" && token != "" && invoked.transportError.None? && invoked.dataError == ""
    ensures r.ClickFailed? && token != "" && invoked.dataError != "" ==> r.message == invoked.dataError
  {
    if action == "" || id == "" then Ignored
    else if token == "" then ClickFailed("Your session expired. Please log in again.")
    else if invoked.transportError.Some? || invoked.dataError != "" then
      ClickFailed(
        if invoked.dataError != "" then invoked.dataError
        else if invoked.transportError.Some? && invoked.transportError.value != "" then invoked.transportError.value
        else "Action failed.")
    else Reloaded
  }
}
