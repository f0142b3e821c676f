/** scripts/contact.js: the contact form. The signed-in user's record is a
    `SessionUser`, the two inserts' errors are parameters, and what the page
    shows and resets is the result of each handler. */
module Contact {
  import opened Wrappers
  import opened Text
  import opened DbErrors

  /** The signed-in user as `getSession` reports it; an absent or empty
      field is "". */
  datatype SessionUser = SessionUser(
    id: string,
    email: string,
    username: string,
    fullName: string,
    contactEmail: string)

  /** `email.split("@")[0]`: the text before the first "@", or the whole
      text when it has none. */
  function EmailLocalPart(email: string): (r: string)
    ensures StartsWith(email, r) && '@' !in r
    ensures |r| < |email| ==> email[|r|] == '@'
  {
    if |email| == 0 || email[0] == '@' then ""
    else [email[0]] + EmailLocalPart(email[1..])
  }

  lemma {:induction false} EmailLocalPartOf(local: string, domain: string)
    requires '@' !in local
    ensures EmailLocalPart(local + "@" + domain) == local
  {
    if |local| > 0 {
      assert (local + "@" + domain)[1..] == local[1..] + "@" + domain;
      EmailLocalPartOf(local[1..], domain);
    } else {
      assert (local + "@" + domain)[0] == '@';
    }
  }

  /** The display name of a signed-in user: the username, else the full
      name, else the local part of the email, else "Authenticated user". */
  function ResolveName(u: SessionUser): (r: string)
    ensures r != ""
    ensures u.username != "" ==> r == u.username
    ensures u.username == "" && u.fullName != "" ==> r == u.fullName
    ensures u.username == "" && u.fullName == "" ==>
      r == (if EmailLocalPart(u.email) != "" then EmailLocalPart(u.email) else "Authenticated user")
  {
    if u.username != "" then u.username
    else if u.fullName != "" then u.fullName
    else if EmailLocalPart(u.email) != "" then EmailLocalPart(u.email)
    else "Authenticated user"
  }

  /** The reply address of a signed-in user: the contact email, else the
      account email, else "". */
  function ResolveEmail(u: SessionUser): (r: string)
    ensures r == "" <==> u.contactEmail == "" && u.email == ""
    ensures u.contactEmail != "" ==> r == u.contactEmail
    ensures u.contactEmail == "" ==> r == u.email
  {
    if u.contactEmail != "" then u.contactEmail else u.email
  }

  /** A user known only by the email `local@domain` is addressed by
      `local`. */
  lemma NameFromEmail(u: SessionUser, local: string, domain: string)
    requires u.username == "" && u.fullName == "" && local != "" && '@' !in local
    requires u.email == local + "@" + domain
    ensures ResolveName(u) == local
  {
    EmailLocalPartOf(local, domain);
  }

  /** The values of the form's inputs. */
  datatype Form = Form(name: string, email: string, telephone: string, message: string)

  /** What `syncContactFields` leaves on the page: whether the sender is
      signed in, the name and email inputs (filled from the account for a
      signed-in user, who cannot edit them) and the "Sending as" hint. */
  datatype Fields = Fields(signedIn: bool, form: Form, hint: string)

  function SyncContactFields(form: Form, session: Option<SessionUser>): (r: Fields)
    ensures r.signedIn <==> session.Some?
    ensures session.None? ==> r == Fields(false, form, "")
    ensures session.Some? ==>
      && r.form == form.(name := ResolveName(session.value), email := ResolveEmail(session.value))
      && StartsWith(r.hint, "Sending as: " + ResolveName(session.value))
      && (ResolveEmail(session.value) == "" <==> r.hint == "Sending as: " + ResolveName(session.value))
    ensures session.Some? && ResolveEmail(session.value) != "" ==>
      r.hint == "Sending as: " + ResolveName(session.value) + " (" + ResolveEmail(session.value) + ")"
  {
    match session
    case None => Fields(false, form, "")
    case Some(u) =>
      var name := ResolveName(u);
      var email := ResolveEmail(u);
      var head := "Sending as: " + name;
      var hint := if email != "" then head + " (" + email + ")" else head;
      assert hint[..|head|] == head;
      Fields(true, form.(name := name, email := email), hint)
  }

  /** A `contact_messages` insert; `withTelephone` tells whether the payload
      has a `telephone` field at all. */
  datatype Payload = Payload(
    userId: Option<string>,
    name: string,
    email: string,
    withTelephone: bool,
    telephone: Option<string>,
    message: string)

  /** How the form is cleared after a message is sent. */
  datatype Reset = NoReset | ClearMessage | ResetForm

  datatype Sent = Sent(message: string, isError: bool, inserts: seq<Payload>, reset: Reset)

  /** The fields a submission needs: a message, and for a guest a name and
      an email (all trimmed). */
  predicate Complete(f: Fields) {
    Trim(f.form.message) != "" && (f.signedIn || (Trim(f.form.name) != "" && Trim(f.form.email) != ""))
  }

  /** The submit handler, after `syncContactFields` produced `f`. `userId`
      is the id of the session read for the insert ("" when there is
      none); `firstError` and `retryError` are the answers of the two
      inserts. */
  function Submit(f: Fields, userId: string, firstError: Option<DbError>, retryError: Option<DbError>): (r: Sent)
    ensures !Complete(f) ==> r == Sent("Please fill all fields.", true, [], NoReset)
    ensures Complete(f) ==> 1 <= |r.inserts| <= 2
    ensures Complete(f) ==>
      && r.inserts[0].withTelephone
      && (r.inserts[0].telephone.None? <==> Trim(f.form.telephone) == "")
      && r.inserts[0].message == Trim(f.form.message)
      && r.inserts[0].userId == (if userId != "" then Some(userId) else None)
      && r.inserts[0].telephone == (if Trim(f.form.telephone) != "" then Some(Trim(f.form.telephone)) else None)
    ensures Complete(f) && !f.signedIn ==>
      r.inserts[0].name == Trim(f.form.name) && r.inserts[0].email == Trim(f.form.email)
    ensures Complete(f) && f.signedIn ==>
      r.inserts[0].name == f.form.name && r.inserts[0].email == f.form.email
    ensures |r.inserts| == 2 <==> Complete(f) && IsMissingTelephoneColumn(firstError)
    ensures |r.inserts| == 2 ==> r.inserts[1] == r.inserts[0].(withTelephone := false, telephone := None)
    ensures !r.isError <==>
      Complete(f) && (firstError.None? || (IsMissingTelephoneColumn(firstError) && retryError.None?))
    ensures !r.isError ==>
      r.message == "Message sent successfully." && r.reset == (if f.signedIn then ClearMessage else ResetForm)
    ensures r.isError ==> r.reset == NoReset
    ensures r.isError && Complete(f) ==> r.message == "Could not send message right now."
  {
    var message := Trim(f.form.message);
    var name := if f.signedIn then f.form.name else Trim(f.form.name);
    var email := if f.signedIn then f.form.email else Trim(f.form.email);
    var telephone := Trim(f.form.telephone);
    if message == "" || (!f.signedIn && (name == "" || email == "")) then
      Sent("Please fill all fields.", true, [], NoReset)
    else
      var user := if userId != "" then Some(userId) else None;
      var withTelephone := Payload(user, name, email, true, if telephone != "" then Some(telephone) else None, message);
      var withoutTelephone := Payload(user, name, email, false, None, message);
      var retried := IsMissingTelephoneColumn(firstError);
      var error := if retried then retryError else firstError;
      var inserts := if retried then [withTelephone, withoutTelephone] else [withTelephone];
      if error.Some? then Sent("Could not send message right now.", true, inserts, NoReset)
      else Sent("Message sent successfully.", false, inserts, if f.signedIn then ClearMessage else ResetForm)
  }

  /** A signed-in user's message is sent under the account's name and
      address, whatever the hidden inputs held. */
  lemma SignedInSendsAsAccount(form: Form, u: SessionUser, userId: string,
                               firstError: Option<DbError>, retryError: Option<DbError>)
    requires Trim(form.message) != ""
    ensures var r := Submit(SyncContactFields(form, Some(u)), userId, firstError, retryError);
      r.inserts[0].name == ResolveName(u) && r.inserts[0].email == ResolveEmail(u)
  {
  }
}
