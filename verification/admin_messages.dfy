/** scripts/admin-messages.js: the admin list of contact messages. The two
    selects are the `first` and `retry` parameters of `LoadMessages`, the
    delete call and `window.confirm` parameters of `OnDelete`; rendering
    produces one record per message instead of markup. */
module AdminMessages {
  import opened Wrappers
  import opened Js
  import opened Html
  import opened DbErrors

  /** A `contact_messages` row; a null column is "". */
  datatype MessageRow = MessageRow(id: string, name: string, email: string, telephone: string, message: string)

  /** The parts of one rendered `<article>`: escaped texts, the telephone
      line when there is one, and the id the Delete button carries. */
  datatype Card = Card(name: string, email: string, telephone: Option<string>, body: string, deleteId: string)

  function RenderCard(m: MessageRow): (r: Card)
    ensures r.telephone.Some? <==> m.telephone != ""
    ensures r.telephone.Some? ==> Unescape(r.telephone.value) == m.telephone && MarkupSafe(r.telephone.value)
    ensures Unescape(r.name) == m.name && Unescape(r.email) == m.email && Unescape(r.body) == m.message
    ensures MarkupSafe(r.name) && MarkupSafe(r.email) && MarkupSafe(r.body)
    ensures r.deleteId == m.id
  {
    Card(
      EscapeValue(Str(m.name)),
      EscapeValue(Str(m.email)),
      if m.telephone != "" then Some(EscapeValue(Str(m.telephone))) else None,
      EscapeValue(Str(m.message)),
      m.id)
  }

  /** `renderMessages`: the cards and the page message. */
  function RenderMessages(items: seq<MessageRow>): (r: (seq<Card>, string))
    ensures |r.0| == |items|
    ensures items == [] <==> r.1 == "No messages yet."
    ensures items != [] ==> r.1 == ""
    ensures forall i :: 0 <= i < |items| ==> r.0[i] == RenderCard(items[i])
  {
    if |items| == 0 then ([], "No messages yet.")
    else (seq(|items|, i requires 0 <= i < |items| => RenderCard(items[i])), "")
  }

  /** The rows the retry select returns have no telephone column. */
  function WithoutTelephone(rows: seq<MessageRow>): (r: seq<MessageRow>)
    ensures |r| == |rows|
    ensures forall i :: 0 <= i < |rows| ==> r[i] == rows[i].(telephone := "")
  {
    seq(|rows|, i requires 0 <= i < |rows| => rows[i].(telephone := ""))
  }

  /** A select's answer: an error, or the rows (`None` when it returned no
      data). */
  type Selected = Result<Option<seq<MessageRow>>, DbError>

  datatype Loaded = LoadFailed(message: string) | Shown(cards: seq<Card>, message: string)

  /** `loadMessages`: when the first select fails because the `telephone`
      column is missing, the select without it is made and its answer
      replaces the first; any remaining error is shown, otherwise the rows
      are rendered. The second result says whether the retry was made. */
  function LoadMessages(first: Selected, retry: Selected): (r: (Loaded, bool))
    ensures r.1 <==> first.Err? && IsMissingTelephoneColumn(Some(first.error))
    ensures !r.1 ==> r.0 == Show(first)
    ensures r.1 ==> r.0 == Show(ForgetTelephones(retry))
  {
    if first.Err? && IsMissingTelephoneColumn(Some(first.error)) then (Show(ForgetTelephones(retry)), true)
    else (Show(first), false)
  }

  function ForgetTelephones(s: Selected): (r: Selected)
    ensures r.Err? <==> s.Err?
    ensures r.Ok? && r.value.Some? ==> forall i :: 0 <= i < |r.value.value| ==> r.value.value[i].telephone == ""
  {
    match s
    case Err(e) => Err(e)
    case Ok(None) => Ok(None)
    case Ok(Some(rows)) => Ok(Some(WithoutTelephone(rows)))
  }

  /** The page after one select's answer. */
  function Show(s: Selected): (r: Loaded)
    ensures s.Err? ==> r == LoadFailed("Failed to load messages.")
    ensures s.Ok? ==> r.Shown? && |r.cards| == |s.value.GetOr([])|
    ensures s.Ok? ==> (r.message == "No messages yet." <==> s.value.GetOr([]) == [])
  {
    match s
    case Err(_) => LoadFailed("Failed to load messages.")
    case Ok(rows) =>
      var (cards, message) := RenderMessages(rows.GetOr([]));
      Shown(cards, message)
  }

  /** After a retry no card has a telephone line. */
  lemma RetryShowsNoTelephone(first: Selected, retry: Selected, i: nat)
    requires LoadMessages(first, retry).1
    requires LoadMessages(first, retry).0.Shown? && i < |LoadMessages(first, retry).0.cards|
    ensures LoadMessages(first, retry).0.cards[i].telephone.None?
  {
    var rows := ForgetTelephones(retry).value.GetOr([]);
    assert LoadMessages(first, retry).0.cards[i] == RenderCard(rows[i]);
  }

  /** An error unrelated to the column is shown without a retry. */
  lemma OtherErrorNotRetried(first: Selected, retry: Selected)
    requires first.Err? && !Mentions(first.error, "telephone")
    ensures LoadMessages(first, retry) == (LoadFailed("Failed to load messages."), false)
  {
    MissingTelephoneColumnFieldwise(Some(first.error));
  }

  /** What a click in the list leads to. */
  datatype Deleted = Ignored | DeleteFailed | DeletedAndReloaded

  /** The Delete button: a click elsewhere, or a declined confirmation, does
      nothing; a failed delete shows "Failed to delete message." and enables
      the button again; a successful one shows "Message deleted." and
      reloads the list. */
  function OnDelete(messageId: string, confirmed: bool, deleteError: Option<DbError>): (r: Deleted)
    ensures r == Ignored <==> messageId == "" || !confirmed
    ensures r == DeletedAndReloaded <==> messageId != "" && confirmed && deleteError.None?
  {
    if messageId == "" || !confirmed then Ignored
    else if deleteError.Some? then DeleteFailed
    else DeletedAndReloaded
  }

  function DeletedMessage(d: Deleted): string {
    match d
    case Ignored => ""
    case DeleteFailed => "Failed to delete message."
    case DeletedAndReloaded => "Message deleted."
  }
}
