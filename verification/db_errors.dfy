/** Errors reported by the hosted database, and the `isMissingTelephoneColumn`
    test that scripts/contact.js and scripts/admin-messages.js both define (the
    two copies are identical) to detect a schema without the `telephone`
    column. */
module DbErrors {
  import opened Wrappers
  import opened Text

  /** A database error; a field that is absent is the empty string, since the
      code only ever reads these fields through `|| ""`. */
  datatype DbError = DbError(code: string, message: string, details: string, hint: string)

  /** The lower-cased `${message} ${details} ${hint}` the test searches. */
  function ErrorText(e: DbError): string
  {
    ToLower(e.message + " " + e.details + " " + e.hint)
  }

  /** `isMissingTelephoneColumn`: no error is never a missing column; an error
      is one when its combined text mentions both `telephone` and `column`. */
  predicate IsMissingTelephoneColumn(error: Option<DbError>)
  {
    error.Some? && Contains(ErrorText(error.value), "telephone") && Contains(ErrorText(error.value), "column")
  }

  /** Some field of `e`, lower-cased, mentions `w`. */
  predicate Mentions(e: DbError, w: string) {
    Contains(ToLower(e.message), w) || Contains(ToLower(e.details), w) || Contains(ToLower(e.hint), w)
  }

  /** The search over the joined text finds a word exactly when one field
      holds it: the separating spaces cannot be part of a match. */
  lemma ErrorTextMentions(e: DbError, w: string)
    requires |w| > 0 && ' ' !in w
    ensures Contains(ErrorText(e), w) <==> Mentions(e, w)
  {
    var m, d, h := ToLower(e.message), ToLower(e.details), ToLower(e.hint);
    ToLowerConcat(e.message + " " + e.details + " ", e.hint);
    ToLowerConcat(e.message + " " + e.details, " ");
    ToLowerConcat(e.message + " ", e.details);
    ToLowerConcat(e.message, " ");
    assert ToLower(" ") == " ";
    assert ErrorText(e) == (m + " " + d) + " " + h;
    ContainsAcrossSpace(m + " " + d, h, w);
    ContainsAcrossSpace(m, d, w);
  }

  /** The test holds exactly when some field mentions `telephone` and some
      (possibly other) field mentions `column`, in any letter case. */
  lemma MissingTelephoneColumnFieldwise(error: Option<DbError>)
    ensures IsMissingTelephoneColumn(error) <==>
      error.Some? && Mentions(error.value, "telephone") && Mentions(error.value, "column")
  {
    if error.Some? {
      ErrorTextMentions(error.value, "telephone");
      ErrorTextMentions(error.value, "column");
    }
  }
}
