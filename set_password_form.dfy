/** The validation of the set-password form (client/src/pages/SetPassword.jsx)
    before it calls `authApi.setPassword(token, password)`. Nothing is
    trimmed. */
module SetPasswordForm {
  const MinLength: nat := 8

  const EmptyMessage: string := "Please fill in both fields"
  const LengthMessage: string := "Password must be at least 8 characters long"
  const MismatchMessage: string := "Passwords do not match"

  datatype Outcome = ShowError(message: string) | SetPassword(token: string, password: string)

  /** `handleSubmit`: emptiness, then length, then equality. */
  function Submit(token: string, password: string, confirm: string): (r: Outcome)
    ensures r.SetPassword? ==> r.token == token && r.password == password
  {
    if password == [] || confirm == [] then ShowError(EmptyMessage)
    else if |password| < MinLength then ShowError(LengthMessage)
    else if password != confirm then ShowError(MismatchMessage)
    else SetPassword(token, password)
  }

  /** Each error, once the validations before it have passed. */
  lemma ErrorOrder(token: string, password: string, confirm: string)
    ensures password == [] || confirm == [] ==> Submit(token, password, confirm) == ShowError(EmptyMessage)
    ensures password != [] && confirm != [] && |password| < MinLength ==>
      Submit(token, password, confirm) == ShowError(LengthMessage)
    ensures password != [] && confirm != [] && |password| >= MinLength && password != confirm ==>
      Submit(token, password, confirm) == ShowError(MismatchMessage)
  {
  }

  /** A short password is reported as short even when the confirmation
      differs. */
  lemma ShortBeatsMismatch(token: string, password: string, confirm: string)
    requires 0 < |password| < MinLength && confirm != [] && password != confirm
    ensures Submit(token, password, confirm).message == LengthMessage
  {
  }

  /** `setPassword` is called exactly when both fields are filled, the
      password has at least eight characters and the two are equal; the
      password goes out as typed. */
  lemma SetPasswordIff(token: string, password: string, confirm: string)
    ensures Submit(token, password, confirm).SetPassword? <==>
      password != [] && confirm != [] && |password| >= MinLength && password == confirm
    ensures Submit(token, password, confirm).SetPassword? ==>
      Submit(token, password, confirm) == SetPassword(token, confirm)
  {
  }

  /** Whitespace counts: eight spaces, confirmed, are accepted. */
  lemma SpacesAccepted(token: string)
    ensures Submit(token, "        ", "        ") == SetPassword(token, "        ")
  {
  }
}
