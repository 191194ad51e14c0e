/** The Continue handler of the create-new-password screen: a chain of
    checks over the two fields with one outcome per path. */
module CreateNewPassword {
  import opened Effects

  const BothFieldsMessage := "Please enter both password fields"
  const MismatchMessage := "Passwords do not match"
  const SuccessRoute := "ResetPasswordSuccess"

  /** `handleContinue`: emptiness is checked first, then plain equality;
      only two equal non-empty fields navigate. */
  function HandleContinue(newPassword: string, confirmPassword: string): (r: Effect)
    ensures r.Navigate? <==> newPassword != "" && newPassword == confirmPassword
    ensures r.Navigate? ==> r == Navigate(SuccessRoute, map[])
    ensures r == Alert(BothFieldsMessage) <==> newPassword == "" || confirmPassword == ""
    ensures r == Alert(MismatchMessage) <==>
              newPassword != "" && confirmPassword != "" && newPassword != confirmPassword
  {
    if newPassword == "" || confirmPassword == "" then Alert(BothFieldsMessage)
    else if newPassword != confirmPassword then Alert(MismatchMessage)
    else Navigate(SuccessRoute, map[])
  }

  /** The comparison does not trim: a trailing space is a mismatch. */
  lemma TrailingSpaceIsMismatch(password: string)
    requires password != ""
    ensures HandleContinue(password, password + " ") == Alert(MismatchMessage)
  {
    assert |password + " "| != |password|;
  }
}

/** The Continue handler of the reset-password screen. */
module ResetPassword {
  import opened Effects
  import OtpVerification

  const InitialEmail := "andrew.ainsley@yourdomain.com"
  const MissingEmailMessage := "Please enter your email address"
  const OtpRoute := "OTPVerification"

  /** `handleContinue`: an empty email raises the alert; any other string,
      untrimmed and unchecked, navigates with the email as a parameter. */
  function HandleContinue(email: string): (r: Effect)
    ensures r == Alert(MissingEmailMessage) <==> email == ""
    ensures email != "" ==> r == Navigate(OtpRoute, map["email" := email])
  {
    if email == "" then Alert(MissingEmailMessage)
    else Navigate(OtpRoute, map["email" := email])
  }

  /** The field starts filled, so Continue without edits navigates. */
  lemma UneditedFieldNavigates()
    ensures HandleContinue(InitialEmail) == Navigate(OtpRoute, map["email" := InitialEmail])
  {
  }

  /** Whatever email this screen passes on is the one the OTP screen shows
      and forwards: its fallback never replaces a non-empty email. */
  lemma EmailReachesOtpScreen(email: string)
    requires email != ""
    ensures HandleContinue(email).Navigate?
    ensures OtpVerification.RouteEmail(Some(HandleContinue(email).params["email"])) == email
  {
  }
}
