/** The sign-in screen's flags: an empty-field guard, a loading phase that
    stands for the authentication call, a success overlay whose completion
    replaces the route with Home, and the remember-me checkbox.  The
    one-second `setTimeout` is outside the model: its continuation is a call
    to `SignInDelayElapsed`. */
module SignIn {
  import opened Effects

  const MissingFieldsMessage := "Please enter both email and password"
  const HomeRoute := "Home"

  /** The guard of `handleSignIn`: `!email || !password` raises the alert.
      Nothing else is checked; any non-empty email is accepted as it is. */
  function SignInGuard(email: string, password: string): (alert: Option<Effect>)
    ensures alert.None? <==> email != "" && password != ""
    ensures alert.Some? ==> alert.value == Alert(MissingFieldsMessage)
  {
    if email == "" || password == "" then Some(Alert(MissingFieldsMessage)) else None
  }

  class SignInScreen {
    var email: string
    var password: string
    var rememberMe: bool
    var showAnimation: bool
    var isLoading: bool

    constructor ()
      ensures email == "" && password == ""
      ensures !rememberMe && !showAnimation && !isLoading
    {
      email, password := "", "";
      rememberMe, showAnimation, isLoading := false, false, false;
    }

    /** The email field's `onChangeText`. */
    method SetEmail(text: string)
      modifies this`email
      ensures email == text
    {
      email := text;
    }

    /** The password field's `onChangeText`. */
    method SetPassword(text: string)
      modifies this`password
      ensures password == text
    {
      password := text;
    }

    /** The remember-me press: flip the flag, so two presses restore it. */
    method ToggleRememberMe()
      modifies this`rememberMe
      ensures rememberMe == !old(rememberMe)
    {
      rememberMe := !rememberMe;
    }

    /** `handleSignIn`: with a field empty, alert and change nothing;
        otherwise start loading (and schedule the delay). */
    method HandleSignIn() returns (alert: Option<Effect>)
      modifies this`isLoading
      ensures alert == SignInGuard(email, password)
      ensures alert.Some? ==> isLoading == old(isLoading)
      ensures alert.None? ==> isLoading
    {
      alert := SignInGuard(email, password);
      if alert.None? {
        isLoading := true;
      }
    }

    /** A press of the sign-in button, which is `disabled={isLoading}`: while
        loading nothing happens, so no second sign-in starts mid-load. */
    method PressSignIn() returns (alert: Option<Effect>)
      modifies this`isLoading
      ensures old(isLoading) ==> alert == None && isLoading
      ensures !old(isLoading) ==> alert == SignInGuard(email, password) && (isLoading <==> alert.None?)
    {
      if isLoading {
        alert := None;
      } else {
        alert := HandleSignIn();
      }
    }

    /** The continuation of the simulated authentication delay: loading
        ends and the success overlay is shown. */
    method SignInDelayElapsed()
      modifies this`isLoading, this`showAnimation
      ensures !isLoading && showAnimation
    {
      isLoading := false;
      showAnimation := true;
    }

    /** `handleAnimationComplete`: hide the overlay and replace the route
        with Home. */
    method HandleAnimationComplete() returns (nav: Effect)
      modifies this`showAnimation
      ensures !showAnimation
      ensures nav == Replace(HomeRoute)
    {
      showAnimation := false;
      nav := Replace(HomeRoute);
    }
  }

  /** The whole happy path from a fresh screen: fill both fields, press the
      button, let the delay elapse and the overlay finish; the only effect is
      replacing the route with Home, and the flags are back to idle. */
  method SignInFlow(email: string, password: string) returns (screen: SignInScreen, effects: seq<Effect>)
    requires email != "" && password != ""
    ensures fresh(screen)
    ensures effects == [Replace(HomeRoute)]
    ensures !screen.isLoading && !screen.showAnimation
  {
    screen := new SignInScreen();
    screen.SetEmail(email);
    screen.SetPassword(password);
    var alert := screen.PressSignIn();
    assert alert == None && screen.isLoading;
    var again := screen.PressSignIn();
    assert again == None;
    screen.SignInDelayElapsed();
    var nav := screen.HandleAnimationComplete();
    effects := [nav];
  }
}
