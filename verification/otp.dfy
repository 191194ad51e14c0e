/** The OTP verification screen: a three-slot code typed on an on-screen
    keypad, and a countdown that gates the "resend code" link.  The
    one-second `setTimeout` of the countdown and the half-second delay before
    navigation are outside the model: a countdown step is a call to
    `CountdownStep`, and a scheduled navigation is returned as a value. */
module OtpVerification {
  import opened Effects

  const DefaultEmail := "andrew.ainsley@yourdomain.com"
  const CodeLength := 3
  const ResendSeconds := 55
  const BackspaceKey := "backspace"

  /** The keypad rows; every item but `backspace` is typed into the code. */
  const Keypad: seq<seq<string>> := [
    ["1", "2", "3"],
    ["4", "5", "6"],
    ["7", "8", "9"],
    ["*", "0", BackspaceKey]
  ]

  /** Every keypad item that is typed into the code is a non-empty string,
      so a typed key always fills the slot it lands in. */
  lemma KeypadKeysAreNonEmpty()
    ensures forall r, c :: 0 <= r < |Keypad| && 0 <= c < |Keypad[r]| && Keypad[r][c] != BackspaceKey
                           ==> Keypad[r][c] != ""
  {
  }

  /** `item` is one of the keypad's items. */
  predicate OnKeypad(item: string)
  {
    exists r, c :: 0 <= r < |Keypad| && 0 <= c < |Keypad[r]| && Keypad[r][c] == item
  }

  /** `route?.params?.email || DefaultEmail`. */
  function RouteEmail(param: Option<string>): (email: string)
    ensures email != ""
    ensures param.Some? && param.value != "" ==> email == param.value
    ensures param.None? || param.value == "" ==> email == DefaultEmail
  {
    OrElse(param, DefaultEmail)
  }

  /** The navigation a completed code schedules. */
  function CompletionNavigation(email: string): (nav: Effect)
    ensures nav.Navigate? && nav.route == "CreateNewPassword"
    ensures "email" in nav.params && nav.params["email"] == email
  {
    Navigate("CreateNewPassword", map["email" := email])
  }

  /** `code.findIndex(digit => digit === '')`: the first empty slot, or -1. */
  function FirstEmpty(code: seq<string>): (k: int)
    ensures -1 <= k < |code|
    ensures k == -1 <==> forall i :: 0 <= i < |code| ==> code[i] != ""
    ensures k >= 0 ==> code[k] == "" && forall i :: 0 <= i < k ==> code[i] != ""
  {
    if code == [] then -1
    else if code[0] == "" then 0
    else
      var k := FirstEmpty(code[1..]);
      if k == -1 then -1 else k + 1
  }

  /** `code.reduce((acc, digit, index) => digit !== '' ? index : acc, -1)`:
      the last filled slot, or -1. */
  function LastFilled(code: seq<string>): (k: int)
    ensures -1 <= k < |code|
    ensures k == -1 <==> forall i :: 0 <= i < |code| ==> code[i] == ""
    ensures k >= 0 ==> code[k] != "" && forall i :: k < i < |code| ==> code[i] == ""
  {
    if code == [] then -1
    else if code[|code| - 1] != "" then |code| - 1
    else LastFilled(code[..|code| - 1])
  }

  /** The `findIndex` scan of `handleNumberPress`. */
  method FindFirstEmpty(code: array<string>) returns (k: int)
    ensures k == FirstEmpty(code[..])
  {
    k := 0;
    while k < code.Length && code[k] != ""
      invariant 0 <= k <= code.Length
      invariant forall i :: 0 <= i < k ==> code[i] != ""
    {
      k := k + 1;
    }
    if k == code.Length {
      k := -1;
    }
  }

  /** The `reduce` fold of `handleBackspace`, left to right. */
  method FindLastFilled(code: array<string>) returns (k: int)
    ensures k == LastFilled(code[..])
  {
    k := -1;
    var i := 0;
    while i < code.Length
      invariant 0 <= i <= code.Length
      invariant k == LastFilled(code[..i])
    {
      assert code[..i + 1][..i] == code[..i];
      if code[i] != "" {
        k := i;
      }
      i := i + 1;
    }
    assert code[..i] == code[..];
  }

  /** The filled slots form a prefix of the code. */
  predicate PrefixFilled(code: seq<string>)
  {
    forall i, j :: 0 <= i < j < |code| && code[j] != "" ==> code[i] != ""
  }

  /** How many slots are filled, for a code whose filled slots form a prefix. */
  function FilledCount(code: seq<string>): (n: nat)
    ensures n <= |code|
    ensures forall i :: 0 <= i < n ==> code[i] != ""
    ensures n < |code| ==> code[n] == ""
  {
    var k := FirstEmpty(code);
    if k == -1 then |code| else k
  }

  /** The code after typing `key`: it goes into the first empty slot; with
      no empty slot nothing changes. */
  function Pressed(code: seq<string>, key: string): (r: seq<string>)
    ensures |r| == |code|
  {
    var k := FirstEmpty(code);
    if k == -1 then code else code[k := key]
  }

  /** The code after backspace: the last filled slot is emptied; an
      all-empty code stays as it is. */
  function Cleared(code: seq<string>): (r: seq<string>)
    ensures |r| == |code|
  {
    var k := LastFilled(code);
    if k == -1 then code else code[k := ""]
  }

  /** Under the prefix invariant, slot `i` is filled exactly when `i` is
      below the filled count, and the last filled slot is just before it. */
  lemma PrefixShape(code: seq<string>)
    requires PrefixFilled(code)
    ensures forall i :: 0 <= i < |code| ==> (code[i] != "" <==> i < FilledCount(code))
    ensures LastFilled(code) == FilledCount(code) - 1
  {
    var n := FilledCount(code);
    if n < |code| {
      assert code[n] == "";
    }
    if n > 0 {
      assert code[n - 1] != "";
    }
  }

  /** Typing into a prefix-shaped code keeps it prefix-shaped, puts the key
      verbatim into the first empty slot and fills exactly one more slot
      (unless the code was full, when nothing changes). */
  lemma PressKeepsPrefix(code: seq<string>, key: string)
    requires PrefixFilled(code) && key != ""
    ensures PrefixFilled(Pressed(code, key))
    ensures FirstEmpty(code) == -1 ==> Pressed(code, key) == code
    ensures FirstEmpty(code) != -1 ==>
              && Pressed(code, key) == code[FilledCount(code) := key]
              && Pressed(code, key)[FilledCount(code)] == key
              && FilledCount(Pressed(code, key)) == FilledCount(code) + 1
  {
    var k := FirstEmpty(code);
    if k != -1 {
      PrefixShape(code);
      var r := Pressed(code, key);
      forall i | 0 <= i < |r| ensures r[i] != "" <==> i <= k {
      }
      if k + 1 < |r| {
        assert r[k + 1] == "";
      }
    }
  }

  /** Backspace on a prefix-shaped code keeps it prefix-shaped; it changes
      nothing on an all-empty code, and otherwise empties exactly one slot,
      the last filled one. */
  lemma ClearKeepsPrefix(code: seq<string>)
    requires PrefixFilled(code)
    ensures PrefixFilled(Cleared(code))
    ensures FilledCount(code) == 0 ==> Cleared(code) == code
    ensures FilledCount(code) > 0 ==>
              && Cleared(code) == code[FilledCount(code) - 1 := ""]
              && FilledCount(Cleared(code)) == FilledCount(code) - 1
  {
    PrefixShape(code);
    var n := FilledCount(code);
    if n > 0 {
      var r := Cleared(code);
      forall i | 0 <= i < |r| ensures r[i] != "" <==> i < n - 1 {
      }
      assert r[n - 1] == "";
    } else if |code| > 0 {
      assert code[0] == "";
    }
  }

  /** Backspace undoes a key press that found an empty slot. */
  lemma ClearUndoesPress(code: seq<string>, key: string)
    requires PrefixFilled(code) && key != "" && FirstEmpty(code) != -1
    ensures Cleared(Pressed(code, key)) == code
  {
    PressKeepsPrefix(code, key);
    var r := Pressed(code, key);
    PrefixShape(r);
    PrefixShape(code);
  }

  /** Re-typing the digit that backspace removed restores the code. */
  lemma PressUndoesClear(code: seq<string>)
    requires PrefixFilled(code) && LastFilled(code) != -1
    ensures Pressed(Cleared(code), code[LastFilled(code)]) == code
  {
    ClearKeepsPrefix(code);
    PrefixShape(code);
    var c := Cleared(code);
    PrefixShape(c);
    var k := LastFilled(code);
    assert FirstEmpty(c) == k;
  }

  /** A press that fills slot 2 (the one that schedules navigation)
      completes a prefix-shaped three-slot code. */
  lemma ThirdSlotCompletesCode(code: seq<string>, key: string)
    requires |code| == CodeLength && PrefixFilled(code) && key != ""
    requires FirstEmpty(code) == 2
    ensures forall i :: 0 <= i < CodeLength ==> Pressed(code, key)[i] != ""
  {
  }

  /** The screen's state: the code slots, the resend countdown and whether
      resending is allowed, plus the email taken from the route. */
  class OtpScreen {
    const email: string
    var code: array<string>
    var timer: nat
    var canResend: bool

    /** The code has three slots whose filled ones form a prefix; the
        countdown stays within [0, 55], and resending is only allowed once
        it has reached 0. */
    ghost predicate Valid()
      reads this, code
    {
      && code.Length == CodeLength
      && PrefixFilled(code[..])
      && timer <= ResendSeconds
      && (canResend ==> timer == 0)
    }

    constructor (routeEmail: Option<string>)
      ensures Valid() && fresh(code)
      ensures email == RouteEmail(routeEmail)
      ensures code[..] == ["", "", ""] && timer == ResendSeconds && !canResend
    {
      email := RouteEmail(routeEmail);
      code := new string[CodeLength](_ => "");
      timer := ResendSeconds;
      canResend := false;
    }

    /** `handleNumberPress`: write the key into the first empty slot; when
        that slot is index 2, schedule navigation to CreateNewPassword with
        the email.  A full code is left alone. */
    method PressNumber(key: string) returns (scheduled: Option<Effect>)
      requires Valid()
      modifies code
      ensures Valid()
      ensures code[..] == Pressed(old(code[..]), key)
      ensures scheduled == if FirstEmpty(old(code[..])) == 2
                           then Some(CompletionNavigation(email)) else None
    {
      var k := FindFirstEmpty(code);
      scheduled := None;
      if k != -1 {
        ghost var before := code[..];
        if key != "" {
          PressKeepsPrefix(before, key);
        } else {
          assert before[k := key] == before;
        }
        code[k] := key;
        assert code[..] == before[k := key];
        if k == 2 {
          scheduled := Some(CompletionNavigation(email));
        }
      }
    }

    /** `handleBackspace`: empty the last filled slot, if any. */
    method Backspace()
      requires Valid()
      modifies code
      ensures Valid()
      ensures code[..] == Cleared(old(code[..]))
    {
      var k := FindLastFilled(code);
      if k != -1 {
        ghost var before := code[..];
        ClearKeepsPrefix(before);
        code[k] := "";
        assert code[..] == before[k := ""];
      }
    }

    /** A keypad press: `backspace` clears, any other item is typed verbatim. */
    method PressKey(item: string) returns (scheduled: Option<Effect>)
      requires Valid() && OnKeypad(item)
      modifies code
      ensures Valid()
      ensures item == BackspaceKey ==> code[..] == Cleared(old(code[..])) && scheduled == None
      ensures item != BackspaceKey ==> code[..] == Pressed(old(code[..]), item)
      ensures item != BackspaceKey ==>
                scheduled == if FirstEmpty(old(code[..])) == 2
                             then Some(CompletionNavigation(email)) else None
      ensures item != BackspaceKey && FirstEmpty(old(code[..])) != -1 ==>
                FilledCount(code[..]) == FilledCount(old(code[..])) + 1
    {
      if item == BackspaceKey {
        Backspace();
        scheduled := None;
      } else {
        KeypadKeysAreNonEmpty();
        PressKeepsPrefix(code[..], item);
        scheduled := PressNumber(item);
      }
    }

    /** One run of the countdown effect: a positive timer goes down by one
        (after the one-second timeout); at 0, resending becomes allowed. */
    method CountdownStep()
      requires Valid()
      modifies this`timer, this`canResend
      ensures Valid()
      ensures old(timer) > 0 ==> timer == old(timer) - 1 && canResend == old(canResend)
      ensures old(timer) == 0 ==> timer == 0 && canResend
    {
      if timer > 0 {
        timer := timer - 1;
      } else {
        canResend := true;
      }
    }

    /** `handleResendCode`: only when allowed, restart the countdown at 55,
        forbid resending again and empty the code. */
    method ResendCode()
      requires Valid()
      modifies this`timer, this`canResend, code
      ensures Valid()
      ensures !old(canResend) ==> timer == old(timer) && !canResend && code[..] == old(code[..])
      ensures old(canResend) ==> timer == ResendSeconds && !canResend && code[..] == ["", "", ""]
    {
      if canResend {
        timer := ResendSeconds;
        canResend := false;
        code[0], code[1], code[2] := "", "", "";
      }
    }
  }
}
