# Screen logic of the construction-project demo app

The app is a React Native front end. Nearly all of it is layout and mock data.
This project models the few screens that hold precise, sequential logic:

- **Project creation** (`screens/ProjectListScreen/CreateProjectScreen.jsx`):
  - the list of uploaded files, each `{id, name, mimeType, progress, uploading}`;
  - the `uploadIntervals` table from an entry id to its interval handle;
  - picking a file, the simulated-progress tick, the completion sweep, the
    cleanup that clears every interval, and removing a file;
  - the file-name icon classifier `getFileIcon`;
  - the project-name check of the Create button.
- **OTP verification** (`screens/OTPVerificationScreen.jsx`): a three-slot
  code typed on a keypad, backspace, the resend countdown and the resend link.
- **Sign in** (`screens/SignInScreen.jsx`): the empty-field guard, the
  loading phase, the success overlay, the replacement of the route with Home,
  and the remember-me checkbox.
- **Create new password** and **reset password**: the two Continue handlers.

Alerts and navigation calls are side effects in the app. Here each handler
returns them as values of `Effects.Effect`. Timers, the document picker and
`Math.random()` are not modelled as such:

- a timer callback is an explicit method call (`UploadList.Tick`,
  `OtpScreen.CountdownStep`, `SignInScreen.SignInDelayElapsed`);
- the random increment is the parameter `d` of `Tick`, with `0 <= d < 0.12`;
- the picker's answer is a `PickResult` parameter;
- the entry id (`Date.now()` in the app) and the interval handle are parameters.

Modules: `Effects` (outcomes, the `||` fallback), `Text` (lower-casing,
`endsWith`, `includes`, `trim`), `CreateProject`, `Uploads`,
`OtpVerification`, `SignIn`, `CreateNewPassword`, `ResetPassword`.

Where descriptions of the upload engine and the code differ, the
model follows the code:

- The code has no Pending/InProgress/Completed/Removed state. An entry carries
  only `progress` and an `uploading` flag.
- The code's cleanup clears the interval table but leaves the file list as it is.
- The increment is `Math.random() * 0.12`, so it lies in [0, 0.12) and never
  reaches 0.12.

## Model

| member | source | states |
|---|---|---|
| `Effects.OrElse` | screens/ProjectListScreen/CreateProjectScreen.jsx:97 | the or-fallback of JavaScript: a present non-empty string is kept; a missing or empty one gives the fallback |
| `Text.ToLower` | screens/ProjectListScreen/CreateProjectScreen.jsx:76 | same length; each character lower-cased (ASCII letters) |
| `Text.ToLowerIdempotent` | screens/ProjectListScreen/CreateProjectScreen.jsx:76 | lower-casing twice equals lower-casing once |
| `Text.TrimStart` | screens/ProjectListScreen/CreateProjectScreen.jsx:192 | strips exactly the leading whitespace: the rest is a suffix not starting with whitespace, and it is empty iff the input is all whitespace |
| `Text.TrimEnd` | screens/ProjectListScreen/CreateProjectScreen.jsx:192 | strips exactly the trailing whitespace: the rest is a prefix not ending with whitespace, and it is empty iff the input is all whitespace |
| `Text.TrimIsSlice` | screens/ProjectListScreen/CreateProjectScreen.jsx:192 | `trim` keeps a contiguous slice, and everything cut off on either side is whitespace |
| `Text.TrimHasNoEdgeWhitespace` | screens/ProjectListScreen/CreateProjectScreen.jsx:192 | a non-empty result of `trim` neither starts nor ends with whitespace |
| `Text.TrimEmptyIffAllWhitespace` | screens/ProjectListScreen/CreateProjectScreen.jsx:192 | `trim` gives `''` exactly when every character is JavaScript whitespace |
| `CreateProject.GetFileIcon` | screens/ProjectListScreen/CreateProjectScreen.jsx:75-83 | the provider is `custom` exactly for the `ps`, `ai` and `figma` icons; a missing name gets `file-document-outline`/material |
| `CreateProject.FirstMatch` | screens/ProjectListScreen/CreateProjectScreen.jsx:77-82 | the icon of the first rule with a matching pattern; the default icon exactly when no rule matches |
| `CreateProject.GetFileIconFollowsRules` | screens/ProjectListScreen/CreateProjectScreen.jsx:75-83 | `getFileIcon` equals first-match over the table `.psd`, `.ai`, `.fig`-or-contains-`figma`, `.pdf`, `.zip`, applied to the lower-cased name (missing name as `''`) |
| `CreateProject.GetFileIconIgnoresCase` | screens/ProjectListScreen/CreateProjectScreen.jsx:76 | a name and its lower-cased form get the same icon |
| `CreateProject.PsdBeatsFigma` | screens/ProjectListScreen/CreateProjectScreen.jsx:77-79 | a name ending in `.psd` gets `ps` even when it also matches the figma test: the earlier test wins |
| `CreateProject.HandleCreate` | screens/ProjectListScreen/CreateProjectScreen.jsx:190-199 | a name that trims to `''` yields only the validation alert; any other name yields the success alert then go-back |
| `Uploads.NewEntry` | screens/ProjectListScreen/CreateProjectScreen.jsx:94-100 | a new entry has the given id and name, progress 0, uploading true, and the picked MIME type or `application/octet-stream` |
| `Uploads.Ticked` | screens/ProjectListScreen/CreateProjectScreen.jsx:106-111 | the tick updater keeps the length and every entry's id in place |
| `Uploads.TickIsLocal` | screens/ProjectListScreen/CreateProjectScreen.jsx:106-108 | an entry with another id is returned unchanged; no entry's name or MIME type changes |
| `Uploads.TickUnknownIdIsNoop` | screens/ProjectListScreen/CreateProjectScreen.jsx:108 | a tick for an id not in the list leaves the list as it is |
| `Uploads.TickMonotoneAndBounded` | screens/ProjectListScreen/CreateProjectScreen.jsx:109-110 | with `0 <= d < 0.12`, progress never decreases or exceeds 1; the ticked entry gets `min(1, p + d)` and is uploading exactly when that is below 1 |
| `Uploads.TickPreservesWellFormed` | screens/ProjectListScreen/CreateProjectScreen.jsx:106-111 | a tick keeps every progress in [0, 1], keeps finished entries not uploading, and keeps the set of ids |
| `Uploads.Without` | screens/ProjectListScreen/CreateProjectScreen.jsx:147 | the filtered list holds exactly the entries whose id differs |
| `Uploads.WithoutAppend` | screens/ProjectListScreen/CreateProjectScreen.jsx:147 | filtering distributes over concatenation, so kept entries stay in their original order |
| `Uploads.WithoutAbsentIsNoop` | screens/ProjectListScreen/CreateProjectScreen.jsx:147 | filtering out an id no entry has changes nothing |
| `Uploads.RemoveIsIdempotent` | screens/ProjectListScreen/CreateProjectScreen.jsx:141-148 | removing an id twice gives the same list as removing it once |
| `Uploads.WithoutWellFormed` | screens/ProjectListScreen/CreateProjectScreen.jsx:147 | filtering keeps entries well formed and removes exactly that id from the set of ids |
| `Uploads.TickAfterRemoveIsNoop` | screens/ProjectListScreen/CreateProjectScreen.jsx:106-111 | a tick that lands after its entry was removed changes nothing |
| `Uploads.TickRemoveCommute` | screens/ProjectListScreen/CreateProjectScreen.jsx:106-148 | ticking one id and removing another commute: operations on one upload do not disturb another |
| `Uploads.UploadList.constructor` | screens/ProjectListScreen/CreateProjectScreen.jsx:46-72 | the list starts with the three example entries; the interval table starts empty |
| `Uploads.UploadList.Pick` | screens/ProjectListScreen/CreateProjectScreen.jsx:86-123 | a successful pick puts the new entry in front of the unchanged older ones and records its handle under its id; cancel or picker error changes nothing |
| `Uploads.UploadList.Tick` | screens/ProjectListScreen/CreateProjectScreen.jsx:105-113 | the list becomes the tick updater applied to the old list; the interval table is untouched; the invariant is kept |
| `Uploads.UploadList.Sweep` | screens/ProjectListScreen/CreateProjectScreen.jsx:126-133 | removes from the interval table exactly the ids of entries whose progress reached 1; no other key changes |
| `Uploads.UploadList.Unmount` | screens/ProjectListScreen/CreateProjectScreen.jsx:135-138 | the interval table is empty afterwards |
| `Uploads.UploadList.Remove` | screens/ProjectListScreen/CreateProjectScreen.jsx:141-148 | deletes the id's key from the interval table and filters its entries out of the list |
| `Uploads.UploadList.FilesChanged` | screens/ProjectListScreen/CreateProjectScreen.jsx:126-133 | corrected re-run on a list change: the sweep only |
| `Uploads.UploadList.FilesChangedAsWritten` | screens/ProjectListScreen/CreateProjectScreen.jsx:126-139 | re-run on a list change as written: the previous cleanup, then the sweep; afterwards no interval is left |
| `Uploads.PickThenRerenderAsWritten` | screens/ProjectListScreen/CreateProjectScreen.jsx:93-139 | as written, a freshly picked unfinished file has no interval after the next re-render |
| `Uploads.PickThenRerender` | screens/ProjectListScreen/CreateProjectScreen.jsx:93-133 | with the cleanup kept for unmount, the new file keeps its interval handle after the re-render |
| `Uploads.SweepKeepsExactlyUnfinished` | screens/ProjectListScreen/CreateProjectScreen.jsx:127-131 | the sweep keeps an id's interval exactly when none of its entries has reached progress 1 |
| `OtpVerification.KeypadKeysAreNonEmpty` | screens/OTPVerificationScreen.jsx:72-77 | every keypad item other than `backspace` is a non-empty string |
| `OtpVerification.RouteEmail` | screens/OTPVerificationScreen.jsx:25 | the route's email if present and non-empty, else `andrew.ainsley@yourdomain.com`; never empty |
| `OtpVerification.FirstEmpty` | screens/OTPVerificationScreen.jsx:38 | `findIndex`: -1 exactly when no slot is empty, else the least empty slot |
| `OtpVerification.LastFilled` | screens/OTPVerificationScreen.jsx:53-55 | the `reduce`: -1 exactly when every slot is empty, else the greatest filled slot |
| `OtpVerification.FindFirstEmpty` | screens/OTPVerificationScreen.jsx:38 | the scan over the code array returns `FirstEmpty` of its contents |
| `OtpVerification.FindLastFilled` | screens/OTPVerificationScreen.jsx:53-55 | the left-to-right fold over the code array returns `LastFilled` of its contents |
| `OtpVerification.CompletionNavigation` | screens/OTPVerificationScreen.jsx:46 | navigation to `CreateNewPassword` carrying the email as its `email` parameter |
| `OtpVerification.FilledCount` | screens/OTPVerificationScreen.jsx:38 | the length of the leading run of filled slots: every slot before it is filled and the slot at it, if any, is empty |
| `OtpVerification.Pressed` | screens/OTPVerificationScreen.jsx:37-42 | a key press keeps the code length |
| `OtpVerification.Cleared` | screens/OTPVerificationScreen.jsx:52-61 | backspace keeps the code length |
| `OtpVerification.PrefixShape` | screens/OTPVerificationScreen.jsx:21 | with filled slots forming a prefix, slot `i` is filled exactly when `i` is below the filled count, and the last filled slot is just before it |
| `OtpVerification.PressKeepsPrefix` | screens/OTPVerificationScreen.jsx:38-42 | a press keeps the prefix shape; on a full code it changes nothing; otherwise the result is the old code with only the first empty slot set to the key, so exactly one more slot is filled |
| `OtpVerification.ClearKeepsPrefix` | screens/OTPVerificationScreen.jsx:52-61 | backspace keeps the prefix shape; on an all-empty code it changes nothing; otherwise it empties exactly the last filled slot |
| `OtpVerification.ClearUndoesPress` | screens/OTPVerificationScreen.jsx:37-61 | backspace after a press into a non-full code restores the code |
| `OtpVerification.PressUndoesClear` | screens/OTPVerificationScreen.jsx:37-61 | re-typing the removed digit after a backspace restores the code |
| `OtpVerification.ThirdSlotCompletesCode` | screens/OTPVerificationScreen.jsx:44-48 | a press that fills slot 2, the one that schedules navigation, completes the code |
| `OtpVerification.OtpScreen.constructor` | screens/OTPVerificationScreen.jsx:20-25 | three empty slots, timer 55, resend not allowed, email from the route with its fallback |
| `OtpVerification.OtpScreen.PressNumber` | screens/OTPVerificationScreen.jsx:37-50 | the code becomes the pressed code; navigation to `CreateNewPassword` with the email is scheduled exactly when the first empty slot was 2 |
| `OtpVerification.OtpScreen.Backspace` | screens/OTPVerificationScreen.jsx:52-62 | the code becomes the cleared code; the invariant is kept |
| `OtpVerification.OtpScreen.PressKey` | screens/OTPVerificationScreen.jsx:126-137 | for a keypad item: `backspace` clears and schedules nothing; every other item, `*` included, is typed verbatim, fills one more slot when one is empty, and schedules navigation with the email exactly when it fills the last slot |
| `OtpVerification.OtpScreen.CountdownStep` | screens/OTPVerificationScreen.jsx:28-35 | a positive timer goes down by one; at 0 resending becomes allowed and the timer stays 0 |
| `OtpVerification.OtpScreen.ResendCode` | screens/OTPVerificationScreen.jsx:64-70 | a no-op unless resending is allowed; then timer 55, resend not allowed, all slots empty |
| `SignIn.SignInGuard` | screens/SignInScreen.jsx:236-240 | no alert exactly when both fields are non-empty; otherwise the missing-fields alert |
| `SignIn.SignInScreen.constructor` | screens/SignInScreen.jsx:229-234 | empty fields; remember-me, overlay and loading all false |
| `SignIn.SignInScreen.SetEmail` | screens/SignInScreen.jsx:290-292 | the email field takes the typed text |
| `SignIn.SignInScreen.SetPassword` | screens/SignInScreen.jsx:302-303 | the password field takes the typed text |
| `SignIn.SignInScreen.ToggleRememberMe` | screens/SignInScreen.jsx:311 | remember-me is negated, so two presses restore it |
| `SignIn.SignInScreen.HandleSignIn` | screens/SignInScreen.jsx:236-249 | with a field empty it alerts and leaves loading as it was; otherwise loading becomes true |
| `SignIn.SignInScreen.PressSignIn` | screens/SignInScreen.jsx:366-374 | while loading the disabled button does nothing; otherwise it is `handleSignIn` |
| `SignIn.SignInScreen.SignInDelayElapsed` | screens/SignInScreen.jsx:245-248 | loading ends and the success overlay is shown |
| `SignIn.SignInScreen.HandleAnimationComplete` | screens/SignInScreen.jsx:251-255 | the overlay is hidden and the route is replaced with `Home` |
| `SignIn.SignInFlow` | screens/SignInScreen.jsx:236-255 | from a fresh screen with both fields filled, the flow ends idle with the single effect of replacing the route with `Home` |
| `CreateNewPassword.HandleContinue` | screens/CreateNewPasswordScreen.jsx:57-69 | navigates to `ResetPasswordSuccess` iff both fields are non-empty and equal; the emptiness alert iff a field is empty (checked first); the mismatch alert iff both are non-empty and differ |
| `CreateNewPassword.TrailingSpaceIsMismatch` | screens/CreateNewPasswordScreen.jsx:63-66 | equality is not trimmed: a trailing space is a mismatch |
| `ResetPassword.HandleContinue` | screens/ResetPasswordScreen.jsx:54-61 | the alert iff the email is empty; any other string, whitespace included, navigates to `OTPVerification` with the email unchanged |
| `ResetPassword.UneditedFieldNavigates` | screens/ResetPasswordScreen.jsx:52-61 | the initial field value `andrew.ainsley@yourdomain.com` navigates without edits |
| `ResetPassword.EmailReachesOtpScreen` | screens/ResetPasswordScreen.jsx:60 | the email passed on is the one the OTP screen uses; its fallback never replaces it |

## Left out

- The document picker, `setInterval`/`clearInterval`/`setTimeout` and React's effect scheduling are foreign calls. Each timer callback and each effect run is an explicit method call. No claim is made that an upload ever reaches 1.
- `Math.random()` is replaced by the increment parameter `d` with `0 <= d < 0.12`. Progress is a `real`; JavaScript float rounding is not modelled.
- The progress-bar width `Math.round(file.progress * 100)` (screens/ProjectListScreen/CreateProjectScreen.jsx:177) is rendering.
- Ids come from `Date.now()` and can collide. The model does not require them to be unique. A pick whose id already has an interval overwrites the stored handle; the model does not track the leaked interval.
- Uploads.UploadList.Tick: uses one increment for every entry with the id. The app draws a fresh `Math.random()` per matching entry, which differs only when ids collide.
- Text.ToLower: lower-cases the ASCII letters only, because `toLowerCase`'s full Unicode case mapping is out of scope.
- CreateProject.HandleCreate: assumes `navigation` is present. The app's `navigation?.goBack?.()` skips go-back when it is absent.
- The `console.warn` on a picker error is a log line. The model keeps only its effect, which is no state change.
- OtpVerification.OtpScreen.PressNumber: the half-second delay before navigation is left out. The navigation is returned as "scheduled", and edits within that delay do not cancel it.
- The OTP handlers copy the code array before writing one slot. The model writes the slot in place; nothing else holds the old array.
- The masked email text on the OTP screen is a fixed string used only for display.
- `handleForgotPassword` and `handleSignUp` each only navigate to a fixed route.
- The `SuccessAnimation` overlay's animation and timing are left out. The model does not say when `HandleAnimationComplete` is called, or whether the overlay blocks other presses.
- Every other screen and component is static data, styling or navigation wiring with no logic to state.

## Findings

| source | as written | input that shows it | evidently intended | confidence | as-written member | corrected member |
|---|---|---|---|---|---|---|
| screens/ProjectListScreen/CreateProjectScreen.jsx:126-139 | the cleanup commented "cleanup on unmount" is returned from an effect that depends on `[files]`, so React runs it before every re-run; it clears every interval, including the one a pick has just started | any successful pick, e.g. `plan.pdf`: the re-render caused by `setFiles` clears the new interval, so the entry stays at progress 0 with `uploading` true | clear all intervals only on unmount; on a list change, only sweep finished entries | high; not executed | `Uploads.PickThenRerenderAsWritten` | `Uploads.PickThenRerender` |
