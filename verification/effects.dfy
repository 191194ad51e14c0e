/** The observable outcomes of the screens' handlers.  Alerts and navigation
    calls are side effects in the app; here a handler returns them as values. */
module Effects {

  datatype Option<T> = None | Some(value: T)

  datatype Effect =
    /** `alert(message)`, the one-argument web-style alert. */
    | Alert(message: string)
    /** `Alert.alert(title, message)` from React Native. */
    | TitledAlert(title: string, message: string)
    /** `navigation.navigate(route, params)`; a route without params has `map[]`. */
    | Navigate(route: string, params: map<string, string>)
    /** `navigation.replace(route)`. */
    | Replace(route: string)
    /** `navigation.goBack()`. */
    | GoBack

  /** JavaScript's `value || fallback` for a string that may be absent:
      both a missing value and the (falsy) empty string select the fallback. */
  function OrElse(value: Option<string>, fallback: string): (r: string)
    ensures value.Some? && value.value != "" ==> r == value.value
    ensures value.None? || value.value == "" ==> r == fallback
  {
    if value.Some? && value.value != "" then value.value else fallback
  }
}
