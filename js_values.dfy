/**
 * The JavaScript values the store works with, reduced to what the store
 * observes of them: a property slot either holds `undefined` or a defined
 * value, and strings are used as conditions by their truthiness.
 */
module JsValues {

  /** Property names of the state object (`keyof State`). */
  type Key = string

  /** A slot that may hold `undefined`. */
  datatype Js<T> = Undefined | Defined(value: T)

  /** A string used as a condition: `undefined` and `""` are falsy. */
  predicate Truthy(s: Js<string>) {
    s.Defined? && s.value != ""
  }

  /** The expression `s || fallback` for an optional string. */
  function OrElse(s: Js<string>, fallback: string): (r: string)
    ensures Truthy(s) ==> r == s.value
    ensures !Truthy(s) ==> r == fallback
    ensures r != "" || fallback == ""
  {
    if Truthy(s) then s.value else fallback
  }
}
