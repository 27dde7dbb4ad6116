/**
 * Option and the JavaScript truthiness rules that the editors and route handlers rely on
 * (`x || d` on an optional string, `!flag` and `flag !== false` on an optional boolean).
 */
module Wrappers {

  /** A value that may be absent (`undefined` or `null` in the source). */
  datatype Option<+T> = None | Some(value: T) {

    /** The value, or a default when absent. */
    function GetOr(default: T): T {
      match this
      case Some(v) => v
      case None => default
    }
  }

  /** `s || d` on an optional string: an absent or empty string falls back to `d`. */
  function OrDefault(s: Option<string>, d: string): string {
    if s.Some? && s.value != "" then s.value else d
  }

  /** `!flag` on an optional boolean: an absent flag is falsy, so its negation is true. */
  function Negate(flag: Option<bool>): bool {
    flag != Some(true)
  }

  /** `flag !== false`: the editors show a section unless its flag is explicitly false. */
  function ShownOn(flag: Option<bool>): bool {
    flag != Some(false)
  }
}
