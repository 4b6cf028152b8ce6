/** The optional value used throughout the model: `None` stands for JavaScript's
    `null` or `undefined`, `Some(v)` for a present value. */
module Wrappers {

  datatype Option<+T> = None | Some(value: T) {

    /** Returns the value, or the given default when absent. */
    function GetOr(default: T): T {
      match this
      case Some(v) => v
      case None => default
    }
  }

  /** One field of `{ ...before, ...patch }`: the patch's value when the
      patch carries the field, the old value when it does not. */
  predicate Spreads<T(==)>(patch: Option<T>, before: T, after: T) {
    && (patch.Some? ==> after == patch.value)
    && (patch.None? ==> after == before)
  }

  /** JavaScript truthiness of a nullable string: `null` and `""` are falsy. */
  predicate TruthyStr(o: Option<string>) {
    o.Some? && o.value != ""
  }

  /** `o || d` for a nullable string. */
  function StrOr(o: Option<string>, d: string): string {
    if TruthyStr(o) then o.value else d
  }
}
