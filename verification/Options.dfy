/** An optional value: a nullable column, an absent row, a missing reading. */
module Options {
  datatype Option<+T> = None | Some(value: T) {
    function GetOr(default: T): T {
      if Some? then value else default
    }
  }

  /** JavaScript truthiness of a nullable text. */
  predicate Truthy(t: Option<string>) { t.Some? && t.value != "" }
}
