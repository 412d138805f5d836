/** JavaScript strings: sequences of UTF-16 code units. */
module JsStrings {
  newtype CodeUnit = x: int | 0 <= x < 0x1_0000

  type JsString = seq<CodeUnit>

  /** An ASCII literal written as code units. */
  function Js(s: string): (r: JsString)
    ensures |r| == |s|
  {
    seq(|s|, i requires 0 <= i < |s| => (s[i] as int % 0x1_0000) as CodeUnit)
  }

  /** A string is falsy in JavaScript exactly when it is empty. */
  predicate Truthy(s: JsString) {
    s != []
  }
}

/** The option type used for JavaScript's `undefined` and `null`. */
module Options {
  datatype Option<+T> = None | Some(value: T) {
    function GetOr(default: T): T {
      if Some? then value else default
    }
  }
}
