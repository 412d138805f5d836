/** The canonical text of a payload (src/utils/compute-unique-id.util.ts:53-64). */
module CanonicalKey {
  import opened JsStrings

  datatype Field = Field(key: JsString, value: Json)

  /** A JSON value; a number is given by its decimal text, an object by its properties in enumeration order. */
  datatype Json =
    | Null
    | Bool(b: bool)
    | Num(text: JsString)
    | Str(s: JsString)
    | Arr(items: seq<Json>)
    | Obj(fields: seq<Field>)

  const QUOTE: CodeUnit := 34
  const COMMA: CodeUnit := 44
  const MINUS: CodeUnit := 45
  const COLON: CodeUnit := 58
  const LBRACKET: CodeUnit := 91
  const BACKSLASH: CodeUnit := 92
  const RBRACKET: CodeUnit := 93
  const LBRACE: CodeUnit := 123
  const RBRACE: CodeUnit := 125

  const NULL_TEXT: JsString := [110, 117, 108, 108]
  const TRUE_TEXT: JsString := [116, 114, 117, 101]
  const FALSE_TEXT: JsString := [102, 97, 108, 115, 101]

  predicate Digit(c: CodeUnit) {
    48 <= c <= 57
  }

  /** Digits, sign, point and exponent: what a finite number's text is made of. */
  predicate NumberUnit(c: CodeUnit) {
    Digit(c) || c == 43 || c == MINUS || c == 46 || c == 69 || c == 101
  }

  predicate NumberText(t: JsString) {
    t != [] && (Digit(t[0]) || t[0] == MINUS) && forall i :: 0 <= i < |t| ==> NumberUnit(t[i])
  }

  predicate DistinctKeys(fields: seq<Field>) {
    forall i, j :: 0 <= i < j < |fields| ==> fields[i].key != fields[j].key
  }

  /** What JavaScript guarantees of a JSON value: number texts are numbers, and no object repeats a key. */
  predicate WellFormed(v: Json) {
    match v
    case Num(t) => NumberText(t)
    case Arr(items) => forall i :: 0 <= i < |items| ==> WellFormed(items[i])
    case Obj(fields) => DistinctKeys(fields) && forall i :: 0 <= i < |fields| ==> WellFormed(fields[i].value)
    case _ => true
  }

  // ---- string literals, as JSON.stringify writes them ----

  function HexDigit(d: int): CodeUnit
    requires 0 <= d < 16
  {
    if d < 10 then (48 + d) as CodeUnit else (87 + d) as CodeUnit
  }

  function UnicodeEscape(c: CodeUnit): JsString {
    var n := c as int;
    [BACKSLASH, 117, HexDigit(n / 16 / 16 / 16), HexDigit(n / 16 / 16 % 16), HexDigit(n / 16 % 16), HexDigit(n % 16)]
  }

  predicate HighSurrogate(c: CodeUnit) {
    0xD800 <= c <= 0xDBFF
  }

  predicate LowSurrogate(c: CodeUnit) {
    0xDC00 <= c <= 0xDFFF
  }

  /** A surrogate that is not half of a pair. */
  predicate Lone(s: JsString, i: nat)
    requires i < |s|
  {
    || (HighSurrogate(s[i]) && !(i + 1 < |s| && LowSurrogate(s[i + 1])))
    || (LowSurrogate(s[i]) && !(i > 0 && HighSurrogate(s[i - 1])))
  }

  predicate ShortEscaped(c: CodeUnit) {
    c == QUOTE || c == BACKSLASH || c == 8 || c == 9 || c == 10 || c == 12 || c == 13
  }

  /** The letter after the backslash: b, t, n, f, r, or the unit itself. */
  function ShortEscape(c: CodeUnit): CodeUnit {
    match c
    case 8 => 98
    case 9 => 116
    case 10 => 110
    case 12 => 102
    case 13 => 114
    case _ => c
  }

  function EscapeUnit(c: CodeUnit, lone: bool): JsString {
    if ShortEscaped(c) then [BACKSLASH, ShortEscape(c)]
    else if c < 32 || lone then UnicodeEscape(c)
    else [c]
  }

  function EscapeFrom(s: JsString, i: nat): JsString
    requires i <= |s|
    decreases |s| - i
  {
    if i == |s| then [] else EscapeUnit(s[i], Lone(s, i)) + EscapeFrom(s, i + 1)
  }

  function Quote(s: JsString): JsString {
    [QUOTE] + EscapeFrom(s, 0) + [QUOTE]
  }

  // ---- key order ----

  /** The default order of `sort`: lexicographic on code units. */
  predicate Before(a: JsString, b: JsString) {
    b != [] && (a == [] || a[0] < b[0] || (a[0] == b[0] && Before(a[1..], b[1..])))
  }

  function InsertField(f: Field, sorted: seq<Field>): (r: seq<Field>) {
    if sorted == [] || Before(f.key, sorted[0].key) then [f] + sorted
    else [sorted[0]] + InsertField(f, sorted[1..])
  }

  /** The properties in the order of their sorted keys. */
  function SortFields(fields: seq<Field>): (r: seq<Field>)
    ensures multiset(r) == multiset(fields)
  {
    if fields == [] then []
    else
      InsertKeepsFields(fields[0], SortFields(fields[1..]));
      assert fields == [fields[0]] + fields[1..];
      InsertField(fields[0], SortFields(fields[1..]))
  }

  lemma {:induction false} InsertKeepsFields(f: Field, sorted: seq<Field>)
    ensures multiset(InsertField(f, sorted)) == multiset(sorted) + multiset{f}
  {
    if sorted != [] && !Before(f.key, sorted[0].key) {
      InsertKeepsFields(f, sorted[1..]);
      assert sorted == [sorted[0]] + sorted[1..];
    }
  }

  predicate Within(fields: seq<Field>, all: seq<Field>) {
    multiset(fields) <= multiset(all)
  }

  // ---- the printer ----

  function Stringify(v: Json): JsString
    decreases v, 1
  {
    match v
    case Null => NULL_TEXT
    case Bool(b) => if b then TRUE_TEXT else FALSE_TEXT
    case Num(t) => t
    case Str(s) => Quote(s)
    case Arr(items) => [LBRACKET] + StringifyItems(items, true) + [RBRACKET]
    case Obj(fields) => [LBRACE] + StringifyFields(SortFields(fields), true, fields) + [RBRACE]
  }

  /** The items joined by commas; `first` says that no comma precedes. */
  function StringifyItems(items: seq<Json>, first: bool): JsString
    decreases items, 0
  {
    if items == [] then []
    else (if first then [] else [COMMA]) + Stringify(items[0]) + StringifyItems(items[1..], false)
  }

  /** `key:value` pairs joined by commas; `all` bounds the recursion. */
  function StringifyFields(fields: seq<Field>, first: bool, ghost all: seq<Field>): JsString
    requires Within(fields, all)
    decreases all, 0, |fields|
  {
    if fields == [] then []
    else
      assert fields[0] in multiset(fields);
      assert fields[0] in all;
      assert fields == [fields[0]] + fields[1..];
      (if first then [] else [COMMA]) + Quote(fields[0].key) + [COLON] + Stringify(fields[0].value)
      + StringifyFields(fields[1..], false, all)
  }

  /** Equality of payloads up to the order of object keys, at every depth. */
  predicate Same(a: Json, b: Json) {
    match (a, b)
    case (Arr(xs), Arr(ys)) => |xs| == |ys| && forall i :: 0 <= i < |xs| ==> Same(xs[i], ys[i])
    case (Obj(f), Obj(g)) =>
      |f| == |g| && forall i :: 0 <= i < |f| ==>
                      exists j :: 0 <= j < |g| && f[i].key == g[j].key && Same(f[i].value, g[j].value)
    case _ => a == b
  }
}
