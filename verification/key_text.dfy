/**
 * The hashed text `name:canonical` determines both parts, although names may contain colons: no proper suffix of a
 * canonical text that follows a colon is itself a canonical text.
 */
module KeyTexts {
  import opened JsStrings
  import opened CanonicalKey
  import opened CanonicalText
  import opened UniqueIds

  /** A reader of canonical text that only tracks string literals and nesting. */
  datatype Scan =
    | Outside(depth: int)
    | Inside(depth: int)
    | Escaping(depth: int)
    | Stuck

  function Feed(st: Scan, c: CodeUnit): Scan {
    match st
    case Outside(d) =>
      if c == QUOTE then Inside(d)
      else if c == BACKSLASH then Stuck
      else if c == LBRACKET || c == LBRACE then Outside(d + 1)
      else if c == RBRACKET || c == RBRACE then Outside(d - 1)
      else st
    case Inside(d) => if c == QUOTE then Outside(d) else if c == BACKSLASH then Escaping(d) else st
    case Escaping(d) => Inside(d)
    case Stuck => Stuck
  }

  function Read(st: Scan, s: JsString): Scan
    decreases |s|
  {
    if s == [] then st else Read(Feed(st, s[0]), s[1..])
  }

  lemma {:induction false} ReadConcat(st: Scan, s: JsString, t: JsString)
    ensures Read(st, s + t) == Read(Read(st, s), t)
    decreases |s|
  {
    if s == [] {
      assert s + t == t;
    } else {
      assert (s + t)[0] == s[0] && (s + t)[1..] == s[1..] + t;
      ReadConcat(Feed(st, s[0]), s[1..], t);
    }
  }

  /** Reading `s` from `st` keeps the depth at or above `floor` and never gets stuck. */
  predicate Stays(st: Scan, s: JsString, floor: int)
    decreases |s|
  {
    !st.Stuck? && st.depth >= floor && (s == [] || Stays(Feed(st, s[0]), s[1..], floor))
  }

  lemma {:induction false} StaysConcat(st: Scan, s: JsString, t: JsString, floor: int)
    requires Stays(st, s, floor) && Stays(Read(st, s), t, floor)
    ensures Stays(st, s + t, floor)
    decreases |s|
  {
    if s == [] {
      assert s + t == t;
    } else {
      assert (s + t)[0] == s[0] && (s + t)[1..] == s[1..] + t;
      StaysConcat(Feed(st, s[0]), s[1..], t, floor);
    }
  }

  lemma {:induction false} StaysAtPrefix(st: Scan, s: JsString, n: nat, floor: int)
    requires Stays(st, s, floor) && n <= |s|
    ensures !Read(st, s[..n]).Stuck? && Read(st, s[..n]).depth >= floor
    decreases |s|
  {
    if n > 0 {
      assert s[..n][0] == s[0] && s[..n][1..] == s[1..][..n - 1];
      StaysAtPrefix(Feed(st, s[0]), s[1..], n - 1, floor);
    }
  }

  /** A stretch of text that brings the reader back to where it was, never below. */
  ghost predicate Balanced(s: JsString) {
    forall d :: Read(Outside(d), s) == Outside(d) && Stays(Outside(d), s, d)
  }

  lemma BalancedConcat(s: JsString, t: JsString)
    requires Balanced(s) && Balanced(t)
    ensures Balanced(s + t)
  {
    forall d ensures Read(Outside(d), s + t) == Outside(d) && Stays(Outside(d), s + t, d) {
      ReadConcat(Outside(d), s, t);
      StaysConcat(Outside(d), s, t, d);
    }
  }

  predicate Plain(c: CodeUnit) {
    c != QUOTE && c != BACKSLASH && c != LBRACKET && c != RBRACKET && c != LBRACE && c != RBRACE
  }

  lemma {:induction false} PlainIsBalanced(s: JsString)
    requires forall i :: 0 <= i < |s| ==> Plain(s[i])
    ensures Balanced(s)
  {
    if s != [] {
      PlainIsBalanced(s[1..]);
    }
  }

  // ---- string literals ----

  /** Reading `s` never leaves the literal at depth `d`. */
  predicate InLiteral(st: Scan, s: JsString, d: int)
    decreases |s|
  {
    (st == Inside(d) || st == Escaping(d)) && (s == [] || InLiteral(Feed(st, s[0]), s[1..], d))
  }

  /** Text of a literal that ends no escape half way. */
  ghost predicate Literal(s: JsString) {
    forall d :: Read(Inside(d), s) == Inside(d) && InLiteral(Inside(d), s, d)
  }

  lemma {:induction false} InLiteralConcat(st: Scan, s: JsString, t: JsString, d: int)
    requires InLiteral(st, s, d) && InLiteral(Read(st, s), t, d)
    ensures InLiteral(st, s + t, d)
    decreases |s|
  {
    if s == [] {
      assert s + t == t;
    } else {
      assert (s + t)[0] == s[0] && (s + t)[1..] == s[1..] + t;
      InLiteralConcat(Feed(st, s[0]), s[1..], t, d);
    }
  }

  lemma {:induction false} InLiteralStays(st: Scan, s: JsString, d: int)
    requires InLiteral(st, s, d)
    ensures Stays(st, s, d)
    decreases |s|
  {
    if s != [] {
      InLiteralStays(Feed(st, s[0]), s[1..], d);
    }
  }

  lemma {:induction false} InLiteralAtPrefix(st: Scan, s: JsString, n: nat, d: int)
    requires InLiteral(st, s, d) && n <= |s|
    ensures !Read(st, s[..n]).Outside?
    decreases |s|
  {
    if n > 0 {
      assert s[..n][0] == s[0] && s[..n][1..] == s[1..][..n - 1];
      InLiteralAtPrefix(Feed(st, s[0]), s[1..], n - 1, d);
    }
  }

  lemma LiteralConcat(s: JsString, t: JsString)
    requires Literal(s) && Literal(t)
    ensures Literal(s + t)
  {
    forall d ensures Read(Inside(d), s + t) == Inside(d) && InLiteral(Inside(d), s + t, d) {
      ReadConcat(Inside(d), s, t);
      InLiteralConcat(Inside(d), s, t, d);
    }
  }

  lemma {:induction false} PlainIsLiteral(s: JsString)
    requires forall i :: 0 <= i < |s| ==> s[i] != QUOTE && s[i] != BACKSLASH
    ensures Literal(s)
  {
    if s != [] {
      PlainIsLiteral(s[1..]);
    }
  }

  lemma EscapeIsLiteral(c: CodeUnit)
    ensures Literal([BACKSLASH, c])
  {
    var e := [BACKSLASH, c];
    forall d ensures Read(Inside(d), e) == Inside(d) && InLiteral(Inside(d), e, d) {
      assert e[0] == BACKSLASH && e[1..] == [c] && [c][1..] == [];
      assert Read(Inside(d), []) == Inside(d);
      assert Read(Escaping(d), [c]) == Inside(d);
      assert Feed(Inside(d), BACKSLASH) == Escaping(d) && Feed(Escaping(d), c) == Inside(d);
      assert InLiteral(Inside(d), [], d);
      assert InLiteral(Escaping(d), [c], d);
    }
  }

  lemma UnitIsLiteral(c: CodeUnit, lone: bool)
    ensures Literal(EscapeUnit(c, lone))
  {
    var e := EscapeUnit(c, lone);
    if e[0] == BACKSLASH {
      EscapeIsLiteral(e[1]);
      PlainIsLiteral(e[2..]);
      LiteralConcat([BACKSLASH, e[1]], e[2..]);
      assert e == [BACKSLASH, e[1]] + e[2..];
    } else {
      PlainIsLiteral(e);
    }
  }

  lemma {:induction false} EscapedIsLiteral(s: JsString, i: nat)
    requires i <= |s|
    ensures Literal(EscapeFrom(s, i))
    decreases |s| - i
  {
    if i < |s| {
      UnitIsLiteral(s[i], Lone(s, i));
      EscapedIsLiteral(s, i + 1);
      LiteralConcat(EscapeUnit(s[i], Lone(s, i)), EscapeFrom(s, i + 1));
    }
  }

  lemma QuotedIsBalanced(s: JsString)
    ensures Balanced(Quote(s))
  {
    var e := EscapeFrom(s, 0);
    EscapedIsLiteral(s, 0);
    forall d ensures Read(Outside(d), Quote(s)) == Outside(d) && Stays(Outside(d), Quote(s), d) {
      assert Quote(s)[0] == QUOTE && Quote(s)[1..] == e + [QUOTE];
      assert [QUOTE][1..] == [];
      ReadConcat(Inside(d), e, [QUOTE]);
      InLiteralStays(Inside(d), e, d);
      assert Stays(Inside(d), [QUOTE], d);
      StaysConcat(Inside(d), e, [QUOTE], d);
    }
  }

  // ---- values ----

  lemma BracketedIsBalanced(open: CodeUnit, body: JsString, close: CodeUnit)
    requires Balanced(body) && (open == LBRACKET || open == LBRACE) && (close == RBRACKET || close == RBRACE)
    ensures Balanced([open] + body + [close])
  {
    var (s, t) := ([open] + body + [close], body + [close]);
    assert s[0] == open && s[1..] == t;
    forall d ensures Read(Outside(d), s) == Outside(d) && Stays(Outside(d), s, d) {
      assert Feed(Outside(d), open) == Outside(d + 1);
      BodyThenClose(body, close, d);
    }
  }

  lemma BodyThenClose(body: JsString, close: CodeUnit, d: int)
    requires Balanced(body) && (close == RBRACKET || close == RBRACE)
    ensures Read(Outside(d + 1), body + [close]) == Outside(d) && Stays(Outside(d + 1), body + [close], d)
  {
    assert [close][1..] == [] && Feed(Outside(d + 1), close) == Outside(d);
    ReadConcat(Outside(d + 1), body, [close]);
    StaysLower(Outside(d + 1), body, d + 1, d);
    assert Stays(Outside(d + 1), [close], d);
    StaysConcat(Outside(d + 1), body, [close], d);
  }

  lemma {:induction false} StaysLower(st: Scan, s: JsString, floor: int, lower: int)
    requires Stays(st, s, floor) && lower <= floor
    ensures Stays(st, s, lower)
    decreases |s|
  {
    if s != [] {
      StaysLower(Feed(st, s[0]), s[1..], floor, lower);
    }
  }

  lemma {:induction false} TextIsBalanced(v: Json)
    requires WellFormed(v)
    ensures Balanced(Stringify(v))
    decreases v, 1
  {
    match v {
      case Null => PlainIsBalanced(NULL_TEXT);
      case Bool(b) => PlainIsBalanced(Stringify(v));
      case Num(t) => PlainIsBalanced(t);
      case Str(s) => QuotedIsBalanced(s);
      case Arr(items) =>
        ItemsAreBalanced(items, true);
        BracketedIsBalanced(LBRACKET, StringifyItems(items, true), RBRACKET);
      case Obj(fields) =>
        SortedAreWellFormed(fields);
        FieldsAreBalanced(SortFields(fields), fields, true);
        BracketedIsBalanced(LBRACE, StringifyFields(SortFields(fields), true, fields), RBRACE);
    }
  }

  lemma {:induction false} ItemsAreBalanced(items: seq<Json>, first: bool)
    requires forall i :: 0 <= i < |items| ==> WellFormed(items[i])
    ensures Balanced(StringifyItems(items, first))
    decreases items, 0
  {
    if items == [] {
      PlainIsBalanced([]);
    } else {
      var comma := if first then [] else [COMMA];
      PlainIsBalanced(comma);
      TextIsBalanced(items[0]);
      ItemsAreBalanced(items[1..], false);
      BalancedConcat(comma, Stringify(items[0]));
      BalancedConcat(comma + Stringify(items[0]), StringifyItems(items[1..], false));
    }
  }

  lemma {:induction false} FieldsAreBalanced(f: seq<Field>, all: seq<Field>, first: bool)
    requires Within(f, all) && WellFormedValues(f)
    ensures Balanced(StringifyFields(f, first, all))
    decreases all, 0, |f|
  {
    if f == [] {
      PlainIsBalanced([]);
    } else {
      FieldsHead(f, first, all, []);
      RestIsWellFormed(f);
      var (comma, key, value) := (if first then [] else [COMMA], Quote(f[0].key), Stringify(f[0].value));
      PlainIsBalanced(comma);
      PlainIsBalanced([COLON]);
      QuotedIsBalanced(f[0].key);
      TextIsBalanced(f[0].value);
      FieldsAreBalanced(f[1..], all, false);
      BalancedConcat(comma, key);
      BalancedConcat(comma + key, [COLON]);
      BalancedConcat(comma + key + [COLON], value);
      BalancedConcat(comma + key + [COLON] + value, StringifyFields(f[1..], false, all));
    }
  }

  // ---- no canonical text follows a colon inside another one ----

  /** Read from inside and from outside a literal, the same text cannot end outside both times. */
  lemma {:induction false} ParityIsKept(d: int, e: int, s: JsString)
    ensures !(Read(Inside(d), s).Outside? && Read(Outside(e), s).Outside?)
    ensures !(Read(Outside(d), s).Outside? && Read(Inside(e), s).Outside?)
    decreases |s|
  {
    if s != [] {
      var (c, rest) := (s[0], s[1..]);
      StuckStays(rest);
      if c == QUOTE {
        ParityIsKept(d, e, rest);
      } else if c != BACKSLASH {
        ParityIsKept(d, Feed(Outside(e), c).depth, rest);
        ParityIsKept(Feed(Outside(d), c).depth, e, rest);
      }
    }
  }

  lemma {:induction false} StuckStays(s: JsString)
    ensures Read(Stuck, s) == Stuck
  {
    if s != [] {
      StuckStays(s[1..]);
    }
  }

  /** Strictly inside a string literal, the reader is in it. */
  lemma InsideLiteral(t: JsString, n: nat)
    requires 0 < n < |Quote(t)|
    ensures !Read(Outside(0), Quote(t)[..n]).Outside?
  {
    var (q, e) := (Quote(t), EscapeFrom(t, 0));
    EscapedIsLiteral(t, 0);
    assert q[..n][0] == QUOTE && q[..n][1..] == e[..n - 1];
    InLiteralAtPrefix(Inside(0), e, n - 1, 0);
  }

  /** Strictly inside an array or an object, the reader is below its bracket. */
  lemma InsideBrackets(open: CodeUnit, body: JsString, close: CodeUnit, n: nat)
    requires Balanced(body) && (open == LBRACKET || open == LBRACE) && 0 < n < |body| + 2
    ensures var st := Read(Outside(0), ([open] + body + [close])[..n]); !st.Stuck? && st.depth >= 1
  {
    var s := [open] + body + [close];
    assert s[..n][0] == open && s[..n][1..] == body[..n - 1];
    assert Stays(Outside(1), body, 1);
    StaysAtPrefix(Outside(1), body, n - 1, 1);
  }

  /** Just after a colon of a canonical text, the reader is in a literal or below some bracket. */
  lemma AfterColon(v: Json, n: nat)
    requires WellFormed(v) && 0 < n < |Stringify(v)| && Stringify(v)[n - 1] == COLON
    ensures var st := Read(Outside(0), Stringify(v)[..n]); !st.Outside? || st.depth >= 1
  {
    match v {
      case Str(t) => InsideLiteral(t, n);
      case Arr(items) =>
        ItemsAreBalanced(items, true);
        InsideBrackets(LBRACKET, StringifyItems(items, true), RBRACKET, n);
      case Obj(fields) =>
        SortedAreWellFormed(fields);
        FieldsAreBalanced(SortFields(fields), fields, true);
        InsideBrackets(LBRACE, StringifyFields(SortFields(fields), true, fields), RBRACE, n);
      case _ => assert false;
    }
  }

  /** From a literal, or from below a bracket, balanced text does not bring the reader to the top. */
  lemma BalancedDoesNotSurface(st: Scan, t: JsString)
    requires Balanced(t) && !st.Escaping? && (st.Outside? ==> st.depth >= 1)
    ensures Read(st, t) != Outside(0)
  {
    assert Read(Outside(0), t) == Outside(0);
    match st
    case Outside(d) => assert Read(Outside(d), t) == Outside(d);
    case Inside(d) => ParityIsKept(d, 0, t);
    case Stuck => StuckStays(t);
  }

  /** A proper suffix of a canonical text that follows a colon is not a canonical text. */
  lemma NoTextAfterColon(v: Json, u: Json, n: nat)
    requires WellFormed(v) && WellFormed(u) && 0 < n < |Stringify(v)| && Stringify(v)[n - 1] == COLON
    ensures Stringify(v)[n..] != Stringify(u)
  {
    var s := Stringify(v);
    var st := Read(Outside(0), s[..n]);
    TextIsBalanced(v);
    assert Read(Outside(0), s) == Outside(0);
    assert s == s[..n] + s[n..];
    ReadConcat(Outside(0), s[..n], s[n..]);
    AfterColon(v, n);
    BeforeLast(s, n);
    TextIsBalanced(u);
    BalancedDoesNotSurface(st, Stringify(u));
  }

  lemma BeforeLast(s: JsString, n: nat)
    requires 0 < n <= |s| && s[n - 1] == COLON
    ensures !Read(Outside(0), s[..n]).Escaping?
  {
    assert s[..n] == s[..n - 1] + [COLON];
    ReadConcat(Outside(0), s[..n - 1], [COLON]);
    assert [COLON][1..] == [];
  }

  lemma NameIsNotShorter(name: JsString, v: Json, other: JsString, u: Json)
    requires WellFormed(v) && WellFormed(u) && KeyText(name, v) == KeyText(other, u)
    ensures |name| >= |other|
  {
    if |name| < |other| {
      var (k, n) := (KeyText(name, v), |other| - |name|);
      assert Stringify(v) == k[|name| + 1..];
      assert Stringify(u) == k[|other| + 1..];
      assert Stringify(v)[n..] == Stringify(u);
      assert Stringify(v)[n - 1] == k[|other|] == COLON;
      FirstUnit(u);
      NoTextAfterColon(v, u, n);
    }
  }

  /** The hashed text determines the name, and the payload up to key order; and it depends on nothing else. */
  lemma KeyTextCharacterisesDispatch(name: JsString, v: Json, other: JsString, u: Json)
    requires WellFormed(v) && WellFormed(u)
    ensures KeyText(name, v) == KeyText(other, u) <==> name == other && Same(v, u)
  {
    CanonicalTextCharacterisesPayload(v, u);
    if KeyText(name, v) == KeyText(other, u) {
      NameIsNotShorter(name, v, other, u);
      NameIsNotShorter(other, u, name, v);
      var k := KeyText(name, v);
      assert name == k[..|name|] == other;
      assert Stringify(v) == k[|name| + 1..] == Stringify(u);
    }
  }

  /** Two dispatches get the same derived id exactly when their texts hash alike; key order never tells them apart. */
  lemma DerivedIdIsTheHash(name: JsString, v: Json, other: JsString, u: Json)
    requires WellFormed(v) && WellFormed(u)
    ensures ComputeUniqueId(name, v) == ComputeUniqueId(other, u)
            <==> Fnv1a(KeyText(name, v)) == Fnv1a(KeyText(other, u))
    ensures name == other && Same(v, u) ==> ComputeUniqueId(name, v) == ComputeUniqueId(other, u)
  {
    if ComputeUniqueId(name, v) == ComputeUniqueId(other, u) {
      var (x, y) := (ComputeUniqueId(name, v), ComputeUniqueId(other, u));
      assert Hex(Fnv1a(KeyText(name, v))) == x[2..] == y[2..] == Hex(Fnv1a(KeyText(other, u)));
      HexIsInjective(Fnv1a(KeyText(name, v)), Fnv1a(KeyText(other, u)));
    }
    KeyTextCharacterisesDispatch(name, v, other, u);
  }
}
