/** The canonical text determines the payload up to key order, and nothing else about it. */
module CanonicalText {
  import opened JsStrings
  import opened CanonicalKey

  // ---- unique readability: equal texts, followed by anything, come from equal values ----

  /** What can follow a value: nothing, or one of the units that end an item. */
  predicate Ends(r: JsString) {
    r == [] || r[0] == COMMA || r[0] == RBRACKET || r[0] == RBRACE
  }

  lemma DropCommon(p: JsString, x: JsString, y: JsString)
    requires p + x == p + y
    ensures x == y
  {
    assert x == (p + x)[|p|..] == (p + y)[|p|..] == y;
  }

  lemma Associate(a: JsString, b: JsString, c: JsString)
    ensures (a + b) + c == a + (b + c)
  {
  }

  lemma HexDigitIsInjective(d: int, e: int)
    requires 0 <= d < 16 && 0 <= e < 16 && HexDigit(d) == HexDigit(e)
    ensures d == e
  {
  }

  lemma ReadHex(c: CodeUnit, d: CodeUnit)
    requires forall i :: 2 <= i < 6 ==> UnicodeEscape(c)[i] == UnicodeEscape(d)[i]
    ensures c == d
  {
    var (e, f) := (UnicodeEscape(c), UnicodeEscape(d));
    assert e[2] == f[2] && e[3] == f[3] && e[4] == f[4] && e[5] == f[5];
    var (m, n) := (c as int, d as int);
    HexDigitIsInjective(m / 16 / 16 / 16, n / 16 / 16 / 16);
    HexDigitIsInjective(m / 16 / 16 % 16, n / 16 / 16 % 16);
    HexDigitIsInjective(m / 16 % 16, n / 16 % 16);
    HexDigitIsInjective(m % 16, n % 16);
  }

  lemma ReadShort(c: CodeUnit, d: CodeUnit)
    requires ShortEscaped(c) && ShortEscaped(d) && ShortEscape(c) == ShortEscape(d)
    ensures c == d && ShortEscape(c) != 117
  {
  }

  lemma ReadUnit(c: CodeUnit, cLone: bool, r: JsString, d: CodeUnit, dLone: bool, t: JsString)
    requires EscapeUnit(c, cLone) + r == EscapeUnit(d, dLone) + t
    ensures c == d && r == t
  {
    var (e, f) := (EscapeUnit(c, cLone), EscapeUnit(d, dLone));
    var all := e + r;
    assert e[0] == all[0] == f[0];
    if e[0] == BACKSLASH {
      assert e[1] == all[1] == f[1];
      if e[1] == 117 {
        if ShortEscaped(c) { ReadShort(c, c); }
        if ShortEscaped(d) { ReadShort(d, d); }
        ReadLongUnit(c, r, d, t);
      } else {
        ReadShort(c, d);
      }
    }
    assert e == f;
    DropCommon(e, r, t);
  }

  lemma ReadLongUnit(c: CodeUnit, r: JsString, d: CodeUnit, t: JsString)
    requires UnicodeEscape(c) + r == UnicodeEscape(d) + t
    ensures c == d
  {
    var (e, f) := (UnicodeEscape(c), UnicodeEscape(d));
    forall i | 2 <= i < 6 ensures e[i] == f[i] {
      assert e[i] == (e + r)[i] == (f + t)[i] == f[i];
    }
    ReadHex(c, d);
  }

  lemma EscapedHead(s: JsString, i: nat, x: JsString)
    requires i < |s|
    ensures EscapeFrom(s, i) + x == EscapeUnit(s[i], Lone(s, i)) + (EscapeFrom(s, i + 1) + x)
    ensures (EscapeFrom(s, i) + x)[0] != QUOTE
  {
    Associate(EscapeUnit(s[i], Lone(s, i)), EscapeFrom(s, i + 1), x);
  }

  lemma {:induction false} ReadEscaped(s: JsString, i: nat, r: JsString, u: JsString, j: nat, t: JsString)
    requires i <= |s| && j <= |u|
    requires EscapeFrom(s, i) + ([QUOTE] + r) == EscapeFrom(u, j) + ([QUOTE] + t)
    ensures s[i..] == u[j..] && r == t
    decreases |s| - i
  {
    var (x, y) := ([QUOTE] + r, [QUOTE] + t);
    if i < |s| { EscapedHead(s, i, x); }
    if j < |u| { EscapedHead(u, j, y); }
    if i == |s| || j == |u| {
      assert (EscapeFrom(s, i) + x)[0] == QUOTE;
      assert i == |s| && j == |u|;
      assert EscapeFrom(s, i) + x == x && EscapeFrom(u, j) + y == y;
      DropCommon([QUOTE], r, t);
    } else {
      ReadUnit(s[i], Lone(s, i), EscapeFrom(s, i + 1) + x, u[j], Lone(u, j), EscapeFrom(u, j + 1) + y);
      ReadEscaped(s, i + 1, r, u, j + 1, t);
      assert s[i..] == [s[i]] + s[i + 1..] && u[j..] == [u[j]] + u[j + 1..];
    }
  }

  lemma QuotedHead(s: JsString, r: JsString)
    ensures Quote(s) + r == [QUOTE] + (EscapeFrom(s, 0) + ([QUOTE] + r))
  {
  }

  lemma ReadQuoted(s: JsString, r: JsString, u: JsString, t: JsString)
    requires Quote(s) + r == Quote(u) + t
    ensures s == u && r == t
  {
    QuotedHead(s, r);
    QuotedHead(u, t);
    DropCommon([QUOTE], EscapeFrom(s, 0) + ([QUOTE] + r), EscapeFrom(u, 0) + ([QUOTE] + t));
    ReadEscaped(s, 0, r, u, 0, t);
    assert s[0..] == s && u[0..] == u;
  }

  lemma LongerNumberGoesOn(a: JsString, r: JsString, b: JsString, t: JsString)
    requires NumberText(b) && a + r == b + t && |a| < |b|
    ensures r != [] && NumberUnit(r[0])
  {
    assert (a + r)[|a|] == b[|a|];
  }

  lemma ReadNumber(a: JsString, r: JsString, b: JsString, t: JsString)
    requires NumberText(a) && NumberText(b) && Ends(r) && Ends(t) && a + r == b + t
    ensures a == b && r == t
  {
    if |a| < |b| { LongerNumberGoesOn(a, r, b, t); }
    if |b| < |a| { LongerNumberGoesOn(b, t, a, r); }
    assert a == (a + r)[..|a|] == (b + t)[..|b|] == b;
    DropCommon(a, r, t);
  }

  /** The first unit of a text tells what kind of value it prints. */
  lemma FirstUnit(v: Json)
    requires WellFormed(v)
    ensures Stringify(v) != []
    ensures var c := Stringify(v)[0];
            match v
            case Null => c == 110
            case Bool(b) => c == if b then 116 else 102
            case Num(_) => Digit(c) || c == MINUS
            case Str(_) => c == QUOTE
            case Arr(_) => c == LBRACKET
            case Obj(_) => c == LBRACE
  {
  }

  lemma SameKind(a: Json, r: JsString, b: Json, t: JsString)
    requires WellFormed(a) && WellFormed(b) && Stringify(a) + r == Stringify(b) + t
    ensures match a
            case Null => b.Null?
            case Bool(_) => a == b
            case Num(_) => b.Num?
            case Str(_) => b.Str?
            case Arr(_) => b.Arr?
            case Obj(_) => b.Obj?
  {
    FirstUnit(a);
    FirstUnit(b);
    assert (Stringify(a) + r)[0] == Stringify(a)[0] && (Stringify(b) + t)[0] == Stringify(b)[0];
  }

  lemma Bracketed(open: CodeUnit, body: JsString, close: CodeUnit, r: JsString)
    ensures ([open] + body + [close]) + r == [open] + (body + ([close] + r))
  {
  }

  lemma {:induction false} ReadValue(a: Json, r: JsString, b: Json, t: JsString)
    requires WellFormed(a) && WellFormed(b) && Ends(r) && Ends(t)
    requires Stringify(a) + r == Stringify(b) + t
    ensures Same(a, b) && r == t
    decreases a, 1
  {
    SameKind(a, r, b, t);
    match a {
      case Null => DropCommon(NULL_TEXT, r, t);
      case Bool(_) => DropCommon(Stringify(a), r, t);
      case Num(text) => ReadNumber(text, r, b.text, t);
      case Str(s) => ReadQuoted(s, r, b.s, t);
      case Arr(items) =>
        var (x, y) := (StringifyItems(items, true), StringifyItems(b.items, true));
        Bracketed(LBRACKET, x, RBRACKET, r);
        Bracketed(LBRACKET, y, RBRACKET, t);
        DropCommon([LBRACKET], x + ([RBRACKET] + r), y + ([RBRACKET] + t));
        ReadItems(items, r, b.items, t, true);
      case Obj(fields) => ReadObject(fields, r, b.fields, t);
    }
  }

  lemma {:induction false} ReadObject(fields: seq<Field>, r: JsString, others: seq<Field>, t: JsString)
    requires WellFormed(Obj(fields)) && WellFormed(Obj(others))
    requires Stringify(Obj(fields)) + r == Stringify(Obj(others)) + t
    ensures Same(Obj(fields), Obj(others)) && r == t
    decreases fields, 1
  {
    var (f, g) := (SortFields(fields), SortFields(others));
    var (x, y) := (StringifyFields(f, true, fields), StringifyFields(g, true, others));
    Bracketed(LBRACE, x, RBRACE, r);
    Bracketed(LBRACE, y, RBRACE, t);
    DropCommon([LBRACE], x + ([RBRACE] + r), y + ([RBRACE] + t));
    SortedAreWellFormed(fields);
    SortedAreWellFormed(others);
    ReadFields(f, fields, r, g, others, t, true);
    PairwiseMeansSame(fields, others);
  }

  lemma ItemsHead(xs: seq<Json>, first: bool, k: JsString)
    requires xs != []
    ensures StringifyItems(xs, first) + k
            == (if first then [] else [COMMA]) + (Stringify(xs[0]) + (StringifyItems(xs[1..], false) + k))
  {
  }

  /** A list that goes on does not start with a closing bracket. */
  lemma ItemsStart(xs: seq<Json>, first: bool, k: JsString)
    requires xs != [] && WellFormed(xs[0])
    ensures StringifyItems(xs, first) + k != [] && (StringifyItems(xs, first) + k)[0] != RBRACKET
  {
  }

  lemma {:induction false} ReadItems(xs: seq<Json>, r: JsString, ys: seq<Json>, t: JsString, first: bool)
    requires forall i :: 0 <= i < |xs| ==> WellFormed(xs[i])
    requires forall i :: 0 <= i < |ys| ==> WellFormed(ys[i])
    requires StringifyItems(xs, first) + ([RBRACKET] + r) == StringifyItems(ys, first) + ([RBRACKET] + t)
    ensures |xs| == |ys| && (forall i :: 0 <= i < |xs| ==> Same(xs[i], ys[i])) && r == t
    decreases xs, 0
  {
    var (j, k) := ([RBRACKET] + r, [RBRACKET] + t);
    if xs != [] { ItemsStart(xs, first, j); }
    if ys != [] { ItemsStart(ys, first, k); }
    if xs == [] || ys == [] {
      assert (StringifyItems(xs, first) + j)[0] == RBRACKET;
      assert xs == [] && ys == [];
      assert [] + j == j && [] + k == k;
      DropCommon([RBRACKET], r, t);
    } else {
      var (x, y) := (StringifyItems(xs[1..], false) + j, StringifyItems(ys[1..], false) + k);
      ItemsHead(xs, first, j);
      ItemsHead(ys, first, k);
      DropCommon(if first then [] else [COMMA], Stringify(xs[0]) + x, Stringify(ys[0]) + y);
      AfterItem(xs[1..], r);
      AfterItem(ys[1..], t);
      ReadValue(xs[0], x, ys[0], y);
      ReadItems(xs[1..], r, ys[1..], t, false);
      forall i | 0 <= i < |xs| ensures Same(xs[i], ys[i]) {
        assert i > 0 ==> xs[i] == xs[1..][i - 1] && ys[i] == ys[1..][i - 1];
      }
    }
  }

  lemma AfterItem(xs: seq<Json>, r: JsString)
    ensures Ends(StringifyItems(xs, false) + ([RBRACKET] + r))
  {
  }

  /** How many units two strings have in common at their start. */
  function CommonLength(a: JsString, b: JsString): (n: nat)
    ensures n <= |a| && n <= |b| && a[..n] == b[..n]
    ensures n == |a| || n == |b| || a[n] != b[n]
  {
    if a == [] || b == [] || a[0] != b[0] then 0
    else
      var n := 1 + CommonLength(a[1..], b[1..]);
      assert a[..n] == [a[0]] + a[1..][..n - 1] && b[..n] == [b[0]] + b[1..][..n - 1];
      n
  }

  /** Keys are sorted by their first different unit, the smaller first, and a proper prefix comes first. */
  lemma {:induction false} BeforeIsLexicographic(a: JsString, b: JsString)
    ensures Before(a, b) <==> var n := CommonLength(a, b); n < |b| && (n == |a| || a[n] < b[n])
  {
    if a != [] && b != [] && a[0] == b[0] {
      BeforeIsLexicographic(a[1..], b[1..]);
    }
  }

  predicate WellFormedValues(f: seq<Field>) {
    forall i :: 0 <= i < |f| ==> WellFormed(f[i].value)
  }

  lemma PairwiseFromHead(f: seq<Field>, g: seq<Field>)
    requires f != [] && g != [] && Pairwise(f[1..], g[1..])
    requires f[0].key == g[0].key && Same(f[0].value, g[0].value)
    ensures Pairwise(f, g)
  {
  }

  lemma RestIsWellFormed(f: seq<Field>)
    requires f != [] && WellFormedValues(f)
    ensures WellFormed(f[0].value) && WellFormedValues(f[1..])
  {
  }

  /** The fields agree position by position. */
  predicate Pairwise(f: seq<Field>, g: seq<Field>) {
    |f| == |g| && forall i :: 0 <= i < |f| ==> f[i].key == g[i].key && Same(f[i].value, g[i].value)
  }

  lemma FieldsHead(f: seq<Field>, first: bool, all: seq<Field>, k: JsString)
    requires f != [] && Within(f, all)
    ensures f == [f[0]] + f[1..]
    ensures Within(f[1..], all) && f[0] in all
    ensures StringifyFields(f, first, all) + k
            == (if first then [] else [COMMA])
               + (Quote(f[0].key) + ([COLON] + (Stringify(f[0].value) + (StringifyFields(f[1..], false, all) + k))))
  {
    assert f == [f[0]] + f[1..];
    assert f[0] in multiset(f);
    var comma := if first then [] else [COMMA];
    var (key, value, rest) := (Quote(f[0].key), Stringify(f[0].value), StringifyFields(f[1..], false, all));
    Associate(comma + key + [COLON] + value, rest, k);
    Associate(comma + key + [COLON], value, rest + k);
    Associate(comma + key, [COLON], value + (rest + k));
    Associate(comma, key, [COLON] + (value + (rest + k)));
  }

  lemma FieldsStart(f: seq<Field>, first: bool, all: seq<Field>, k: JsString)
    requires f != [] && Within(f, all)
    ensures StringifyFields(f, first, all) + k != [] && (StringifyFields(f, first, all) + k)[0] != RBRACE
  {
  }

  lemma AfterField(f: seq<Field>, all: seq<Field>, r: JsString)
    requires Within(f, all)
    ensures Ends(StringifyFields(f, false, all) + ([RBRACE] + r))
  {
  }

  lemma ReadKey(f: seq<Field>, all: seq<Field>, j: JsString, g: seq<Field>, others: seq<Field>, k: JsString, first: bool)
    requires f != [] && g != [] && Within(f, all) && Within(g, others)
    requires StringifyFields(f, first, all) + j == StringifyFields(g, first, others) + k
    ensures f[0].key == g[0].key && Within(f[1..], all) && Within(g[1..], others)
    ensures Stringify(f[0].value) + (StringifyFields(f[1..], false, all) + j)
            == Stringify(g[0].value) + (StringifyFields(g[1..], false, others) + k)
  {
    FieldsHead(f, first, all, j);
    FieldsHead(g, first, others, k);
    var v := Stringify(f[0].value) + (StringifyFields(f[1..], false, all) + j);
    var u := Stringify(g[0].value) + (StringifyFields(g[1..], false, others) + k);
    DropCommon(if first then [] else [COMMA], Quote(f[0].key) + ([COLON] + v), Quote(g[0].key) + ([COLON] + u));
    ReadQuoted(f[0].key, [COLON] + v, g[0].key, [COLON] + u);
    DropCommon([COLON], v, u);
  }

  lemma NoFieldsLeft(f: seq<Field>, all: seq<Field>, r: JsString, g: seq<Field>, others: seq<Field>, t: JsString, first: bool)
    requires f == [] || g == []
    requires Within(f, all) && Within(g, others)
    requires StringifyFields(f, first, all) + ([RBRACE] + r) == StringifyFields(g, first, others) + ([RBRACE] + t)
    ensures f == [] && g == [] && r == t
  {
    var (j, k) := ([RBRACE] + r, [RBRACE] + t);
    if f != [] { FieldsStart(f, first, all, j); }
    if g != [] { FieldsStart(g, first, others, k); }
    assert (StringifyFields(f, first, all) + j)[0] == RBRACE;
    assert [] + j == j && [] + k == k;
    DropCommon([RBRACE], r, t);
  }

  lemma {:induction false} ReadFields(f: seq<Field>, all: seq<Field>, r: JsString,
                                      g: seq<Field>, others: seq<Field>, t: JsString, first: bool)
    requires Within(f, all) && Within(g, others)
    requires WellFormedValues(f) && WellFormedValues(g)
    requires StringifyFields(f, first, all) + ([RBRACE] + r) == StringifyFields(g, first, others) + ([RBRACE] + t)
    ensures Pairwise(f, g) && r == t
    decreases all, 0, |f|
  {
    var (j, k) := ([RBRACE] + r, [RBRACE] + t);
    if f == [] || g == [] {
      NoFieldsLeft(f, all, r, g, others, t, first);
    } else {
      ReadKey(f, all, j, g, others, k, first);
      var (x, y) := (StringifyFields(f[1..], false, all) + j, StringifyFields(g[1..], false, others) + k);
      assert f[0] in all by { FieldsHead(f, first, all, j); }
      AfterField(f[1..], all, r);
      AfterField(g[1..], others, t);
      RestIsWellFormed(f);
      RestIsWellFormed(g);
      ReadValue(f[0].value, x, g[0].value, y);
      ReadFields(f[1..], all, r, g[1..], others, t, false);
      PairwiseFromHead(f, g);
    }
  }

  lemma SortedAreWellFormed(fields: seq<Field>)
    requires WellFormedValues(fields)
    ensures WellFormedValues(SortFields(fields)) && Within(SortFields(fields), fields)
  {
    var s := SortFields(fields);
    forall i | 0 <= i < |s| ensures WellFormed(s[i].value) {
      assert s[i] in multiset(s);
      assert s[i] in fields;
    }
  }

  lemma SortedPositionOf(fields: seq<Field>, e: Field) returns (k: nat)
    requires e in fields
    ensures k < |SortFields(fields)| && SortFields(fields)[k] == e
  {
    assert e in multiset(fields);
    assert e in SortFields(fields);
    k :| 0 <= k < |SortFields(fields)| && SortFields(fields)[k] == e;
  }

  lemma UnsortedPositionOf(fields: seq<Field>, k: nat) returns (j: nat)
    requires k < |SortFields(fields)|
    ensures j < |fields| && fields[j] == SortFields(fields)[k]
  {
    assert SortFields(fields)[k] in multiset(SortFields(fields));
    assert SortFields(fields)[k] in fields;
    j :| 0 <= j < |fields| && fields[j] == SortFields(fields)[k];
  }

  lemma SortedLength(fields: seq<Field>)
    ensures |SortFields(fields)| == |fields|
  {
    assert |fields| == |multiset(fields)| == |SortFields(fields)|;
  }

  lemma PairwiseMeansSame(fields: seq<Field>, others: seq<Field>)
    requires Pairwise(SortFields(fields), SortFields(others))
    ensures Same(Obj(fields), Obj(others))
  {
    SortedLength(fields);
    SortedLength(others);
    forall i | 0 <= i < |fields|
      ensures exists j :: 0 <= j < |others| && fields[i].key == others[j].key && Same(fields[i].value, others[j].value)
    {
      var k := SortedPositionOf(fields, fields[i]);
      var j := UnsortedPositionOf(others, k);
    }
  }

  /** Equal canonical texts print equal payloads, up to key order. */
  lemma EqualTextMeansSame(a: Json, b: Json)
    requires WellFormed(a) && WellFormed(b) && Stringify(a) == Stringify(b)
    ensures Same(a, b)
  {
    assert Stringify(a) + [] == Stringify(b) + [];
    ReadValue(a, [], b, []);
  }

  // ---- key order does not matter ----

  lemma {:induction false} BeforeIsTotal(a: JsString, b: JsString)
    ensures Before(a, b) || Before(b, a) || a == b
    ensures !(Before(a, b) && Before(b, a)) && !Before(a, a)
  {
    if a != [] && b != [] && a[0] == b[0] {
      BeforeIsTotal(a[1..], b[1..]);
      BeforeIsTotal(a[1..], a[1..]);
      assert a == [a[0]] + a[1..] && b == [b[0]] + b[1..];
    } else if a != [] {
      BeforeIsTotal(a[1..], a[1..]);
    }
  }

  lemma {:induction false} BeforeIsTransitive(a: JsString, b: JsString, c: JsString)
    requires Before(a, b) && Before(b, c)
    ensures Before(a, c)
  {
    if a != [] && a[0] == b[0] == c[0] {
      BeforeIsTransitive(a[1..], b[1..], c[1..]);
    }
  }

  predicate Ascending(f: seq<Field>) {
    f != [] ==> Ascending(f[1..]) && forall i :: 1 <= i < |f| ==> Before(f[0].key, f[i].key)
  }

  lemma {:induction false} InsertAscending(f: Field, sorted: seq<Field>)
    requires Ascending(sorted) && forall i :: 0 <= i < |sorted| ==> sorted[i].key != f.key
    ensures Ascending(InsertField(f, sorted))
  {
    if sorted == [] {
    } else if Before(f.key, sorted[0].key) {
      forall i | 0 <= i < |sorted| ensures Before(f.key, sorted[i].key) {
        if i > 0 { BeforeIsTransitive(f.key, sorted[0].key, sorted[i].key); }
      }
      assert ([f] + sorted)[1..] == sorted;
    } else {
      var rest := InsertField(f, sorted[1..]);
      InsertAscending(f, sorted[1..]);
      InsertKeepsFields(f, sorted[1..]);
      BeforeIsTotal(f.key, sorted[0].key);
      forall i | 0 <= i < |rest| ensures Before(sorted[0].key, rest[i].key) {
        assert rest[i] in multiset(rest);
        assert rest[i] == f || rest[i] in sorted[1..];
      }
      assert ([sorted[0]] + rest)[1..] == rest;
    }
  }

  lemma {:induction false} SortAscends(fields: seq<Field>)
    requires DistinctKeys(fields)
    ensures Ascending(SortFields(fields))
  {
    if fields != [] {
      var sorted := SortFields(fields[1..]);
      SortAscends(fields[1..]);
      forall i | 0 <= i < |sorted| ensures sorted[i].key != fields[0].key {
        assert sorted[i] in multiset(sorted);
        assert sorted[i] in fields[1..];
      }
      InsertAscending(fields[0], sorted);
    }
  }

  lemma {:induction false} AscendingAt(f: seq<Field>, i: nat, j: nat)
    requires Ascending(f) && i < |f| && j < |f|
    ensures i < j ==> Before(f[i].key, f[j].key)
    ensures f[i].key == f[j].key ==> i == j
    ensures Before(f[i].key, f[j].key) ==> i < j
  {
    if i > 0 && j > 0 {
      AscendingAt(f[1..], i - 1, j - 1);
    }
    BeforeIsTotal(f[i].key, f[j].key);
  }

  /** Each field of `f` has a counterpart in `g`. */
  predicate Matched(f: seq<Field>, g: seq<Field>) {
    |f| == |g| && forall i :: 0 <= i < |f| ==> HasMatch(f[i], g)
  }

  predicate HasMatch(e: Field, g: seq<Field>) {
    exists j :: 0 <= j < |g| && e.key == g[j].key && Same(e.value, g[j].value)
  }

  /** In two ascending lists with counterparts for all, the counterpart of each position is that position. */
  lemma {:induction false} MatchAt(f: seq<Field>, g: seq<Field>, i: nat) returns (j: nat)
    requires Ascending(f) && Ascending(g) && Matched(f, g) && i < |f|
    ensures i <= j < |g| && f[i].key == g[j].key && Same(f[i].value, g[j].value)
  {
    assert HasMatch(f[i], g);
    j :| 0 <= j < |g| && f[i].key == g[j].key && Same(f[i].value, g[j].value);
    if i > 0 {
      var before := MatchAt(f, g, i - 1);
      AscendingAt(f, i - 1, i);
      AscendingAt(g, before, j);
    }
  }

  lemma {:induction false} MatchIsPairwise(f: seq<Field>, g: seq<Field>, i: nat)
    requires Ascending(f) && Ascending(g) && Matched(f, g) && i < |f|
    ensures f[i].key == g[i].key && Same(f[i].value, g[i].value)
    decreases |f| - i
  {
    var j := MatchAt(f, g, i);
    if i + 1 < |f| {
      MatchIsPairwise(f, g, i + 1);
      AscendingAt(f, i, i + 1);
      AscendingAt(g, j, i + 1);
    }
  }

  lemma SortedMatch(fields: seq<Field>, others: seq<Field>)
    requires Matched(fields, others) && DistinctKeys(fields) && DistinctKeys(others)
    ensures Pairwise(SortFields(fields), SortFields(others))
  {
    var (f, g) := (SortFields(fields), SortFields(others));
    SortAscends(fields);
    SortAscends(others);
    SortedLength(fields);
    SortedLength(others);
    forall i | 0 <= i < |f| ensures HasMatch(f[i], g) {
      var k := UnsortedPositionOf(fields, i);
      assert HasMatch(fields[k], others);
      var j :| 0 <= j < |others| && f[i].key == others[j].key && Same(f[i].value, others[j].value);
      var m := SortedPositionOf(others, others[j]);
    }
    forall i | 0 <= i < |f| ensures f[i].key == g[i].key && Same(f[i].value, g[i].value) {
      MatchIsPairwise(f, g, i);
    }
  }

  /** Payloads equal up to key order have the same canonical text. */
  lemma {:induction false} SameMeansEqualText(a: Json, b: Json)
    requires WellFormed(a) && WellFormed(b) && Same(a, b)
    ensures Stringify(a) == Stringify(b)
    decreases a, 1
  {
    match a {
      case Arr(items) => SameItemsEqualText(items, b.items, true);
      case Obj(fields) =>
        assert Matched(fields, b.fields) by {
          forall i | 0 <= i < |fields| ensures HasMatch(fields[i], b.fields) {
          }
        }
        SortedMatch(fields, b.fields);
        SortedAreWellFormed(fields);
        SortedAreWellFormed(b.fields);
        SameFieldsEqualText(SortFields(fields), fields, SortFields(b.fields), b.fields, true);
      case _ =>
    }
  }

  lemma {:induction false} SameItemsEqualText(xs: seq<Json>, ys: seq<Json>, first: bool)
    requires |xs| == |ys| && forall i :: 0 <= i < |xs| ==> WellFormed(xs[i]) && WellFormed(ys[i]) && Same(xs[i], ys[i])
    ensures StringifyItems(xs, first) == StringifyItems(ys, first)
    decreases xs, 0
  {
    if xs != [] {
      SameMeansEqualText(xs[0], ys[0]);
      SameItemsEqualText(xs[1..], ys[1..], false);
    }
  }

  lemma {:induction false} SameFieldsEqualText(f: seq<Field>, all: seq<Field>, g: seq<Field>, others: seq<Field>, first: bool)
    requires Within(f, all) && Within(g, others) && WellFormedValues(f) && WellFormedValues(g) && Pairwise(f, g)
    ensures StringifyFields(f, first, all) == StringifyFields(g, first, others)
    decreases all, 0, |f|
  {
    if f != [] {
      FieldsHead(f, first, all, []);
      FieldsHead(g, first, others, []);
      RestIsWellFormed(f);
      RestIsWellFormed(g);
      SameMeansEqualText(f[0].value, g[0].value);
      assert Pairwise(f[1..], g[1..]);
      SameFieldsEqualText(f[1..], all, g[1..], others, false);
    }
  }

  /** The canonical text is equal exactly for payloads that are equal up to key order. */
  lemma CanonicalTextCharacterisesPayload(a: Json, b: Json)
    requires WellFormed(a) && WellFormed(b)
    ensures Stringify(a) == Stringify(b) <==> Same(a, b)
  {
    if Stringify(a) == Stringify(b) { EqualTextMeansSame(a, b); }
    if Same(a, b) { SameMeansEqualText(a, b); }
  }
}
