/**
 * A reader of JSON values, written from sections 2 to 7 of RFC 8259 for texts without white space. It reads back every
 * canonical text (src/utils/compute-unique-id.util.ts:53-64), up to the order of object keys.
 */
module JsonReader {
  import opened JsStrings
  import opened Options
  import opened CanonicalKey
  import opened StringLiterals
  import Text = CanonicalText

  /** A literal name, as section 3 spells it. */
  function ReadWord(t: JsString, word: JsString, v: Json): (r: Option<Read<Json>>)
    requires word != []
    ensures r.Some? ==> |r.value.rest| < |t|
  {
    if word <= t then Some(Read(v, t[|word|..])) else None
  }

  /** How many digits, signs, points and exponent marks the text starts with. */
  function NumberLength(t: JsString): (n: nat)
    ensures n <= |t| && forall i :: 0 <= i < n ==> NumberUnit(t[i])
    ensures n < |t| ==> !NumberUnit(t[n])
  {
    if t == [] || !NumberUnit(t[0]) then 0 else 1 + NumberLength(t[1..])
  }

  function ReadNumber(t: JsString): (r: Option<Read<Json>>)
    ensures r.Some? ==> |r.value.rest| < |t|
  {
    var n := NumberLength(t);
    if n > 0 && (Digit(t[0]) || t[0] == MINUS) then Some(Read(Num(t[..n]), t[n..])) else None
  }

  function ReadJson(t: JsString): (r: Option<Read<Json>>)
    ensures r.Some? ==> |r.value.rest| < |t|
    decreases |t|, 0
  {
    if t == [] then None
    else if t[0] == QUOTE then
      match ReadLiteral(t)
      case None => None
      case Some(l) => Some(Read(Str(l.value), l.rest))
    else if t[0] == LBRACKET then ReadArray(t[1..])
    else if t[0] == LBRACE then ReadObject(t[1..])
    else if t[0] == 'n' as int as CodeUnit then ReadWord(t, Js("null"), Null)
    else if t[0] == 't' as int as CodeUnit then ReadWord(t, Js("true"), Bool(true))
    else if t[0] == 'f' as int as CodeUnit then ReadWord(t, Js("false"), Bool(false))
    else ReadNumber(t)
  }

  /** Section 5: what follows the opening bracket. */
  function ReadArray(t: JsString): (r: Option<Read<Json>>)
    ensures r.Some? ==> |r.value.rest| < |t|
    decreases |t|, 2
  {
    if t != [] && t[0] == RBRACKET then Some(Read(Arr([]), t[1..]))
    else
      match ReadItems(t)
      case None => None
      case Some(l) => Some(Read(Arr(l.value), l.rest))
  }

  function ReadItems(t: JsString): (r: Option<Read<seq<Json>>>)
    ensures r.Some? ==> |r.value.rest| < |t|
    decreases |t|, 1
  {
    match ReadJson(t)
    case None => None
    case Some(item) =>
      if item.rest == [] then None
      else if item.rest[0] == RBRACKET then Some(Read([item.value], item.rest[1..]))
      else if item.rest[0] == COMMA then
        match ReadItems(item.rest[1..])
        case None => None
        case Some(more) => Some(Read([item.value] + more.value, more.rest))
      else None
  }

  /** Section 4: what follows the opening brace. */
  function ReadObject(t: JsString): (r: Option<Read<Json>>)
    ensures r.Some? ==> |r.value.rest| < |t|
    decreases |t|, 2
  {
    if t != [] && t[0] == RBRACE then Some(Read(Obj([]), t[1..]))
    else
      match ReadMembers(t)
      case None => None
      case Some(l) => Some(Read(Obj(l.value), l.rest))
  }

  function ReadMember(t: JsString): (r: Option<Read<Field>>)
    ensures r.Some? ==> |r.value.rest| < |t|
    decreases |t|, 0
  {
    match ReadLiteral(t)
    case None => None
    case Some(key) =>
      if key.rest == [] || key.rest[0] != COLON then None
      else
        match ReadJson(key.rest[1..])
        case None => None
        case Some(v) => Some(Read(Field(key.value, v.value), v.rest))
  }

  function ReadMembers(t: JsString): (r: Option<Read<seq<Field>>>)
    ensures r.Some? ==> |r.value.rest| < |t|
    decreases |t|, 1
  {
    match ReadMember(t)
    case None => None
    case Some(member) =>
      if member.rest == [] then None
      else if member.rest[0] == RBRACE then Some(Read([member.value], member.rest[1..]))
      else if member.rest[0] == COMMA then
        match ReadMembers(member.rest[1..])
        case None => None
        case Some(more) => Some(Read([member.value] + more.value, more.rest))
      else None
  }

  // ---- reading what the printer prints ----

  lemma WordIsReadBack(word: JsString, v: Json, r: JsString)
    requires word != []
    ensures ReadWord(word + r, word, v) == Some(Read(v, r))
  {
    assert (word + r)[..|word|] == word && (word + r)[|word|..] == r;
  }

  lemma Words()
    ensures Js("null") == NULL_TEXT && Js("true") == TRUE_TEXT && Js("false") == FALSE_TEXT
  {
  }

  lemma {:induction false} NumberEnds(t: JsString, r: JsString)
    requires (forall i :: 0 <= i < |t| ==> NumberUnit(t[i])) && (r == [] || !NumberUnit(r[0]))
    ensures NumberLength(t + r) == |t|
  {
    if t == [] {
      assert t + r == r;
    } else {
      assert (t + r)[0] == t[0] && (t + r)[1..] == t[1..] + r;
      NumberEnds(t[1..], r);
    }
  }

  lemma NumberIsReadBack(t: JsString, r: JsString)
    requires NumberText(t) && Text.Ends(r)
    ensures ReadNumber(t + r) == Some(Read(Num(t), r))
  {
    NumberEnds(t, r);
    assert (t + r)[0] == t[0] && (t + r)[..|t|] == t && (t + r)[|t|..] == r;
  }

  lemma AtomIsReadBack(v: Json, r: JsString, t: JsString)
    requires WellFormed(v) && Text.Ends(r) && !v.Arr? && !v.Obj? && t == Stringify(v) + r
    ensures ReadJson(t) == Some(Read(v, r))
  {
    Words();
    Text.FirstUnit(v);
    assert t[0] == Stringify(v)[0];
    match v {
      case Null => WordIsReadBack(NULL_TEXT, v, r);
      case Bool(_) => WordIsReadBack(Stringify(v), v, r);
      case Num(n) => NumberIsReadBack(n, r);
      case Str(s) => LiteralIsReadBack(s, r);
    }
  }

  lemma {:induction false} JsonIsReadBack(v: Json, r: JsString, t: JsString) returns (u: Json)
    requires WellFormed(v) && Text.Ends(r) && t == Stringify(v) + r
    ensures ReadJson(t) == Some(Read(u, r)) && Same(v, u)
    decreases v, 2
  {
    match v {
      case Arr(items) =>
        Text.Bracketed(LBRACKET, StringifyItems(items, true), RBRACKET, r);
        u := ArrayIsReadBack(items, r, t[1..]);
        assert t[0] == LBRACKET;
      case Obj(fields) =>
        Text.Bracketed(LBRACE, StringifyFields(SortFields(fields), true, fields), RBRACE, r);
        u := ObjectIsReadBack(fields, r, t[1..]);
        assert t[0] == LBRACE;
      case _ =>
        AtomIsReadBack(v, r, t);
        u := v;
    }
  }

  lemma {:induction false} ArrayIsReadBack(items: seq<Json>, r: JsString, t: JsString) returns (u: Json)
    requires WellFormed(Arr(items)) && Text.Ends(r) && t == StringifyItems(items, true) + ([RBRACKET] + r)
    ensures ReadArray(t) == Some(Read(u, r)) && Same(Arr(items), u)
    decreases items, 1
  {
    if items == [] {
      assert t == [RBRACKET] + r && t[1..] == r;
      u := Arr([]);
    } else {
      Text.ItemsStart(items, true, [RBRACKET] + r);
      var us := ItemsAreReadBack(items, r, t);
      u := Arr(us);
    }
  }

  /** What stands behind the first item: the closing bracket, or a comma and the list of the others. */
  lemma AfterFirstItem(xs: seq<Json>, r: JsString, after: JsString)
    requires xs != [] && after == StringifyItems(xs[1..], false) + r
    ensures StringifyItems(xs, true) + r == Stringify(xs[0]) + after
    ensures if |xs| == 1 then after == r else after == [COMMA] + (StringifyItems(xs[1..], true) + r)
  {
    FirstItem(xs, r, after);
    if |xs| == 1 {
      assert after == r;
    } else {
      CommaFirst(xs[1..], r);
    }
  }

  lemma FirstItem(xs: seq<Json>, r: JsString, after: JsString)
    requires xs != [] && after == StringifyItems(xs[1..], false) + r
    ensures StringifyItems(xs, true) + r == Stringify(xs[0]) + after
  {
    Text.ItemsHead(xs, true, r);
    assert [] + (Stringify(xs[0]) + after) == Stringify(xs[0]) + after;
  }

  lemma CommaFirst(xs: seq<Json>, r: JsString)
    requires xs != []
    ensures StringifyItems(xs, false) + r == [COMMA] + (StringifyItems(xs, true) + r)
  {
    Text.ItemsHead(xs, false, r);
    FirstItem(xs, r, StringifyItems(xs[1..], false) + r);
  }

  lemma SameFromHead(xs: seq<Json>, u: Json, us: seq<Json>)
    requires xs != [] && Same(xs[0], u) && |us| == |xs| - 1 && forall i :: 0 <= i < |us| ==> Same(xs[1..][i], us[i])
    ensures forall i :: 0 <= i < |xs| ==> Same(xs[i], ([u] + us)[i])
  {
    forall i | 0 <= i < |xs| ensures Same(xs[i], ([u] + us)[i]) {
      assert i > 0 ==> xs[i] == xs[1..][i - 1];
    }
  }

  lemma {:induction false} ItemsAreReadBack(xs: seq<Json>, r: JsString, t: JsString) returns (us: seq<Json>)
    requires xs != [] && (forall i :: 0 <= i < |xs| ==> WellFormed(xs[i]))
    requires t == StringifyItems(xs, true) + ([RBRACKET] + r)
    ensures ReadItems(t) == Some(Read(us, r))
    ensures |us| == |xs| && forall i :: 0 <= i < |xs| ==> Same(xs[i], us[i])
    decreases xs, 0
  {
    var after := StringifyItems(xs[1..], false) + ([RBRACKET] + r);
    AfterFirstItem(xs, [RBRACKET] + r, after);
    Text.AfterItem(xs[1..], r);
    var u := JsonIsReadBack(xs[0], after, t);
    if |xs| == 1 {
      LastItemIsRead(t, u, r);
      us := [u];
    } else {
      var rest := StringifyItems(xs[1..], true) + ([RBRACKET] + r);
      var more := ItemsAreReadBack(xs[1..], r, rest);
      OneMoreItemIsRead(t, u, rest, more, r);
      us := [u] + more;
      SameFromHead(xs, u, more);
    }
  }

  lemma LastItemIsRead(t: JsString, u: Json, r: JsString)
    requires ReadJson(t) == Some(Read(u, [RBRACKET] + r))
    ensures ReadItems(t) == Some(Read([u], r))
  {
    assert ([RBRACKET] + r)[1..] == r;
  }

  lemma OneMoreItemIsRead(t: JsString, u: Json, rest: JsString, us: seq<Json>, r: JsString)
    requires ReadJson(t) == Some(Read(u, [COMMA] + rest)) && ReadItems(rest) == Some(Read(us, r))
    ensures ReadItems(t) == Some(Read([u] + us, r))
  {
    assert ([COMMA] + rest)[1..] == rest;
  }

  lemma {:induction false} ObjectIsReadBack(fields: seq<Field>, r: JsString, t: JsString) returns (u: Json)
    requires WellFormed(Obj(fields)) && Text.Ends(r)
    requires t == StringifyFields(SortFields(fields), true, fields) + ([RBRACE] + r)
    ensures ReadObject(t) == Some(Read(u, r)) && Same(Obj(fields), u)
    decreases fields, 1
  {
    var f := SortFields(fields);
    Text.SortedLength(fields);
    if f == [] {
      assert t == [RBRACE] + r && t[1..] == r;
      u := Obj([]);
    } else {
      Text.SortedAreWellFormed(fields);
      Text.FieldsStart(f, true, fields, [RBRACE] + r);
      var g := MembersAreReadBack(f, fields, r, t);
      PairwiseMeansSame(fields, g);
      u := Obj(g);
    }
  }

  lemma PairwiseMeansSame(fields: seq<Field>, g: seq<Field>)
    requires Text.Pairwise(SortFields(fields), g)
    ensures Same(Obj(fields), Obj(g))
  {
    Text.SortedLength(fields);
    forall i | 0 <= i < |fields|
      ensures exists j :: 0 <= j < |g| && fields[i].key == g[j].key && Same(fields[i].value, g[j].value)
    {
      var k := Text.SortedPositionOf(fields, fields[i]);
      assert fields[i].key == g[k].key && Same(fields[i].value, g[k].value);
    }
  }

  /** What stands behind the first member: the closing brace, or a comma and the other members. */
  lemma AfterFirstField(f: seq<Field>, all: seq<Field>, r: JsString) returns (after: JsString)
    requires f != [] && Within(f, all)
    ensures Within(f[1..], all) && f[0] in all && after == StringifyFields(f[1..], false, all) + r
    ensures StringifyFields(f, true, all) + r == Quote(f[0].key) + ([COLON] + (Stringify(f[0].value) + after))
    ensures if |f| == 1 then after == r else after == [COMMA] + (StringifyFields(f[1..], true, all) + r)
  {
    after := FirstField(f, all, r);
    if |f| == 1 {
      assert after == r;
    } else {
      CommaBeforeField(f[1..], all, r);
    }
  }

  lemma FirstField(f: seq<Field>, all: seq<Field>, r: JsString) returns (after: JsString)
    requires f != [] && Within(f, all)
    ensures Within(f[1..], all) && f[0] in all && after == StringifyFields(f[1..], false, all) + r
    ensures StringifyFields(f, true, all) + r == Quote(f[0].key) + ([COLON] + (Stringify(f[0].value) + after))
  {
    Text.FieldsHead(f, true, all, r);
    after := StringifyFields(f[1..], false, all) + r;
    var member := Quote(f[0].key) + ([COLON] + (Stringify(f[0].value) + after));
    assert [] + member == member;
  }

  lemma CommaBeforeField(f: seq<Field>, all: seq<Field>, r: JsString)
    requires f != [] && Within(f, all)
    ensures StringifyFields(f, false, all) + r == [COMMA] + (StringifyFields(f, true, all) + r)
  {
    Text.FieldsHead(f, false, all, r);
    var _ := FirstField(f, all, r);
  }

  lemma MemberIsReadBack(key: JsString, v: Json, u: Json, after: JsString, t: JsString)
    requires t == Quote(key) + ([COLON] + (Stringify(v) + after)) && ReadJson(Stringify(v) + after) == Some(Read(u, after))
    ensures ReadMember(t) == Some(Read(Field(key, u), after))
  {
    var rest := [COLON] + (Stringify(v) + after);
    LiteralIsReadBack(key, rest);
    assert rest[1..] == Stringify(v) + after;
  }

  lemma {:induction false} MembersAreReadBack(f: seq<Field>, all: seq<Field>, r: JsString, t: JsString) returns (g: seq<Field>)
    requires f != [] && Within(f, all) && Text.WellFormedValues(f)
    requires t == StringifyFields(f, true, all) + ([RBRACE] + r)
    ensures ReadMembers(t) == Some(Read(g, r)) && Text.Pairwise(f, g)
    decreases all, 0, |f|
  {
    var after := AfterFirstField(f, all, [RBRACE] + r);
    Text.AfterField(f[1..], all, r);
    Text.RestIsWellFormed(f);
    var u := JsonIsReadBack(f[0].value, after, Stringify(f[0].value) + after);
    MemberIsReadBack(f[0].key, f[0].value, u, after, t);
    var member := Field(f[0].key, u);
    if |f| == 1 {
      LastMemberIsRead(t, member, r);
      g := [member];
    } else {
      var rest := StringifyFields(f[1..], true, all) + ([RBRACE] + r);
      var more := MembersAreReadBack(f[1..], all, r, rest);
      OneMoreMemberIsRead(t, member, rest, more, r);
      g := [member] + more;
      PairsFromHead(f, member, more);
    }
  }

  lemma PairsFromHead(f: seq<Field>, member: Field, more: seq<Field>)
    requires f != [] && f[0].key == member.key && Same(f[0].value, member.value) && Text.Pairwise(f[1..], more)
    ensures Text.Pairwise(f, [member] + more)
  {
    Text.PairwiseFromHead(f, [member] + more);
  }

  lemma LastMemberIsRead(t: JsString, u: Field, r: JsString)
    requires ReadMember(t) == Some(Read(u, [RBRACE] + r))
    ensures ReadMembers(t) == Some(Read([u], r))
  {
    assert ([RBRACE] + r)[1..] == r;
  }

  lemma OneMoreMemberIsRead(t: JsString, u: Field, rest: JsString, us: seq<Field>, r: JsString)
    requires ReadMember(t) == Some(Read(u, [COMMA] + rest)) && ReadMembers(rest) == Some(Read(us, r))
    ensures ReadMembers(t) == Some(Read([u] + us, r))
  {
    assert ([COMMA] + rest)[1..] == rest;
  }

  /** Reading a canonical text gives the payload back up to the order of object keys, and nothing is left over. */
  lemma CanonicalTextIsReadBack(v: Json) returns (u: Json)
    requires WellFormed(v)
    ensures ReadJson(Stringify(v)) == Some(Read(u, [])) && Same(v, u)
  {
    assert Stringify(v) + [] == Stringify(v);
    u := JsonIsReadBack(v, [], Stringify(v));
  }
}
