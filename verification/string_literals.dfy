/**
 * A reader of string literals, written from section 7 of RFC 8259 alone. It reads back every string literal of
 * the canonical text (src/utils/compute-unique-id.util.ts:55,62).
 */
module StringLiterals {
  import opened JsStrings
  import opened Options
  import opened CanonicalKey
  import Text = CanonicalText

  /** What was read, and the text after it. */
  datatype Read<T> = Read(value: T, rest: JsString)

  function HexValue(c: CodeUnit): Option<int> {
    if 48 <= c <= 57 then Some(c as int - 48)
    else if 97 <= c <= 102 then Some(c as int - 87)
    else if 65 <= c <= 70 then Some(c as int - 55)
    else None
  }

  /** The unit written as four hexadecimal digits at the front of the text. */
  function ReadHexUnit(t: JsString): Option<CodeUnit>
    requires |t| >= 4
  {
    match (HexValue(t[0]), HexValue(t[1]), HexValue(t[2]), HexValue(t[3]))
    case (Some(a), Some(b), Some(c), Some(d)) =>
      var n := ((a * 16 + b) * 16 + c) * 16 + d;
      if 0 <= n < 0x1_0000 then Some(n as CodeUnit) else None
    case _ => None
  }

  function ShortEscapeMeaning(c: CodeUnit): Option<CodeUnit> {
    match c
    case 34 | 47 | 92 => Some(c)
    case 98 => Some(8)
    case 102 => Some(12)
    case 110 => Some(10)
    case 114 => Some(13)
    case 116 => Some(9)
    case _ => None
  }

  /** One unit of a string. A quotation mark and control characters must be escaped. */
  function ReadUnit(t: JsString): (r: Option<Read<CodeUnit>>)
    ensures r.Some? ==> |r.value.rest| < |t|
  {
    if t == [] || t[0] < 32 || t[0] == QUOTE then None
    else if t[0] != BACKSLASH then Some(Read(t[0], t[1..]))
    else if |t| >= 6 && t[1] == 117 then
      match ReadHexUnit(t[2..])
      case Some(c) => Some(Read(c, t[6..]))
      case None => None
    else if |t| >= 2 then
      match ShortEscapeMeaning(t[1])
      case Some(c) => Some(Read(c, t[2..]))
      case None => None
    else None
  }

  /** The units up to the closing quotation mark. */
  function ReadUnits(t: JsString): (r: Option<Read<JsString>>)
    ensures r.Some? ==> |r.value.rest| < |t|
    decreases |t|
  {
    if t != [] && t[0] == QUOTE then Some(Read([], t[1..]))
    else
      match ReadUnit(t)
      case None => None
      case Some(first) =>
        match ReadUnits(first.rest)
        case None => None
        case Some(more) => Some(Read([first.value] + more.value, more.rest))
  }

  function ReadLiteral(t: JsString): (r: Option<Read<JsString>>)
    ensures r.Some? ==> |r.value.rest| < |t|
  {
    if t != [] && t[0] == QUOTE then ReadUnits(t[1..]) else None
  }

  lemma HexDigitsRead(c: CodeUnit, r: JsString)
    ensures ReadUnit(UnicodeEscape(c) + r) == Some(Read(c, r))
  {
    var (e, n) := (UnicodeEscape(c), c as int);
    var t := e + r;
    assert t[2..][..4] == e[2..];
    assert t[2..][0] == e[2] && t[2..][1] == e[3] && t[2..][2] == e[4] && t[2..][3] == e[5];
    assert t[6..] == r;
    assert n == ((n / 16 / 16 / 16 * 16 + n / 16 / 16 % 16) * 16 + n / 16 % 16) * 16 + n % 16;
  }

  lemma UnitIsReadBack(c: CodeUnit, lone: bool, r: JsString)
    ensures ReadUnit(EscapeUnit(c, lone) + r) == Some(Read(c, r))
  {
    var e := EscapeUnit(c, lone);
    if ShortEscaped(c) {
      assert (e + r)[1] == e[1] && (e + r)[2..] == r;
    } else if c < 32 || lone {
      HexDigitsRead(c, r);
    } else {
      assert (e + r)[1..] == r;
    }
  }

  lemma OneMoreIsReadBack(s: JsString, i: nat, more: JsString, r: JsString)
    requires i < |s| && ReadUnits(more) == Some(Read(s[i + 1..], r))
    ensures ReadUnits(EscapeUnit(s[i], Lone(s, i)) + more) == Some(Read(s[i..], r))
  {
    UnitIsReadBack(s[i], Lone(s, i), more);
    assert s[i..] == [s[i]] + s[i + 1..];
  }

  lemma OpeningIsRead(t: JsString)
    ensures ReadLiteral([QUOTE] + t) == ReadUnits(t)
  {
    assert ([QUOTE] + t)[1..] == t;
  }

  lemma EndIsRead(r: JsString)
    ensures ReadUnits([QUOTE] + r) == Some(Read([], r))
  {
    assert ([QUOTE] + r)[1..] == r;
  }

  lemma {:induction false} UnitsAreReadBack(s: JsString, i: nat, end: JsString, r: JsString)
    requires i <= |s| && ReadUnits(end) == Some(Read([], r))
    ensures ReadUnits(EscapeFrom(s, i) + end) == Some(Read(s[i..], r))
    decreases |s| - i
  {
    if i == |s| {
      assert EscapeFrom(s, i) + end == end && s[i..] == [];
    } else {
      UnitsAreReadBack(s, i + 1, end, r);
      OneMoreIsReadBack(s, i, EscapeFrom(s, i + 1) + end, r);
      Text.EscapedHead(s, i, end);
    }
  }

  /** Reading a printed literal gives the string back and stops where the literal ends, whatever follows it. */
  lemma LiteralIsReadBack(s: JsString, r: JsString)
    ensures ReadLiteral(Quote(s) + r) == Some(Read(s, r))
  {
    EndIsRead(r);
    UnitsAreReadBack(s, 0, [QUOTE] + r, r);
    Text.QuotedHead(s, r);
    OpeningIsRead(EscapeFrom(s, 0) + ([QUOTE] + r));
    assert s[0..] == s;
  }

  // ---- surrogates ----

  predicate Surrogate(c: CodeUnit) {
    HighSurrogate(c) || LowSurrogate(c)
  }

  /** A high surrogate is followed by a low one, and a low one preceded by a high one; `before` says there is one in front. */
  predicate PairedAt(t: JsString, before: bool, k: nat)
    requires k < |t|
  {
    && (HighSurrogate(t[k]) ==> k + 1 < |t| && LowSurrogate(t[k + 1]))
    && (LowSurrogate(t[k]) ==> if k == 0 then before else HighSurrogate(t[k - 1]))
  }

  predicate Paired(t: JsString, before: bool) {
    forall k :: 0 <= k < |t| ==> PairedAt(t, before, k)
  }

  lemma EscapesAreAscii(c: CodeUnit, lone: bool)
    ensures var e := EscapeUnit(c, lone);
            e != [] && (e == [c] || forall k :: 0 <= k < |e| ==> !Surrogate(e[k])) && (lone && Surrogate(c) ==> e != [c])
  {
  }

  lemma PairedInFront(e: JsString, t: JsString, before: bool)
    requires e != [] && (forall k :: 0 <= k < |e| ==> !Surrogate(e[k])) && Paired(t, false)
    ensures Paired(e + t, before)
  {
    var (u, n) := (e + t, |e|);
    forall k | 0 <= k < |u| ensures PairedAt(u, before, k) {
      if k < n {
        assert u[k] == e[k];
      } else {
        assert PairedAt(t, false, k - n);
        assert u[k] == t[k - n] && (k + 1 < |u| ==> u[k + 1] == t[k + 1 - n]) && (k > n ==> u[k - 1] == t[k - 1 - n]);
      }
    }
  }

  lemma PairedUnit(c: CodeUnit, t: JsString, before: bool)
    requires Paired(t, HighSurrogate(c)) && (HighSurrogate(c) ==> t != [] && LowSurrogate(t[0])) && (LowSurrogate(c) ==> before)
    ensures Paired([c] + t, before)
  {
    var u := [c] + t;
    forall k | 0 <= k < |u| ensures PairedAt(u, before, k) {
      if k > 0 {
        assert PairedAt(t, HighSurrogate(c), k - 1);
        assert u[k] == t[k - 1] && (k + 1 < |u| ==> u[k + 1] == t[k]) && (k > 1 ==> u[k - 1] == t[k - 2]);
      }
    }
  }

  lemma WeakerFront(t: JsString)
    requires Paired(t, false)
    ensures Paired(t, true)
  {
    forall k | 0 <= k < |t| ensures PairedAt(t, true, k) {
      assert PairedAt(t, false, k);
    }
  }

  /** A unit of the string that is half of a pair. */
  predicate Follows(s: JsString, i: nat)
    requires i <= |s|
  {
    i > 0 && i < |s| && HighSurrogate(s[i - 1]) && LowSurrogate(s[i])
  }

  lemma {:induction false} EscapedArePaired(s: JsString, i: nat)
    requires i <= |s|
    ensures Paired(EscapeFrom(s, i) + [QUOTE], Follows(s, i))
    ensures Follows(s, i) ==> LowSurrogate((EscapeFrom(s, i) + [QUOTE])[0])
    decreases |s| - i
  {
    if i == |s| {
      assert EscapeFrom(s, i) + [QUOTE] == [QUOTE] && [QUOTE][0] == QUOTE;
    } else {
      var (e, t) := (EscapeUnit(s[i], Lone(s, i)), EscapeFrom(s, i + 1) + [QUOTE]);
      EscapedArePaired(s, i + 1);
      EscapesAreAscii(s[i], Lone(s, i));
      assert EscapeFrom(s, i) + [QUOTE] == e + t;
      if e == [s[i]] {
        if !Follows(s, i + 1) { WeakerFront(t); }
        PairedUnit(s[i], t, Follows(s, i));
      } else {
        assert !Follows(s, i + 1);
        PairedInFront(e, t, Follows(s, i));
      }
    }
  }

  /** No printed literal contains half of a surrogate pair alone: it is well-formed UTF-16. */
  lemma LiteralsAreWellFormed(s: JsString, i: nat)
    requires i < |Quote(s)|
    ensures !Lone(Quote(s), i)
  {
    EscapedArePaired(s, 0);
    var t := EscapeFrom(s, 0) + [QUOTE];
    assert Quote(s) == [QUOTE] + t;
    PairedInFront([QUOTE], t, false);
    assert PairedAt(Quote(s), false, i);
  }
}
