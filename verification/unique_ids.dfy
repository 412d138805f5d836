/** The dedup id: a 32-bit hash of `name:canonical`, in double arithmetic (src/utils/compute-unique-id.util.ts:25-45). */
module UniqueIds {
  import opened JsStrings
  import opened CanonicalKey
  import opened Options
  import Literals = StringLiterals

  const TWO_32: int := 0x1_0000_0000
  const TWO_53: int := 0x20_0000_0000_0000
  const OFFSET: int := 0x811c9dc5
  const PRIME: int := 0x01000193

  function Bits(n: nat): (r: int)
    ensures r >= 1
  {
    if n == 0 then 1 else 2 * Bits(n - 1)
  }

  /** Exclusive or, bit by bit. */
  function ExclusiveOr(a: int, b: int): (r: int)
    requires a >= 0 && b >= 0
    ensures r >= 0
    decreases b
  {
    if b == 0 then a else 2 * ExclusiveOr(a / 2, b / 2) + (a + b) % 2
  }

  lemma {:induction false} ExclusiveOrFits(a: int, b: int, n: nat)
    requires 0 <= a < Bits(n) && 0 <= b < Bits(n)
    ensures ExclusiveOr(a, b) < Bits(n)
  {
    if b != 0 {
      ExclusiveOrFits(a / 2, b / 2, n - 1);
    }
  }

  /** Bit `n` of the result is set exactly when bit `n` of one argument is set and that of the other is not. */
  lemma {:induction false} ExclusiveOrBit(a: int, b: int, n: nat)
    requires a >= 0 && b >= 0
    ensures ExclusiveOr(a, b) / Bits(n) % 2 == 1 <==> a / Bits(n) % 2 != b / Bits(n) % 2
  {
    if n == 0 {
      LowestBit(a, b);
    } else {
      ExclusiveOrBit(a / 2, b / 2, n - 1);
      HalfExclusiveOr(a, b);
      BitOfHalf(a, n);
      BitOfHalf(b, n);
      BitOfHalf(ExclusiveOr(a, b), n);
    }
  }

  lemma LowestBit(a: int, b: int)
    requires a >= 0 && b >= 0
    ensures ExclusiveOr(a, b) / Bits(0) % 2 == 1 <==> a / Bits(0) % 2 != b / Bits(0) % 2
  {
    if b > 0 {
      Halved(ExclusiveOr(a / 2, b / 2), (a + b) % 2);
    }
    ParityOfSum(a, b);
  }

  lemma ParityOfSum(a: int, b: int)
    ensures (a + b) % 2 == 1 <==> a % 2 != b % 2
  {
  }

  lemma HalfExclusiveOr(a: int, b: int)
    requires a >= 0 && b >= 0
    ensures ExclusiveOr(a, b) / 2 == ExclusiveOr(a / 2, b / 2)
  {
    if b > 0 {
      Halved(ExclusiveOr(a / 2, b / 2), (a + b) % 2);
    }
  }

  lemma BitOfHalf(a: int, n: nat)
    requires a >= 0 && n > 0
    ensures a / Bits(n) == a / 2 / Bits(n - 1)
  {
    var u := Bits(n - 1);
    var (q, r) := (a / 2 / u, a / 2 % u);
    assert a / 2 == q * u + r;
    assert a == q * (2 * u) + (2 * r + a % 2);
    QuotientIs(a, 2 * u, q, 2 * r + a % 2);
  }

  lemma QuotientIs(a: int, u: int, q: int, r: int)
    requires u >= 1 && a == q * u + r && 0 <= r < u
    ensures a / u == q
  {
    var d := a / u - q;
    assert a == a / u * u + a % u;
    assert d * u == r - a % u;
    MultipleBounds(d, u);
  }

  lemma {:induction false} ExclusiveOrUndoes(a: int, b: int)
    requires a >= 0 && b >= 0
    ensures ExclusiveOr(ExclusiveOr(a, b), b) == a
    decreases b
  {
    if b != 0 {
      var (rest, bit) := (ExclusiveOr(a / 2, b / 2), (a + b) % 2);
      ExclusiveOrUndoes(a / 2, b / 2);
      Halved(rest, bit);
      assert ExclusiveOr(2 * rest + bit, b) == 2 * ExclusiveOr(rest, b / 2) + (2 * rest + bit + b) % 2;
      Parities(a, b, rest);
    }
  }

  lemma Parities(a: int, b: int, rest: int)
    ensures (2 * rest + (a + b) % 2 + b) % 2 == a % 2
  {
  }

  /** The xor of the loop, bit by bit: each bit of the unit, all 16 of them, flips its bit of the hash. */
  lemma XorFlipsBits(hash: int, c: CodeUnit, n: nat)
    requires 0 <= hash < TWO_32
    ensures Xor(hash, c) / Bits(n) % 2 == 1 <==> hash / Bits(n) % 2 != c as int / Bits(n) % 2
  {
    ExclusiveOrBit(hash, c as int, n);
  }

  /** Applying a unit twice gives the hash back, so neither different units nor different hashes meet in one round's xor. */
  lemma XorLosesNothing(hash: int, c: CodeUnit, other: int, d: CodeUnit)
    requires 0 <= hash < TWO_32 && 0 <= other < TWO_32
    ensures Xor(Xor(hash, c), c) == hash
    ensures Xor(hash, c) == Xor(other, c) ==> hash == other
    ensures Xor(hash, c) == Xor(hash, d) ==> c == d
  {
    ExclusiveOrUndoes(hash, c as int);
    ExclusiveOrUndoes(other, c as int);
    if Xor(hash, c) == Xor(hash, d) {
      SameBitsSameUnit(hash, c, d);
    }
  }

  lemma SameBitsSameUnit(hash: int, c: CodeUnit, d: CodeUnit)
    requires 0 <= hash < TWO_32 && Xor(hash, c) == Xor(hash, d)
    ensures c == d
  {
    forall n: nat ensures c as int / Bits(n) % 2 == d as int / Bits(n) % 2 {
      XorFlipsBits(hash, c, n);
      XorFlipsBits(hash, d, n);
    }
    SameBits(c as int, d as int);
  }

  lemma {:induction false} SameBits(a: int, b: int)
    requires a >= 0 && b >= 0 && forall n: nat :: a / Bits(n) % 2 == b / Bits(n) % 2
    ensures a == b
  {
    assert a / Bits(0) % 2 == b / Bits(0) % 2;
    if a > 1 || b > 1 {
      forall n: nat ensures a / 2 / Bits(n) % 2 == b / 2 / Bits(n) % 2 {
        BitOfHalf(a, n + 1);
        BitOfHalf(b, n + 1);
        assert a / Bits(n + 1) % 2 == b / Bits(n + 1) % 2;
      }
      SameBits(a / 2, b / 2);
    }
  }

  lemma Halved(a: int, x: int)
    ensures (2 * a + x) % 2 == x % 2 && (0 <= x <= 1 ==> (2 * a + x) / 2 == a)
  {
  }

  lemma {:induction false} BitsAdd(m: nat, n: nat)
    ensures Bits(m + n) == Bits(m) * Bits(n)
  {
    if m > 0 {
      BitsAdd(m - 1, n);
    }
  }

  lemma WordSize()
    ensures Bits(32) == TWO_32
  {
    assert Bits(4) == 16;
    BitsAdd(4, 4);
    BitsAdd(8, 8);
    BitsAdd(16, 16);
  }

  function Xor(hash: int, c: CodeUnit): (r: int)
    requires 0 <= hash < TWO_32
    ensures 0 <= r < TWO_32
  {
    WordSize();
    ExclusiveOrFits(hash, c as int, 32);
    ExclusiveOr(hash, c as int)
  }

  /** The result of `^=` is a signed 32-bit number. */
  function ToSigned(n: int): (r: int)
    requires 0 <= n < TWO_32
    ensures -0x8000_0000 <= r < 0x8000_0000
    ensures r == n || r == n - TWO_32
  {
    if n < 0x8000_0000 then n else n - TWO_32
  }

  /** The spacing of doubles at magnitude `m`: the least power of two, from `u` on, that leaves a 53-bit significand. */
  function Spacing(m: int, u: int): (r: int)
    requires u >= 1
    ensures r >= u
    decreases m - TWO_53 * u
  {
    if m <= TWO_53 * u then u else Spacing(m, 2 * u)
  }

  /** Which multiple of `u` is nearest to `m`, the even one of two equally near. */
  function NearestIndex(m: int, u: int): int
    requires m >= 0 && u >= 1
  {
    var (q, r) := (m / u, m % u);
    if 2 * r < u || (2 * r == u && q % 2 == 0) then q else q + 1
  }

  function NearestMultiple(m: int, u: int): int
    requires m >= 0 && u >= 1
  {
    NearestIndex(m, u) * u
  }

  /** Rounding of an integer to a double, by section 6.1.6.1 of ECMA-262 (IEEE 754 round to nearest, ties to even). */
  function RoundToDouble(p: int): int {
    if p >= 0 then NearestMultiple(p, Spacing(p, 1)) else -NearestMultiple(-p, Spacing(-p, 1))
  }

  /** One round of the loop: `hash ^= c; hash = (hash * 0x01000193) >>> 0`. */
  function HashStep(hash: int, c: CodeUnit): (r: int)
    requires 0 <= hash < TWO_32
    ensures 0 <= r < TWO_32
  {
    RoundToDouble(ToSigned(Xor(hash, c)) * PRIME) % TWO_32
  }

  function Fnv1a(input: JsString): (r: int)
    ensures 0 <= r < TWO_32
  {
    if input == [] then OFFSET else HashStep(Fnv1a(input[..|input| - 1]), input[|input| - 1])
  }

  method ComputeFnv1a(input: JsString) returns (hash: int)
    ensures hash == Fnv1a(input) && 0 <= hash < TWO_32
  {
    hash := OFFSET;
    assert input[..0] == [];
    for i := 0 to |input|
      invariant 0 <= hash < TWO_32 && hash == Fnv1a(input[..i])
    {
      assert input[..i + 1][..i] == input[..i];
      hash := ToSigned(Xor(hash, input[i]));
      hash := RoundToDouble(hash * PRIME) % TWO_32;
    }
    assert input[..|input|] == input;
  }

  function Hex(n: int): JsString
    requires n >= 0
  {
    if n < 16 then [HexDigit(n)] else Hex(n / 16) + [HexDigit(n % 16)]
  }

  function KeyText(name: JsString, data: Json): JsString {
    name + [COLON] + Stringify(data)
  }

  /** `u_` and the hash in lower-case hexadecimal. */
  function ComputeUniqueId(name: JsString, data: Json): JsString {
    [117, 95] + Hex(Fnv1a(KeyText(name, data)))
  }

  // ---- the arithmetic of one round ----

  lemma SpacingIsSmall(m: int)
    requires 0 <= m < TWO_53 * 8
    ensures Spacing(m, 1) == if m <= TWO_53 then 1 else if m <= 2 * TWO_53 then 2 else if m <= 4 * TWO_53 then 4 else 8
  {
    assert Spacing(m, 1) == if m <= TWO_53 then 1 else Spacing(m, 2);
    assert Spacing(m, 2) == if m <= 2 * TWO_53 then 2 else Spacing(m, 4);
    assert Spacing(m, 4) == if m <= 4 * TWO_53 then 4 else Spacing(m, 8);
  }

  lemma NearestIsNear(m: int, u: int)
    requires m >= 0 && (u == 1 || u == 2 || u == 4 || u == 8)
    ensures -u <= 2 * (NearestMultiple(m, u) - m) <= u
    ensures NearestMultiple(m, u) == m <==> m % u == 0
  {
  }

  /** No multiple of the spacing is nearer, and of two equally near ones the even one is taken. */
  lemma NearestTiesToEven(m: int, u: int, k: int)
    requires m >= 0 && u >= 1
    ensures var n := NearestIndex(m, u);
            && Magnitude(m - n * u) <= Magnitude(m - k * u)
            && (Magnitude(m - n * u) == Magnitude(m - k * u) && k != n ==> n % 2 == 0)
  {
    var (q, r, n) := (m / u, m % u, NearestIndex(m, u));
    MultipleBounds(q - k, u);
    Distances(m, u, q, k);
    Distances(m, u, q, n);
    var (mine, other) := ((q - n) * u, (q - k) * u);
    assert mine == if n == q then 0 else -u;
    assert Magnitude(mine + r) <= Magnitude(other + r);
  }

  /** The rounded product is a multiple of the spacing there, none is nearer, and of two equally near ones it is the even one. */
  lemma RoundsToNearest(p: int, k: int)
    ensures var u := Spacing(Magnitude(p), 1);
            var n := if p >= 0 then NearestIndex(p, u) else -NearestIndex(-p, u);
            && RoundToDouble(p) == n * u
            && Magnitude(p - n * u) <= Magnitude(p - k * u)
            && (Magnitude(p - n * u) == Magnitude(p - k * u) && k != n ==> n % 2 == 0)
  {
    var u := Spacing(Magnitude(p), 1);
    if p >= 0 {
      NearestTiesToEven(p, u, k);
    } else {
      NearestTiesToEven(-p, u, -k);
      NegatedProduct(NearestIndex(-p, u), u);
      NegatedProduct(k, u);
    }
  }

  lemma NegatedProduct(n: int, u: int)
    ensures (-n) * u == -(n * u)
  {
  }

  lemma Distances(m: int, u: int, q: int, k: int)
    requires u >= 1 && q == m / u
    ensures m - k * u == (q - k) * u + m % u
  {
    assert m == q * u + m % u;
  }

  lemma MultipleBounds(t: int, u: int)
    requires u >= 1
    ensures t >= 1 ==> t * u >= u
    ensures t <= -1 ==> t * u <= -u
    ensures t <= -2 ==> t * u <= -2 * u
  {
    if t >= 1 {
      assert (t - 1) * u >= 0;
    } else if t <= -2 {
      assert (-t - 2) * u >= 0;
    }
  }

  /** By how much the rounded product of a round misses the exact product. */
  function Slip(hash: int, c: CodeUnit): int
    requires 0 <= hash < TWO_32
  {
    var p := ToSigned(Xor(hash, c)) * PRIME;
    RoundToDouble(p) - p
  }

  function Magnitude(p: int): int {
    if p >= 0 then p else -p
  }

  /**
   * A round agrees with the exact modular product of the published FNV-1a up to a slip of at most 4, and agrees exactly
   * if and only if the double nearest to the signed product is the product itself: its magnitude is a multiple of the
   * spacing of doubles there. Up to 2^53 it always is.
   */
  lemma {:induction false} HashStepIsNearlyExact(hash: int, c: CodeUnit)
    requires 0 <= hash < TWO_32
    ensures -4 <= Slip(hash, c) <= 4
    ensures HashStep(hash, c) == (Xor(hash, c) * PRIME + Slip(hash, c)) % TWO_32
    ensures var m := Magnitude(ToSigned(Xor(hash, c)) * PRIME);
            && (HashStep(hash, c) == Xor(hash, c) * PRIME % TWO_32 <==> m % Spacing(m, 1) == 0)
            && (m <= TWO_53 ==> m % Spacing(m, 1) == 0)
  {
    var (x, signed) := (Xor(hash, c), ToSigned(Xor(hash, c)));
    var p := signed * PRIME;
    var m := Magnitude(p);
    SpacingIsSmall(m);
    NearestIsNear(m, Spacing(m, 1));
    var (exact, slip) := (x * PRIME, Slip(hash, c));
    var k := if signed == x then 0 else PRIME;
    assert p == exact - k * TWO_32;
    ModularShift(exact + slip, k);
    SmallShiftShows(exact, slip);
  }

  lemma ModularShift(n: int, k: int)
    ensures (n - k * TWO_32) % TWO_32 == n % TWO_32
  {
  }

  lemma SmallShiftShows(n: int, slip: int)
    requires -4 <= slip <= 4
    ensures (n + slip) % TWO_32 == n % TWO_32 <==> slip == 0
  {
  }

  // ---- against the published FNV-1a ----

  /** One round of FNV-1a, on unsigned 32-bit numbers. */
  function ExactStep(hash: int, c: CodeUnit): (r: int)
    requires 0 <= hash < TWO_32
    ensures 0 <= r < TWO_32
  {
    Xor(hash, c) * PRIME % TWO_32
  }

  function ExactFnv1a(input: JsString): (r: int)
    ensures 0 <= r < TWO_32
  {
    if input == [] then OFFSET else ExactStep(ExactFnv1a(input[..|input| - 1]), input[|input| - 1])
  }

  predicate AgreeThroughout(input: JsString) {
    Fnv1a(input) == ExactFnv1a(input) && (input != [] ==> AgreeThroughout(input[..|input| - 1]))
  }

  /** The signed product of this round is a double. */
  predicate ExactProduct(hash: int, c: CodeUnit)
    requires 0 <= hash < TWO_32
  {
    var m := Magnitude(ToSigned(Xor(hash, c)) * PRIME);
    m % Spacing(m, 1) == 0
  }

  /** Every product that FNV-1a itself would form is a double. */
  predicate ExactProducts(input: JsString) {
    input != [] ==>
      var n := |input| - 1;
      ExactProducts(input[..n]) && ExactProduct(ExactFnv1a(input[..n]), input[n])
  }

  /** The loop follows FNV-1a on all prefixes of a text if and only if no signed product on FNV-1a's way is rounded. */
  lemma {:induction false} FollowsFnv1aExactly(input: JsString)
    ensures AgreeThroughout(input) <==> ExactProducts(input)
  {
    if input != [] {
      var n := |input| - 1;
      FollowsFnv1aExactly(input[..n]);
      HashStepIsNearlyExact(ExactFnv1a(input[..n]), input[n]);
    }
  }

  /** What one round makes of the rounded hash and of the exact one. */
  predicate Steps(hash: int, exact: int, c: CodeUnit, nextHash: int, nextExact: int) {
    0 <= hash < TWO_32 && 0 <= exact < TWO_32 && HashStep(hash, c) == nextHash && ExactStep(exact, c) == nextExact
  }

  /** The lowest bit, given the result for all others. */
  lemma XorBit(a: int, b: int, rest: int)
    requires a >= 0 && b > 0 && ExclusiveOr(a / 2, b / 2) == rest
    ensures ExclusiveOr(a, b) == 2 * rest + (a + b) % 2
  {
  }

  lemma XorOfColon()
    ensures Xor(OFFSET, 58) == 0x811c9dff
  {
    XorBit(0x408e4ee, 1, 0x2047277);
    XorBit(0x811c9dc, 3, 0x408e4ef);
    XorBit(0x102393b8, 7, 0x811c9df);
    XorBit(0x20472771, 14, 0x102393bf);
    XorBit(0x408e4ee2, 29, 0x2047277f);
    XorBit(0x811c9dc5, 58, 0x408e4eff);
  }

  lemma XorsOfZero(hash: int, exact: int)
    requires hash == 0x3f0cb86c && exact == 0x3f0cb86d
    ensures Xor(hash, 48) == 0x3f0cb85c && Xor(exact, 48) == 0x3f0cb85d
  {
    XorBit(0x1f865c3, 1, 0xfc32e1);
    XorBit(0x3f0cb86, 3, 0x1f865c2);
    XorBit(0x7e1970d, 6, 0x3f0cb85);
    XorBit(0xfc32e1b, 12, 0x7e1970b);
    XorBit(0x1f865c36, 24, 0xfc32e17);
    XorBit(0x3f0cb86c, 48, 0x1f865c2e);
    XorBit(0x1f865c3, 1, 0xfc32e1);
    XorBit(0x3f0cb86, 3, 0x1f865c2);
    XorBit(0x7e1970d, 6, 0x3f0cb85);
    XorBit(0xfc32e1b, 12, 0x7e1970b);
    XorBit(0x1f865c36, 24, 0xfc32e17);
    XorBit(0x3f0cb86d, 48, 0x1f865c2e);
  }

  lemma Roundings()
    ensures RoundToDouble(-35716715047503763) == -35716715047503764
    ensures RoundToDouble(17747335782480084) == 17747335782480084
  {
    SpacingIsSmall(35716715047503763);
    SpacingIsSmall(17747335782480084);
  }

  lemma Reduces(n: int, k: int, r: int)
    requires n == r + k * TWO_32 && 0 <= r < TWO_32
    ensures n % TWO_32 == r
  {
    ModularShift(n, k);
  }

  /** A round, given both xors, the rounded product, and what the reductions leave. */
  lemma Round(hash: int, exact: int, c: CodeUnit, x: int, y: int, rounded: int, nextHash: int, nextExact: int)
    requires 0 <= hash < TWO_32 && 0 <= exact < TWO_32 && Xor(hash, c) == x && Xor(exact, c) == y
    requires RoundToDouble(ToSigned(x) * PRIME) == rounded
    requires rounded % TWO_32 == nextHash && y * PRIME % TWO_32 == nextExact
    ensures Steps(hash, exact, c, nextHash, nextExact)
  {
  }

  lemma ColonRound()
    ensures Steps(OFFSET, OFFSET, 58, 0x3f0cb86c, 0x3f0cb86d)
  {
    XorOfColon();
    Roundings();
    Reduces(-35716715047503764, -8315946, 0x3f0cb86c);
    Reduces(0x811c9dff * PRIME, 8461673, 0x3f0cb86d);
    Round(OFFSET, OFFSET, 58, 0x811c9dff, 0x811c9dff, -35716715047503764, 0x3f0cb86c, 0x3f0cb86d);
  }

  lemma ZeroRound(hash: int, exact: int)
    requires hash == 0x3f0cb86c && exact == 0x3f0cb86d
    ensures Steps(hash, exact, 48, 0x9d0638d4, 0x9e063a67)
  {
    XorsOfZero(hash, exact);
    Roundings();
    Reduces(17747335782480084, 4132123, 0x9d0638d4);
    Reduces(0x3f0cb85d * PRIME, 4132123, 0x9e063a67);
    Round(hash, exact, 48, 0x3f0cb85c, 0x3f0cb85d, 17747335782480084, 0x9d0638d4, 0x9e063a67);
  }

  lemma HashesOneMore(input: JsString, c: CodeUnit)
    ensures Fnv1a(input + [c]) == HashStep(Fnv1a(input), c) && ExactFnv1a(input + [c]) == ExactStep(ExactFnv1a(input), c)
  {
    assert (input + [c])[..|input|] == input;
  }

  lemma TwoRounds(c: CodeUnit, d: CodeUnit, hash: int, exact: int, lastHash: int, lastExact: int)
    requires Steps(OFFSET, OFFSET, c, hash, exact) && Steps(hash, exact, d, lastHash, lastExact)
    ensures Fnv1a([] + [c] + [d]) == lastHash && ExactFnv1a([] + [c] + [d]) == lastExact
  {
    HashesOneMore([], c);
    HashesOneMore([] + [c], d);
  }

  /** The text `:0`, of the empty name with payload 0, does not get its FNV-1a hash. */
  lemma HashOfZeroIsNotFnv1a()
    ensures Fnv1a(KeyText([], Num([48]))) == 0x9d0638d4 && ExactFnv1a(KeyText([], Num([48]))) == 0x9e063a67
  {
    ColonRound();
    var (hash, exact) := (HashStep(OFFSET, 58), ExactStep(OFFSET, 58));
    ZeroRound(hash, exact);
    TwoRounds(58, 48, hash, exact, 0x9d0638d4, 0x9e063a67);
    assert KeyText([], Num([48])) == [] + [58] + [48];
  }

  // ---- ids are as fine as hashes ----

  lemma {:induction false} HexIsInjective(a: int, b: int)
    requires a >= 0 && b >= 0 && Hex(a) == Hex(b)
    ensures a == b
  {
    if a >= 16 && b >= 16 {
      var (x, y) := (Hex(a / 16), Hex(b / 16));
      assert x == Hex(a)[..|Hex(a)| - 1] == Hex(b)[..|Hex(b)| - 1] == y;
      assert HexDigit(a % 16) == Hex(a)[|Hex(a)| - 1] == HexDigit(b % 16);
      HexIsInjective(a / 16, b / 16);
    } else if a >= 16 {
      HexNotEmpty(a / 16);
    } else if b >= 16 {
      HexNotEmpty(b / 16);
    }
  }

  /** The number that a text of lower-case hexadecimal digits stands for. */
  function ReadHexNumber(t: JsString): Option<int> {
    if t == [] then Some(0)
    else
      match (ReadHexNumber(t[..|t| - 1]), Literals.HexValue(t[|t| - 1]))
      case (Some(high), Some(digit)) => if LowerHex(t[|t| - 1]) then Some(16 * high + digit) else None
      case _ => None
  }

  predicate LowerHex(c: CodeUnit) {
    '0' as int <= c as int <= '9' as int || 'a' as int <= c as int <= 'f' as int
  }

  /** A printed number reads back, and has no leading zero. */
  lemma {:induction false} HexIsReadBack(n: int)
    requires n >= 0
    ensures ReadHexNumber(Hex(n)) == Some(n) && Hex(n) != [] && (n > 0 ==> Hex(n)[0] != '0' as int as CodeUnit)
  {
    if n < 16 {
      assert [HexDigit(n)][..0] == [];
      assert ReadHexNumber([]) == Some(0);
    } else {
      var (high, digit) := (Hex(n / 16), HexDigit(n % 16));
      HexIsReadBack(n / 16);
      assert (high + [digit])[..|high|] == high;
    }
  }

  /** A derived id is `u_` and, in lower-case hexadecimal, the hash of the name, a colon and the canonical payload. */
  lemma DerivedIdSpellsTheHash(name: JsString, data: Json)
    ensures var id := ComputeUniqueId(name, data);
            && |id| > 2 && id[0] == 'u' as int as CodeUnit && id[1] == '_' as int as CodeUnit
            && ReadHexNumber(id[2..]) == Some(Fnv1a(name + [':' as int as CodeUnit] + Stringify(data)))
            && (id[2] == '0' as int as CodeUnit ==> Fnv1a(name + [':' as int as CodeUnit] + Stringify(data)) == 0)
  {
    var hash := Fnv1a(KeyText(name, data));
    HexIsReadBack(hash);
    assert ComputeUniqueId(name, data)[2..] == Hex(hash);
  }

  lemma HexNotEmpty(n: int)
    requires n >= 0
    ensures Hex(n) != []
  {
  }
}
