/** The contract hash against the Secure Hash Standard (FIPS 180-4): numbers that
    are signed 32-bit integers between operations stand for the standard's words,
    and the loops compute the standard's schedule, rounds and padding. */
module Sha256 {
  const TWO32: nat := 0x1_0000_0000
  const TWO31: nat := 0x8000_0000

  type Word = n: nat | n < 0x1_0000_0000
  type Byte = n: nat | n < 256

  // ---- bits ----

  function Pow2(n: nat): (p: nat)
    ensures p > 0
  {
    if n == 0 then 1 else 2 * Pow2(n - 1)
  }

  function Bit(b: bool): nat { if b then 1 else 0 }

  /** An operation on each of the lowest `bits` bits. */
  function Bitwise(op: (bool, bool) -> bool, a: nat, b: nat, bits: nat): nat {
    if bits == 0 then 0 else 2 * Bitwise(op, a / 2, b / 2, bits - 1) + Bit(op(a % 2 == 1, b % 2 == 1))
  }

  lemma {:induction false} BitwiseFits(op: (bool, bool) -> bool, a: nat, b: nat, bits: nat)
    ensures Bitwise(op, a, b, bits) < Pow2(bits)
    decreases bits
  {
    if bits > 0 { BitwiseFits(op, a / 2, b / 2, bits - 1); }
  }

  lemma Pow2Of32()
    ensures Pow2(32) == TWO32
  {
    assert Pow2(8) == 256;
    assert Pow2(16) == 0x10000;
    assert Pow2(24) == 0x1000000;
  }

  predicate Both(x: bool, y: bool) { x && y }
  predicate Either(x: bool, y: bool) { x || y }
  predicate Differ(x: bool, y: bool) { x != y }

  function And(a: Word, b: Word): Word { Fits(Both, a, b) }
  function Or(a: Word, b: Word): Word { Fits(Either, a, b) }
  function Xor(a: Word, b: Word): Word { Fits(Differ, a, b) }
  function Not(a: Word): Word { TWO32 - 1 - a }

  function Fits(op: (bool, bool) -> bool, a: Word, b: Word): Word {
    BitwiseFits(op, a, b, 32);
    Pow2Of32();
    Bitwise(op, a, b, 32)
  }

  // ---- the host's operators: operands as words, results signed ----

  function ToUint32(x: int): Word { x % TWO32 }

  function ToInt32(x: int): int { if ToUint32(x) >= TWO31 then ToUint32(x) - TWO32 else ToUint32(x) }

  function JsAnd(a: int, b: int): int { ToInt32(And(ToUint32(a), ToUint32(b))) }
  function JsOr(a: int, b: int): int { ToInt32(Or(ToUint32(a), ToUint32(b))) }
  function JsXor(a: int, b: int): int { ToInt32(Xor(ToUint32(a), ToUint32(b))) }
  function JsNot(a: int): int { -ToInt32(a) - 1 }
  function JsLeft(a: int, n: nat): int { ToInt32(ToUint32(a) * Pow2(n)) }
  function JsRight(a: int, n: nat): Word { Shift(ToUint32(a), n) }

  function Rotate(value: int, count: nat): int
    requires count <= 32
  {
    JsOr(JsRight(value, count), JsLeft(value, 32 - count))
  }

  // ---- the standard: section 3.2 and section 4.1.2 ----

  /** Dropping the lowest n bits. */
  function Shift(x: Word, n: nat): Word {
    if n == 0 then x else Shift(x / 2, n - 1)
  }

  function Rotr(n: nat, x: Word): Word
    requires n <= 32
  {
    Or(Shift(x, n), (x * Pow2(32 - n)) % TWO32)
  }

  function Ch(x: Word, y: Word, z: Word): Word { Xor(And(x, y), And(Not(x), z)) }
  function Maj(x: Word, y: Word, z: Word): Word { Xor(Xor(And(x, y), And(x, z)), And(y, z)) }
  function Sum0(x: Word): Word { Xor(Xor(Rotr(2, x), Rotr(13, x)), Rotr(22, x)) }
  function Sum1(x: Word): Word { Xor(Xor(Rotr(6, x), Rotr(11, x)), Rotr(25, x)) }
  function Sigma0(x: Word): Word { Xor(Xor(Rotr(7, x), Rotr(18, x)), Shift(x, 3)) }
  function Sigma1(x: Word): Word { Xor(Xor(Rotr(17, x), Rotr(19, x)), Shift(x, 10)) }

  function Plus(x: Word, y: Word): Word { (x + y) % TWO32 }

  // ---- signed numbers stand for words ----

  lemma SignedIsWord(x: int)
    ensures ToUint32(ToInt32(x)) == ToUint32(x)
  {
  }

  lemma NotIsNot(x: Word)
    ensures ToUint32(JsNot(x)) == Not(x)
  {
  }

  lemma WordIsItself(x: Word)
    ensures ToUint32(x) == x
  {
  }

  lemma SignedWord(w: Word)
    ensures ToUint32(ToInt32(w)) == w
  {
    WordIsItself(w);
    SignedIsWord(w);
  }

  lemma XorWords(a: int, b: int, x: Word, y: Word)
    requires ToUint32(a) == x && ToUint32(b) == y
    ensures ToUint32(JsXor(a, b)) == Xor(x, y)
  {
    SignedWord(Xor(x, y));
  }

  lemma AndWords(a: int, b: int, x: Word, y: Word)
    requires ToUint32(a) == x && ToUint32(b) == y
    ensures ToUint32(JsAnd(a, b)) == And(x, y)
  {
    SignedWord(And(x, y));
  }

  lemma OrWords(a: int, b: int, x: Word, y: Word)
    requires ToUint32(a) == x && ToUint32(b) == y
    ensures ToUint32(JsOr(a, b)) == Or(x, y)
  {
    SignedWord(Or(x, y));
  }

  lemma XorOfThree(a: int, b: int, c: int, x: Word, y: Word, z: Word)
    requires ToUint32(a) == x && ToUint32(b) == y && ToUint32(c) == z
    ensures ToUint32(JsXor(JsXor(a, b), c)) == Xor(Xor(x, y), z)
  {
    XorWords(a, b, x, y);
    XorWords(JsXor(a, b), c, Xor(x, y), z);
  }

  lemma LeftIsTimes(x: Word, n: nat)
    ensures ToUint32(JsLeft(x, n)) == (x * Pow2(n)) % TWO32
  {
    WordIsItself(x);
    SignedIsWord(x * Pow2(n));
  }

  lemma RotateIsRotr(x: Word, n: nat)
    requires n <= 32
    ensures ToUint32(Rotate(x, n)) == Rotr(n, x)
  {
    WordIsItself(x);
    WordIsItself(Shift(x, n));
    LeftIsTimes(x, 32 - n);
    OrWords(JsRight(x, n), JsLeft(x, 32 - n), Shift(x, n), (x * Pow2(32 - n)) % TWO32);
  }

  // ---- the program's six functions ----

  function JsSigma0(left: Word): int { JsXor(JsXor(Rotate(left, 7), Rotate(left, 18)), JsRight(left, 3)) }
  function JsSigma1(right: Word): int { JsXor(JsXor(Rotate(right, 17), Rotate(right, 19)), JsRight(right, 10)) }
  function JsSum0(a: Word): int { JsXor(JsXor(Rotate(a, 2), Rotate(a, 13)), Rotate(a, 22)) }
  function JsSum1(e: Word): int { JsXor(JsXor(Rotate(e, 6), Rotate(e, 11)), Rotate(e, 25)) }
  function JsChoose(e: Word, f: Word, g: Word): int { JsXor(JsAnd(e, f), JsAnd(JsNot(e), g)) }
  function JsMajority(a: Word, b: Word, c: Word): int { JsXor(JsXor(JsAnd(a, b), JsAnd(a, c)), JsAnd(b, c)) }

  lemma ThreeRotations(x: Word, i: nat, j: nat, k: nat)
    requires i <= 32 && j <= 32 && k <= 32
    ensures ToUint32(JsXor(JsXor(Rotate(x, i), Rotate(x, j)), Rotate(x, k)))
         == Xor(Xor(Rotr(i, x), Rotr(j, x)), Rotr(k, x))
  {
    RotateIsRotr(x, i);
    RotateIsRotr(x, j);
    RotateIsRotr(x, k);
    XorOfThree(Rotate(x, i), Rotate(x, j), Rotate(x, k), Rotr(i, x), Rotr(j, x), Rotr(k, x));
  }

  lemma TwoRotationsAndShift(x: Word, i: nat, j: nat, k: nat)
    requires i <= 32 && j <= 32
    ensures ToUint32(JsXor(JsXor(Rotate(x, i), Rotate(x, j)), JsRight(x, k)))
         == Xor(Xor(Rotr(i, x), Rotr(j, x)), Shift(x, k))
  {
    RotateIsRotr(x, i);
    RotateIsRotr(x, j);
    WordIsItself(x);
    WordIsItself(Shift(x, k));
    XorOfThree(Rotate(x, i), Rotate(x, j), JsRight(x, k), Rotr(i, x), Rotr(j, x), Shift(x, k));
  }

  lemma ChooseIsCh(e: Word, f: Word, g: Word)
    ensures ToUint32(JsChoose(e, f, g)) == Ch(e, f, g)
  {
    NotIsNot(e);
    WordIsItself(e);
    WordIsItself(f);
    WordIsItself(g);
    AndWords(e, f, e, f);
    AndWords(JsNot(e), g, Not(e), g);
    XorWords(JsAnd(e, f), JsAnd(JsNot(e), g), And(e, f), And(Not(e), g));
  }

  lemma MajorityIsMaj(a: Word, b: Word, c: Word)
    ensures ToUint32(JsMajority(a, b, c)) == Maj(a, b, c)
  {
    WordIsItself(a);
    WordIsItself(b);
    WordIsItself(c);
    AndWords(a, b, a, b);
    AndWords(a, c, a, c);
    AndWords(b, c, b, c);
    XorOfThree(JsAnd(a, b), JsAnd(a, c), JsAnd(b, c), And(a, b), And(a, c), And(b, c));
  }

  lemma SumIsPlus(x: int, y: int)
    ensures ToUint32(x + y) == Plus(ToUint32(x), ToUint32(y))
  {
    assert x + y == (x / TWO32 + y / TWO32) * TWO32 + (x % TWO32 + y % TWO32);
  }

  // ---- bytes into words ----

  lemma {:induction false} OrZero(a: nat, bits: nat)
    requires a < Pow2(bits)
    ensures Bitwise(Either, a, 0, bits) == a
    decreases bits
  {
    if bits > 0 { OrZero(a / 2, bits - 1); }
  }

  /** Bits that do not overlap can be added. */
  lemma {:induction false} DisjointOr(q: nat, k: nat, b: nat, bits: nat)
    requires b < Pow2(k) && k <= bits && q * Pow2(k) < Pow2(bits)
    ensures Bitwise(Either, q * Pow2(k), b, bits) == q * Pow2(k) + b
    decreases bits
  {
    if k == 0 {
      OrZero(q, bits);
    } else {
      assert q * Pow2(k) == 2 * (q * Pow2(k - 1));
      DisjointOr(q, k - 1, b / 2, bits - 1);
    }
  }

  // ---- constants: sections 4.2.2 and 5.3.3 ----

  /** The first 64 primes, eight to a row. */
  const PRIMES: seq<seq<nat>> := [
    [2, 3, 5, 7, 11, 13, 17, 19],
    [23, 29, 31, 37, 41, 43, 47, 53],
    [59, 61, 67, 71, 73, 79, 83, 89],
    [97, 101, 103, 107, 109, 113, 127, 131],
    [137, 139, 149, 151, 157, 163, 167, 173],
    [179, 181, 191, 193, 197, 199, 211, 223],
    [227, 229, 233, 239, 241, 251, 257, 263],
    [269, 271, 277, 281, 283, 293, 307, 311]]

  const CONSTANTS: seq<seq<Word>> := [
    [0x428a2f98, 0x71374491, 0xb5c0fbcf, 0xe9b5dba5, 0x3956c25b, 0x59f111f1, 0x923f82a4, 0xab1c5ed5],
    [0xd807aa98, 0x12835b01, 0x243185be, 0x550c7dc3, 0x72be5d74, 0x80deb1fe, 0x9bdc06a7, 0xc19bf174],
    [0xe49b69c1, 0xefbe4786, 0x0fc19dc6, 0x240ca1cc, 0x2de92c6f, 0x4a7484aa, 0x5cb0a9dc, 0x76f988da],
    [0x983e5152, 0xa831c66d, 0xb00327c8, 0xbf597fc7, 0xc6e00bf3, 0xd5a79147, 0x06ca6351, 0x14292967],
    [0x27b70a85, 0x2e1b2138, 0x4d2c6dfc, 0x53380d13, 0x650a7354, 0x766a0abb, 0x81c2c92e, 0x92722c85],
    [0xa2bfe8a1, 0xa81a664b, 0xc24b8b70, 0xc76c51a3, 0xd192e819, 0xd6990624, 0xf40e3585, 0x106aa070],
    [0x19a4c116, 0x1e376c08, 0x2748774c, 0x34b0bcb5, 0x391c0cb3, 0x4ed8aa4a, 0x5b9cca4f, 0x682e6ff3],
    [0x748f82ee, 0x78a5636f, 0x84c87814, 0x8cc70208, 0x90befffa, 0xa4506ceb, 0xbef9a3f7, 0xc67178f2]]

  function K(t: nat): Word
    requires t < 64
  {
    assert |CONSTANTS| == 8 && |CONSTANTS[t / 8]| == 8;
    CONSTANTS[t / 8][t % 8]
  }

  datatype Vars = Vars(a: Word, b: Word, c: Word, d: Word, e: Word, f: Word, g: Word, h: Word)

  const INITIAL := Vars(0x6a09e667, 0xbb67ae85, 0x3c6ef372, 0xa54ff53a, 0x510e527f, 0x9b05688c, 0x1f83d9ab, 0x5be0cd19)

  /** The word holds the first 32 bits of the fraction of the cube root. */
  ghost predicate CubeRootIs(prime: nat, whole: nat, word: Word) {
    var root := whole * TWO32 + word;
    root * root * root <= prime * TWO32 * TWO32 * TWO32 < (root + 1) * (root + 1) * (root + 1)
  }

  /** Likewise of the square root. */
  ghost predicate SquareRootIs(prime: nat, whole: nat, word: Word) {
    var root := whole * TWO32 + word;
    root * root <= prime * TWO32 * TWO32 < (root + 1) * (root + 1)
  }

  /** Each constant is the fraction of its prime's cube root, the root's whole part given. */
  ghost predicate CubeRootsAre(primes: seq<nat>, wholes: seq<nat>, words: seq<Word>) {
    |primes| == |wholes| == |words| == 8 && forall i :: 0 <= i < 8 ==> CubeRootIs(primes[i], wholes[i], words[i])
  }

  const WHOLES: seq<seq<nat>> := [
    [1, 1, 1, 1, 2, 2, 2, 2],
    [2, 3, 3, 3, 3, 3, 3, 3],
    [3, 3, 4, 4, 4, 4, 4, 4],
    [4, 4, 4, 4, 4, 4, 5, 5],
    [5, 5, 5, 5, 5, 5, 5, 5],
    [5, 5, 5, 5, 5, 5, 5, 6],
    [6, 6, 6, 6, 6, 6, 6, 6],
    [6, 6, 6, 6, 6, 6, 6, 6]]

  lemma EightHold(holds: int -> bool)
    requires holds(0) && holds(1) && holds(2) && holds(3) && holds(4) && holds(5) && holds(6) && holds(7)
    ensures forall i :: 0 <= i < 8 ==> holds(i)
  {
  }

  lemma EightCubeRoots(primes: seq<nat>, wholes: seq<nat>, words: seq<Word>)
    requires |primes| == |wholes| == |words| == 8
    requires CubeRootIs(primes[0], wholes[0], words[0]) && CubeRootIs(primes[1], wholes[1], words[1])
    requires CubeRootIs(primes[2], wholes[2], words[2]) && CubeRootIs(primes[3], wholes[3], words[3])
    requires CubeRootIs(primes[4], wholes[4], words[4]) && CubeRootIs(primes[5], wholes[5], words[5])
    requires CubeRootIs(primes[6], wholes[6], words[6]) && CubeRootIs(primes[7], wholes[7], words[7])
    ensures CubeRootsAre(primes, wholes, words)
  {
    var holds := (i: int) => 0 <= i < 8 && CubeRootIs(primes[i], wholes[i], words[i]);
    EightHold(holds);
    assert forall i :: 0 <= i < 8 ==> holds(i);
  }

  lemma FirstRow()
    ensures CubeRootsAre(PRIMES[0], WHOLES[0], CONSTANTS[0])
  {
    EightCubeRoots(PRIMES[0], WHOLES[0], CONSTANTS[0]);
  }

  lemma SecondRow()
    ensures CubeRootsAre(PRIMES[1], WHOLES[1], CONSTANTS[1])
  {
    EightCubeRoots(PRIMES[1], WHOLES[1], CONSTANTS[1]);
  }

  lemma ThirdRow()
    ensures CubeRootsAre(PRIMES[2], WHOLES[2], CONSTANTS[2])
  {
    EightCubeRoots(PRIMES[2], WHOLES[2], CONSTANTS[2]);
  }

  lemma FourthRow()
    ensures CubeRootsAre(PRIMES[3], WHOLES[3], CONSTANTS[3])
  {
    EightCubeRoots(PRIMES[3], WHOLES[3], CONSTANTS[3]);
  }

  lemma FifthRow()
    ensures CubeRootsAre(PRIMES[4], WHOLES[4], CONSTANTS[4])
  {
    EightCubeRoots(PRIMES[4], WHOLES[4], CONSTANTS[4]);
  }

  lemma SixthRow()
    ensures CubeRootsAre(PRIMES[5], WHOLES[5], CONSTANTS[5])
  {
    EightCubeRoots(PRIMES[5], WHOLES[5], CONSTANTS[5]);
  }

  lemma SeventhRow()
    ensures CubeRootsAre(PRIMES[6], WHOLES[6], CONSTANTS[6])
  {
    EightCubeRoots(PRIMES[6], WHOLES[6], CONSTANTS[6]);
  }

  lemma EighthRow()
    ensures CubeRootsAre(PRIMES[7], WHOLES[7], CONSTANTS[7])
  {
    EightCubeRoots(PRIMES[7], WHOLES[7], CONSTANTS[7]);
  }

  /** Every constant of the program is the one the standard asks for. */
  lemma ConstantsAreCubeRoots(row: nat, i: nat)
    requires row < 8 && i < 8
    ensures exists whole: nat :: CubeRootIs(PRIMES[row][i], whole, CONSTANTS[row][i])
  {
    RowsAreCubeRoots(row);
    assert CubeRootIs(PRIMES[row][i], WHOLES[row][i], CONSTANTS[row][i]);
  }

  lemma RowsAreCubeRoots(row: nat)
    requires row < 8
    ensures CubeRootsAre(PRIMES[row], WHOLES[row], CONSTANTS[row])
  {
    match row
    case 0 => FirstRow();
    case 1 => SecondRow();
    case 2 => ThirdRow();
    case 3 => FourthRow();
    case 4 => FifthRow();
    case 5 => SixthRow();
    case 6 => SeventhRow();
    case 7 => EighthRow();
  }

  /** The initial words are the fractions of the square roots of the first eight primes. */
  lemma InitialWordsAreSquareRoots()
    ensures SquareRootIs(2, 1, INITIAL.a) && SquareRootIs(3, 1, INITIAL.b) && SquareRootIs(5, 2, INITIAL.c)
    ensures SquareRootIs(7, 2, INITIAL.d)
    ensures SquareRootIs(11, 3, INITIAL.e) && SquareRootIs(13, 3, INITIAL.f) && SquareRootIs(17, 4, INITIAL.g)
    ensures SquareRootIs(19, 4, INITIAL.h)
  {
  }

  // ---- the standard: padding, section 5.1.1 ----

  function WordBytes(w: Word): seq<Byte> {
    [w / 0x1000000, w / 0x10000 % 256, w / 0x100 % 256, w % 256]
  }

  function BigEndian(bytes: seq<Byte>): nat {
    if bytes == [] then 0 else 256 * BigEndian(bytes[..|bytes| - 1]) + bytes[|bytes| - 1]
  }

  function Zeros(n: nat): (zeros: seq<Byte>)
    ensures |zeros| == n && forall i :: 0 <= i < n ==> zeros[i] == 0
  {
    seq(n, _ => 0)
  }

  predicate Hashable(message: seq<Byte>) { 8 * |message| < TWO32 * TWO32 }

  function Padded(message: seq<Byte>): seq<Byte>
    requires Hashable(message)
  {
    var bits := 8 * |message|;
    message + [0x80] + Zeros(ZeroCount(|message|)) + WordBytes(bits / TWO32) + WordBytes(bits % TWO32)
  }

  /** The padding fills whole blocks and ends with the length of the message in bits. */
  lemma PaddingFillsBlocks(message: seq<Byte>)
    requires Hashable(message)
    ensures |Padded(message)| % 64 == 0
    ensures BigEndian(Padded(message)[|Padded(message)| - 8..]) == 8 * |message|
  {
    var bits := 8 * |message|;
    var front := message + [0x80] + Zeros(ZeroCount(|message|));
    WholeBlocks(|message|);
    TwoWordsValue(bits / TWO32, bits % TWO32);
    assert Padded(message) == front + (WordBytes(bits / TWO32) + WordBytes(bits % TWO32));
  }

  lemma WholeBlocks(length: nat)
    ensures (length + 1 + ZeroCount(length) + 8) % 64 == 0
  {
  }

  lemma TwoWordsValue(high: Word, low: Word)
    ensures BigEndian(WordBytes(high) + WordBytes(low)) == high * TWO32 + low
  {
    WordBytesValue(WordBytes(high), low);
    WordBytesValue([], high);
    assert [] + WordBytes(high) == WordBytes(high);
  }

  /** Four bytes as one word, the first one on top. */
  function Packed(b0: nat, b1: nat, b2: nat, b3: nat): nat { ((b0 * 256 + b1) * 256 + b2) * 256 + b3 }

  lemma OneMoreByte(front: seq<Byte>, b: Byte)
    ensures BigEndian(front + [b]) == 256 * BigEndian(front) + b
  {
    assert (front + [b])[..|front|] == front;
  }

  lemma PackedBytes(w: Word)
    ensures var b := WordBytes(w); |b| == 4 && Packed(b[0], b[1], b[2], b[3]) == w
  {
    var x, y, z := w / 0x100, w / 0x10000, w / 0x1000000;
    assert w == 256 * x + w % 256;
    assert x == 256 * y + x % 256;
    assert y == 256 * z + y % 256;
  }

  lemma WordBytesValue(front: seq<Byte>, w: Word)
    ensures BigEndian(front + WordBytes(w)) == BigEndian(front) * TWO32 + w
  {
    var b := WordBytes(w);
    PackedBytes(w);
    OneMoreByte(front, b[0]);
    OneMoreByte(front + [b[0]], b[1]);
    OneMoreByte(front + [b[0]] + [b[1]], b[2]);
    OneMoreByte(front + [b[0]] + [b[1]] + [b[2]], b[3]);
    assert front + b == front + [b[0]] + [b[1]] + [b[2]] + [b[3]];
  }

  // ---- the standard: computation, section 6.2.2 ----

  function BlockWord(m: seq<Byte>, block: nat, t: nat): Word
    requires t < 16 && 64 * block + 64 <= |m|
  {
    var at := 64 * block + 4 * t;
    Packed(m[at], m[at + 1], m[at + 2], m[at + 3])
  }

  function Schedule(m: seq<Byte>, block: nat, t: nat): Word
    requires t < 64 && 64 * block + 64 <= |m|
  {
    if t < 16 then BlockWord(m, block, t)
    else
      var last := Plus(Sigma1(Schedule(m, block, t - 2)), Schedule(m, block, t - 7));
      Plus(Plus(last, Sigma0(Schedule(m, block, t - 15))), Schedule(m, block, t - 16))
  }

  function Round(v: Vars, k: Word, w: Word): Vars {
    var t1 := Plus(Plus(Plus(Plus(v.h, Sum1(v.e)), Ch(v.e, v.f, v.g)), k), w);
    var t2 := Plus(Sum0(v.a), Maj(v.a, v.b, v.c));
    Vars(Plus(t1, t2), v.a, v.b, v.c, Plus(v.d, t1), v.e, v.f, v.g)
  }

  function Rounds(v: Vars, m: seq<Byte>, block: nat, t: nat): Vars
    requires t <= 64 && 64 * block + 64 <= |m|
  {
    if t == 0 then v else Round(Rounds(v, m, block, t - 1), K(t - 1), Schedule(m, block, t - 1))
  }

  function Added(v: Vars, w: Vars): Vars {
    Vars(Plus(v.a, w.a), Plus(v.b, w.b), Plus(v.c, w.c), Plus(v.d, w.d),
         Plus(v.e, w.e), Plus(v.f, w.f), Plus(v.g, w.g), Plus(v.h, w.h))
  }

  function Digest(m: seq<Byte>, blocks: nat): Vars
    requires 64 * blocks <= |m|
  {
    if blocks == 0 then INITIAL
    else
      var before := Digest(m, blocks - 1);
      Added(before, Rounds(before, m, blocks - 1, 64))
  }

  function Standard(message: seq<Byte>): Vars
    requires Hashable(message)
  {
    Digest(Padded(message), |Padded(message)| / 64)
  }

  // ---- the program ----

  lemma SomePowers()
    ensures Pow2(8) == 0x100 && Pow2(16) == 0x10000 && Pow2(24) == 0x1000000
  {
    assert Pow2(4) == 16;
    assert Pow2(12) == 0x1000;
    assert Pow2(20) == 0x100000;
  }

  function JsWord(b0: Byte, b1: Byte, b2: Byte, b3: Byte): Word {
    ToUint32(JsOr(JsOr(JsOr(JsLeft(b0, 24), JsLeft(b1, 16)), JsLeft(b2, 8)), b3))
  }

  /** A number above `scale`'s bits and one within them join by adding. */
  lemma OrIsSum(q: nat, k: nat, scale: nat, high: Word, low: Word)
    requires k <= 32 && scale == Pow2(k) && low < scale && high == q * scale
    ensures Or(high, low) == high + low
  {
    Pow2Of32();
    DisjointOr(q, k, low, 32);
  }

  lemma LeftOfByte(b: Byte, n: nat, scale: nat, shifted: Word)
    requires scale == Pow2(n) && shifted == b * scale
    ensures ToUint32(JsLeft(b, n)) == shifted
  {
    LeftIsTimes(b, n);
    WordIsItself(shifted);
  }

  lemma JoinWords(a: int, b: int, x: Word, y: Word, sum: Word)
    requires ToUint32(a) == x && ToUint32(b) == y && Or(x, y) == sum
    ensures ToUint32(JsOr(a, b)) == sum
  {
    OrWords(a, b, x, y);
  }

  lemma TopBytes(b0: Byte, b1: Byte)
    ensures ToUint32(JsOr(JsLeft(b0, 24), JsLeft(b1, 16))) == b0 * 0x1000000 + b1 * 0x10000
  {
    var x0: Word, x1: Word := b0 * 0x1000000, b1 * 0x10000;
    SomePowers();
    LeftOfByte(b0, 24, 0x1000000, x0);
    LeftOfByte(b1, 16, 0x10000, x1);
    OrIsSum(b0, 24, 0x1000000, x0, x1);
    JoinWords(JsLeft(b0, 24), JsLeft(b1, 16), x0, x1, x0 + x1);
  }

  lemma ThirdByte(top: int, q: nat, x: Word, b2: Byte)
    requires ToUint32(top) == x && x == q * 0x10000
    ensures ToUint32(JsOr(top, JsLeft(b2, 8))) == x + b2 * 0x100
  {
    var x2: Word := b2 * 0x100;
    SomePowers();
    LeftOfByte(b2, 8, 0x100, x2);
    OrIsSum(q, 16, 0x10000, x, x2);
    JoinWords(top, JsLeft(b2, 8), x, x2, x + x2);
  }

  lemma FourthByte(top: int, q: nat, x: Word, b3: Byte)
    requires ToUint32(top) == x && x == q * 0x100
    ensures ToUint32(JsOr(top, b3)) == x + b3
  {
    SomePowers();
    WordIsItself(b3);
    OrIsSum(q, 8, 0x100, x, b3);
    JoinWords(top, b3, x, b3, x + b3);
  }

  lemma WordOfBytes(b0: Byte, b1: Byte, b2: Byte, b3: Byte)
    ensures JsWord(b0, b1, b2, b3) == Packed(b0, b1, b2, b3)
  {
    var two := JsOr(JsLeft(b0, 24), JsLeft(b1, 16));
    TopBytes(b0, b1);
    ThirdByte(two, b0 * 256 + b1, b0 * 0x1000000 + b1 * 0x10000, b2);
    FourthByte(JsOr(two, JsLeft(b2, 8)), (b0 * 256 + b1) * 256 + b2, b0 * 0x1000000 + b1 * 0x10000 + b2 * 0x100, b3);
  }

  lemma SumOfFour(x: int, y: int, z: int, w: int)
    ensures ToUint32(x + y + z + w) == Plus(Plus(Plus(ToUint32(x), ToUint32(y)), ToUint32(z)), ToUint32(w))
  {
    SumIsPlus(x, y);
    SumIsPlus(x + y, z);
    SumIsPlus(x + y + z, w);
  }

  method SmallSigma0(left: Word) returns (sum: int)
    ensures ToUint32(sum) == Sigma0(left)
  {
    TwoRotationsAndShift(left, 7, 18, 3);
    sum := JsSigma0(left);
  }

  method SmallSigma1(right: Word) returns (sum: int)
    ensures ToUint32(sum) == Sigma1(right)
  {
    TwoRotationsAndShift(right, 17, 19, 10);
    sum := JsSigma1(right);
  }

  lemma ScheduleSum(a: Word, b: Word, s0: int, s1: int, w0: Word, w1: Word)
    requires ToUint32(s0) == w0 && ToUint32(s1) == w1
    ensures ToUint32(a + s0 + b + s1) == Plus(Plus(Plus(w1, b), w0), a)
  {
    WordIsItself(a);
    WordIsItself(b);
    SumOfFour(s1, b, s0, a);
    assert s1 + b + s0 + a == a + s0 + b + s1;
  }

  method NextWord(words: array<Word>, m: seq<Byte>, block: nat, index: nat) returns (word: Word)
    requires words.Length == 64 && 64 * block + 64 <= |m| && 16 <= index < 64 && Filled(words[..], m, block, index)
    ensures word == Schedule(m, block, index)
  {
    var a, left, b, right := words[index - 16], words[index - 15], words[index - 7], words[index - 2];
    assert words[..][index - 16] == a && words[..][index - 15] == left && words[..][index - 7] == b;
    assert words[..][index - 2] == right;
    var s0 := SmallSigma0(left);
    var s1 := SmallSigma1(right);
    ScheduleSum(a, b, s0, s1, Sigma0(left), Sigma1(right));
    word := ToUint32(a + s0 + b + s1);
  }

  method PackWord(b0: Byte, b1: Byte, b2: Byte, b3: Byte) returns (word: Word)
    ensures word == Packed(b0, b1, b2, b3)
  {
    WordOfBytes(b0, b1, b2, b3);
    word := JsWord(b0, b1, b2, b3);
  }

  method FirstWord(m: seq<Byte>, block: nat, index: nat) returns (word: Word)
    requires 64 * block + 64 <= |m| && index < 16
    ensures word == Schedule(m, block, index)
  {
    var at := 64 * block + 4 * index;
    word := PackWord(m[at], m[at + 1], m[at + 2], m[at + 3]);
  }

  ghost predicate Filled(words: seq<Word>, m: seq<Byte>, block: nat, n: nat)
    requires 64 * block + 64 <= |m| && n <= 64
  {
    |words| == 64 && forall t :: 0 <= t < n ==> words[t] == Schedule(m, block, t)
  }

  method FillFirst(words: array<Word>, m: seq<Byte>, block: nat)
    requires words.Length == 64 && 64 * block + 64 <= |m|
    modifies words
    ensures Filled(words[..], m, block, 16)
  {
    for index := 0 to 16
      invariant Filled(words[..], m, block, index)
    {
      words[index] := FirstWord(m, block, index);
    }
  }

  method FillRest(words: array<Word>, m: seq<Byte>, block: nat)
    requires words.Length == 64 && 64 * block + 64 <= |m| && Filled(words[..], m, block, 16)
    modifies words
    ensures Filled(words[..], m, block, 64)
  {
    for index := 16 to 64
      invariant Filled(words[..], m, block, index)
    {
      words[index] := NextWord(words, m, block, index);
    }
  }

  method FillSchedule(words: array<Word>, m: seq<Byte>, block: nat)
    requires words.Length == 64 && 64 * block + 64 <= |m|
    modifies words
    ensures Filled(words[..], m, block, 64)
  {
    FillFirst(words, m, block);
    FillRest(words, m, block);
  }

  lemma SumOfFive(x1: int, x2: int, x3: int, x4: int, x5: int, w1: Word, w2: Word, w3: Word, w4: Word, w5: Word)
    requires ToUint32(x1) == w1 && ToUint32(x2) == w2 && ToUint32(x3) == w3 && ToUint32(x4) == w4 && ToUint32(x5) == w5
    ensures ToUint32(x1 + x2 + x3 + x4 + x5) == Plus(Plus(Plus(Plus(w1, w2), w3), w4), w5)
  {
    SumOfFour(x1, x2, x3, x4);
    SumIsPlus(x1 + x2 + x3 + x4, x5);
  }

  lemma FirstSum(e: Word, f: Word, g: Word, h: Word, k: Word, w: Word, sum1: int, choose: int)
    requires ToUint32(sum1) == Sum1(e) && ToUint32(choose) == Ch(e, f, g)
    ensures ToUint32(h + sum1 + choose + k + w) == Plus(Plus(Plus(Plus(h, Sum1(e)), Ch(e, f, g)), k), w)
  {
    WordIsItself(h);
    WordIsItself(k);
    WordIsItself(w);
    SumOfFive(h, sum1, choose, k, w, h, Sum1(e), Ch(e, f, g), k, w);
  }

  method FirstTemporary(e: Word, f: Word, g: Word, h: Word, k: Word, w: Word) returns (t1: Word)
    ensures t1 == Plus(Plus(Plus(Plus(h, Sum1(e)), Ch(e, f, g)), k), w)
  {
    var sum1, choose := JsSum1(e), JsChoose(e, f, g);
    ThreeRotations(e, 6, 11, 25);
    ChooseIsCh(e, f, g);
    FirstSum(e, f, g, h, k, w, sum1, choose);
    t1 := ToUint32(h + sum1 + choose + k + w);
  }

  method SecondTemporary(a: Word, b: Word, c: Word) returns (t2: Word)
    ensures t2 == Plus(Sum0(a), Maj(a, b, c))
  {
    var sum0, majority := JsSum0(a), JsMajority(a, b, c);
    ThreeRotations(a, 2, 13, 22);
    MajorityIsMaj(a, b, c);
    SumOfTwo(sum0, majority, Sum0(a), Maj(a, b, c));
    t2 := ToUint32(sum0 + majority);
  }

  lemma SumOfTwo(x: int, y: int, w: Word, v: Word)
    requires ToUint32(x) == w && ToUint32(y) == v
    ensures ToUint32(x + y) == Plus(w, v)
  {
    SumIsPlus(x, y);
  }

  method AddWords(x: Word, y: Word) returns (sum: Word)
    ensures sum == Plus(x, y)
  {
    sum := ToUint32(x + y);
  }

  method RunRounds(start: Vars, words: array<Word>, m: seq<Byte>, block: nat) returns (v: Vars)
    requires words.Length == 64 && 64 * block + 64 <= |m| && Filled(words[..], m, block, 64)
    ensures v == Rounds(start, m, block, 64)
  {
    var a: Word, b: Word, c: Word, d: Word := start.a, start.b, start.c, start.d;
    var e: Word, f: Word, g: Word, h: Word := start.e, start.f, start.g, start.h;
    for index := 0 to 64
      invariant Vars(a, b, c, d, e, f, g, h) == Rounds(start, m, block, index)
    {
      assert words[..][index] == Schedule(m, block, index);
      var temporary1 := FirstTemporary(e, f, g, h, K(index), words[index]);
      var temporary2 := SecondTemporary(a, b, c);
      h, g, f := g, f, e;
      e := AddWords(d, temporary1);
      d, c, b := c, b, a;
      a := AddWords(temporary1, temporary2);
    }
    v := Vars(a, b, c, d, e, f, g, h);
  }

  method AddState(state: Vars, v: Vars) returns (sum: Vars)
    ensures sum == Added(state, v)
  {
    sum := Vars(ToUint32(state.a + v.a), ToUint32(state.b + v.b), ToUint32(state.c + v.c), ToUint32(state.d + v.d),
                ToUint32(state.e + v.e), ToUint32(state.f + v.f), ToUint32(state.g + v.g), ToUint32(state.h + v.h));
  }

  /** The low eight bits are the remainder by 256. */
  lemma {:induction false} LowBits(x: nat, k: nat, bits: nat)
    requires k <= bits
    ensures Bitwise(Both, x, Pow2(k) - 1, bits) == x % Pow2(k)
    decreases bits
  {
    if k == 0 {
      AndZero(x, bits);
    } else {
      LowBits(x / 2, k - 1, bits - 1);
      MoreLowBits(x, Pow2(k - 1), Pow2(k), bits);
    }
  }

  lemma MoreLowBits(x: nat, half: nat, whole: nat, bits: nat)
    requires half > 0 && whole == 2 * half && bits > 0
    requires Bitwise(Both, x / 2, half - 1, bits - 1) == (x / 2) % half
    ensures Bitwise(Both, x, whole - 1, bits) == x % whole
  {
    var mask: nat := half - 1;
    OneMoreLowBit(x, mask, bits);
    HalfRest(x, half);
    assert whole - 1 == 2 * mask + 1;
  }

  lemma OneMoreLowBit(x: nat, mask: nat, bits: nat)
    requires bits > 0
    ensures Bitwise(Both, x, 2 * mask + 1, bits) == 2 * Bitwise(Both, x / 2, mask, bits - 1) + x % 2
  {
    assert (2 * mask + 1) / 2 == mask && (2 * mask + 1) % 2 == 1;
  }

  lemma {:induction false} AndZero(x: nat, bits: nat)
    ensures Bitwise(Both, x, 0, bits) == 0
    decreases bits
  {
    if bits > 0 { AndZero(x / 2, bits - 1); }
  }

  lemma HalfRest(x: nat, p: nat)
    requires p > 0
    ensures x % (2 * p) == 2 * ((x / 2) % p) + x % 2
  {
    var q, r := (x / 2) / p, (x / 2) % p;
    assert x == (2 * p) * q + (2 * r + x % 2) by {
      assert x / 2 == p * q + r;
      assert (2 * p) * q == 2 * (p * q);
    }
    RestOf(x, 2 * p, q, 2 * r + x % 2);
  }

  lemma RestOf(x: nat, p: nat, q: nat, r: nat)
    requires r < p && x == p * q + r
    ensures x % p == r
  {
    var other := x / p;
    assert x == p * other + x % p;
    if other > q { Scaled(p, q + 1, other); }
    if other < q { Scaled(p, other + 1, q); }
  }

  lemma AndByte(x: Word)
    ensures JsAnd(x, 0xff) == x % 256
  {
    WordIsItself(x);
    WordIsItself(0xff);
    AndMask(x);
    SmallIsPositive(x % 256);
  }

  lemma Scaled(p: nat, a: nat, b: nat)
    requires a <= b
    ensures p * a <= p * b
  {
  }

  lemma AndMask(x: Word)
    ensures And(x, 0xff) == x % 256
  {
    SomePowers();
    LowBits(x, 8, 32);
  }

  lemma SmallIsPositive(x: nat)
    requires x < TWO31
    ensures ToInt32(x) == x
  {
  }

  method LowByte(word: Word, shift: nat) returns (byte: Byte)
    ensures byte == Shift(word, shift) % 256
  {
    WordIsItself(word);
    AndByte(Shift(word, shift));
    byte := JsAnd(JsRight(word, shift), 0xff);
  }

  lemma ShiftAgain(x: Word, n: nat, m: nat)
    ensures Shift(x, n + m) == Shift(Shift(x, n), m)
  {
  }

  lemma ShiftTwo(x: Word)
    ensures Shift(x, 2) == x / 4
  {
    assert Shift(x, 2) == Shift(x / 2, 1) == Shift(x / 2 / 2, 0);
  }

  lemma ShiftFour(x: Word)
    ensures Shift(x, 4) == x / 16
  {
    ShiftTwo(x);
    ShiftTwo(x / 4);
    ShiftAgain(x, 2, 2);
  }

  lemma ShiftByte(x: Word)
    ensures Shift(x, 8) == x / 256
  {
    ShiftFour(x);
    ShiftFour(x / 16);
    ShiftAgain(x, 4, 4);
  }

  lemma ShiftedTwice(x: Word)
    ensures Shift(x, 16) == x / 0x10000 && Shift(x, 24) == x / 0x1000000
  {
    var y: Word, z: Word := x / 256, x / 0x10000;
    ShiftByte(x);
    ShiftByte(y);
    ShiftByte(z);
    ShiftAgain(x, 8, 8);
    ShiftAgain(x, 16, 8);
    assert y / 256 == z && z / 256 == x / 0x1000000;
  }

  lemma ShiftedBytes(x: Word)
    ensures WordBytes(x) == [Shift(x, 24) % 256, Shift(x, 16) % 256, Shift(x, 8) % 256, Shift(x, 0) % 256]
  {
    ShiftByte(x);
    ShiftedTwice(x);
    TopByte(x);
    assert Shift(x, 0) == x;
  }

  lemma TopByte(x: Word)
    ensures (x / 0x1000000) % 256 == x / 0x1000000
  {
  }

  method PushWord(bytes: seq<Byte>, word: Word) returns (longer: seq<Byte>)
    ensures longer == bytes + WordBytes(word)
  {
    var b0 := LowByte(word, 24);
    var b1 := LowByte(word, 16);
    var b2 := LowByte(word, 8);
    var b3 := LowByte(word, 0);
    ShiftedBytes(word);
    longer := bytes + [b0, b1, b2, b3];
  }

  function ZeroCount(length: nat): nat { (119 - length % 64) % 64 }

  lemma ZerosEnd(length: nat, zeros: nat)
    requires zeros <= ZeroCount(length)
    ensures (length + 1 + zeros) % 64 == 56 <==> zeros == ZeroCount(length)
  {
  }

  lemma OneMoreZero(n: nat)
    ensures Zeros(n) + [0] == Zeros(n + 1)
  {
  }

  method PadZeros(message: seq<Byte>) returns (bytes: seq<Byte>)
    ensures bytes == message + [0x80] + Zeros(ZeroCount(|message|))
  {
    bytes := message + [0x80];
    ghost var zeros := 0;
    while |bytes| % 64 != 56
      invariant zeros <= ZeroCount(|message|) && bytes == message + [0x80] + Zeros(zeros)
      decreases ZeroCount(|message|) - zeros
    {
      ZerosEnd(|message|, zeros);
      OneMoreZero(zeros);
      assert message + [0x80] + Zeros(zeros) + [0] == message + [0x80] + (Zeros(zeros) + [0]);
      bytes, zeros := bytes + [0], zeros + 1;
    }
    ZerosEnd(|message|, zeros);
  }

  method Pad(message: seq<Byte>) returns (bytes: seq<Byte>)
    requires Hashable(message)
    ensures bytes == Padded(message)
  {
    var bitLength := 8 * |message|;
    bytes := PadZeros(message);
    bytes := PushWord(bytes, bitLength / TWO32);
    bytes := PushWord(bytes, ToUint32(bitLength));
  }

  method HashBlock(state: Vars, words: array<Word>, bytes: seq<Byte>, block: nat) returns (next: Vars)
    requires words.Length == 64 && 64 * block + 64 <= |bytes|
    modifies words
    ensures next == Added(state, Rounds(state, bytes, block, 64))
  {
    FillSchedule(words, bytes, block);
    var v := RunRounds(state, words, bytes, block);
    next := AddState(state, v);
  }

  method HashBlocks(bytes: seq<Byte>, blocks: nat) returns (state: Vars)
    requires |bytes| == 64 * blocks
    ensures state == Digest(bytes, blocks)
  {
    state := INITIAL;
    var words := new Word[64](_ => 0);
    for block := 0 to blocks
      invariant state == Digest(bytes, block)
    {
      state := HashBlock(state, words, bytes, block);
    }
  }

  /** The program computes the standard's digest of every message. */
  method Hash(message: seq<Byte>) returns (state: Vars)
    requires Hashable(message)
    ensures state == Standard(message)
  {
    var bytes := Pad(message);
    PaddingFillsBlocks(message);
    state := HashBlocks(bytes, |bytes| / 64);
  }
}
