/** What the arithmetic and the memory of the machine mean, said of integers, single bits and single bytes. */
module WordLaws {
  import opened Arith
  import opened Words
  import opened WordArith
  import opened Machine

  // ----- arithmetic modulo 2^256 -----

  lemma {:induction false} WrapIsModulo(n: nat)
    ensures Wrap(n) == n % WORD_MODULUS
  {
    if n < WORD_MODULUS {
      DivMod(n, WORD_MODULUS, 0, n);
    }
  }

  lemma {:induction false} AddSubModulo(a: Word, b: Word)
    ensures AddWord(a, b) == (a as int + b) % WORD_MODULUS
    ensures SubWord(a, b) == (a as int - b) % WORD_MODULUS
  {
    hide Wrap;
    WrapIsModulo(a as int + b);
    Unwrapped(a);
    Unwrapped(b);
    if a < b {
      ModShift(a as int - b, 1, WORD_MODULUS);
      DivMod(a as int - b + WORD_MODULUS, WORD_MODULUS, 0, a as int - b + WORD_MODULUS);
    } else {
      DivMod(a as int - b, WORD_MODULUS, 0, a as int - b);
    }
  }

  lemma {:induction false} Unwrapped(n: nat)
    requires n < WORD_MODULUS
    ensures Wrap(n) == n
  {
  }

  /** Unsigned division and remainder, both 0 for a divisor of 0. */
  lemma {:induction false} DivisionExact(a: Word, b: Word)
    ensures b == 0 ==> Div(a, b) == 0 && Mod(a, b) == 0
    ensures b != 0 ==> a == b * Div(a, b) + Mod(a, b) && Mod(a, b) < b
  {
    if b != 0 {
      var q, r := a / b, a % b;
      assert a == b * q + r && 0 <= r < b;
      QuotientAtMost(a, b, q);
      Unwrapped(q);
      Unwrapped(r);
    }
  }

  lemma {:induction false} QuotientAtMost(a: nat, b: nat, q: nat)
    requires b > 0 && b * q <= a
    ensures q <= a
  {
    MulNonNegative(b - 1, q);
    assert (b - 1) * q == b * q - q;
  }

  /** The sums and products of ADDMOD and MULMOD do not wrap before the remainder is taken. */
  lemma {:induction false} ModularExact(a: Word, b: Word, m: Word)
    ensures m == 0 ==> AddMod(a, b, m) == 0 && MulMod(a, b, m) == 0
    ensures m != 0 ==> AddMod(a, b, m) == (a as int + b) % m && MulMod(a, b, m) == (a as int * b) % m
  {
    if m != 0 {
      MulNonNegative(a, b);
      Unwrapped((a as int + b) % m);
      Unwrapped((a as int * b) % m);
    }
  }

  // ----- signed readings -----

  /** The signed reading is the integer of [-2^255, 2^255) that agrees with the word modulo 2^256. */
  lemma {:induction false} SignedExact(w: Word, i: int)
    ensures -SIGN_BIT <= Signed(w) < SIGN_BIT && Signed(w) % WORD_MODULUS == w
    ensures -SIGN_BIT <= i < SIGN_BIT ==> Signed(WordOfInt(i)) == i
    ensures WordOfInt(i) == i % WORD_MODULUS
  {
    if w < SIGN_BIT {
      DivMod(w, WORD_MODULUS, 0, w);
    } else {
      DivMod(w - WORD_MODULUS, WORD_MODULUS, -1, w);
    }
    if 0 <= i < WORD_MODULUS {
      DivMod(i, WORD_MODULUS, 0, i);
    } else if -WORD_MODULUS <= i < 0 {
      DivMod(i, WORD_MODULUS, -1, i + WORD_MODULUS);
    }
  }

  /** SDIV truncates towards zero; the one quotient that does not fit is the dividend again. */
  lemma {:induction false} SignedDivisionExact(a: Word, b: Word)
    ensures b == 0 ==> SDiv(a, b) == 0
    ensures Signed(a) == -SIGN_BIT && Signed(b) == -1 ==> SDiv(a, b) == a
    ensures b != 0 && !(Signed(a) == -SIGN_BIT && Signed(b) == -1) ==>
              var r := Signed(a) - Signed(b) * Signed(SDiv(a, b));
              Abs(r) < Abs(Signed(b)) && (r == 0 || (r < 0 <==> Signed(a) < 0))
  {
    hide Signed, WordOfInt, SDiv, Abs;
    SignedZero(b);
    NoDivisor(a, b);
    if b != 0 {
      var (x, y) := (Signed(a), Signed(b));
      SignedExact(a, 0);
      SignedExact(b, 0);
      var q, r := Magnitudes(a, b);
      if x == -SIGN_BIT && y == -1 {
        OverflowingQuotient(a, q, r);
      } else {
        TruncatedFits(x, y, q, r);
        SignedExact(a, Toward(x, y, q));
        TruncatedRemainder(x, y, q, r);
      }
    }
  }

  /** A quotient of magnitudes with its sign. */
  function Toward(x: int, y: int, q: int): int {
    if (x < 0) != (y < 0) then -q else q
  }

  lemma {:induction false} NoDivisor(a: Word, b: Word)
    ensures b == 0 ==> SDiv(a, b) == 0
  {
    hide Signed, WordOfInt;
  }

  lemma {:induction false} Magnitudes(a: Word, b: Word) returns (q: int, r: int)
    requires b != 0 && Signed(b) != 0
    ensures SDiv(a, b) == WordOfInt(Toward(Signed(a), Signed(b), q))
    ensures 0 <= q <= Abs(Signed(a)) && 0 <= r < Abs(Signed(b)) && Abs(Signed(a)) == Abs(Signed(b)) * q + r
  {
    hide Signed, WordOfInt;
    q, r := Abs(Signed(a)) / Abs(Signed(b)), Abs(Signed(a)) % Abs(Signed(b));
    ShiftedDown(Abs(Signed(a)), Abs(Signed(b)));
  }

  lemma {:induction false} SignedZero(b: Word)
    ensures Signed(b) == 0 <==> b == 0
  {
  }

  lemma {:induction false} OverflowingQuotient(a: Word, q: int, r: int)
    requires Signed(a) == -SIGN_BIT && Abs(-SIGN_BIT) == Abs(-1) * q + r && 0 <= r < Abs(-1)
    ensures WordOfInt(Toward(-SIGN_BIT, -1, q)) == a
  {
  }

  lemma {:induction false} TruncatedFits(x: int, y: int, q: int, r: int)
    requires y != 0 && Abs(x) == Abs(y) * q + r && 0 <= r < Abs(y) && 0 <= q <= Abs(x) && -SIGN_BIT <= x < SIGN_BIT
    requires !(x == -SIGN_BIT && y == -1)
    ensures -SIGN_BIT <= Toward(x, y, q) < SIGN_BIT
  {
    if q == SIGN_BIT {
      MulNonNegative(Abs(y) - 1, q);
      assert (Abs(y) - 1) * q == Abs(y) * q - q;
    }
  }

  lemma {:induction false} TruncatedRemainder(x: int, y: int, q: int, r: int)
    requires y != 0 && Abs(x) == Abs(y) * q + r && 0 <= r < Abs(y)
    ensures var s := Toward(x, y, q);
            Abs(x - y * s) == r && (x - y * s == 0 || (x - y * s < 0 <==> x < 0))
  {
    assert y * -q == -(y * q) && -y * q == -(y * q);
  }

  // ----- powers and shifts -----

  /** Exponentiation: one factor for an exponent of 1, and exponents add. */
  lemma {:induction false} PowerAdds(a: nat, m: nat, n: nat)
    ensures Power(a, 1) == a && Power(a, m + n) == Power(a, m) * Power(a, n)
    decreases m
  {
    assert Power(a, 1) == a * Power(a, 0);
    if m > 0 {
      PowerAdds(a, m - 1, n);
      Associates(a, Power(a, m - 1), Power(a, n));
    }
  }

  lemma {:induction false} Associates(a: int, b: int, c: int)
    ensures a * (b * c) == a * b * c
  {
  }

  /** Shifts by any distance: left multiplies modulo 2^256, right divides, and SAR rounds down. */
  lemma {:induction false} ShiftsExact(x: Word, s: Word)
    ensures ShiftLeft(x, s) == (x * Pow2(s)) % WORD_MODULUS
    ensures ShiftRight(x, s) == x / Pow2(s)
    ensures Signed(Sar(s, x)) == Signed(x) / Pow2(s)
  {
    hide Pow2, Wrap, Signed, WordOfInt;
    if s >= 256 {
      FarShift(x, s);
      FarSignedShift(x, s);
    } else {
      MulNonNegative(x, Pow2(s));
      WrapIsModulo(x * Pow2(s));
      ShiftedDown(x, Pow2(s));
      Unwrapped(x / Pow2(s));
      SignedExact(x, 0);
      FloorBetween(Signed(x), Pow2(s));
      SignedExact(x, Signed(x) / Pow2(s));
    }
  }

  lemma {:induction false} ShiftedDown(x: nat, p: nat)
    requires p > 0
    ensures 0 <= x / p <= x
  {
    assert x == p * (x / p) + x % p;
    QuotientAtMost(x, p, x / p);
  }

  lemma {:induction false} FloorBetween(i: int, p: nat)
    requires p > 0 && -SIGN_BIT <= i < SIGN_BIT
    ensures -SIGN_BIT <= i / p < SIGN_BIT
  {
    var q, r := i / p, i % p;
    assert i == p * q + r && 0 <= r < p;
    if q > 0 {
      MulNonNegative(p - 1, q);
      assert (p - 1) * q == p * q - q;
    } else if q < 0 {
      MulNonNegative(p - 1, -q - 1);
      assert (p - 1) * (-q - 1) == -(p * q) - p + q + 1;
    }
  }

  lemma {:induction false} FarPower(s: nat)
    requires s >= 256
    ensures Pow2(s) == WORD_MODULUS * Pow2(s - 256) && Pow2(s) >= WORD_MODULUS
  {
    hide Pow2;
    WordSizes();
    Pow2Add(WORD_BITS, s - 256);
    MulAtLeast(WORD_MODULUS, Pow2(s - 256));
  }

  lemma {:induction false} FarShift(x: Word, s: nat)
    requires s >= 256
    ensures (x * Pow2(s)) % WORD_MODULUS == 0 && x / Pow2(s) == 0
  {
    hide Pow2;
    FarPower(s);
    var p := Pow2(s - 256);
    MulNonNegative(x, p);
    Reorder(x, WORD_MODULUS, p);
    DivMod(x * Pow2(s), WORD_MODULUS, x * p, 0);
    DivMod(x, Pow2(s), 0, x);
  }

  lemma {:induction false} Reorder(x: int, m: int, p: int)
    ensures x * (m * p) == m * (x * p)
  {
  }

  lemma {:induction false} FarSignedShift(x: Word, s: Word)
    requires s >= 256
    ensures Signed(Sar(s, x)) == Signed(x) / Pow2(s)
  {
    hide Pow2;
    FarPower(s);
    if x < SIGN_BIT {
      DivMod(Signed(x), Pow2(s), 0, x);
    } else {
      DivMod(Signed(x), Pow2(s), -1, Signed(x) + Pow2(s));
    }
  }

  // ----- bits and bytes -----

  /** Bit i of n. */
  predicate Bit(n: nat, i: nat) {
    (n / Pow2(i)) % 2 == 1
  }

  lemma {:induction false} BitStep(n: nat, i: nat)
    ensures Bit(n, 0) <==> n % 2 == 1
    ensures Bit(n, i + 1) <==> Bit(n / 2, i)
  {
    hide Pow2;
    PowersOfTwo(i);
    assert n / 1 == n;
    var p := Pow2(i);
    var q, r := (n / 2) / p, (n / 2) % p;
    assert n / 2 == p * q + r && 0 <= r < p;
    assert n == 2 * p * q + (2 * r + n % 2);
    DivMod(n, 2 * p, q, 2 * r + n % 2);
  }

  lemma {:induction false} PowersOfTwo(i: nat)
    ensures Pow2(0) == 1 && Pow2(i + 1) == 2 * Pow2(i)
  {
  }

  lemma {:induction false} ZeroBits(i: nat)
    ensures !Bit(0, i)
  {
    hide Pow2;
    assert 0 / Pow2(i) == 0;
  }

  /** One digit in front of the bits of n: what a digit-wise operation builds. */
  lemma {:induction false} DigitBits(d: nat, n: nat, i: nat)
    requires d <= 1
    ensures Bit(d + 2 * n, 0) <==> d == 1
    ensures Bit(d + 2 * n, i + 1) <==> Bit(n, i)
  {
    hide Bit;
    BitStep(d + 2 * n, i);
    assert (d + 2 * n) / 2 == n;
  }

  /** AND, bit by bit. */
  lemma {:induction false} AndBitwise(a: nat, b: nat, i: nat)
    ensures Bit(AndBits(a, b), i) <==> Bit(a, i) && Bit(b, i)
    decreases i
  {
    hide Bit;
    ZeroBits(i);
    if a != 0 && b != 0 {
      var d := if a % 2 == 1 && b % 2 == 1 then 1 else 0;
      if i == 0 {
        DigitBits(d, AndBits(a / 2, b / 2), 0);
        BitStep(a, 0);
        BitStep(b, 0);
      } else {
        DigitBits(d, AndBits(a / 2, b / 2), i - 1);
        BitStep(a, i - 1);
        BitStep(b, i - 1);
        AndBitwise(a / 2, b / 2, i - 1);
      }
    }
  }

  /** OR, bit by bit. */
  lemma {:induction false} OrBitwise(a: nat, b: nat, i: nat)
    ensures Bit(OrBits(a, b), i) <==> Bit(a, i) || Bit(b, i)
    decreases i
  {
    hide Bit;
    ZeroBits(i);
    if a != 0 && b != 0 {
      var d := if a % 2 == 1 || b % 2 == 1 then 1 else 0;
      if i == 0 {
        DigitBits(d, OrBits(a / 2, b / 2), 0);
        BitStep(a, 0);
        BitStep(b, 0);
      } else {
        DigitBits(d, OrBits(a / 2, b / 2), i - 1);
        BitStep(a, i - 1);
        BitStep(b, i - 1);
        OrBitwise(a / 2, b / 2, i - 1);
      }
    }
  }

  /** XOR, bit by bit. */
  lemma {:induction false} XorBitwise(a: nat, b: nat, i: nat)
    ensures Bit(XorBits(a, b), i) <==> Bit(a, i) != Bit(b, i)
    decreases i
  {
    hide Bit;
    ZeroBits(i);
    if a != 0 && b != 0 {
      var d := if a % 2 != b % 2 then 1 else 0;
      if i == 0 {
        DigitBits(d, XorBits(a / 2, b / 2), 0);
        BitStep(a, 0);
        BitStep(b, 0);
      } else {
        DigitBits(d, XorBits(a / 2, b / 2), i - 1);
        BitStep(a, i - 1);
        BitStep(b, i - 1);
        XorBitwise(a / 2, b / 2, i - 1);
      }
    }
  }

  /** None of the three leaves the words. */
  lemma {:induction false} BitsFit(a: nat, b: nat, n: nat)
    requires a < Pow2(n) && b < Pow2(n)
    ensures AndBits(a, b) < Pow2(n) && OrBits(a, b) < Pow2(n) && XorBits(a, b) < Pow2(n)
    decreases n
  {
    if a != 0 && b != 0 && n > 0 {
      BitsFit(a / 2, b / 2, n - 1);
    }
  }

  lemma {:induction false} WordBitsFit(a: Word, b: Word)
    ensures Wrap(AndBits(a, b)) == AndBits(a, b)
    ensures Wrap(OrBits(a, b)) == OrBits(a, b)
    ensures Wrap(XorBits(a, b)) == XorBits(a, b)
  {
    hide AndBits, OrBits, XorBits;
    WordSizes();
    BitsFit(a, b, WORD_BITS);
  }

  /** Byte i of n's big-endian encoding. */
  lemma {:induction false} EncodedByte(n: nat, len: nat, i: nat)
    requires i < len
    ensures NatToBytes(n, len)[i] == (n / Pow256(len - 1 - i)) % 256
    decreases len
  {
    hide Pow256;
    BytePowers(len - 1 - i);
    if i == len - 1 {
      assert n / 1 == n;
    } else {
      EncodedByte(n / 256, len - 1, i);
      BytePowers(len - 2 - i);
      var p := Pow256(len - 2 - i);
      var q, r := (n / 256) / p, (n / 256) % p;
      assert n / 256 == p * q + r && 0 <= r < p;
      assert n == 256 * p * q + (256 * r + n % 256);
      DivMod(n, 256 * p, q, 256 * r + n % 256);
    }
  }

  lemma {:induction false} BytePowers(i: nat)
    ensures Pow256(0) == 1 && Pow256(i + 1) == 256 * Pow256(i)
  {
  }

  /** BYTE counts from the most significant byte of the 32, and is 0 past the last. */
  lemma {:induction false} ByteExact(i: Word, x: Word)
    ensures ByteAt(i, x) == if i < 32 then WordBytes(x)[i] else 0
  {
    hide NatToBytes, Pow256;
    Unwrapped(x);
    if i < 32 {
      EncodedByte(x, 32, i);
    }
  }

  /** SIGNEXTEND keeps the low bytes and reads them as a signed number. */
  lemma {:induction false} SignExtendExact(b: Word, x: Word)
    ensures b >= 31 ==> SignExtend(b, x) == x
    ensures b < 31 ==>
              var m: int := Pow256(b + 1);
              -m <= 2 * Signed(SignExtend(b, x)) < m && Signed(SignExtend(b, x)) % m == x % m
  {
    hide Pow256, Signed, WordOfInt, Wrap;
    if b < 31 {
      var m := Pow256(b + 1);
      var low := x % m;
      EvenAndSmall(b);
      Unwrapped(low);
      if low < m / 2 {
        SignedExact(low, low);
        SmallWord(low);
        DivMod(low, m, 0, low);
      } else {
        SignedExact(x, low - m);
        DivMod(low - m, m, -1, low);
      }
    }
  }

  lemma {:induction false} SmallWord(low: Word)
    requires low < SIGN_BIT
    ensures Signed(low) == low
  {
  }

  lemma {:induction false} EvenAndSmall(b: nat)
    requires b < 31
    ensures Pow256(b + 1) % 2 == 0 && 2 <= Pow256(b + 1) <= SIGN_BIT
  {
    hide Pow2, Pow256;
    BytePowers(b);
    SmallPower(b + 1);
    HalvedByte(Pow256(b + 1), Pow256(b));
  }

  lemma {:induction false} HalvedByte(n: nat, p: nat)
    requires n == 256 * p && p > 0
    ensures n % 2 == 0 && 2 <= n
  {
    DivMod(n, 2, 128 * p, 0);
  }

  lemma {:induction false} SmallPower(n: nat)
    requires n <= 31
    ensures Pow256(n) <= SIGN_BIT
  {
    hide Pow2, Pow256;
    WordSizes();
    Pow256IsPow2(n);
    Pow2Monotone(8 * n, WORD_BITS - 1);
  }

  // ----- memory -----

  /** Byte i of a window of memory: 0 past the end. */
  lemma {:induction false} ReadByte(mem: seq<Byte>, off: nat, len: nat, i: nat)
    requires i < len
    ensures ReadPadded(mem, off, len)[i] == if off + i < |mem| then mem[off + i] else 0
  {
  }

  /** A write of `len` bytes changes exactly the window it goes to, and memory grows to hold it. */
  lemma {:induction false} WriteByte(src: seq<Byte>, from: nat, mem: seq<Byte>, at: nat, len: nat, i: nat)
    ensures |WriteBytes(src, from, mem, at, len)| ==
            if len > 0 && at + len > |mem| then at + len else |mem|
    ensures i < |WriteBytes(src, from, mem, at, len)| ==>
              WriteBytes(src, from, mem, at, len)[i] ==
              if at <= i < at + len then (if from + (i - at) < |src| then src[from + (i - at)] else 0)
              else if i < |mem| then mem[i] else 0
  {
    hide ReadPadded;
    if len > 0 && i < |WriteBytes(src, from, mem, at, len)| {
      if i < at {
        ReadByte(mem, 0, at, i);
      } else if i < at + len {
        ReadByte(src, from, len, i - at);
      }
    }
  }

  /** A load reads 32 bytes, most significant first, wherever they are. */
  lemma {:induction false} LoadExact(mem: seq<Byte>, a: nat)
    ensures WordBytes(LoadWord(mem, a)) == ReadPadded(mem, a, 32)
  {
    hide NatToBytes, BytesToNat, Pow256;
    var bytes := ReadPadded(mem, a, 32);
    BytesToNatBound(bytes);
    WordSizes();
    Unwrapped(BytesToNat(bytes));
    BytesToNatToBytes(bytes);
    if a >= |mem| {
      ZeroBytes(32);
      assert bytes == Zeros(32);
    }
  }

  lemma {:induction false} ZeroBytes(n: nat)
    ensures BytesToNat(Zeros(n)) == 0
  {
    if n > 0 {
      ZeroBytes(n - 1);
      assert Zeros(n)[..n - 1] == Zeros(n - 1);
    }
  }

  /** What is stored is loaded, and a store elsewhere does not change a load. */
  lemma {:induction false} LoadStored(w: Word, mem: seq<Byte>, at: nat, a: nat)
    ensures a == at ==> LoadWord(WriteBytes(WordBytes(w), 0, mem, at, 32), a) == w
    ensures a + 32 <= at || at + 32 <= a ==>
              LoadWord(WriteBytes(WordBytes(w), 0, mem, at, 32), a) == LoadWord(mem, a)
  {
    hide NatToBytes, BytesToNat, ReadPadded, WriteBytes, LoadWord;
    var mem' := WriteBytes(WordBytes(w), 0, mem, at, 32);
    forall i: nat | i < 32
      ensures a == at ==> ReadPadded(mem', a, 32)[i] == WordBytes(w)[i]
      ensures a + 32 <= at || at + 32 <= a ==> ReadPadded(mem', a, 32)[i] == ReadPadded(mem, a, 32)[i]
    {
      ReadByte(mem', a, 32, i);
      ReadByte(mem, a, 32, i);
      WriteByte(WordBytes(w), 0, mem, at, 32, a + i);
    }
    LoadExact(mem', a);
    LoadExact(mem, a);
    if a == at {
      assert WordBytes(LoadWord(mem', a)) == WordBytes(w);
      WordBytesDiffer(LoadWord(mem', a), w);
    } else if a + 32 <= at || at + 32 <= a {
      assert WordBytes(LoadWord(mem', a)) == WordBytes(LoadWord(mem, a));
      WordBytesDiffer(LoadWord(mem', a), LoadWord(mem, a));
    }
  }

  lemma {:induction false} WordBytesDiffer(v: Word, w: Word)
    requires WordBytes(v) == WordBytes(w)
    ensures v == w
  {
    hide WordBytes, BytesToNat;
    WordBytesToNat(v);
    WordBytesToNat(w);
  }

  /** The active words after touching a window are the fewest that cover it and what was active. */
  lemma {:induction false} TouchLeast(aw: Word, off: nat, len: nat, n: Word)
    requires off + len + 31 < WORD_MODULUS
    ensures len == 0 ==> Touch(aw, off, len) == aw
    ensures len > 0 ==> (Touch(aw, off, len) <= n <==> aw <= n && off + len <= 32 * n)
  {
    if len > 0 {
      var covered := (off + len + 31) / 32;
      assert covered <= n <==> off + len <= 32 * n;
      Unwrapped(Machine.Max(aw, covered));
    }
  }
}
