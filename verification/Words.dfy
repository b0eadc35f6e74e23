/**
 Bytes, 256-bit words and big-endian byte strings.  A word is a natural number below 2^256, so every
 wrap-around of the original is an explicit `% WORD_MODULUS`.
 */
module Words {

  const WORD_MODULUS: int := 0x1_00000000_00000000_00000000_00000000_00000000_00000000_00000000_00000000
  const SIGN_BIT: int := 0x80000000_00000000_00000000_00000000_00000000_00000000_00000000_00000000
  const ADDRESS_MODULUS: int := 0x1_00000000_00000000_00000000_00000000_00000000

  const WORD_BITS: nat := 256
  const WORD_BYTES: nat := 32
  const ADDRESS_BITS: nat := 160

  type Byte = b: int | 0 <= b < 256
  type Word = w: int | 0 <= w < WORD_MODULUS
  type AddressNat = a: int | 0 <= a < ADDRESS_MODULUS

  /** 2^n, defined by doubling. */
  function Pow2(n: nat): (p: nat)
    ensures p > 0
  {
    if n == 0 then 1 else 2 * Pow2(n - 1)
  }

  /** 256^n: the number of byte strings of length n. */
  function Pow256(n: nat): (p: nat)
    ensures p > 0
  {
    if n == 0 then 1 else 256 * Pow256(n - 1)
  }

  lemma {:induction false} Pow2Monotone(a: nat, b: nat)
    requires a <= b
    ensures Pow2(a) <= Pow2(b)
    decreases b
  {
    if a < b {
      Pow2Monotone(a, b - 1);
    }
  }

  lemma {:induction false} Pow2Add(a: nat, b: nat)
    ensures Pow2(a + b) == Pow2(a) * Pow2(b)
  {
    if a > 0 {
      Pow2Add(a - 1, b);
    }
  }

  lemma {:induction false} Pow256IsPow2(n: nat)
    ensures Pow256(n) == Pow2(8 * n)
  {
    if n > 0 {
      Pow256IsPow2(n - 1);
      Pow2Add(8, 8 * (n - 1));
      assert Pow2(8) == 256;
    }
  }

  lemma {:induction false} Pow2Square(n: nat, p: nat)
    requires Pow2(n) == p
    ensures Pow2(2 * n) == p * p
  {
    Pow2Add(n, n);
  }

  /** The constants above are the powers of two they stand for. */
  lemma {:induction false} WordSizes()
    ensures Pow2(WORD_BITS) == WORD_MODULUS
    ensures Pow2(WORD_BITS - 1) == SIGN_BIT
    ensures Pow2(ADDRESS_BITS) == ADDRESS_MODULUS
    ensures Pow256(WORD_BYTES) == WORD_MODULUS
  {
    var bits: nat :| bits == 32;
    assert Pow2(8) == 0x100;
    Pow2Square(8, 0x100);
    Pow2Square(16, 0x1_0000);
    Pow2Square(bits, 0x1_0000_0000);
    Pow2Square(2 * bits, 0x1_00000000_00000000);
    Pow2Square(4 * bits, 0x1_00000000_00000000_00000000_00000000);
    Pow2Add(4 * bits, bits);
    Pow256IsPow2(WORD_BYTES);
  }

  function BytesToNat(bytes: seq<Byte>): nat {
    if bytes == [] then 0
    else 256 * BytesToNat(bytes[..|bytes| - 1]) + bytes[|bytes| - 1]
  }

  /** The low `len` bytes of n, most significant first. */
  function NatToBytes(n: nat, len: nat): (bytes: seq<Byte>)
    ensures |bytes| == len
    decreases len, n
  {
    if len == 0 then [] else NatToBytes(n / 256, len - 1) + [n % 256]
  }

  lemma {:induction false} BytesToNatBound(bytes: seq<Byte>)
    ensures BytesToNat(bytes) < Pow256(|bytes|)
  {
    if bytes != [] {
      BytesToNatBound(bytes[..|bytes| - 1]);
    }
  }

  lemma {:induction false} BytesToNatToBytes(bytes: seq<Byte>)
    ensures NatToBytes(BytesToNat(bytes), |bytes|) == bytes
  {
    if bytes != [] {
      var front, last := bytes[..|bytes| - 1], bytes[|bytes| - 1];
      BytesToNatToBytes(front);
      assert BytesToNat(bytes) / 256 == BytesToNat(front);
      assert bytes == front + [last];
    }
  }

  lemma {:induction false} NatToBytesToNat(n: nat, len: nat)
    requires n < Pow256(len)
    ensures BytesToNat(NatToBytes(n, len)) == n
    decreases len
  {
    if len != 0 {
      NatToBytesToNat(n / 256, len - 1);
      var front := NatToBytes(n / 256, len - 1);
      assert (front + [n % 256])[..len - 1] == front;
    }
  }

  function Zeros(n: nat): (bytes: seq<Byte>)
    ensures |bytes| == n
  {
    seq(n, _ => 0)
  }

  /** n reduced to a word.  The first branch spares proofs about small numbers the modulus. */
  function Wrap(n: nat): (w: Word)
  {
    if n < WORD_MODULUS then n else n % WORD_MODULUS
  }

  /** The 32-byte big-endian encoding of n reduced to a word. */
  function WordBytes(n: nat): (bytes: seq<Byte>)
    ensures |bytes| == 32
  {
    NatToBytes(Wrap(n), 32)
  }

  lemma {:induction false} WordBytesToNat(n: nat)
    requires n < WORD_MODULUS
    ensures BytesToNat(WordBytes(n)) == n
  {
    WordSizes();
    NatToBytesToNat(n, 32);
  }

  /** Two's-complement reading of a word. */
  function Signed(w: Word): int {
    if w < SIGN_BIT then w else w - WORD_MODULUS
  }

  /** The word holding an integer reduced modulo 2^256. */
  function WordOfInt(i: int): Word {
    if 0 <= i < WORD_MODULUS then i
    else if -WORD_MODULUS <= i < 0 then i + WORD_MODULUS
    else i % WORD_MODULUS
  }

  function AddWord(a: nat, b: nat): Word {
    Wrap(a + b)
  }

  function SubWord(a: nat, b: nat): Word {
    if Wrap(a) >= Wrap(b) then Wrap(a) - Wrap(b) else Wrap(a) - Wrap(b) + WORD_MODULUS
  }

  predicate SignedLess(a: nat, b: nat) {
    Signed(Wrap(a)) < Signed(Wrap(b))
  }
}
