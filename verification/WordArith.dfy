/** The arithmetic of 256-bit words, named as the library that summaries are written in names it. */
module WordArith {
  import opened Words

  datatype WordFn =
    | AddFn | MulFn | SubFn | DivFn | SDivFn | ModFn | ExpFn | SignExtendFn
    | LtFn | GtFn | SltFn | SgtFn | EqFn | AndFn | OrFn | XorFn | ByteFn
    | ShiftLeftFn | ShiftRightFn | SarFn

  function Flag(b: bool): Word {
    if b then 1 else 0
  }

  function Div(a: Word, b: Word): Word {
    if b == 0 then 0 else Wrap(a / b)
  }

  function Mod(a: Word, b: Word): Word {
    if b == 0 then 0 else Wrap(a % b)
  }

  function Abs(i: int): nat {
    if i < 0 then -i else i
  }

  /** Signed division truncates towards zero. */
  function SDiv(a: Word, b: Word): Word {
    if b == 0 then 0
    else
      var q := Abs(Signed(a)) / Abs(Signed(b));
      if (Signed(a) < 0) != (Signed(b) < 0) then WordOfInt(-q) else WordOfInt(q)
  }

  function Power(base: nat, e: nat): nat {
    if e == 0 then 1 else base * Power(base, e - 1)
  }

  function AndBits(a: nat, b: nat): nat {
    if a == 0 || b == 0 then 0 else (if a % 2 == 1 && b % 2 == 1 then 1 else 0) + 2 * AndBits(a / 2, b / 2)
  }

  function OrBits(a: nat, b: nat): nat {
    if a == 0 then b else if b == 0 then a
    else (if a % 2 == 1 || b % 2 == 1 then 1 else 0) + 2 * OrBits(a / 2, b / 2)
  }

  function XorBits(a: nat, b: nat): nat {
    if a == 0 then b else if b == 0 then a
    else (if a % 2 != b % 2 then 1 else 0) + 2 * XorBits(a / 2, b / 2)
  }

  /** Byte i of x, counted from the most significant. */
  function ByteAt(i: Word, x: Word): Word {
    if i < 32 then (x / Pow256(31 - i)) % 256 else 0
  }

  function ShiftLeft(x: Word, s: Word): Word {
    if s < 256 then Wrap(x * Pow2(s)) else 0
  }

  function Quotient(a: nat, b: nat): nat
    requires b > 0
  {
    a / b
  }

  function ShiftRight(x: Word, s: Word): Word {
    if s < 256 then Wrap(Quotient(x, Pow2(s))) else 0
  }

  /** Arithmetic shift: Euclidean division by a positive divisor rounds down. */
  function Sar(s: Word, x: Word): Word {
    if s < 256 then WordOfInt(Signed(x) / Pow2(s)) else if x < SIGN_BIT then 0 else WORD_MODULUS - 1
  }

  /** Sign extension from byte b, counted from the least significant. */
  function SignExtend(b: Word, x: Word): Word {
    if b >= 31 then x
    else
      var m := Pow256(b + 1);
      var low := x % m;
      if low < m / 2 then Wrap(low) else WordOfInt(low - m)
  }

  function Apply(f: WordFn, a: Word, b: Word): Word {
    match f
    case AddFn => AddWord(a, b)
    case MulFn => Wrap(a * b)
    case SubFn => SubWord(a, b)
    case DivFn => Div(a, b)
    case SDivFn => SDiv(a, b)
    case ModFn => Mod(a, b)
    case ExpFn => Wrap(Power(a, b))
    case SignExtendFn => SignExtend(a, b)
    case LtFn => Flag(a < b)
    case GtFn => Flag(a > b)
    case SltFn => Flag(Signed(a) < Signed(b))
    case SgtFn => Flag(Signed(a) > Signed(b))
    case EqFn => Flag(a == b)
    case AndFn => Wrap(AndBits(a, b))
    case OrFn => Wrap(OrBits(a, b))
    case XorFn => Wrap(XorBits(a, b))
    case ByteFn => ByteAt(a, b)
    case ShiftLeftFn => ShiftLeft(a, b)
    case ShiftRightFn => ShiftRight(a, b)
    case SarFn => Sar(a, b)
  }

  function IsZero(a: Word): Word {
    Flag(a == 0)
  }

  function Not(a: Word): Word {
    WORD_MODULUS - 1 - a
  }

  function AddMod(a: Word, b: Word, m: Word): Word {
    if m == 0 then 0 else Wrap((a + b) % m)
  }

  function MulMod(a: Word, b: Word, m: Word): Word {
    if m == 0 then 0 else Wrap((a * b) % m)
  }
}
