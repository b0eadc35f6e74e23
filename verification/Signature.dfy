/**
 Canonical function signatures.  The printed form determines the name and the parameter types: it can
 be parsed back, through nested tuples, array suffixes and numeric widths, in only one way.
 */
module Signature {
  import opened AbiTypes

  datatype Signature = Signature(name: string, paramTypes: seq<AbiType>)

  function DigitChar(d: nat): char
    requires d < 10
  {
    ('0' as int + d) as char
  }

  /** Decimal notation. */
  function Decimal(n: nat): string {
    if n < 10 then [DigitChar(n)] else Decimal(n / 10) + [DigitChar(n % 10)]
  }

  function FixedName(f: FixedType): string {
    match f
    case UFixed(m, n) => "ufixed" + (Decimal(m) + "x" + Decimal(n))
    case SFixed(m, n) => "fixed" + (Decimal(m) + "x" + Decimal(n))
  }

  function ElemName(e: ElemType): string {
    match e
    case IntElem(UInt(bits)) => "uint" + Decimal(bits)
    case IntElem(SInt(bits)) => "int" + Decimal(bits)
    case BoolType => "bool"
    case AddressType => "address"
    case BytesElem(n) => "bytes" + Decimal(n + 1)
    case FixedElem(f) => FixedName(f)
    case FunctionType => "function"
  }

  function TypeName(ty: AbiType): string
    decreases ty, 0
  {
    match ty
    case Elem(e) => ElemName(e)
    case ArrayType(item, n) => TypeName(item) + "[" + Decimal(n) + "]"
    case TupleType(items) => "(" + JoinNames(items) + ")"
    case StringType => "string"
    case BytesType => "bytes"
    case DynamicArray(item) => TypeName(item) + "[]"
  }

  function JoinNames(types: seq<AbiType>): string
    decreases types, 0
  {
    if types == [] then ""
    else if |types| == 1 then TypeName(types[0])
    else TypeName(types[0]) + "," + JoinNames(types[1..])
  }

  function PrintSignature(sig: Signature): string {
    sig.name + "(" + JoinNames(sig.paramTypes) + ")"
  }

  // ----- numbers -----

  predicate IsDigit(c: char) {
    '0' <= c <= '9'
  }

  predicate Digits(s: string) {
    forall i :: 0 <= i < |s| ==> IsDigit(s[i])
  }

  lemma {:induction false} DecimalDigits(n: nat)
    ensures Digits(Decimal(n)) && Decimal(n) != "" && (n < 10 <==> |Decimal(n)| == 1)
  {
    if n >= 10 {
      DecimalDigits(n / 10);
    }
  }

  /** The number a string of digits stands for. */
  function ReadDecimal(s: string): int {
    if s == "" then 0 else 10 * ReadDecimal(s[..|s| - 1]) + (s[|s| - 1] as int - '0' as int)
  }

  /** A printed number reads back as itself and has no leading zero. */
  lemma {:induction false} DecimalReads(n: nat)
    ensures ReadDecimal(Decimal(n)) == n && Decimal(n) != ""
    ensures n > 0 ==> Decimal(n)[0] != '0'
    ensures n == 0 ==> Decimal(n) == "0"
  {
    if n < 10 {
      assert Decimal(n)[..0] == "";
    } else {
      DecimalReads(n / 10);
      assert Decimal(n)[..|Decimal(n)| - 1] == Decimal(n / 10);
    }
  }

  /** Numbers of up to three digits, as they stand in types. */
  lemma {:induction false} ThreeDigits(n: nat)
    requires n < 1000
    ensures n < 10 ==> Decimal(n) == [DigitChar(n)]
    ensures 10 <= n < 100 ==> Decimal(n) == [DigitChar(n / 10), DigitChar(n % 10)]
    ensures 100 <= n ==> Decimal(n) == [DigitChar(n / 100), DigitChar(n / 10 % 10), DigitChar(n % 10)]
  {
    hide DigitChar;
    if n >= 100 {
      var m := n / 10;
      assert m / 10 == n / 100;
      assert Decimal(m / 10) == [DigitChar(m / 10)];
      assert Decimal(m) == Decimal(m / 10) + [DigitChar(m % 10)];
      assert Decimal(n) == Decimal(m) + [DigitChar(n % 10)];
    }
  }

  /** The names of the elementary types, some of the widths they come in. */
  lemma {:induction false} ElementaryNames()
    ensures ElemName(IntElem(UInt(256))) == "uint256" && ElemName(IntElem(SInt(8))) == "int8"
    ensures ElemName(AddressType) == "address" && ElemName(BoolType) == "bool" && ElemName(FunctionType) == "function"
    ensures ElemName(BytesElem(3)) == "bytes4"
    ensures ElemName(FixedElem(SFixed(128, 18))) == "fixed128x18"
    ensures ElemName(FixedElem(UFixed(128, 18))) == "ufixed128x18"
  {
    hide Decimal, FixedName;
    ThreeDigits(256);
    ThreeDigits(8);
    ThreeDigits(4);
    FixedNames();
  }

  lemma {:induction false} FixedNames()
    ensures FixedName(SFixed(128, 18)) == "fixed128x18" && FixedName(UFixed(128, 18)) == "ufixed128x18"
  {
    hide Decimal;
    ThreeDigits(128);
    ThreeDigits(18);
  }

  /** The names of byte strings, arrays and tuples. */
  lemma {:induction false} ComposedNames(item: AbiType, n: nat)
    ensures TypeName(BytesType) == "bytes" && TypeName(StringType) == "string"
    ensures TypeName(DynamicArray(item)) == TypeName(item) + "[]"
    ensures TypeName(ArrayType(item, n)) == TypeName(item) + "[" + Decimal(n) + "]"
    ensures TypeName(TupleType([item, BytesType])) == "(" + TypeName(item) + ",bytes)"
  {
    hide Decimal;
    var items := [item, BytesType];
    assert items[1..] == [BytesType];
    assert JoinNames([BytesType]) == "bytes";
    assert JoinNames(items) == TypeName(item) + "," + "bytes";
    assert "(" + (TypeName(item) + "," + "bytes") + ")" == "(" + TypeName(item) + ",bytes)";
  }

  /** A whole signature. */
  lemma {:induction false} TransferSignature()
    ensures PrintSignature(Signature("transfer", [Elem(AddressType), Elem(IntElem(UInt(256)))])) ==
            "transfer(address,uint256)"
  {
    hide Decimal;
    ThreeDigits(256);
    var types := [Elem(AddressType), Elem(IntElem(UInt(256)))];
    assert types[1..] == [Elem(IntElem(UInt(256)))];
    assert JoinNames(types[1..]) == "uint256";
    assert JoinNames(types) == "address" + "," + "uint256";
  }

  lemma {:induction false} DecimalInjective(n: nat, m: nat)
    requires Decimal(n) == Decimal(m)
    ensures n == m
  {
    DecimalDigits(n);
    DecimalDigits(m);
    var a, b := Decimal(n), Decimal(m);
    assert a[|a| - 1] == b[|b| - 1];
    if n >= 10 {
      assert a[..|a| - 1] == Decimal(n / 10) && b[..|b| - 1] == Decimal(m / 10);
      DecimalInjective(n / 10, m / 10);
    }
  }

  /** In a string that ends in a separator and digits, no separator stands later. */
  lemma {:induction false} SeparatorIsLast(s: string, x: string, d: string, k: nat, sep: char)
    requires s == x + [sep] + d && Digits(d) && !IsDigit(sep) && k < |s| && s[k] == sep
    ensures k <= |x|
  {
    assert forall i :: |x| < i < |s| ==> s[i] == d[i - |x| - 1];
  }

  /** What precedes and what follows the last separator that digits follow are determined. */
  lemma {:induction false} LastSeparator(x: string, d: string, y: string, e: string, sep: char)
    requires Digits(d) && Digits(e) && !IsDigit(sep)
    requires x + [sep] + d == y + [sep] + e
    ensures x == y && d == e
  {
    var s, t := x + [sep] + d, y + [sep] + e;
    assert s[|x|] == sep && t[|y|] == sep;
    SeparatorIsLast(s, x, d, |y|, sep);
    SeparatorIsLast(t, y, e, |x|, sep);
    assert s[..|x|] == x && t[..|y|] == y;
    assert s[|x| + 1..] == d && t[|y| + 1..] == e;
  }

  // ----- elementary names -----

  /** The letters before the first digit. */
  function Letters(s: string): string {
    if s == "" || IsDigit(s[0]) then "" else [s[0]] + Letters(s[1..])
  }

  lemma {:induction false} LettersOf(word: string, rest: string)
    requires forall i :: 0 <= i < |word| ==> !IsDigit(word[i])
    requires rest == "" || IsDigit(rest[0])
    ensures Letters(word + rest) == word
  {
    if word == "" {
      assert word + rest == rest;
    } else {
      assert (word + rest)[1..] == word[1..] + rest;
      LettersOf(word[1..], rest);
    }
  }

  /** The types whose names have no brackets: elementary types, `bytes` and `string`. */
  predicate Plain(ty: AbiType) {
    ty.Elem? || ty.BytesType? || ty.StringType?
  }

  function Word(ty: AbiType): string
    requires Plain(ty)
  {
    match ty
    case BytesType => "bytes"
    case StringType => "string"
    case Elem(e) =>
      match e
      case IntElem(UInt(_)) => "uint"
      case IntElem(SInt(_)) => "int"
      case BoolType => "bool"
      case AddressType => "address"
      case BytesElem(_) => "bytes"
      case FixedElem(UFixed(_, _)) => "ufixed"
      case FixedElem(SFixed(_, _)) => "fixed"
      case FunctionType => "function"
  }

  function Suffix(ty: AbiType): string
    requires Plain(ty)
  {
    match ty
    case BytesType => ""
    case StringType => ""
    case Elem(e) =>
      match e
      case IntElem(t) => Decimal(t.bits)
      case BytesElem(n) => Decimal(n + 1)
      case FixedElem(f) => Decimal(f.m) + "x" + Decimal(f.n)
      case _ => ""
  }

  /** A bracket, parenthesis or comma. */
  predicate IsPunctuation(c: char) {
    c == '(' || c == ')' || c == ',' || c == '[' || c == ']'
  }

  predicate NoPunctuation(s: string) {
    forall i :: 0 <= i < |s| ==> !IsPunctuation(s[i])
  }

  predicate LowerCase(s: string) {
    forall i :: 0 <= i < |s| ==> 'a' <= s[i] <= 'z'
  }

  lemma {:induction false} WordIsLowerCase(ty: AbiType)
    requires Plain(ty)
    ensures LowerCase(Word(ty)) && Word(ty) != ""
  {
    assert LowerCase("uint") && LowerCase("int") && LowerCase("bool") && LowerCase("address");
    assert LowerCase("bytes") && LowerCase("ufixed") && LowerCase("fixed");
    assert LowerCase("function") && LowerCase("string");
  }

  lemma {:induction false} SuffixIsNumeric(ty: AbiType)
    requires Plain(ty)
    ensures NoPunctuation(Suffix(ty)) && (Suffix(ty) == "" || IsDigit(Suffix(ty)[0]))
  {
    if ty.Elem? {
      match ty.elem
      case IntElem(t) => DecimalDigits(t.bits);
      case BytesElem(n) => DecimalDigits(n + 1);
      case FixedElem(f) =>
        DecimalDigits(f.m);
        DecimalDigits(f.n);
      case _ =>
    }
  }

  lemma {:induction false} PlainName(ty: AbiType)
    requires Plain(ty)
    ensures TypeName(ty) == Word(ty) + Suffix(ty) && Letters(TypeName(ty)) == Word(ty)
    ensures TypeName(ty) != "" && NoPunctuation(TypeName(ty))
  {
    hide Letters, Decimal;
    WordIsLowerCase(ty);
    SuffixIsNumeric(ty);
    LettersOf(Word(ty), Suffix(ty));
    NameParts(ty);
  }

  lemma {:induction false} NameParts(ty: AbiType)
    requires Plain(ty)
    ensures TypeName(ty) == Word(ty) + Suffix(ty)
  {
    hide Decimal;
  }

  lemma {:induction false} PlainInjective(a: AbiType, b: AbiType)
    requires Plain(a) && Plain(b) && TypeName(a) == TypeName(b)
    ensures a == b
  {
    PlainName(a);
    PlainName(b);
    assert Word(a) == Word(b);
    SameSuffix(Word(a), Suffix(a), Suffix(b));
    SameWord(a, b);
  }

  lemma {:induction false} SameSuffix(word: string, x: string, y: string)
    requires word + x == word + y
    ensures x == y
  {
    assert (word + x)[|word|..] == x && (word + y)[|word|..] == y;
  }

  lemma {:induction false} SameWord(a: AbiType, b: AbiType)
    requires Plain(a) && Plain(b) && Word(a) == Word(b) && Suffix(a) == Suffix(b)
    ensures a == b
  {
    WordLetters(a);
    WordLetters(b);
    match a
    case BytesType => if b.Elem? { BytesSuffix(b.elem); }
    case StringType =>
    case Elem(e) =>
      if b.BytesType? {
        BytesSuffix(e);
      } else {
        match e
        case IntElem(t) => DecimalInjective(t.bits, b.elem.int_.bits);
        case BytesElem(n) => DecimalInjective(n + 1, b.elem.last + 1);
        case FixedElem(f) =>
          var g := b.elem.fixed;
          DecimalDigits(f.n);
          DecimalDigits(g.n);
          LastSeparator(Decimal(f.m), Decimal(f.n), Decimal(g.m), Decimal(g.n), 'x');
          DecimalInjective(f.m, g.m);
          DecimalInjective(f.n, g.n);
        case _ =>
      }
  }

  /** The words tell the kinds of plain types apart, except that `bytes` starts `bytesN`. */
  lemma {:induction false} WordLetters(ty: AbiType)
    requires Plain(ty)
    ensures var w := Word(ty);
            && (w == "uint" <==> ty.Elem? && ty.elem.IntElem? && ty.elem.int_.UInt?)
            && (w == "int" <==> ty.Elem? && ty.elem.IntElem? && ty.elem.int_.SInt?)
            && (w == "bool" <==> ty == Elem(BoolType))
            && (w == "address" <==> ty == Elem(AddressType))
            && (w == "ufixed" <==> ty.Elem? && ty.elem.FixedElem? && ty.elem.fixed.UFixed?)
            && (w == "fixed" <==> ty.Elem? && ty.elem.FixedElem? && ty.elem.fixed.SFixed?)
            && (w == "function" <==> ty == Elem(FunctionType))
            && (w == "string" <==> ty == StringType)
            && (w == "bytes" <==> ty == BytesType || (ty.Elem? && ty.elem.BytesElem?))
  {
    assert |"uint"| == 4 && |"int"| == 3 && |"bool"| == 4 && |"address"| == 7 && |"ufixed"| == 6;
    assert |"fixed"| == 5 && |"function"| == 8 && |"string"| == 6 && |"bytes"| == 5;
    assert "uint"[0] == 'u' && "bool"[0] == 'b' && "ufixed"[0] == 'u' && "string"[0] == 's';
    assert "fixed"[0] == 'f' && "bytes"[0] == 'b';
  }

  lemma {:induction false} BytesSuffix(e: ElemType)
    requires e.BytesElem?
    ensures Suffix(Elem(e)) != ""
  {
    DecimalDigits(e.last + 1);
  }

  // ----- nesting -----

  /** Index of the first comma or closing parenthesis outside every parenthesis opened in s. */
  function Cut(s: string, depth: nat): (k: nat)
    ensures k <= |s|
  {
    if s == "" || (depth == 0 && (s[0] == ',' || s[0] == ')')) then 0
    else 1 + Cut(s[1..], if s[0] == '(' then depth + 1 else if s[0] == ')' then depth - 1 else depth)
  }

  lemma {:induction false} CutPlain(s: string, rest: string, depth: nat)
    requires forall i :: 0 <= i < |s| ==> s[i] != '(' && s[i] != ')' && s[i] != ','
    ensures Cut(s + rest, depth) == |s| + Cut(rest, depth)
  {
    if s == "" {
      assert s + rest == rest;
    } else {
      assert (s + rest)[1..] == s[1..] + rest;
      CutPlain(s[1..], rest, depth);
    }
  }

  lemma {:induction false} CutChar(c: char, rest: string, depth: nat)
    requires depth > 0 || (c != ',' && c != ')')
    ensures Cut([c] + rest, depth) ==
            1 + Cut(rest, if c == '(' then depth + 1 else if c == ')' then depth - 1 else depth)
  {
    assert ([c] + rest)[1..] == rest;
  }

  lemma {:induction false} CutSuffixed(name: string, suffix: string, rest: string, depth: nat)
    requires forall i :: 0 <= i < |suffix| ==> suffix[i] != '(' && suffix[i] != ')' && suffix[i] != ','
    requires Cut(name + (suffix + rest), depth) == |name| + Cut(suffix + rest, depth)
    ensures Cut((name + suffix) + rest, depth) == |name + suffix| + Cut(rest, depth)
  {
    hide Cut;
    CutPlain(suffix, rest, depth);
    assert (name + suffix) + rest == name + (suffix + rest);
  }

  /** A type name closes every parenthesis it opens, and its commas are inside parentheses. */
  lemma {:induction false} CutName(ty: AbiType, rest: string, depth: nat)
    ensures Cut(TypeName(ty) + rest, depth) == |TypeName(ty)| + Cut(rest, depth)
    decreases ty, 0
  {
    hide Cut, ElemName, Decimal, JoinNames;
    match ty
    case ArrayType(item, n) =>
      DecimalDigits(n);
      CutName(item, "[" + Decimal(n) + "]" + rest, depth);
      CutSuffixed(TypeName(item), "[" + Decimal(n) + "]", rest, depth);
      assert TypeName(ty) == TypeName(item) + ("[" + Decimal(n) + "]");
    case DynamicArray(item) =>
      CutName(item, "[]" + rest, depth);
      CutSuffixed(TypeName(item), "[]", rest, depth);
    case TupleType(items) =>
      CutJoin(items, ")" + rest, depth + 1);
      CutTuple(items, rest, depth);
    case _ =>
      PlainName(ty);
      CutPlain(TypeName(ty), rest, depth);
  }

  lemma {:induction false} CutTuple(items: seq<AbiType>, rest: string, depth: nat)
    requires Cut(JoinNames(items) + (")" + rest), depth + 1) == |JoinNames(items)| + Cut(")" + rest, depth + 1)
    ensures Cut(TypeName(TupleType(items)) + rest, depth) == |TypeName(TupleType(items))| + Cut(rest, depth)
  {
    hide Cut, JoinNames;
    var names := JoinNames(items);
    CutChar('(', names + (")" + rest), depth);
    CutChar(')', rest, depth + 1);
    assert TypeName(TupleType(items)) == "(" + names + ")";
    assert "(" + names + ")" + rest == "(" + (names + (")" + rest));
  }

  lemma {:induction false} CutJoin(types: seq<AbiType>, rest: string, depth: nat)
    requires depth > 0
    ensures Cut(JoinNames(types) + rest, depth) == |JoinNames(types)| + Cut(rest, depth)
    decreases types, 0
  {
    hide Cut, TypeName;
    if types == [] {
      assert "" + rest == rest;
    } else if |types| == 1 {
      CutName(types[0], rest, depth);
    } else {
      var first, others := TypeName(types[0]), JoinNames(types[1..]);
      CutName(types[0], "," + (others + rest), depth);
      CutChar(',', others + rest, depth);
      CutJoin(types[1..], rest, depth);
      assert JoinNames(types) + rest == first + ("," + (others + rest));
    }
  }

  predicate Delimited(rest: string) {
    rest == "" || rest[0] == ',' || rest[0] == ')'
  }

  /** A delimited type name is determined by the text it starts. */
  lemma {:induction false} SplitName(a: AbiType, r: string, b: AbiType, t: string)
    requires TypeName(a) + r == TypeName(b) + t && Delimited(r) && Delimited(t)
    ensures TypeName(a) == TypeName(b) && r == t
  {
    hide TypeName;
    CutName(a, r, 0);
    CutName(b, t, 0);
    var s := TypeName(a) + r;
    assert s[..|TypeName(a)|] == TypeName(a) && (TypeName(b) + t)[..|TypeName(b)|] == TypeName(b);
    assert s[|TypeName(a)|..] == r && (TypeName(b) + t)[|TypeName(b)|..] == t;
  }

  // ----- injectivity -----

  /** The last character tells arrays from the rest; the first tells tuples from the rest. */
  lemma {:induction false} NameEnds(ty: AbiType)
    ensures var s := TypeName(ty);
            && s != ""
            && (s[|s| - 1] == ']' <==> ty.ArrayType? || ty.DynamicArray?)
            && (!ty.ArrayType? && !ty.DynamicArray? ==> (s[0] == '(' <==> ty.TupleType?))
            && (ty.DynamicArray? ==> |s| >= 2 && s[|s| - 2] == '[')
            && (ty.ArrayType? ==> |s| >= 2 && s[|s| - 2] != '[')
  {
    hide ElemName, JoinNames, Decimal;
    if Plain(ty) {
      PlainName(ty);
    } else if ty.ArrayType? {
      DecimalDigits(ty.count);
      var d := Decimal(ty.count);
      var s := TypeName(ty);
      assert s[|s| - 2] == d[|d| - 1];
    }
  }

  /** Type names are injective. */
  lemma {:induction false} TypeNameInjective(a: AbiType, b: AbiType)
    requires TypeName(a) == TypeName(b)
    ensures a == b
    decreases a, 0
  {
    hide ElemName, JoinNames, Decimal;
    NameEnds(a);
    NameEnds(b);
    var s, t := TypeName(a), TypeName(b);
    match a
    case ArrayType(item, n) =>
      DecimalDigits(n);
      DecimalDigits(b.count);
      assert s[..|s| - 1] == TypeName(item) + "[" + Decimal(n);
      assert t[..|t| - 1] == TypeName(b.item) + "[" + Decimal(b.count);
      LastSeparator(TypeName(item), Decimal(n), TypeName(b.item), Decimal(b.count), '[');
      DecimalInjective(n, b.count);
      TypeNameInjective(item, b.item);
    case DynamicArray(item) =>
      assert s[..|s| - 2] == TypeName(item) && t[..|t| - 2] == TypeName(b.item);
      TypeNameInjective(item, b.item);
    case TupleType(items) =>
      assert s[1..|s| - 1] == JoinNames(items) && t[1..|t| - 1] == JoinNames(b.items);
      JoinNamesInjective(items, b.items);
    case _ =>
      PlainInjective(a, b);
  }

  lemma {:induction false} JoinNamesInjective(a: seq<AbiType>, b: seq<AbiType>)
    requires JoinNames(a) == JoinNames(b)
    ensures a == b
    decreases a, 0
  {
    hide TypeName;
    JoinSplit(a);
    JoinSplit(b);
    if a != [] && b != [] {
      SplitName(a[0], JoinRest(a), b[0], JoinRest(b));
      TypeNameInjective(a[0], b[0]);
      if |a| > 1 && |b| > 1 {
        assert JoinRest(a)[1..] == JoinNames(a[1..]) && JoinRest(b)[1..] == JoinNames(b[1..]);
        JoinNamesInjective(a[1..], b[1..]);
        assert a == [a[0]] + a[1..] && b == [b[0]] + b[1..];
      } else {
        assert a == [a[0]] && b == [b[0]];
      }
    }
  }

  function JoinRest(types: seq<AbiType>): string
    requires types != []
  {
    if |types| == 1 then "" else "," + JoinNames(types[1..])
  }

  lemma {:induction false} JoinSplit(types: seq<AbiType>)
    ensures types != [] ==> JoinNames(types) == TypeName(types[0]) + JoinRest(types)
    ensures types == [] <==> JoinNames(types) == ""
  {
    hide TypeName;
    if types != [] {
      NameEnds(types[0]);
    }
  }

  // ----- whole signatures -----

  /** The parenthesis depth after s, or -1 if s closes a parenthesis that it did not open. */
  function Walk(s: string, depth: nat): int {
    if s == "" then depth
    else if s[0] == '(' then Walk(s[1..], depth + 1)
    else if s[0] != ')' then Walk(s[1..], depth)
    else if depth == 0 then -1
    else Walk(s[1..], depth - 1)
  }

  lemma {:induction false} WalkConcat(a: string, b: string, depth: nat)
    ensures Walk(a + b, depth) == if Walk(a, depth) < 0 then -1 else Walk(b, Walk(a, depth))
  {
    if a == "" {
      assert a + b == b;
    } else {
      assert (a + b)[1..] == a[1..] + b;
      if a[0] != ')' || depth > 0 {
        WalkConcat(a[1..], b, if a[0] == '(' then depth + 1 else if a[0] == ')' then depth - 1 else depth);
      }
    }
  }

  lemma {:induction false} WalkPlain(s: string, depth: nat)
    requires forall i :: 0 <= i < |s| ==> s[i] != '(' && s[i] != ')'
    ensures Walk(s, depth) == depth
  {
    if s != "" {
      WalkPlain(s[1..], depth);
    }
  }

  lemma {:induction false} WalkName(ty: AbiType, depth: nat)
    ensures Walk(TypeName(ty), depth) == depth
    decreases ty, 0
  {
    hide Walk, ElemName, Decimal;
    match ty
    case ArrayType(item, n) =>
      DecimalDigits(n);
      WalkName(item, depth);
      WalkPlain("[" + Decimal(n) + "]", depth);
      WalkConcat(TypeName(item), "[" + Decimal(n) + "]", depth);
      assert TypeName(ty) == TypeName(item) + ("[" + Decimal(n) + "]");
    case DynamicArray(item) =>
      WalkName(item, depth);
      WalkPlain("[]", depth);
      WalkConcat(TypeName(item), "[]", depth);
    case TupleType(items) =>
      WalkJoin(items, depth + 1);
      WalkConcat("(", JoinNames(items), depth);
      WalkConcat("(" + JoinNames(items), ")", depth);
      assert Walk("(", depth) == depth + 1 && Walk(")", depth + 1) == depth by { WalkParens(depth); }
    case _ =>
      PlainName(ty);
      WalkPlain(TypeName(ty), depth);
  }

  lemma {:induction false} WalkParens(depth: nat)
    ensures Walk("(", depth) == depth + 1 && Walk(")", depth + 1) == depth
  {
    assert "("[1..] == "" && ")"[1..] == "";
  }

  lemma {:induction false} WalkJoin(types: seq<AbiType>, depth: nat)
    ensures Walk(JoinNames(types), depth) == depth
    decreases types, 0
  {
    hide TypeName;
    if types != [] {
      WalkName(types[0], depth);
      if |types| > 1 {
        WalkJoin(types[1..], depth);
        WalkPlain(",", depth);
        WalkConcat(TypeName(types[0]), ",", depth);
        WalkConcat(TypeName(types[0]) + ",", JoinNames(types[1..]), depth);
      }
    }
  }

  /** The parenthesis opening the parameter list is the one that the last character closes. */
  lemma {:induction false} ListStart(a: Signature, b: Signature)
    requires PrintSignature(a) == PrintSignature(b)
    ensures |b.name| <= |a.name|
  {
    hide JoinNames, Walk;
    var i, j := JoinNames(a.paramTypes), JoinNames(b.paramTypes);
    if |a.name| < |b.name| {
      var s := PrintSignature(a);
      var u := b.name[|a.name| + 1..];
      assert i == s[|a.name| + 1..|s| - 1] && j == s[|b.name| + 1..|s| - 1] && s[|b.name|] == '(';
      assert s[..|b.name|] == b.name;
      assert i == u + "(" + j;
      WalkJoin(a.paramTypes, 0);
      WalkConcat(u + "(", j, 0);
      WalkConcat(u, "(", 0);
      if Walk(u, 0) >= 0 {
        WalkParens(Walk(u, 0));
        WalkJoin(b.paramTypes, Walk(u, 0) + 1);
      }
      assert false;
    }
  }

  /** A printed signature determines its name and its parameter types, whatever the name contains. */
  lemma {:induction false} PrintSignatureInjective(a: Signature, b: Signature)
    requires PrintSignature(a) == PrintSignature(b)
    ensures a == b
  {
    hide JoinNames;
    ListStart(a, b);
    ListStart(b, a);
    var s, t, n := PrintSignature(a), PrintSignature(b), |a.name|;
    assert s[..n] == a.name && t[..n] == b.name;
    assert s[n + 1..|s| - 1] == JoinNames(a.paramTypes) && t[n + 1..|t| - 1] == JoinNames(b.paramTypes);
    JoinNamesInjective(a.paramTypes, b.paramTypes);
  }
}
