/** 64-bit signed numbers as the evaluator computes with them, and their decimal form. */
module ArithNumbers {
  import opened Basics

  const TWO64: int := 0x1_0000_0000_0000_0000
  const MAX: int := 0x7FFF_FFFF_FFFF_FFFF
  const MIN: int := -MAX - 1

  predicate Int64(n: int) {
    MIN <= n <= MAX
  }

  /** The word congruent to x modulo 2^64. */
  function Wrap64(x: int): (w: int)
    ensures Int64(w)
    ensures Int64(x) ==> w == x
  {
    (x - MIN) % TWO64 + MIN
  }

  ghost predicate Same(x: int, y: int) {
    exists k: int :: x == y + k * TWO64
  }

  lemma WrapSame(x: int)
    ensures Same(Wrap64(x), x)
  {
    assert Wrap64(x) == x + (-((x - MIN) / TWO64)) * TWO64;
  }

  lemma SameSelf(x: int)
    ensures Same(x, x)
  {
    assert x == x + 0 * TWO64;
  }

  lemma SameWrap(x: int, y: int)
    requires Same(x, y)
    ensures Wrap64(x) == Wrap64(y)
  {
    var k: int :| x == y + k * TWO64;
    ModShift(y - MIN, k);
  }

  lemma ModShift(x: int, k: int)
    ensures (x + k * TWO64) % TWO64 == x % TWO64
  {
    var q, r := x / TWO64, x % TWO64;
    assert x + k * TWO64 == (q + k) * TWO64 + r;
  }

  lemma SameMul(x: int, y: int, z: int)
    requires Same(x, y)
    ensures Same(x * z, y * z) && Same(z * x, z * y)
  {
    var k: int :| x == y + k * TWO64;
    assert x * z == y * z + (k * z) * TWO64 by { MulOut(y, k, z); }
    assert z * x == z * y + (k * z) * TWO64;
  }

  lemma MulOut(y: int, k: int, z: int)
    ensures (y + k * TWO64) * z == y * z + (k * z) * TWO64
  { }

  lemma SameTrans(x: int, y: int, z: int)
    requires Same(x, y) && Same(y, z)
    ensures Same(x, z)
  {
    var j: int :| x == y + j * TWO64;
    var k: int :| y == z + k * TWO64;
    assert x == z + (j + k) * TWO64;
  }

  // ---------- division and shifts ----------

  function Abs(x: int): nat {
    if x < 0 then -x else x
  }

  /** Go's quotient truncates toward zero. */
  function Quo(x: int, y: int): (q: int)
    requires y != 0
    ensures (x < 0 <==> y < 0) ==> q >= 0
    ensures !(x < 0 <==> y < 0) ==> q <= 0
  {
    var m := Abs(x) / Abs(y);
    if x < 0 <==> y < 0 then m else -m
  }

  /** The remainder that goes with it: it has the dividend's sign. */
  function Rem(x: int, y: int): (r: int)
    requires y != 0
    ensures Abs(r) < Abs(y) && (x >= 0 ==> r >= 0) && (x <= 0 ==> r <= 0)
  {
    if x < 0 then -(Abs(x) % Abs(y)) else Abs(x) % Abs(y)
  }

  lemma QuoRem(x: int, y: int)
    requires y != 0
    ensures x == Quo(x, y) * y + Rem(x, y)
  {
    var a, b := Abs(x), Abs(y);
    assert a == (a / b) * b + a % b;
  }

  function Pow(a: int, n: nat): int {
    if n == 0 then 1 else a * Pow(a, n - 1)
  }

  lemma {:induction false} PowPositive(a: int, n: nat)
    requires a > 0
    ensures Pow(a, n) > 0
  {
    if n > 0 { PowPositive(a, n - 1); }
  }

  function Two(n: nat): (p: int)
    ensures p == Pow(2, n) && p > 0
  {
    PowPositive(2, n);
    Pow(2, n)
  }

  /** x << uint(y): a negative count converts to a huge one. */
  function ShiftLeft(x: int, y: int): (r: int)
    ensures Int64(r)
  {
    if 0 <= y < 64 then Wrap64(x * Two(y)) else 0
  }

  /** x >> uint(y) keeps the sign. */
  function ShiftRight(x: int, y: int): (r: int)
    ensures x >= 0 ==> 0 <= r <= x
    ensures x < 0 ==> x <= r <= -1
  {
    if 0 <= y < 64 then
      assert x >= 0 ==> 0 <= x / Two(y) <= x by { Halved(x, Two(y)); }
      assert x < 0 ==> x <= x / Two(y) <= -1 by { Halved(x, Two(y)); }
      x / Two(y)
    else if x < 0 then -1
    else 0
  }

  lemma Cancel(p: int, q: int, d: int)
    requires d >= 1 && p * d < q * d
    ensures p < q
  { }

  lemma Grows(x: int, d: int)
    requires d >= 1
    ensures x >= 0 ==> x <= x * d
    ensures x < 0 ==> x * d <= x
  { }

  lemma Halved(x: int, d: int)
    requires d >= 1
    ensures x >= 0 ==> 0 <= x / d <= x
    ensures x < 0 ==> x <= x / d <= -1
  {
    var q, r := x / d, x % d;
    assert x == q * d + r && 0 <= r < d;
    if x >= 0 {
      Cancel(-1, q, d);
      Grows(q, d);
    } else {
      Cancel(q, 0, d);
      Grows(x, d);
      assert (x - 1) * d == x * d - d;
      Cancel(x - 1, q, d);
    }
  }

  // ---------- bitwise operators on two's complement words ----------

  datatype BitOp = AndBit | OrBit | XorBit

  function OnBits(op: BitOp, a: bool, b: bool): bool {
    match op
    case AndBit => a && b
    case OrBit => a || b
    case XorBit => a != b
  }

  /** Bit i of x, the sign repeating above the top. */
  function Bit(x: int, i: nat): bool
    decreases i
  {
    if i == 0 then x % 2 == 1 else Bit(x / 2, i - 1)
  }

  /** Combine the low n bits and, above them, the sign bit. */
  function Bits(op: BitOp, x: int, y: int, n: nat): int
    decreases n
  {
    if n == 0 then (if OnBits(op, x < 0, y < 0) then -1 else 0)
    else (if OnBits(op, x % 2 == 1, y % 2 == 1) then 1 else 0) + 2 * Bits(op, x / 2, y / 2, n - 1)
  }

  lemma {:induction false} BitsRange(op: BitOp, x: int, y: int, n: nat)
    ensures -Two(n) <= Bits(op, x, y, n) < Two(n)
    decreases n
  {
    if n > 0 { BitsRange(op, x / 2, y / 2, n - 1); }
  }

  /** The result's bits are the operator applied to the operands' bits. */
  lemma {:induction false} BitsAt(op: BitOp, x: int, y: int, n: nat, i: nat)
    requires i < n
    ensures Bit(Bits(op, x, y, n), i) == OnBits(op, Bit(x, i), Bit(y, i))
    decreases n
  {
    var rest := Bits(op, x / 2, y / 2, n - 1);
    var b := Bits(op, x, y, n);
    assert b / 2 == rest;
    if i > 0 { BitsAt(op, x / 2, y / 2, n - 1, i - 1); }
  }

  function Bitwise(op: BitOp, x: int, y: int): (r: int)
    ensures Int64(r)
  {
    BitsRange(op, x, y, 63);
    TopBit();
    Bits(op, x, y, 63)
  }

  lemma TopBit()
    ensures Two(63) == MAX + 1
  {
    PowTimes(2, 3, 5);
    PowTimes(256, 2, 3);
    assert Pow(2, 3) == 8 && Pow(2, 5) == 32;
    PowAdd(2, 3, 5);
    PowAdd(2, 8, 8);
    PowAdd(2, 16, 16);
    PowAdd(2, 31, 32);
    PowAdd(2, 1, 31);
  }

  lemma {:induction false} PowAdd(a: int, m: nat, n: nat)
    ensures Pow(a, m + n) == Pow(a, m) * Pow(a, n)
  {
    if m > 0 {
      PowAdd(a, m - 1, n);
      assert a * (Pow(a, m - 1) * Pow(a, n)) == (a * Pow(a, m - 1)) * Pow(a, n);
    }
  }

  lemma Swap(a: int, b: int, p: int, q: int)
    ensures (a * b) * (p * q) == (a * p) * (b * q)
  {
    assert (a * b) * (p * q) == a * (b * (p * q));
    assert b * (p * q) == p * (b * q);
  }

  lemma {:induction false} PowTimes(a: int, b: int, n: nat)
    ensures Pow(a * b, n) == Pow(a, n) * Pow(b, n)
  {
    if n > 0 {
      PowTimes(a, b, n - 1);
      var p, q := Pow(a, n - 1), Pow(b, n - 1);
      Swap(a, b, p, q);
    }
  }

  // ---------- fast exponentiation ----------

  lemma {:induction false} SamePow(a: int, b: int, n: nat)
    requires Same(a, b)
    ensures Same(Pow(a, n), Pow(b, n))
  {
    if n == 0 {
      assert 1 == 1 + 0 * TWO64;
    } else {
      SamePow(a, b, n - 1);
      SameMul(Pow(a, n - 1), Pow(b, n - 1), a);
      SameMul(a, b, Pow(b, n - 1));
      SameTrans(a * Pow(a, n - 1), a * Pow(b, n - 1), b * Pow(b, n - 1));
    }
  }

  /** Squaring the base halves the exponent. */
  lemma Square(a: int, n: nat)
    ensures Pow(a, n) == (if n % 2 == 1 then a else 1) * Pow(a * a, n / 2)
  {
    PowTimes(a, a, n / 2);
    PowAdd(a, n / 2, n / 2);
    if n % 2 == 1 { assert n - 1 == n / 2 + n / 2; } else { assert n == n / 2 + n / 2; }
  }

  lemma PowStep(p: int, a: int, n: nat)
    ensures Same((if n % 2 == 1 then Wrap64(p * a) else p) * Pow(Wrap64(a * a), n / 2), p * Pow(a, n))
  {
    var q := Pow(Wrap64(a * a), n / 2);
    var s := Pow(a * a, n / 2);
    WrapSame(a * a);
    SamePow(Wrap64(a * a), a * a, n / 2);
    Square(a, n);
    if n % 2 == 1 {
      WrapSame(p * a);
      SameMul(Wrap64(p * a), p * a, q);
      SameMul(q, s, p * a);
      SameTrans(Wrap64(p * a) * q, (p * a) * q, (p * a) * s);
      assert (p * a) * s == p * (a * s);
    } else {
      SameMul(q, s, p);
    }
  }

  /** intPow: a to the b-th modulo 2^64, and 1 for a negative exponent. */
  method IntPow(a: int, b: int) returns (p: int)
    requires Int64(a) && Int64(b)
    ensures p == if b < 0 then 1 else Wrap64(Pow(a, b))
  {
    p := 1;
    var base, n := a, b;
    if b >= 0 { SameSelf(Pow(a, b)); }
    while n > 0
      invariant Int64(p) && (b < 0 ==> n == b && p == 1)
      invariant b >= 0 ==> n >= 0 && Same(p * Pow(base, n), Pow(a, b))
    {
      ghost var p0, base0, n0 := p, base, n;
      if n % 2 != 0 {
        p := Wrap64(p * base);
      }
      n := n / 2;
      base := Wrap64(base * base);
      PowStep(p0, base0, n0);
      SameTrans(p * Pow(base, n), p0 * Pow(base0, n0), Pow(a, b));
    }
    if b >= 0 { SameWrap(p, Pow(a, b)); }
  }

  // ---------- decimal text ----------

  predicate Digit(c: char) {
    '0' <= c <= '9'
  }

  function DigitOf(d: nat): (c: char)
    requires d < 10
    ensures Digit(c) && c as int - '0' as int == d
  {
    ('0' as int + d) as char
  }

  function Digits(n: nat): (s: string)
    ensures s != "" && forall i :: 0 <= i < |s| ==> Digit(s[i])
  {
    if n < 10 then [DigitOf(n)] else Digits(n / 10) + [DigitOf(n % 10)]
  }

  /** strconv.FormatInt in base 10 */
  function Format(n: int): (s: string)
    ensures s != "" && forall i :: 1 <= i < |s| ==> Digit(s[i])
    ensures if n < 0 then s[0] == '-' && |s| > 1 else Digit(s[0])
  {
    if n < 0 then "-" + Digits(-n) else Digits(n)
  }

  datatype Scan = Value(n: nat) | Syntax | Range

  /** strconv.ParseUint's loop: the first bad character or overflow met decides. */
  function ScanUint(s: string, n: nat): Scan {
    if s == "" then Value(n)
    else if !Digit(s[0]) then Syntax
    else
      var m := n * 10 + (s[0] as int - '0' as int);
      if m >= TWO64 then Range else ScanUint(s[1..], m)
  }

  function Clamp(neg: bool, n: int): (r: int)
    requires n >= 0
    ensures Int64(r)
  {
    if neg then (if n > MAX then MIN else -n) else if n > MAX then MAX else n
  }

  /** atoi: the number in the text, clamped to a word, and 0 for what is not one. */
  function Atoi(text: string): (n: int)
    ensures Int64(n)
  {
    var s := Trim(text);
    if s == "" then 0 else
      var sign := s[0] == '+' || s[0] == '-';
      var body := if sign then s[1..] else s;
      if body == "" then 0
      else match ScanUint(body, 0)
        case Syntax => 0
        case Range => Clamp(s[0] == '-', TWO64)
        case Value(n) => Clamp(s[0] == '-', n)
  }

  lemma {:induction false} ScanAppend(s: string, d: nat, n: nat)
    requires d < 10
    ensures ScanUint(s + [DigitOf(d)], n)
            == match ScanUint(s, n)
               case Value(m) => if m * 10 + d >= TWO64 then Range else Value(m * 10 + d)
               case other => other
  {
    var t := s + [DigitOf(d)];
    if s == "" {
      assert t == [DigitOf(d)] && t[1..] == "";
    } else {
      assert t[0] == s[0] && t[1..] == s[1..] + [DigitOf(d)];
      if Digit(s[0]) && n * 10 + (s[0] as int - '0' as int) < TWO64 {
        ScanAppend(s[1..], d, n * 10 + (s[0] as int - '0' as int));
      }
    }
  }

  lemma {:induction false} ScanDigits(n: nat)
    requires n < TWO64
    ensures ScanUint(Digits(n), 0) == Value(n)
  {
    if n < 10 {
      assert Digits(n)[1..] == "";
    } else {
      ScanDigits(n / 10);
      ScanAppend(Digits(n / 10), n % 10, 0);
    }
  }

  lemma DigitNotSpace(c: char)
    requires Digit(c) || c == '-'
    ensures !Space(c)
  { }

  /** Reading back a formatted number gives the number. */
  lemma AtoiFormat(n: int)
    requires Int64(n)
    ensures Atoi(Format(n)) == n
  {
    var s := Format(n);
    DigitNotSpace(s[0]);
    DigitNotSpace(s[|s| - 1]);
    assert Trim(s) == s;
    ScanDigits(Abs(n));
    if n < 0 {
      assert s[1..] == Digits(-n);
    }
  }

  predicate AllDigits(d: string) {
    forall i :: 0 <= i < |d| ==> Digit(d[i])
  }

  /** What a string of digits says, the last one counting least. */
  function Decimal(d: string): nat
    requires AllDigits(d)
  {
    if d == "" then 0 else Decimal(d[..|d| - 1]) * 10 + (d[|d| - 1] as int - '0' as int)
  }

  /** Scanning digits and then more: overflow decides at once, otherwise the rest goes on from their value. */
  lemma {:induction false} ScanIs(d: string, rest: string)
    requires AllDigits(d)
    ensures ScanUint(d + rest, 0) == if Decimal(d) >= TWO64 then Range else ScanUint(rest, Decimal(d))
    decreases |d|
  {
    if d == "" {
      assert d + rest == rest;
    } else {
      var up, c := d[..|d| - 1], d[|d| - 1];
      assert d + rest == up + ([c] + rest) && ([c] + rest)[1..] == rest;
      ScanIs(up, [c] + rest);
    }
  }

  predicate Sign(s: string) {
    s == "" || s == "+" || s == "-"
  }

  /** What a signed text reads as once its digits are scanned. */
  function Signed(neg: bool, scan: Scan): int {
    match scan
    case Syntax => 0
    case Range => if neg then MIN else MAX
    case Value(n) =>
      var m: int := n;
      if neg then (if m > MAX then MIN else -m) else if m > MAX then MAX else m
  }

  lemma AtoiParts(text: string, sign: string, body: string)
    requires Trim(text) == sign + body && Sign(sign) && body != ""
    requires sign == "" ==> body[0] != '+' && body[0] != '-'
    ensures Atoi(text) == Signed(sign == "-", ScanUint(body, 0))
  {
    hide Trim, ScanUint;
    var t := sign + body;
    if sign == "" {
      assert t == body;
    } else {
      assert |sign| == 1 && t[1..] == body && t[0] == sign[0];
    }
  }

  lemma AtoiSigned(a: string, sign: string, body: string, b: string)
    requires Blanks(a) && Blanks(b) && Sign(sign) && body != "" && !Space(body[|body| - 1])
    requires sign == "" ==> body[0] != '+' && body[0] != '-' && !Space(body[0])
    ensures Atoi(a + sign + body + b) == Signed(sign == "-", ScanUint(body, 0))
  {
    hide Space, ScanUint, Trim, Atoi, Signed;
    SignNotSpace(sign);
    TrimIs(a, sign + body, b);
    assert a + sign + body + b == a + (sign + body) + b;
    AtoiParts(a + sign + body + b, sign, body);
  }

  /** Digits with a sign, white space around them allowed, read as their number, or the nearest one. */
  lemma AtoiReads(a: string, sign: string, d: string, b: string)
    requires Blanks(a) && Blanks(b) && Sign(sign) && d != "" && AllDigits(d)
    ensures var n: int := Decimal(d);
            Atoi(a + sign + d + b) == if sign == "-" then (if n > MAX then MIN else -n) else if n > MAX then MAX else n
  {
    hide Space, Atoi, ScanUint, Decimal;
    DigitNotSpace(d[0]);
    DigitNotSpace(d[|d| - 1]);
    AtoiSigned(a, sign, d, b);
    ScanIs(d, "");
    assert d + "" == d;
    ScanNone(Decimal(d));
  }

  lemma ScanNone(n: nat)
    ensures ScanUint("", n) == Value(n)
  { }

  lemma SignNotSpace(sign: string)
    requires Sign(sign)
    ensures sign != "" ==> !Space(sign[0])
  { }

  /** Anything else among the digits makes it 0, unless what stands before it is too big already. */
  lemma AtoiRefuses(a: string, sign: string, d: string, c: char, rest: string, b: string)
    requires Blanks(a) && Blanks(b) && Sign(sign) && AllDigits(d) && !Digit(c)
    requires sign == "" && d == "" ==> c != '+' && c != '-' && !Space(c)
    requires var body := d + ([c] + rest); !Space(body[|body| - 1])
    ensures Atoi(a + sign + (d + ([c] + rest)) + b)
         == if Decimal(d) < TWO64 then 0 else if sign == "-" then MIN else MAX
  {
    hide Space, Atoi, Decimal, ScanUint;
    if d != "" { DigitNotSpace(d[0]); }
    AtoiSigned(a, sign, d + ([c] + rest), b);
    ScanIs(d, [c] + rest);
    ScanBad(c, rest, Decimal(d));
  }

  lemma ScanBad(c: char, rest: string, n: nat)
    requires !Digit(c)
    ensures ScanUint([c] + rest, n) == Syntax
  { }

  /** White space alone, with or without a sign, is 0. */
  lemma AtoiBlank(a: string, sign: string, b: string)
    requires Blanks(a) && Blanks(b) && Sign(sign)
    ensures Atoi(a + sign + b) == 0
  {
    hide Space;
    SignNotSpace(sign);
    TrimIs(a, sign, b);
  }

  /** A number is written with no leading zero. */
  lemma {:induction false} DigitsShort(n: nat)
    ensures Digits(n)[0] == '0' <==> n == 0
    ensures AllDigits(Digits(n)) && Decimal(Digits(n)) == n
  {
    if n >= 10 {
      DigitsShort(n / 10);
      assert Digits(n)[..|Digits(n)| - 1] == Digits(n / 10);
    }
  }

  /** The decimal text is a minus sign for a negative number and then its digits. */
  lemma FormatIs(n: int)
    ensures exists d: string :: d != "" && AllDigits(d) && Decimal(d) == Abs(n) && (d[0] == '0' ==> n == 0)
                        && Format(n) == (if n < 0 then "-" else "") + d
  {
    hide Digits;
    DigitsShort(Abs(n));
    var d := Digits(Abs(n));
    assert "" + d == d;
  }
}
