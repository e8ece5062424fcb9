/**
 ADC and SBC of the 65C02 (65c02core.cpp:502-534, 1140-1168): one instruction as the macros compute it, and what a
 program that chains them over packed decimal numbers gets.
 */
module Decimal65C02 {
  import opened Numbers

  // ----- one instruction -----

  /** Result, carry and overflow. */
  datatype Outcome = Outcome(a: Byte, carry: bool, overflow: bool)

  function One(b: bool): nat { if b then 1 else 0 }

  predicate Bit7(n: int) { n / 128 % 2 == 1 }

  /** Decimal ADC, for any bytes. */
  function AdcDecimal(a: Byte, v: Byte, c: bool): Outcome {
    var low := a % 16 + v % 16 + One(c);
    var high := (a / 16 + v / 16) * 16 + if low > 9 then 16 else 0;
    var tmp := if low > 9 then low + 6 else low;
    var tmp2 := if high > 0x90 then high + 0x60 else high;
    Outcome(tmp % 16 + tmp2 / 16 % 16 * 16, tmp2 >= 256, Bit7(a) == Bit7(v) && Bit7(a) != Bit7(tmp))
  }

  function Sub16(x: int, y: int): nat { (x - y) % 65536 }

  /** A digit that is above the one it was subtracted from has borrowed: it is corrected. */
  function LowFixed(t: nat, digit: nat): nat { if t % 16 > digit then Sub16(t, 6) else t }

  function HighFixed(t: nat, digit: nat): nat { if t / 16 % 16 > digit then Sub16(t, 0x60) else t }

  /** Decimal SBC, for any bytes, in 16-bit words. */
  function SbcDecimal(a: Byte, v: Byte, c: bool): Outcome {
    var t := LowFixed(Sub16(a, v % 16 + 1 - One(c)), a % 16);
    var u := HighFixed(Sub16(t, v / 16 * 16), a / 16);
    Outcome(u % 256, u <= a, u <= a)
  }

  function AdcBinary(a: Byte, v: Byte, c: bool): Outcome {
    var tmp := v + a + One(c);
    Outcome(tmp % 256, tmp > 255, Bit7(a) == Bit7(v) && Bit7(a) != Bit7(tmp))
  }

  function SbcBinary(a: Byte, v: Byte, c: bool): Outcome {
    var tmp := (a - v - if c then 0 else 1) % 65536;
    Outcome(tmp % 256, tmp < 256, Bit7(a) != Bit7(tmp) && Bit7(a) != Bit7(v))
  }

  // ----- what it means -----

  predicate Packed(b: Byte) { b / 16 < 10 && b % 16 < 10 }

  function Value(b: Byte): nat { 10 * (b / 16) + b % 16 }

  lemma ValueOf(h: nat, l: nat)
    requires h < 10 && l < 10
    ensures Packed(16 * h + l) && Value(16 * h + l) == 10 * h + l
  {
    Numbers.DivisionIsUnique(16, h, l);
  }

  /** Digit sums up to 19, with the correction by 6. */
  lemma CorrectedDigit(n: nat)
    requires n < 20
    ensures (if n > 9 then n + 6 else n) % 16 == if n > 9 then n - 10 else n
  {
  }

  lemma CorrectedHigh(n: nat)
    requires n < 20
    ensures var t := if n * 16 > 0x90 then n * 16 + 0x60 else n * 16;
            t / 16 % 16 == (if n > 9 then n - 10 else n) && (t >= 256 <==> n > 9)
  {
    Numbers.DivisionIsUnique(16, n, 0);
    Numbers.DivisionIsUnique(16, n + 6, 0);
    CorrectedDigit(n);
  }

  /** Two decimal digits are added exactly, with carry in and out. */
  lemma AdcAddsDigits(a: Byte, v: Byte, c: bool)
    requires Packed(a) && Packed(v)
    ensures var o := AdcDecimal(a, v, c);
            Packed(o.a) && Value(o.a) + 100 * One(o.carry) == Value(a) + Value(v) + One(c)
  {
    hide Bit7, Packed, Value;
    DigitsOf(a);
    DigitsOf(v);
    var low := a % 16 + v % 16 + One(c);
    var high := a / 16 + v / 16 + One(low > 9);
    CorrectedDigit(low);
    CorrectedHigh(high);
    var l, h := if low > 9 then low - 10 else low, if high > 9 then high - 10 else high;
    assert AdcDecimal(a, v, c).a == 16 * h + l && AdcDecimal(a, v, c).carry == (high > 9);
    hide AdcDecimal;
    ValueOf(h, l);
  }

  lemma LowDigitKept(h: nat, l: nat, d: nat)
    requires h < 10 && d <= l < 10
    ensures LowFixed((16 * h + d) % 65536, l) == 16 * h + d
  {
    Numbers.DivisionIsUnique(16, h, d);
  }

  lemma LowDigitBorrows(h: nat, l: nat, d: int)
    requires h < 10 && l < 10 && l - 10 <= d < 0
    ensures LowFixed((16 * h + d) % 65536, l) == (16 * h + d - 6) % 65536
  {
    var t := (16 * h + d) % 65536;
    assert t % 16 == 16 + d by { LowDigitOf(h, d); }
    assert LowFixed(t, l) == Sub16(t, 6);
    SubtractInWords(16 * h + d, 6);
  }

  lemma LowDigitOf(h: nat, d: int)
    requires h < 10 && -10 <= d < 0
    ensures (16 * h + d) % 65536 % 16 == 16 + d
  {
    if h == 0 {
      assert (16 * h + d) % 65536 == 65536 + d;
      Numbers.DivisionIsUnique(16, 4095, 16 + d);
    } else {
      Numbers.DivisionIsUnique(16, h - 1, 16 + d);
    }
  }

  /** The high digit without a borrow, */
  lemma HighDifference(digit: nat, h: nat, l: nat)
    requires h <= digit < 10 && l < 10
    ensures HighFixed((16 * h + l) % 65536, digit) == 16 * h + l
  {
    Numbers.DivisionIsUnique(16, h, l);
  }

  /** and with one: the word ends above every byte. */
  lemma HighBorrow(digit: nat, h: int, l: nat)
    requires digit - 10 <= h < 0 && digit < 10 && l < 10
    ensures var u := HighFixed((16 * h + l) % 65536, digit);
            u % 256 == 16 * (h + 10) + l && u > 255
  {
    var t := 65536 + 16 * h + l;
    assert (16 * h + l) % 65536 == t;
    Numbers.DivisionIsUnique(16, 4096 + h, l);
    Numbers.DivisionIsUnique(16, 255, 16 + h);
    assert t / 16 == 16 * 255 + (16 + h);
    Numbers.DivisionIsUnique(256, 255, 16 * (h + 10) + l);
    assert Sub16(t, 0x60) == 256 * 255 + (16 * (h + 10) + l);
  }

  lemma SubtractInWords(x: int, y: int)
    ensures Sub16(x % 65536, y) == (x - y) % 65536
  {
    Numbers.ModAdd(65536, x, -y);
  }

  /** The word before the high digit is corrected: high digit `h`, perhaps below 0, and low digit `l`. */
  lemma WordOf(p: nat, q: nat, x: nat, y: nat, k: nat, d: int, h: int, l: nat)
    requires p < 10 && q < 10 && x < 10 && y < 10 && k <= 1 && d == q - y + k - 1
    requires l == (if d < 0 then d + 10 else d) && h == p - x - (if d < 0 then 1 else 0)
    ensures Sub16(LowFixed(Sub16(16 * p + q, y + 1 - k), q), x * 16) == (16 * h + l) % 65536
  {
    hide LowFixed;
    assert Sub16(16 * p + q, y + 1 - k) == (16 * p + d) % 65536;
    if d < 0 {
      LowDigitBorrows(p, q, d);
      SubtractInWords(16 * p + d - 6, x * 16);
    } else {
      LowDigitKept(p, q, d);
    }
  }

  /** Two decimal digits are subtracted exactly, with borrow in and out. */
  lemma SbcSubtractsDigits(a: Byte, v: Byte, c: bool)
    requires Packed(a) && Packed(v)
    ensures var o := SbcDecimal(a, v, c);
            Packed(o.a) && Value(o.a) - 100 * One(!o.carry) == Value(a) - Value(v) - One(!c)
  {
    hide LowFixed, HighFixed, Packed, Value, Sub16;
    var p, q, x, y := a / 16, a % 16, v / 16, v % 16;
    DigitsOf(a);
    DigitsOf(v);
    var d := q - y + One(c) - 1;
    var l: nat := if d < 0 then d + 10 else d;
    var h := p - x - One(d < 0);
    WordOf(p, q, x, y, One(c), d, h, l);
    if h >= 0 {
      HighDifference(p, h, l);
      OutcomeOf(a, h, l);
      ValueOf(h, l);
    } else {
      HighBorrow(p, h, l);
      ValueOf(h + 10, l);
    }
  }

  lemma DigitsOf(a: Byte)
    requires Packed(a)
    ensures a / 16 < 10 && a % 16 < 10 && a == 16 * (a / 16) + a % 16 && Value(a) == 10 * (a / 16) + a % 16
  {
  }

  lemma OutcomeOf(a: Byte, h: int, l: nat)
    requires 0 <= h <= a / 16 && l < 10 && h < 10
    ensures (16 * h + l) % 256 == 16 * h + l && (h < a / 16 || l <= a % 16 ==> 16 * h + l <= a)
  {
  }

  function Signed(b: Byte): int { if b >= 128 then b - 256 else b }

  lemma TopBit(n: int)
    requires 0 <= n < 512
    ensures Bit7(n) == (128 <= n < 256 || 384 <= n)
  {
  }

  /** Binary mode: exact sums, and overflow exactly when the signed sum does not fit. */
  lemma BinaryAddition(a: Byte, v: Byte, c: bool)
    ensures var o := AdcBinary(a, v, c);
            o.a + 256 * One(o.carry) == a + v + One(c) &&
            (o.overflow <==> !(-128 <= Signed(a) + Signed(v) + One(c) < 128))
  {
    TopBit(a);
    TopBit(v);
    TopBit(v + a + One(c));
    hide Bit7;
  }

  /** Binary mode: exact differences, and overflow exactly when the signed difference does not fit. */
  lemma BinarySubtraction(a: Byte, v: Byte, c: bool)
    ensures var o := SbcBinary(a, v, c);
            o.a - 256 * One(!o.carry) == a - v - One(!c) &&
            (o.overflow <==> !(-128 <= Signed(a) - Signed(v) - One(!c) < 128))
  {
    var d := a - v - One(!c);
    var tmp := d % 65536;
    assert tmp == if d >= 0 then d else d + 65536;
    assert tmp % 256 == if d >= 0 then d else d + 256;
    assert Bit7(tmp) == (128 <= d || -128 <= d < 0);
    TopBit(a);
    TopBit(v);
    hide Bit7;
  }

  /** The overflow flag in decimal mode, whatever the operands hold: ADC raises it when both have their top bit set,
      as the sum of the low digits, which the program tests instead of the result, never has; SBC makes it a second
      carry. */
  lemma DecimalOverflow(a: Byte, v: Byte, c: bool)
    ensures AdcDecimal(a, v, c).overflow <==> a >= 128 && v >= 128
    ensures SbcDecimal(a, v, c).overflow == SbcDecimal(a, v, c).carry
  {
    TopBit(a);
    TopBit(v);
    var low := a % 16 + v % 16 + One(c);
    TopBit(if low > 9 then low + 6 else low);
    hide Bit7;
  }

  // ----- chains: numbers of any length, low byte first -----

  predicate AllPacked(bs: seq<Byte>) { forall i :: 0 <= i < |bs| ==> Packed(bs[i]) }

  function Number(bs: seq<Byte>): nat
    decreases |bs|
  {
    if bs == [] then 0 else Value(bs[0]) + 100 * Number(bs[1..])
  }

  function Hundreds(n: nat): (p: nat)
    ensures p > 0
  {
    if n == 0 then 1 else 100 * Hundreds(n - 1)
  }

  /** A carry out of `n` bytes. */
  function CarryOut(n: nat, c: bool): nat { if c then Hundreds(n) else 0 }

  /** ADC byte by byte from the low end, the carry going from one to the next. */
  function AdcChain(xs: seq<Byte>, ys: seq<Byte>, c: bool): (r: (seq<Byte>, bool))
    requires |xs| == |ys|
    ensures |r.0| == |xs|
    decreases |xs|
  {
    if xs == [] then ([], c)
    else
      var o := AdcDecimal(xs[0], ys[0], c);
      var rest := AdcChain(xs[1..], ys[1..], o.carry);
      ([o.a] + rest.0, rest.1)
  }

  function SbcChain(xs: seq<Byte>, ys: seq<Byte>, c: bool): (r: (seq<Byte>, bool))
    requires |xs| == |ys|
    ensures |r.0| == |xs|
    decreases |xs|
  {
    if xs == [] then ([], c)
    else
      var o := SbcDecimal(xs[0], ys[0], c);
      var rest := SbcChain(xs[1..], ys[1..], o.carry);
      ([o.a] + rest.0, rest.1)
  }

  lemma HeadAndTail(b: Byte, bs: seq<Byte>)
    ensures Number([b] + bs) == Value(b) + 100 * Number(bs)
    ensures AllPacked([b] + bs) <==> Packed(b) && AllPacked(bs)
  {
    var all := [b] + bs;
    assert all[1..] == bs;
    if AllPacked(all) {
      assert Packed(all[0]);
      forall i | 0 <= i < |bs|
        ensures Packed(bs[i])
      {
        assert Packed(all[i + 1]);
      }
    }
  }

  /** Decimal numbers of any length are added exactly, and the last carry is the carry of the sum. */
  lemma {:induction false} AdcChainAdds(xs: seq<Byte>, ys: seq<Byte>, c: bool)
    requires |xs| == |ys| && AllPacked(xs) && AllPacked(ys)
    ensures var (r, d) := AdcChain(xs, ys, c);
            AllPacked(r) && Number(r) + CarryOut(|xs|, d) == Number(xs) + Number(ys) + One(c)
    decreases |xs|
  {
    hide AdcDecimal, Packed, Value;
    if xs != [] {
      var o := AdcDecimal(xs[0], ys[0], c);
      AdcAddsDigits(xs[0], ys[0], c);
      AdcChainAdds(xs[1..], ys[1..], o.carry);
      HeadAndTail(o.a, AdcChain(xs[1..], ys[1..], o.carry).0);
    }
  }

  lemma {:induction false} SbcChainSubtracts(xs: seq<Byte>, ys: seq<Byte>, c: bool)
    requires |xs| == |ys| && AllPacked(xs) && AllPacked(ys)
    ensures var (r, d) := SbcChain(xs, ys, c);
            AllPacked(r) && Number(r) - CarryOut(|xs|, !d) == Number(xs) - Number(ys) - One(!c)
    decreases |xs|
  {
    hide SbcDecimal, Packed, Value;
    if xs != [] {
      var o := SbcDecimal(xs[0], ys[0], c);
      SbcSubtractsDigits(xs[0], ys[0], c);
      SbcChainSubtracts(xs[1..], ys[1..], o.carry);
      HeadAndTail(o.a, SbcChain(xs[1..], ys[1..], o.carry).0);
    }
  }

  lemma {:induction false} NumberIsSmall(bs: seq<Byte>)
    requires AllPacked(bs)
    ensures Number(bs) < Hundreds(|bs|)
    decreases |bs|
  {
    if bs != [] {
      NumberIsSmall(bs[1..]);
      assert Packed(bs[0]);
    }
  }

  lemma SameByte(x: Byte, y: Byte)
    requires Packed(x) && Packed(y) && Value(x) == Value(y)
    ensures x == y
  {
    assert x == 16 * (x / 16) + x % 16 && y == 16 * (y / 16) + y % 16;
  }

  lemma ValueIsSmall(x: Byte)
    requires Packed(x)
    ensures Value(x) < 100
  {
  }

  /** A packed number has one spelling of each length. */
  lemma {:induction false} SameNumber(xs: seq<Byte>, ys: seq<Byte>)
    requires |xs| == |ys| && AllPacked(xs) && AllPacked(ys) && Number(xs) == Number(ys)
    ensures xs == ys
    decreases |xs|
  {
    hide Value, Packed;
    if xs != [] {
      var m, n := Number(xs[1..]), Number(ys[1..]);
      assert Packed(xs[0]) && Packed(ys[0]);
      ValueIsSmall(xs[0]);
      ValueIsSmall(ys[0]);
      Numbers.DivisionIsUnique(100, m, Value(xs[0]));
      Numbers.DivisionIsUnique(100, n, Value(ys[0]));
      SameByte(xs[0], ys[0]);
      SameNumber(xs[1..], ys[1..]);
      assert xs == [xs[0]] + xs[1..] && ys == [ys[0]] + ys[1..];
    }
  }

  /** SBC undoes ADC, whatever the length and even when the sum overflowed; the last carry says that it did. */
  lemma SbcUndoesAdc(xs: seq<Byte>, ys: seq<Byte>, c: bool)
    requires |xs| == |ys| && AllPacked(xs) && AllPacked(ys)
    ensures var (r, d) := AdcChain(xs, ys, c);
            SbcChain(r, ys, !c) == (xs, !d)
  {
    hide AdcChain, SbcChain, Number, AllPacked;
    var (r, d) := AdcChain(xs, ys, c);
    AdcChainAdds(xs, ys, c);
    SbcChainSubtracts(r, ys, !c);
    var (z, e) := SbcChain(r, ys, !c);
    NumberIsSmall(xs);
    NumberIsSmall(z);
    assert Number(z) - CarryOut(|xs|, !e) == Number(xs) - CarryOut(|xs|, d);
    SameNumber(z, xs);
  }

  // ----- the processor -----

  lemma LowFix(t: nat, digit: nat)
    ensures LowFixed(t, digit) == if t % 16 > digit then (t - 6) % 65536 else t
  {
  }

  lemma HighFix(t: nat, digit: nat)
    ensures HighFixed(t, digit) == if t / 16 % 16 > digit then (t - 0x60) % 65536 else t
  {
  }

  class Cpu {
    var regA: Byte
    var carry: bool
    var decimal: bool
    var overflow: bool
    var flagN: int
    var flagZ: int
    var regPc: nat

    constructor ()
    {
      regA, carry, decimal, overflow, flagN, flagZ, regPc := 0, false, false, false, 0, 0, 0;
    }

    /** The accumulator and the flags after an instruction. */
    ghost predicate Took(o: Outcome)
      reads this
    {
      regA == o.a && carry == o.carry && overflow == o.overflow && flagN == o.a && flagZ == o.a
    }

    /** ADC in decimal mode. */
    method AddDecimal(value: Byte)
      modifies this`regA, this`carry, this`overflow, this`flagN, this`flagZ
      ensures Took(AdcDecimal(old(regA), value, old(carry)))
    {
      hide Bit7;
      var tmp := regA % 16 + value % 16 + One(carry);
      var tmp2 := regA / 16 * 16 + value / 16 * 16;
      if tmp > 9 {
        tmp2 := tmp2 + 0x10;
        tmp := tmp + 6;
      }
      overflow := Bit7(regA) == Bit7(value) && Bit7(regA) != Bit7(tmp);
      if tmp2 > 0x90 { tmp2 := tmp2 + 0x60; }
      carry := tmp2 >= 256;
      tmp := tmp % 16 + tmp2 / 16 % 16 * 16;
      flagN, flagZ := tmp, tmp;
      regA := tmp;
    }

    /** SBC in decimal mode. */
    method SubtractDecimal(value: Byte)
      modifies this`regA, this`carry, this`overflow, this`flagN, this`flagZ
      ensures Took(SbcDecimal(old(regA), value, old(carry)))
    {
      hide LowFixed, HighFixed;
      var tmp := (regA - value % 16 + One(carry) - 1) % 65536;
      LowFix(tmp, regA % 16);
      if tmp % 16 > regA % 16 { tmp := (tmp - 6) % 65536; }
      tmp := (tmp - value / 16 * 16) % 65536;
      HighFix(tmp, regA / 16);
      if tmp / 16 % 16 > regA / 16 { tmp := (tmp - 0x60) % 65536; }
      overflow := tmp <= regA;
      carry := tmp <= regA;
      flagN, flagZ := tmp % 256, tmp % 256;
      regA := tmp % 256;
    }

    /** The ADC macro. */
    method Adc(value: Byte, size: nat)
      modifies this
      ensures Took(if old(decimal) then AdcDecimal(old(regA), value, old(carry))
              else AdcBinary(old(regA), value, old(carry)))
      ensures regPc == (old(regPc) + size) % 65536 && decimal == old(decimal)
    {
      hide Bit7, AdcDecimal;
      if decimal {
        AddDecimal(value);
      } else {
        var tmp := value + regA + One(carry);
        flagN, flagZ := tmp % 256, tmp % 256;
        overflow := Bit7(regA) == Bit7(value) && Bit7(regA) != Bit7(tmp);
        carry := tmp > 255;
        regA := tmp % 256;
      }
      regPc := (regPc + size) % 65536;
    }

    /** The SBC macro. */
    method Sbc(value: Byte, size: nat)
      modifies this
      ensures Took(if old(decimal) then SbcDecimal(old(regA), value, old(carry))
              else SbcBinary(old(regA), value, old(carry)))
      ensures regPc == (old(regPc) + size) % 65536 && decimal == old(decimal)
    {
      hide Bit7, SbcDecimal;
      if decimal {
        SubtractDecimal(value);
      } else {
        var tmp := (regA - value - if carry then 0 else 1) % 65536;
        flagN, flagZ := tmp % 256, tmp % 256;
        carry := tmp < 256;
        overflow := Bit7(regA) != Bit7(tmp) && Bit7(regA) != Bit7(value);
        regA := tmp % 256;
      }
      regPc := (regPc + size) % 65536;
    }
  }
}
