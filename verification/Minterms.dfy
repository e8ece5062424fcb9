/**
 The blitter's boolean functions.

 A minterm byte selects one of 256 boolean functions of three operands, applied to every bit position
 on its own, so they are modelled on one bit.  `TruthTable` is the meaning of the byte.  `BlitFunc`
 is the program's 256-way switch (blit.h:1-518), one function for each high digit, and `FastTerm`
 holds the expressions written into the specialised loops of blitfunc.cpp.
 */
module Minterms {
  import opened Numbers

  /** Operand bits A, B and C select bit 4A+2B+C of the minterm byte. */
  predicate TruthTable(mt: Byte, a: bool, b: bool, c: bool) {
    match (a, b, c)
    case (false, false, false) => mt % 2 == 1
    case (false, false, true) => mt / 2 % 2 == 1
    case (false, true, false) => mt / 4 % 2 == 1
    case (false, true, true) => mt / 8 % 2 == 1
    case (true, false, false) => mt / 16 % 2 == 1
    case (true, false, true) => mt / 32 % 2 == 1
    case (true, true, false) => mt / 64 % 2 == 1
    case (true, true, true) => mt / 128 == 1
  }

  predicate BlitFunc0(a: bool, b: bool, c: bool, mt: Byte) {
    match mt
    case 0x00 => false
    case 0x01 => !(a || b || c)
    case 0x02 => c && !(a || b)
    case 0x03 => !(a || b)
    case 0x04 => b && !(a || c)
    case 0x05 => !(a || c)
    case 0x06 => !a && (b != c)
    case 0x07 => !(a || (b && c))
    case 0x08 => !a && b && c
    case 0x09 => !(a || (b != c))
    case 0x0a => !a && c
    case 0x0b => !(a || (b && !c))
    case 0x0c => !a && b
    case 0x0d => !(a || (!b && c))
    case 0x0e => !a && (b || c)
    case _ => !a
  }

  predicate BlitFunc1(a: bool, b: bool, c: bool, mt: Byte) {
    match mt
    case 0x10 => a && !(b || c)
    case 0x11 => !(b || c)
    case 0x12 => !b && (a != c)
    case 0x13 => !(b || (a && c))
    case 0x14 => !c && (a != b)
    case 0x15 => !(c || (a && b))
    case 0x16 => a != ((a && b) || (b != c))
    case 0x17 => !(a != ((a != b) && (a != c)))
    case 0x18 => (a != b) && (a != c)
    case 0x19 => b != (!c || (a && b))
    case 0x1a => a != (c || (a && b))
    case 0x1b => a != (c || !(a != b))
    case 0x1c => a != (b || (a && c))
    case 0x1d => a != (b || !(a != c))
    case 0x1e => a != (b || c)
    case _ => !(a && (b || c))
  }

  predicate BlitFunc2(a: bool, b: bool, c: bool, mt: Byte) {
    match mt
    case 0x20 => a && !b && c
    case 0x21 => !(b || (a != c))
    case 0x22 => !b && c
    case 0x23 => !(b || (a && !c))
    case 0x24 => (a != b) && (b != c)
    case 0x25 => a != (!c || (a && b))
    case 0x26 => b != (c || (a && b))
    case 0x27 => !(a != (c && (a != b)))
    case 0x28 => c && (a != b)
    case 0x29 => !((a != b) != (c || (a && b)))
    case 0x2a => c && !(a && b)
    case 0x2b => !(a != ((a != b) && (b != c)))
    case 0x2c => b != (a && (b || c))
    case 0x2d => a != (b || !c)
    case 0x2e => a != (b || (a != c))
    case _ => !(a && (b || !c))
  }

  predicate BlitFunc3(a: bool, b: bool, c: bool, mt: Byte) {
    match mt
    case 0x30 => a && !b
    case 0x31 => !(b || (!a && c))
    case 0x32 => !b && (a || c)
    case 0x33 => !b
    case 0x34 => b != (a || (b && c))
    case 0x35 => b != (a || !(b != c))
    case 0x36 => b != (a || c)
    case 0x37 => !(b && (a || c))
    case 0x38 => a != (b && (a || c))
    case 0x39 => b != (a || !c)
    case 0x3a => b != (a || (b != c))
    case 0x3b => !(b && (a || !c))
    case 0x3c => a != b
    case 0x3d => a != (b || !(a || c))
    case 0x3e => a != (b || (a != (a || c)))
    case _ => !(a && b)
  }

  predicate BlitFunc4(a: bool, b: bool, c: bool, mt: Byte) {
    match mt
    case 0x40 => a && b && !c
    case 0x41 => !(c || (a != b))
    case 0x42 => (a != c) && (b != c)
    case 0x43 => a != (!b || (a && c))
    case 0x44 => b && !c
    case 0x45 => !(c || (a && !b))
    case 0x46 => c != (b || (a && c))
    case 0x47 => !(a != (b && (a != c)))
    case 0x48 => b && (a != c)
    case 0x49 => !((a != c) != (b || (a && c)))
    case 0x4a => c != (a && (b || c))
    case 0x4b => a != (!b || c)
    case 0x4c => b && !(a && c)
    case 0x4d => a != ((a != b) || !(a != c))
    case 0x4e => a != (c || (a != b))
    case _ => !(a && (!b || c))
  }

  predicate BlitFunc5(a: bool, b: bool, c: bool, mt: Byte) {
    match mt
    case 0x50 => a && !c
    case 0x51 => !(c || (!a && b))
    case 0x52 => c != (a || (b && c))
    case 0x53 => !(b != (a && (b != c)))
    case 0x54 => !c && (a || b)
    case 0x55 => !c
    case 0x56 => c != (a || b)
    case 0x57 => !(c && (a || b))
    case 0x58 => a != (c && (a || b))
    case 0x59 => c != (a || !b)
    case 0x5a => a != c
    case 0x5b => a != (c || !(a || b))
    case 0x5c => c != (a || (b != c))
    case 0x5d => !(c && (a || !b))
    case 0x5e => a != (c || (a != (a || b)))
    case _ => !(a && c)
  }

  predicate BlitFunc6(a: bool, b: bool, c: bool, mt: Byte) {
    match mt
    case 0x60 => a && (b != c)
    case 0x61 => !((b != c) != (a || (b && c)))
    case 0x62 => c != (b && (a || c))
    case 0x63 => b != (!a || c)
    case 0x64 => b != (c && (a || b))
    case 0x65 => c != (!a || b)
    case 0x66 => b != c
    case 0x67 => b != (c || !(a || b))
    case 0x68 => (a && b) != (c && (a || b))
    case 0x69 => !((a != b) != c)
    case 0x6a => c != (a && b)
    case 0x6b => !((a != b) != (c && (a || b)))
    case 0x6c => b != (a && c)
    case 0x6d => !((a != c) != (b && (a || c)))
    case 0x6e => (!a && b) || (b != c)
    case _ => !a || (b != c)
  }

  predicate BlitFunc7(a: bool, b: bool, c: bool, mt: Byte) {
    match mt
    case 0x70 => a && !(b && c)
    case 0x71 => !(a != ((a != b) || (a != c)))
    case 0x72 => b != (c || (a != b))
    case 0x73 => !(b && (!a || c))
    case 0x74 => c != (b || (a != c))
    case 0x75 => !(c && (!a || b))
    case 0x76 => b != (c || (a != (a && b)))
    case 0x77 => !(b && c)
    case 0x78 => a != (b && c)
    case 0x79 => !((b != c) != (a && (b || c)))
    case 0x7a => (a && !b) || (a != c)
    case 0x7b => !b || (a != c)
    case 0x7c => (a != b) || (a && !c)
    case 0x7d => !c || (a != b)
    case 0x7e => (a != b) || (a != c)
    case _ => !(a && b && c)
  }

  predicate BlitFunc8(a: bool, b: bool, c: bool, mt: Byte) {
    match mt
    case 0x80 => a && b && c
    case 0x81 => !((a != b) || (a != c))
    case 0x82 => c && !(a != b)
    case 0x83 => a != (!b || (a && !c))
    case 0x84 => b && !(a != c)
    case 0x85 => a != (!c || (a && !b))
    case 0x86 => (b != c) != (a && (b || c))
    case 0x87 => !(a != (b && c))
    case 0x88 => b && c
    case 0x89 => b != (!c && (!a || b))
    case 0x8a => c && (!a || b)
    case 0x8b => a != (!b || (a != c))
    case 0x8c => b && (!a || c)
    case 0x8d => a != (!c || (a != b))
    case 0x8e => a != ((a != b) || (a != c))
    case _ => !a || (b && c)
  }

  predicate BlitFunc9(a: bool, b: bool, c: bool, mt: Byte) {
    match mt
    case 0x90 => a && !(b != c)
    case 0x91 => b != (!c || (!a && b))
    case 0x92 => (a != c) != (b && (a || c))
    case 0x93 => !(b != (a && c))
    case 0x94 => (a != b) != (c && (a || b))
    case 0x95 => !(c != (a && b))
    case 0x96 => (a != b) != c
    case 0x97 => (a != b) != (c || !(a || b))
    case 0x98 => b != (!c && (a || b))
    case 0x99 => !(b != c)
    case 0x9a => c != (a && !b)
    case 0x9b => !(b != (c && (a || b)))
    case 0x9c => b != (a && !c)
    case 0x9d => !(c != (b && (a || c)))
    case 0x9e => (b != c) != (a || (b && c))
    case _ => !(a && (b != c))
  }

  predicate BlitFuncA(a: bool, b: bool, c: bool, mt: Byte) {
    match mt
    case 0xa0 => a && c
    case 0xa1 => a != (!c && (a || !b))
    case 0xa2 => c && (a || !b)
    case 0xa3 => b != (!a || (b != c))
    case 0xa4 => a != (!c && (a || b))
    case 0xa5 => !(a != c)
    case 0xa6 => c != (!a && b)
    case 0xa7 => !(a != (c && (a || b)))
    case 0xa8 => c && (a || b)
    case 0xa9 => !(c != (a || b))
    case 0xaa => c
    case 0xab => c || !(a || b)
    case 0xac => b != (a && (b != c))
    case 0xad => !(c != (a || (b && c)))
    case 0xae => c || (!a && b)
    case _ => !a || c
  }

  predicate BlitFuncB(a: bool, b: bool, c: bool, mt: Byte) {
    match mt
    case 0xb0 => a && (!b || c)
    case 0xb1 => !(a != (c || (a != b)))
    case 0xb2 => a != ((a != c) && (b != c))
    case 0xb3 => !b || (a && c)
    case 0xb4 => a != (b && !c)
    case 0xb5 => !(c != (a && (b || c)))
    case 0xb6 => (a != c) != (b || (a && c))
    case 0xb7 => !(b && (a != c))
    case 0xb8 => a != (b && (a != c))
    case 0xb9 => !(c != (b || (a && c)))
    case 0xba => c || (a && !b)
    case 0xbb => !b || c
    case 0xbc => (a != b) || (a && c)
    case 0xbd => (a != b) || !(a != c)
    case 0xbe => c || (a != b)
    case _ => c || !(a && b)
  }

  predicate BlitFuncC(a: bool, b: bool, c: bool, mt: Byte) {
    match mt
    case 0xc0 => a && b
    case 0xc1 => a != (!b && (a || !c))
    case 0xc2 => a != (!b && (a || c))
    case 0xc3 => !(a != b)
    case 0xc4 => b && (a || !c)
    case 0xc5 => !(b != (a || (b != c)))
    case 0xc6 => b != (!a && c)
    case 0xc7 => !(a != (b && (a || c)))
    case 0xc8 => b && (a || c)
    case 0xc9 => !(b != (a || c))
    case 0xca => c != (a && (b != c))
    case 0xcb => !(b != (a || (b && c)))
    case 0xcc => b
    case 0xcd => b || !(a || c)
    case 0xce => b || (!a && c)
    case _ => !a || b
  }

  predicate BlitFuncD(a: bool, b: bool, c: bool, mt: Byte) {
    match mt
    case 0xd0 => a && (b || !c)
    case 0xd1 => !(a != (b || (a != c)))
    case 0xd2 => a != (!b && c)
    case 0xd3 => !(b != (a && (b || c)))
    case 0xd4 => a != ((a != b) && (b != c))
    case 0xd5 => !c || (a && b)
    case 0xd6 => (a != b) != (c || (a && b))
    case 0xd7 => !(c && (a != b))
    case 0xd8 => a != (c && (a != b))
    case 0xd9 => !(b != (c || (a && b)))
    case 0xda => (a && b) || (a != c)
    case 0xdb => !((a != b) && (b != c))
    case 0xdc => b || (a && !c)
    case 0xdd => b || !c
    case 0xde => b || (a != c)
    case _ => b || !(a && c)
  }

  predicate BlitFuncE(a: bool, b: bool, c: bool, mt: Byte) {
    match mt
    case 0xe0 => a && (b || c)
    case 0xe1 => !(a != (b || c))
    case 0xe2 => c != (b && (a != c))
    case 0xe3 => !(a != (b || (a && c)))
    case 0xe4 => b != (c && (a != b))
    case 0xe5 => !(a != (c || (a && b)))
    case 0xe6 => (a && b) || (b != c)
    case 0xe7 => !((a != b) && (a != c))
    case 0xe8 => a != ((a != b) && (a != c))
    case 0xe9 => (a != b) != (!c || (a && b))
    case 0xea => c || (a && b)
    case 0xeb => c || !(a != b)
    case 0xec => b || (a && c)
    case 0xed => b || !(a != c)
    case 0xee => b || c
    case _ => !a || b || c
  }

  predicate BlitFuncF(a: bool, b: bool, c: bool, mt: Byte) {
    match mt
    case 0xf0 => a
    case 0xf1 => a || !(b || c)
    case 0xf2 => a || (!b && c)
    case 0xf3 => a || !b
    case 0xf4 => a || (b && !c)
    case 0xf5 => a || !c
    case 0xf6 => a || (b != c)
    case 0xf7 => a || !(b && c)
    case 0xf8 => a || (b && c)
    case 0xf9 => a || !(b != c)
    case 0xfa => a || c
    case 0xfb => a || !b || c
    case 0xfc => a || b
    case 0xfd => a || b || !c
    case 0xfe => a || b || c
    case _ => true
  }

  /** The switch as a whole. */
  predicate BlitFunc(a: bool, b: bool, c: bool, mt: Byte) {
    match mt / 16
    case 0 => BlitFunc0(a, b, c, mt)
    case 1 => BlitFunc1(a, b, c, mt)
    case 2 => BlitFunc2(a, b, c, mt)
    case 3 => BlitFunc3(a, b, c, mt)
    case 4 => BlitFunc4(a, b, c, mt)
    case 5 => BlitFunc5(a, b, c, mt)
    case 6 => BlitFunc6(a, b, c, mt)
    case 7 => BlitFunc7(a, b, c, mt)
    case 8 => BlitFunc8(a, b, c, mt)
    case 9 => BlitFunc9(a, b, c, mt)
    case 10 => BlitFuncA(a, b, c, mt)
    case 11 => BlitFuncB(a, b, c, mt)
    case 12 => BlitFuncC(a, b, c, mt)
    case 13 => BlitFuncD(a, b, c, mt)
    case 14 => BlitFuncE(a, b, c, mt)
    case _ => BlitFuncF(a, b, c, mt)
  }

  /** The minterms with a loop of their own (blittable.cpp:9-42). */
  predicate IsFast(mt: Byte) {
    mt in {0x00, 0x0a, 0x2a, 0x30, 0x3a, 0x3c, 0x4a, 0x6a, 0x8a, 0x8c, 0x9a,
           0xa8, 0xaa, 0xb1, 0xca, 0xcc, 0xd8, 0xe2, 0xea, 0xf0, 0xfa, 0xfc}
  }

  predicate FastTerm(a: bool, b: bool, c: bool, mt: Byte)
    requires IsFast(mt)
  {
    match mt
    case 0x00 => false
    case 0x0a => !a && c
    case 0x2a => c && !(a && b)
    case 0x30 => a && !b
    case 0x3a => b != (a || (b != c))
    case 0x3c => a != b
    case 0x4a => c != (a && (b || c))
    case 0x6a => c != (a && b)
    case 0x8a => c && (!a || b)
    case 0x8c => b && (!a || c)
    case 0x9a => c != (a && !b)
    case 0xa8 => c && (a || b)
    case 0xaa => c
    case 0xb1 => !(a != (c || (a != b)))
    case 0xca => c != (a && (b != c))
    case 0xcc => b
    case 0xd8 => a != (c && (a != b))
    case 0xe2 => c != (b && (a != c))
    case 0xea => c || (a && b)
    case 0xf0 => a
    case 0xfa => a || c
    case _ => a || b
  }

  lemma Digit0(a: bool, b: bool, c: bool, mt: Byte)
    requires mt / 16 == 0
    ensures BlitFunc0(a, b, c, mt) == TruthTable(mt, a, b, c)
  {
  }

  lemma Digit1(a: bool, b: bool, c: bool, mt: Byte)
    requires mt / 16 == 1
    ensures BlitFunc1(a, b, c, mt) == TruthTable(mt, a, b, c)
  {
  }

  lemma Digit2(a: bool, b: bool, c: bool, mt: Byte)
    requires mt / 16 == 2
    ensures BlitFunc2(a, b, c, mt) == TruthTable(mt, a, b, c)
  {
  }

  lemma Digit3(a: bool, b: bool, c: bool, mt: Byte)
    requires mt / 16 == 3
    ensures BlitFunc3(a, b, c, mt) == TruthTable(mt, a, b, c)
  {
  }

  lemma Digit4(a: bool, b: bool, c: bool, mt: Byte)
    requires mt / 16 == 4
    ensures BlitFunc4(a, b, c, mt) == TruthTable(mt, a, b, c)
  {
  }

  lemma Digit5(a: bool, b: bool, c: bool, mt: Byte)
    requires mt / 16 == 5
    ensures BlitFunc5(a, b, c, mt) == TruthTable(mt, a, b, c)
  {
  }

  lemma Digit6(a: bool, b: bool, c: bool, mt: Byte)
    requires mt / 16 == 6
    ensures BlitFunc6(a, b, c, mt) == TruthTable(mt, a, b, c)
  {
  }

  lemma Digit7(a: bool, b: bool, c: bool, mt: Byte)
    requires mt / 16 == 7
    ensures BlitFunc7(a, b, c, mt) == TruthTable(mt, a, b, c)
  {
  }

  lemma Digit8(a: bool, b: bool, c: bool, mt: Byte)
    requires mt / 16 == 8
    ensures BlitFunc8(a, b, c, mt) == TruthTable(mt, a, b, c)
  {
  }

  lemma Digit9(a: bool, b: bool, c: bool, mt: Byte)
    requires mt / 16 == 9
    ensures BlitFunc9(a, b, c, mt) == TruthTable(mt, a, b, c)
  {
  }

  lemma DigitA(a: bool, b: bool, c: bool, mt: Byte)
    requires mt / 16 == 10
    ensures BlitFuncA(a, b, c, mt) == TruthTable(mt, a, b, c)
  {
  }

  lemma DigitB(a: bool, b: bool, c: bool, mt: Byte)
    requires mt / 16 == 11
    ensures BlitFuncB(a, b, c, mt) == TruthTable(mt, a, b, c)
  {
  }

  lemma DigitC(a: bool, b: bool, c: bool, mt: Byte)
    requires mt / 16 == 12
    ensures BlitFuncC(a, b, c, mt) == TruthTable(mt, a, b, c)
  {
  }

  lemma DigitD(a: bool, b: bool, c: bool, mt: Byte)
    requires mt / 16 == 13
    ensures BlitFuncD(a, b, c, mt) == TruthTable(mt, a, b, c)
  {
  }

  lemma DigitE(a: bool, b: bool, c: bool, mt: Byte)
    requires mt / 16 == 14
    ensures BlitFuncE(a, b, c, mt) == TruthTable(mt, a, b, c)
  {
  }

  lemma DigitF(a: bool, b: bool, c: bool, mt: Byte)
    requires mt / 16 == 15
    ensures BlitFuncF(a, b, c, mt) == TruthTable(mt, a, b, c)
  {
  }

  /** All 256 cases of the switch are the table their number encodes. */
  lemma BlitFuncIsTruthTable(a: bool, b: bool, c: bool, mt: Byte)
    ensures BlitFunc(a, b, c, mt) == TruthTable(mt, a, b, c)
  {
    match mt / 16
    case 0 => Digit0(a, b, c, mt);
    case 1 => Digit1(a, b, c, mt);
    case 2 => Digit2(a, b, c, mt);
    case 3 => Digit3(a, b, c, mt);
    case 4 => Digit4(a, b, c, mt);
    case 5 => Digit5(a, b, c, mt);
    case 6 => Digit6(a, b, c, mt);
    case 7 => Digit7(a, b, c, mt);
    case 8 => Digit8(a, b, c, mt);
    case 9 => Digit9(a, b, c, mt);
    case 10 => DigitA(a, b, c, mt);
    case 11 => DigitB(a, b, c, mt);
    case 12 => DigitC(a, b, c, mt);
    case 13 => DigitD(a, b, c, mt);
    case 14 => DigitE(a, b, c, mt);
    case _ => DigitF(a, b, c, mt);
  }

  lemma FastTermIsTruthTable(a: bool, b: bool, c: bool, mt: Byte)
    requires IsFast(mt)
    ensures FastTerm(a, b, c, mt) == TruthTable(mt, a, b, c)
  {
    if mt < 0x80 {
      FastBelow80(a, b, c, mt);
    } else if mt < 0xc0 {
      FastBelowC0(a, b, c, mt);
    } else {
      FastFromC0(a, b, c, mt);
    }
  }

  lemma FastBelow80(a: bool, b: bool, c: bool, mt: Byte)
    requires mt in {0x00, 0x0a, 0x2a, 0x30, 0x3a, 0x3c, 0x4a, 0x6a}
    ensures FastTerm(a, b, c, mt) == TruthTable(mt, a, b, c)
  {
  }

  lemma FastBelowC0(a: bool, b: bool, c: bool, mt: Byte)
    requires mt in {0x8a, 0x8c, 0x9a, 0xa8, 0xaa, 0xb1}
    ensures FastTerm(a, b, c, mt) == TruthTable(mt, a, b, c)
  {
  }

  lemma FastFromC0(a: bool, b: bool, c: bool, mt: Byte)
    requires mt in {0xca, 0xcc, 0xd8, 0xe2, 0xea, 0xf0, 0xfa, 0xfc}
    ensures FastTerm(a, b, c, mt) == TruthTable(mt, a, b, c)
  {
  }

  /** The operands each specialised loop reads. */
  predicate ReadsA(mt: Byte) { mt !in {0x00, 0xaa, 0xcc} }

  predicate ReadsB(mt: Byte) { mt !in {0x00, 0x0a, 0xaa, 0xf0, 0xfa} }

  predicate ReadsC(mt: Byte) { mt !in {0x00, 0x30, 0x3c, 0xcc, 0xf0, 0xfc} }

  predicate SameForA(mt: Byte, b: bool, c: bool) { TruthTable(mt, false, b, c) == TruthTable(mt, true, b, c) }

  predicate SameForB(mt: Byte, a: bool, c: bool) { TruthTable(mt, a, false, c) == TruthTable(mt, a, true, c) }

  predicate SameForC(mt: Byte, a: bool, b: bool) { TruthTable(mt, a, b, false) == TruthTable(mt, a, b, true) }

  /** A specialised loop leaves an operand unread exactly when its boolean function ignores it. */
  lemma UnreadIsIrrelevant(mt: Byte)
    requires IsFast(mt)
    ensures !ReadsA(mt) <==> forall b, c :: SameForA(mt, b, c)
    ensures !ReadsB(mt) <==> forall a, c :: SameForB(mt, a, c)
    ensures !ReadsC(mt) <==> forall a, b :: SameForC(mt, a, b)
  {
    hide TruthTable, FastTerm, ReadsA, ReadsB, ReadsC;
    forall a, b, c ensures TruthTable(mt, a, b, c) == FastTerm(a, b, c, mt) { FastTermIsTruthTable(a, b, c, mt); }
    UnreadA(mt);
    UnreadB(mt);
    UnreadC(mt);
    assert ReadsA(mt) ==>
             !(SameForA(mt, false, false) && SameForA(mt, false, true) && SameForA(mt, true, false) &&
               SameForA(mt, true, true));
    assert ReadsB(mt) ==>
             !(SameForB(mt, false, false) && SameForB(mt, false, true) && SameForB(mt, true, false) &&
               SameForB(mt, true, true));
    assert ReadsC(mt) ==>
             !(SameForC(mt, false, false) && SameForC(mt, false, true) && SameForC(mt, true, false) &&
               SameForC(mt, true, true));
  }

  lemma UnreadA(mt: Byte)
    requires IsFast(mt)
    ensures !ReadsA(mt) <==>
            FastTerm(false, false, false, mt) == FastTerm(true, false, false, mt) &&
            FastTerm(false, false, true, mt) == FastTerm(true, false, true, mt) &&
            FastTerm(false, true, false, mt) == FastTerm(true, true, false, mt) &&
            FastTerm(false, true, true, mt) == FastTerm(true, true, true, mt)
  {
  }

  lemma UnreadB(mt: Byte)
    requires IsFast(mt)
    ensures !ReadsB(mt) <==>
            FastTerm(false, false, false, mt) == FastTerm(false, true, false, mt) &&
            FastTerm(false, false, true, mt) == FastTerm(false, true, true, mt) &&
            FastTerm(true, false, false, mt) == FastTerm(true, true, false, mt) &&
            FastTerm(true, false, true, mt) == FastTerm(true, true, true, mt)
  {
  }

  lemma UnreadC(mt: Byte)
    requires IsFast(mt)
    ensures !ReadsC(mt) <==>
            FastTerm(false, false, false, mt) == FastTerm(false, false, true, mt) &&
            FastTerm(false, true, false, mt) == FastTerm(false, true, true, mt) &&
            FastTerm(true, false, false, mt) == FastTerm(true, false, true, mt) &&
            FastTerm(true, true, false, mt) == FastTerm(true, true, true, mt)
  {
  }
}
