/**
 The Nordic Pro ROM descrambler (ar.cpp:2271-2354): every byte has its bits permuted, and the bytes are taken from
 addresses that are XORed and have their bits permuted too.
 */
module NordicPro {
  import opened Numbers

  const SIZE := 65536

  const AXOR := 0x817f

  // ----- numbers and their bits, lowest first -----

  function Bits(v: nat, n: nat): (bs: seq<bool>)
    ensures |bs| == n
  {
    if n == 0 then [] else [v % 2 == 1] + Bits(v / 2, n - 1)
  }

  function Of(bs: seq<bool>): (v: nat)
    ensures v < Pow2(|bs|)
    decreases |bs|
  {
    if bs == [] then 0 else (if bs[0] then 1 else 0) + 2 * Of(bs[1..])
  }

  lemma {:induction false} OfBits(v: nat, n: nat)
    requires v < Pow2(n)
    ensures Of(Bits(v, n)) == v
    decreases n
  {
    if n > 0 {
      assert Bits(v, n)[1..] == Bits(v / 2, n - 1);
      OfBits(v / 2, n - 1);
    }
  }

  lemma {:induction false} BitsOf(bs: seq<bool>)
    ensures Bits(Of(bs), |bs|) == bs
    decreases |bs|
  {
    if bs != [] { BitsOf(bs[1..]); }
  }

  // ----- swapping bits -----

  /** For every bit of the result, the bit it comes from. */
  predicate IsMap(p: nat -> nat, n: nat) { forall i :: 0 <= i < n ==> p(i) < n }

  function Permuted(bs: seq<bool>, p: nat -> nat): (cs: seq<bool>)
    requires IsMap(p, |bs|)
    ensures |cs| == |bs|
  {
    seq(|bs|, i requires 0 <= i < |bs| => bs[p(i)])
  }

  /** bswap and wswap, on numbers of `n` bits. */
  function Swap(v: nat, p: nat -> nat, n: nat): (w: nat)
    requires IsMap(p, n)
    ensures w < Pow2(n)
  {
    Of(Permuted(Bits(v, n), p))
  }

  predicate Undoes(q: nat -> nat, p: nat -> nat, n: nat) {
    IsMap(p, n) && IsMap(q, n) && forall i :: 0 <= i < n ==> p(q(i)) == i
  }

  lemma PermutedBack(bs: seq<bool>, p: nat -> nat, q: nat -> nat)
    requires Undoes(q, p, |bs|)
    ensures Permuted(Permuted(bs, p), q) == bs
  {
  }

  /** A swap is undone by the swap whose map undoes its map. */
  lemma SwapBack(v: nat, p: nat -> nat, q: nat -> nat, n: nat)
    requires Undoes(q, p, n) && v < Pow2(n)
    ensures Swap(Swap(v, p, n), q, n) == v
  {
    BitsOf(Permuted(Bits(v, n), p));
    PermutedBack(Bits(v, n), p, q);
    OfBits(v, n);
  }

  /** Exclusive or, bit by bit. */
  function Xor(v: nat, x: nat, n: nat): (w: nat)
    ensures w < Pow2(n)
  {
    Of(Flipped(Bits(v, n), Bits(x, n)))
  }

  function Flipped(bs: seq<bool>, xs: seq<bool>): (cs: seq<bool>)
    requires |bs| == |xs|
    ensures |cs| == |bs|
  {
    seq(|bs|, i requires 0 <= i < |bs| => bs[i] != xs[i])
  }

  lemma XorTwice(v: nat, x: nat, n: nat)
    requires v < Pow2(n)
    ensures Xor(Xor(v, x, n), x, n) == v
  {
    BitsOf(Flipped(Bits(v, n), Bits(x, n)));
    assert Flipped(Flipped(Bits(v, n), Bits(x, n)), Bits(x, n)) == Bits(v, n);
    OfBits(v, n);
  }

  lemma Sizes()
    ensures Pow2(8) == 256 && Pow2(16) == SIZE
  {
    assert Pow2(4) == 16;
    assert Pow2(8) == 256;
    assert Pow2(12) == 4096;
    assert Pow2(16) == 65536;
  }

  // ----- the four permutations, sources listed from the top bit down -----

  function Pick8(i: nat, b7: nat, b6: nat, b5: nat, b4: nat, b3: nat, b2: nat, b1: nat, b0: nat): nat {
    match i
    case 7 => b7 case 6 => b6 case 5 => b5 case 4 => b4 case 3 => b3 case 2 => b2 case 1 => b1 case _ => b0
  }

  function Pick16(i: nat, b15: nat, b14: nat, b13: nat, b12: nat, b11: nat, b10: nat, b9: nat, b8: nat,
                  b7: nat, b6: nat, b5: nat, b4: nat, b3: nat, b2: nat, b1: nat, b0: nat): nat
  {
    match i
    case 15 => b15 case 14 => b14 case 13 => b13 case 12 => b12 case 11 => b11 case 10 => b10 case 9 => b9 case 8 => b8
    case 7 => b7 case 6 => b6 case 5 => b5 case 4 => b4 case 3 => b3 case 2 => b2 case 1 => b1 case _ => b0
  }

  function DataMap(odd: bool, i: nat): nat {
    if odd then Pick8(i, 5, 4, 3, 2, 1, 0, 7, 6) else Pick8(i, 4, 1, 5, 3, 0, 7, 6, 2)
  }

  function DataBack(odd: bool, i: nat): nat {
    if odd then Pick8(i, 1, 0, 7, 6, 5, 4, 3, 2) else Pick8(i, 2, 1, 5, 7, 4, 0, 6, 3)
  }

  function AddressMap(odd: bool, i: nat): nat {
    if odd then Pick16(i, 15, 2, 4, 0, 1, 10, 11, 8, 13, 14, 12, 9, 7, 5, 6, 3)
    else Pick16(i, 15, 9, 10, 4, 6, 5, 3, 8, 14, 13, 0, 12, 11, 2, 1, 7)
  }

  function AddressBack(odd: bool, i: nat): nat {
    if odd then Pick16(i, 15, 6, 7, 5, 9, 10, 4, 8, 3, 1, 2, 13, 0, 14, 11, 12)
    else Pick16(i, 15, 7, 6, 4, 3, 13, 14, 8, 0, 11, 10, 12, 9, 2, 1, 5)
  }

  lemma DataMapsMatch(odd: bool, i: nat)
    requires i < 8
    ensures DataMap(odd, i) < 8 && DataBack(odd, i) < 8
    ensures DataMap(odd, DataBack(odd, i)) == i && DataBack(odd, DataMap(odd, i)) == i
  {
  }

  lemma AddressMapsMatch(odd: bool, i: nat)
    requires i < 16
    ensures AddressMap(odd, i) < 16 && AddressBack(odd, i) < 16
    ensures AddressMap(odd, AddressBack(odd, i)) == i && AddressBack(odd, AddressMap(odd, i)) == i
  {
  }

  function DataBits(odd: bool): (p: nat -> nat)
    ensures IsMap(p, 8)
  {
    (i: nat) => DataMap(odd, i)
  }

  function DataBitsBack(odd: bool): (p: nat -> nat)
    ensures IsMap(p, 8)
  {
    (i: nat) => DataBack(odd, i)
  }

  function AddressBits(odd: bool): (p: nat -> nat)
    ensures IsMap(p, 16)
  {
    (i: nat) => AddressMap(odd, i)
  }

  function AddressBitsBack(odd: bool): (p: nat -> nat)
    ensures IsMap(p, 16)
  {
    (i: nat) => AddressBack(odd, i)
  }

  lemma MapsUndo(odd: bool)
    ensures Undoes(DataBitsBack(odd), DataBits(odd), 8) && Undoes(DataBits(odd), DataBitsBack(odd), 8)
    ensures Undoes(AddressBitsBack(odd), AddressBits(odd), 16) && Undoes(AddressBits(odd), AddressBitsBack(odd), 16)
  {
    hide DataMap, DataBack, AddressMap, AddressBack;
    forall i: nat | i < 8
      ensures DataBits(odd)(DataBitsBack(odd)(i)) == i && DataBitsBack(odd)(DataBits(odd)(i)) == i
    {
      DataMapsMatch(odd, i);
    }
    forall i: nat | i < 16
      ensures AddressBits(odd)(AddressBitsBack(odd)(i)) == i && AddressBitsBack(odd)(AddressBits(odd)(i)) == i
    {
      AddressMapsMatch(odd, i);
    }
  }

  // ----- the descrambler -----

  type Rom = r: seq<Byte> | |r| == SIZE witness seq(SIZE, _ => 0)

  /** bswap with the map of a chip. */
  function Data(v: Byte, odd: bool): Byte {
    Sizes();
    Swap(v, DataBits(odd), 8)
  }

  function UnData(v: Byte, odd: bool): Byte {
    Sizes();
    Swap(v, DataBitsBack(odd), 8)
  }

  /** Where byte `i` is taken from. */
  function Source(i: nat, odd: bool): (a: nat)
    requires i < SIZE
    ensures a < SIZE
  {
    Sizes();
    Swap(Xor(i, AXOR, 16), AddressBits(odd), 16)
  }

  /** Where byte `a` goes. */
  function Target(a: nat, odd: bool): (i: nat)
    requires a < SIZE
    ensures i < SIZE
  {
    Sizes();
    Xor(Swap(a, AddressBitsBack(odd), 16), AXOR, 16)
  }

  function Descrambled(rom: Rom, odd: bool): Rom {
    seq(SIZE, i requires 0 <= i < SIZE => Data(rom[Source(i, odd)], odd))
  }

  /** The scrambler: how such a ROM is made. */
  function Scrambled(rom: Rom, odd: bool): Rom {
    seq(SIZE, a requires 0 <= a < SIZE => UnData(rom[Target(a, odd)], odd))
  }

  lemma DataInverse(v: Byte, odd: bool)
    ensures UnData(Data(v, odd), odd) == v && Data(UnData(v, odd), odd) == v
  {
    hide Swap, Undoes;
    Sizes();
    MapsUndo(odd);
    SwapBack(v, DataBits(odd), DataBitsBack(odd), 8);
    SwapBack(v, DataBitsBack(odd), DataBits(odd), 8);
  }

  lemma AddressInverse(i: nat, odd: bool)
    requires i < SIZE
    ensures Target(Source(i, odd), odd) == i && Source(Target(i, odd), odd) == i
  {
    hide Swap, Xor, Undoes;
    Sizes();
    MapsUndo(odd);
    SwapBack(Xor(i, AXOR, 16), AddressBits(odd), AddressBitsBack(odd), 16);
    XorTwice(i, AXOR, 16);
    XorTwice(Swap(i, AddressBitsBack(odd), 16), AXOR, 16);
    SwapBack(i, AddressBitsBack(odd), AddressBits(odd), 16);
  }

  /** Descrambling is a bijection on ROM images: the scrambler undoes it, and it undoes the scrambler. */
  lemma DescramblingIsABijection(rom: Rom, odd: bool)
    ensures Descrambled(Scrambled(rom, odd), odd) == rom
    ensures Scrambled(Descrambled(rom, odd), odd) == rom
  {
    hide Data, UnData, Source, Target;
    var s, d := Scrambled(rom, odd), Descrambled(rom, odd);
    forall i | 0 <= i < SIZE
      ensures Descrambled(s, odd)[i] == rom[i] && Scrambled(d, odd)[i] == rom[i]
    {
      AddressInverse(i, odd);
      DataInverse(rom[i], odd);
    }
  }

  // ----- the permutations in numbers -----

  lemma {:induction false} BitAt(v: nat, n: nat, k: nat)
    requires k < n
    ensures Bits(v, n)[k] <==> v / Pow2(k) % 2 == 1
    decreases n
  {
    if k > 0 {
      BitAt(v / 2, n - 1, k - 1);
      HalfAndPower(v, Pow2(k - 1));
    }
  }

  lemma HalfAndPower(v: nat, p: nat)
    requires p > 0
    ensures v / 2 / p == v / (2 * p)
  {
    var q := v / 2 / p;
    Numbers.DivisionBounds(v, 2);
    Numbers.DivisionBounds(v / 2, p);
    assert v == 2 * p * q + (2 * (v / 2 % p) + v % 2);
    Numbers.DivisionIsUnique(2 * p, q, 2 * (v / 2 % p) + v % 2);
  }

  lemma SwapBit(v: nat, p: nat -> nat, n: nat, k: nat)
    requires IsMap(p, n) && k < n
    ensures Swap(v, p, n) / Pow2(k) % 2 == 1 <==> v / Pow2(p(k)) % 2 == 1
  {
    hide Bits, Of;
    BitsOf(Permuted(Bits(v, n), p));
    BitAt(Swap(v, p, n), n, k);
    BitAt(v, n, p(k));
  }

  lemma XorBit(v: nat, x: nat, n: nat, k: nat)
    requires k < n
    ensures Xor(v, x, n) / Pow2(k) % 2 == 1 <==> (v / Pow2(k) % 2 == 1) != (x / Pow2(k) % 2 == 1)
  {
    hide Bits, Of;
    BitsOf(Flipped(Bits(v, n), Bits(x, n)));
    BitAt(Xor(v, x, n), n, k);
    BitAt(v, n, k);
    BitAt(x, n, k);
  }

  /** Bit `k` of a descrambled byte, and the bit it is taken from. */
  lemma DataBit(v: Byte, odd: bool, k: nat)
    requires k < 8
    ensures Data(v, odd) / Pow2(k) % 2 == 1 <==>
            v / Pow2((if odd then [6, 7, 0, 1, 2, 3, 4, 5] else [2, 6, 7, 0, 3, 5, 1, 4])[k]) % 2 == 1
  {
    hide Swap;
    SwapBit(v, DataBits(odd), 8, k);
  }

  /** Bit `k` of the address that byte `i` is taken from: a bit of `i`, inverted if it is bit 15, bit 8 or one of the
      lowest seven. */
  lemma SourceBit(i: nat, odd: bool, k: nat)
    requires i < SIZE && k < 16
    ensures var b := (if odd then [3, 6, 5, 7, 9, 12, 14, 13, 8, 11, 10, 1, 0, 4, 2, 15]
                      else [7, 1, 2, 11, 12, 0, 13, 14, 8, 3, 5, 6, 4, 10, 9, 15])[k];
            Source(i, odd) / Pow2(k) % 2 == 1 <==> (i / Pow2(b) % 2 == 1) != (b < 7 || b == 8 || b == 15)
  {
    hide Swap, Xor, AddressMap;
    var b := AddressMap(odd, k);
    AddressMapIs(odd, k);
    SwapBit(Xor(i, AXOR, 16), AddressBits(odd), 16, k);
    XorBit(i, AXOR, 16, b);
    MaskBit(b);
  }

  lemma AddressMapIs(odd: bool, k: nat)
    requires k < 16
    ensures AddressMap(odd, k) ==
            (if odd then [3, 6, 5, 7, 9, 12, 14, 13, 8, 11, 10, 1, 0, 4, 2, 15]
             else [7, 1, 2, 11, 12, 0, 13, 14, 8, 3, 5, 6, 4, 10, 9, 15])[k]
  {
  }

  lemma MaskBit(b: nat)
    requires b < 16
    ensures 0x817f / Pow2(b) % 2 == 1 <==> b < 7 || b == 8 || b == 15
  {
    Sizes();
    assert Pow2(0) == 1 && Pow2(1) == 2 && Pow2(2) == 4 && Pow2(3) == 8 && Pow2(4) == 16;
    assert Pow2(5) == 32 && Pow2(6) == 64 && Pow2(7) == 128;
    assert Pow2(9) == 512 && Pow2(10) == 1024 && Pow2(11) == 2048 && Pow2(12) == 4096;
    assert Pow2(13) == 8192 && Pow2(14) == 16384 && Pow2(15) == 32768;
  }

  // ----- the program's form -----

  /** descramble1 and descramble2: every byte in place. */
  method SwapData(buf: array<Byte>, odd: bool)
    modifies buf
    ensures forall i :: 0 <= i < buf.Length ==> buf[i] == Data(old(buf[i]), odd)
  {
    hide Data;
    var i := 0;
    while i < buf.Length
      invariant i <= buf.Length
      invariant forall j :: 0 <= j < i ==> buf[j] == Data(old(buf[j]), odd)
      invariant forall j :: i <= j < buf.Length ==> buf[j] == old(buf[j])
    {
      buf[i] := Data(buf[i], odd);
      i := i + 1;
    }
  }

  /** descramble1a and descramble2a: the bytes are gathered from a copy. */
  method SwapAddresses(buf: array<Byte>, odd: bool)
    requires buf.Length == SIZE
    modifies buf
    ensures forall i :: 0 <= i < SIZE ==> buf[i] == old(buf[..])[Source(i, odd)]
  {
    hide Source;
    var tbuf := buf[..];
    var i := 0;
    while i < buf.Length
      invariant i <= buf.Length
      invariant forall j :: 0 <= j < i ==> buf[j] == tbuf[Source(j, odd)]
    {
      buf[i] := tbuf[Source(i, odd)];
      i := i + 1;
    }
  }

  /** descramble_nordicpro. */
  method DescrambleNordicPro(buf: array<Byte>, odd: bool)
    requires buf.Length == SIZE
    modifies buf
    ensures buf[..] == Descrambled(old(buf[..]), odd)
  {
    hide Data, Source;
    SwapData(buf, odd);
    SwapAddresses(buf, odd);
  }
}
