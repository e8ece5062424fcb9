/**
 The Ethernet board's RAM as its network chip sees it (a2065.cpp:286-339): 32 KB that repeat through the
 chip's addresses.  On the A2065, addresses with bit 15 clear reach nothing: reads give 0 and writes are dropped.
 */
module A2065Ram {
  import opened Numbers

  type Half = n: int | 0 <= n < 65536

  const RAM_SIZE := 0x8000

  /** The size of every packet buffer: of a queue slot, of the copy that is received, and of the one that is sent. */
  const MAX_PACKET_SIZE := 4000

  type Ram = r: seq<Byte> | |r| == RAM_SIZE witness seq(RAM_SIZE, _ => 0)

  predicate ChipRamOk(am79: bool, offset: nat) { am79 || offset / RAM_SIZE % 2 == 1 }

  function Cell(offset: nat): (c: nat)
    ensures c < RAM_SIZE
  {
    offset % RAM_SIZE
  }

  function GetByte(am79: bool, ram: Ram, offset: nat): Byte {
    if ChipRamOk(am79, offset) then ram[Cell(offset)] else 0
  }

  function PutByte(am79: bool, ram: Ram, offset: nat, v: Byte): Ram {
    if ChipRamOk(am79, offset) then ram[Cell(offset) := v] else ram
  }

  function GetWord(am79: bool, ram: Ram, offset: nat): Half {
    GetByte(am79, ram, offset) * 256 + GetByte(am79, ram, offset + 1)
  }

  function PutWord(am79: bool, ram: Ram, offset: nat, v: Half): Ram {
    PutByte(am79, PutByte(am79, ram, offset, v / 256), offset + 1, v % 256)
  }

  // ----- bits of a 16-bit word; `b` is a power of two -----

  predicate Has(w: Half, b: Half)
    requires b > 0
  {
    w / b % 2 == 1
  }

  function Set(w: Half, b: Half): Half
    requires b in {0x4000, 0x2000, 0x1000, 0x0800, 0x0400, 0x0200, 0x0100, 0x8000}
  {
    if Has(w, b) then w else w + b
  }

  function Clear(w: Half, b: Half): Half
    requires b > 0
  {
    if Has(w, b) then w - b else w
  }

  // ----- descriptor rings -----

  const OWN: Half := 0x8000
  const ERR: Half := 0x4000
  const OFLO: Half := 0x1000
  const BUFF: Half := 0x0400
  const STP: Half := 0x0200
  const ENP: Half := 0x0100

  /** `swap` is 1 when the bytes of each 16-bit word of frame data are exchanged on the wire. */
  datatype Ring = Ring(am79: bool, swap: nat, base: nat, len: nat)

  /** The A2065 drops the low three bits of a ring's address; the Am79C960 takes any address. */
  predicate RingOk(k: Ring) { k.len > 0 && k.swap < 2 && (k.am79 || k.base % 8 == 0) }

  function DescOffset(k: Ring, pos: nat): nat
    requires k.len > 0
  {
    k.base + pos % k.len * 8
  }

  datatype Desc = Desc(d0: Half, d1: Half, d2: Half, d3: Half)

  function GetDesc(k: Ring, ram: Ram, pos: nat): Desc
    requires k.len > 0
  {
    var off := DescOffset(k, pos);
    Desc(GetWord(k.am79, ram, off), GetWord(k.am79, ram, off + 2), GetWord(k.am79, ram, off + 4),
         GetWord(k.am79, ram, off + 6))
  }

  /** The second and fourth word of a descriptor are given back. */
  function PutStatus(k: Ring, ram: Ram, pos: nat, d1: Half, d3: Half): Ram
    requires k.len > 0
  {
    var off := DescOffset(k, pos);
    PutWord(k.am79, PutWord(k.am79, ram, off + 2, d1), off + 6, d3)
  }

  function BufferAddress(d: Desc): nat { d.d0 + d.d1 % 256 * 65536 }

  /** The buffer length is stored negated; a stored 0 means 65536 bytes. */
  function BufferSize(d: Desc): (n: nat)
    ensures n > 0
  {
    65536 - d.d2
  }

  function Flip(swap: nat, address: nat): nat {
    if swap == 0 then address else if address % 2 == 0 then address + 1 else address - 1
  }

  // ----- where a descriptor lies: one of 4096 places of eight cells, counted from the ring's residue -----

  function Place(k: Ring, pos: nat): (p: nat)
    requires k.len > 0
    ensures p < 4096
  {
    (k.base / 8 + pos % k.len) % 4096
  }

  predicate Reached(k: Ring, pos: nat)
    requires k.len > 0
  {
    ChipRamOk(k.am79, DescOffset(k, pos))
  }

  /** Byte `b` of the descriptor at a place; a place may reach round the end of the RAM. */
  function CellOf(k: Ring, place: nat, b: nat): (c: nat)
    ensures c < RAM_SIZE
  {
    (k.base % 8 + 8 * place + b) % RAM_SIZE
  }

  /** The place a cell belongs to. */
  function PlaceOf(k: Ring, cell: nat): nat
    requires cell < RAM_SIZE
  {
    (cell + RAM_SIZE - k.base % 8) % RAM_SIZE / 8
  }

  lemma CellOfPlace(k: Ring, place: nat, b: nat)
    requires place < 4096 && b < 8
    ensures PlaceOf(k, CellOf(k, place, b)) == place
  {
    var e := k.base % 8;
    if e + 8 * place + b < RAM_SIZE {
      assert CellOf(k, place, b) == e + 8 * place + b;
    } else {
      assert CellOf(k, place, b) == e + 8 * place + b - RAM_SIZE;
    }
  }

  lemma DescriptorCells(k: Ring, pos: nat, b: nat)
    requires RingOk(k) && b < 8
    ensures Cell(DescOffset(k, pos) + b) == CellOf(k, Place(k, pos), b)
    ensures ChipRamOk(k.am79, DescOffset(k, pos) + b) == Reached(k, pos)
  {
    var m, e := k.base / 8 + pos % k.len, k.base % 8;
    assert DescOffset(k, pos) == 8 * m + e;
    ModAdd(RAM_SIZE, 8 * m, e + b);
    DivisionIsUnique(RAM_SIZE, m / 4096, 8 * (m % 4096));
    if !k.am79 { DivisionIsUnique(RAM_SIZE, m / 4096, 8 * (m % 4096) + b); }
  }

  function WordIn(k: Ring, ram: Ram, place: nat, b: nat): Half {
    ram[CellOf(k, place, b)] as int * 256 + ram[CellOf(k, place, b + 1)]
  }

  lemma GetDescAtPlace(k: Ring, ram: Ram, pos: nat)
    requires RingOk(k)
    ensures var p := Place(k, pos);
            GetDesc(k, ram, pos) ==
            if Reached(k, pos)
              then Desc(WordIn(k, ram, p, 0), WordIn(k, ram, p, 2), WordIn(k, ram, p, 4), WordIn(k, ram, p, 6))
            else Desc(0, 0, 0, 0)
  {
    hide Place, Reached, DescOffset, ChipRamOk, Cell, CellOf;
    DescriptorCells(k, pos, 0); DescriptorCells(k, pos, 1); DescriptorCells(k, pos, 2); DescriptorCells(k, pos, 3);
    DescriptorCells(k, pos, 4); DescriptorCells(k, pos, 5); DescriptorCells(k, pos, 6); DescriptorCells(k, pos, 7);
  }

  /** Giving back a descriptor changes its two status words and nothing else. */
  lemma PutStatusAtPlace(k: Ring, ram: Ram, pos: nat, d1: Half, d3: Half)
    requires RingOk(k)
    ensures var p := Place(k, pos);
            PutStatus(k, ram, pos, d1, d3) ==
            if Reached(k, pos) then
              ram[CellOf(k, p, 2) := d1 / 256][CellOf(k, p, 3) := d1 % 256]
                 [CellOf(k, p, 6) := d3 / 256][CellOf(k, p, 7) := d3 % 256]
            else ram
  {
    hide Place, Reached, DescOffset, ChipRamOk, Cell, CellOf;
    DescriptorCells(k, pos, 2); DescriptorCells(k, pos, 3); DescriptorCells(k, pos, 6); DescriptorCells(k, pos, 7);
  }

  /** Two memories agree on one place. */
  predicate SamePlace(k: Ring, r: Ram, s: Ram, place: nat) {
    forall c: nat :: c < RAM_SIZE && PlaceOf(k, c) == place ==> r[c] == s[c]
  }

  lemma SameDescriptor(k: Ring, r: Ram, s: Ram, pos: nat)
    requires RingOk(k) && SamePlace(k, r, s, Place(k, pos))
    ensures GetDesc(k, r, pos) == GetDesc(k, s, pos)
  {
    hide GetDesc, Place, Reached, CellOf, PlaceOf;
    GetDescAtPlace(k, r, pos);
    GetDescAtPlace(k, s, pos);
    forall b: nat | b < 8
      ensures r[CellOf(k, Place(k, pos), b)] == s[CellOf(k, Place(k, pos), b)]
    {
      CellOfPlace(k, Place(k, pos), b);
    }
  }

  /** The eight cells of a place are different ones. */
  lemma CellsDiffer(k: Ring, place: nat, a: nat, b: nat)
    requires place < 4096 && a < b < 8
    ensures CellOf(k, place, a) != CellOf(k, place, b)
  {
  }

  lemma PutStatusEffect(k: Ring, ram: Ram, pos: nat, d1: Half, d3: Half)
    requires RingOk(k)
    ensures var r, d := PutStatus(k, ram, pos, d1, d3), GetDesc(k, ram, pos);
            (forall c: nat :: c < RAM_SIZE && PlaceOf(k, c) != Place(k, pos) ==> r[c] == ram[c]) &&
            (Reached(k, pos) ==> GetDesc(k, r, pos) == Desc(d.d0, d1, d.d2, d3))
  {
    hide GetDesc, PutStatus, Place, Reached, CellOf, PlaceOf;
    PutStatusAtPlace(k, ram, pos, d1, d3);
    GetDescAtPlace(k, ram, pos);
    GetDescAtPlace(k, PutStatus(k, ram, pos, d1, d3), pos);
    var p := Place(k, pos);
    forall b: nat | b < 8 ensures PlaceOf(k, CellOf(k, p, b)) == p { CellOfPlace(k, p, b); }
    forall a: nat, b: nat | a < b < 8 ensures CellOf(k, p, a) != CellOf(k, p, b) { CellsDiffer(k, p, a, b); }
  }
}
