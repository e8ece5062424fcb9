/**
 The board's RAM before and after a frame is received, byte by byte (a2065.cpp:300-332, 476-616).

 The theorems of A2065Receive speak of descriptors and buffers through the accessors of A2065Ram.  Here the same results
 are written out on the cells of the RAM: where each byte of a frame lies, which byte of which descriptor changes and
 how, and what the look-ahead guard counts.
 */
module A2065Wire {
  import opened Numbers
  import opened A2065Ram
  import Rx = A2065Receive
  import Tx = A2065Transmit

  /** The byte that the chip sees at an address: 32 KB that repeat, and nothing at addresses of the A2065 without A15.
      */
  function Seen(am79: bool, ram: Ram, a: nat): Byte { if am79 || a / 32768 % 2 == 1 then ram[a % 32768] else 0 }

  function At(k: Ring, pos: nat): nat
    requires k.len > 0
  {
    k.base + 8 * (pos % k.len)
  }

  /** The 24-bit address of a buffer, in bytes 3, 0 and 1 of its descriptor. */
  function Start(k: Ring, ram: Ram, pos: nat): nat
    requires k.len > 0
  {
    var at := At(k, pos);
    65536 * Seen(k.am79, ram, at + 3) + 256 * Seen(k.am79, ram, at) + Seen(k.am79, ram, at + 1)
  }

  /** Its size, stored negated in bytes 4 and 5. */
  function Size(k: Ring, ram: Ram, pos: nat): (n: nat)
    requires k.len > 0
    ensures 0 < n <= 65536
  {
    var at := At(k, pos);
    65536 - (256 * Seen(k.am79, ram, at + 4) + Seen(k.am79, ram, at + 5))
  }

  /** Bits of the third byte: the chip's, starts a frame, ends a frame. */
  predicate Own(k: Ring, ram: Ram, pos: nat)
    requires k.len > 0
  {
    Seen(k.am79, ram, At(k, pos) + 2) >= 128
  }

  predicate Starts(k: Ring, ram: Ram, pos: nat)
    requires k.len > 0
  {
    Seen(k.am79, ram, At(k, pos) + 2) / 2 % 2 == 1
  }

  predicate Ends(k: Ring, ram: Ram, pos: nat)
    requires k.len > 0
  {
    Seen(k.am79, ram, At(k, pos) + 2) % 2 == 1
  }

  /** The bytes that `n` buffers from `pos` on hold together. */
  function Room(k: Ring, ram: Ram, pos: nat, n: nat): nat
    requires k.len > 0
  {
    if n == 0 then 0 else Room(k, ram, pos, n - 1) + Size(k, ram, pos + n - 1)
  }

  lemma DescriptorIs(k: Ring, ram: Ram, pos: nat)
    requires k.len > 0
    ensures var d := GetDesc(k, ram, pos);
            BufferAddress(d) == Start(k, ram, pos) && BufferSize(d) == Size(k, ram, pos) &&
            (Has(d.d1, OWN) <==> Own(k, ram, pos)) && (Has(d.d1, STP) <==> Starts(k, ram, pos)) &&
            (Has(d.d1, ENP) <==> Ends(k, ram, pos))
  {
    hide GetWord, Seen, At, DescOffset;
    var at := At(k, pos);
    OffsetIs(k, pos);
    WordOfBytes(k.am79, ram, at);
    WordOfBytes(k.am79, ram, at + 2);
    WordOfBytes(k.am79, ram, at + 4);
    WordBits(Seen(k.am79, ram, at + 2), Seen(k.am79, ram, at + 3));
  }

  lemma OffsetIs(k: Ring, pos: nat)
    requires k.len > 0
    ensures DescOffset(k, pos) == At(k, pos)
  {
  }

  lemma WordOfBytes(am79: bool, ram: Ram, a: nat)
    ensures GetWord(am79, ram, a) == Seen(am79, ram, a) as int * 256 + Seen(am79, ram, a + 1)
  {
  }

  lemma WordBits(hi: Byte, lo: Byte)
    ensures var w := hi as int * 256 + lo;
            w % 256 == lo && w / 256 == hi && (w / 0x8000 % 2 == 1 <==> hi >= 128) && w / 0x200 % 2 == hi / 2 % 2 &&
            w / 0x100 % 2 == hi % 2
  {
  }

  // ----- a run of descriptors -----

  lemma {:induction false} RoomFromFront(k: Ring, ram: Ram, pos: nat, n: nat)
    requires k.len > 0
    ensures Room(k, ram, pos, n + 1) == Size(k, ram, pos) + Room(k, ram, pos + 1, n)
  {
    hide Size;
    if n > 0 { RoomFromFront(k, ram, pos, n - 1); } else { assert Room(k, ram, pos, 0) == 0; }
  }

  lemma {:induction false} CapacityIsRoom(k: Ring, ram: Ram, pos: nat, n: nat)
    requires k.len > 0
    ensures Rx.Capacity(k, ram, pos, n) == Room(k, ram, pos, n)
    decreases n
  {
    hide GetDesc, Size;
    if n > 0 {
      DescriptorIs(k, ram, pos);
      RoomFromFront(k, ram, pos, n - 1);
      CapacityIsRoom(k, ram, pos + 1, n - 1);
    }
  }

  /** The fewest buffers from `pos` on that hold `need` bytes are `n`, and all are the chip's. */
  predicate Run(k: Ring, ram: Ram, pos: nat, need: nat, n: nat)
    requires k.len > 0
  {
    n > 0 && Room(k, ram, pos, n - 1) < need <= Room(k, ram, pos, n) && OwnAll(k, ram, pos, n)
  }

  predicate OwnAll(k: Ring, ram: Ram, pos: nat, n: nat)
    requires k.len > 0
  {
    forall p: nat :: pos <= p < pos + n ==> Own(k, ram, p)
  }

  lemma {:induction false} OwnedIs(k: Ring, ram: Ram, pos: nat, n: nat)
    requires k.len > 0
    ensures Rx.Owned(k, ram, pos, n) <==> OwnAll(k, ram, pos, n)
    decreases n
  {
    hide GetDesc, Own, Has;
    if n > 0 {
      DescriptorIs(k, ram, pos);
      OwnedIs(k, ram, pos + 1, n - 1);
    }
  }

  lemma RunIs(k: Ring, ram: Ram, pos: nat, need: nat, n: nat)
    requires k.len > 0 && Run(k, ram, pos, need, n)
    ensures Rx.Run(k, ram, pos, need) == n && Rx.Owned(k, ram, pos, n)
  {
    hide Rx.Run, Rx.Owned, Rx.Capacity, OwnAll;
    OwnedIs(k, ram, pos, n);
    CapacityIsRoom(k, ram, pos, n);
    CapacityIsRoom(k, ram, pos, n - 1);
    Rx.RunIsShortest(k, ram, pos, need, n);
    Rx.RunIsShortest(k, ram, pos, need, n - 1);
  }

  // ----- the look-ahead guard -----

  /** The first `n` buffers are the chip's and hold `needed` bytes. */
  predicate Hold(k: Ring, ram: Ram, pos: nat, needed: int, n: nat)
    requires k.len > 0
  {
    OwnAll(k, ram, pos, n) && Room(k, ram, pos, n) >= needed
  }

  lemma HoldNext(k: Ring, ram: Ram, pos: nat, needed: int, n: nat)
    requires k.len > 0 && n > 0
    ensures Hold(k, ram, pos, needed, n) <==>
            Own(k, ram, pos) && Hold(k, ram, pos + 1, needed - Size(k, ram, pos), n - 1)
  {
    hide Own, Size, Room;
    RoomFromFront(k, ram, pos, n - 1);
  }

  lemma HoldNothing(k: Ring, ram: Ram, pos: nat, needed: int)
    requires k.len > 0
    ensures Hold(k, ram, pos, needed, 0) <==> needed <= 0
  {
  }

  lemma {:induction false} SpaceIs(k: Ring, ram: Ram, pos: nat, needed: int, left: nat)
    requires k.len > 0 && needed > 0
    ensures Rx.Space(k, ram, pos, needed, left) <==> exists n: nat :: n <= left && Hold(k, ram, pos, needed, n)
    decreases left
  {
    hide GetDesc, Own, Has, Size, Hold;
    forall n: nat | Hold(k, ram, pos, needed, n)
      ensures n > 0 && Own(k, ram, pos) && Hold(k, ram, pos + 1, needed - Size(k, ram, pos), n - 1)
    {
      if n == 0 { HoldNothing(k, ram, pos, needed); }
      HoldNext(k, ram, pos, needed, n);
    }
    if left > 0 {
      DescriptorIs(k, ram, pos);
      var rest, next := needed - Size(k, ram, pos), pos + 1;
      if Own(k, ram, pos) && rest <= 0 {
        HoldNothing(k, ram, pos + 1, rest);
        HoldNext(k, ram, pos, needed, 1);
      } else if Own(k, ram, pos) {
        SpaceIs(k, ram, pos + 1, rest, left - 1);
        if n: nat :| n <= left - 1 && Hold(k, ram, next, rest, n) { HoldNext(k, ram, pos, needed, n + 1); }
      }
    }
  }

  /** The guard admits a frame if and only if it is neither empty nor too long, the receiver is initialised and on, and
      buffers of the chip's, one after the other and no more than the ring has, hold it: padded to 60 bytes, and with
      its check sequence unless that is stripped. */
  lemma GuardIs(k: Ring, o: Rx.Mode, ram: Ram, pos: nat, len: int)
    ensures Rx.SpaceAvailable(k, o, ram, pos, len) <==>
            0 < len <= 4000 && (o.strip || len <= 3996) && o.ready && o.rxon && k.len > 0 &&
            exists n: nat :: n <= k.len && OwnAll(k, ram, pos, n) &&
                             Room(k, ram, pos, n) >= (if len < 60 then 60 else len) + (if o.strip then 0 else 4)
  {
    hide Rx.Space, Room, OwnAll;
    if k.len > 0 && Rx.BufferNeed(o, len) >= 0 {
      var needed := Rx.BufferNeed(o, len);
      SpaceIs(k, ram, pos, needed, k.len);
      forall n: nat | OwnAll(k, ram, pos, n) && Room(k, ram, pos, n) >= needed ensures Hold(k, ram, pos, needed, n) { }
    }
  }

  /** And the ring could hold it at all if and only if its buffers do together. */
  lemma FitIs(k: Ring, o: Rx.Mode, ram: Ram, pos: nat, len: int)
    ensures Rx.CanFit(k, o, ram, pos, len) <==>
            0 < len <= 4000 && (o.strip || len <= 3996) && o.ready && k.len > 0 &&
            Room(k, ram, pos, k.len) >= (if len < 60 then 60 else len) + (if o.strip then 0 else 4)
  {
    hide Rx.Fits, Room, Rx.Capacity;
    if k.len > 0 && Rx.BufferNeed(o, len) >= 0 {
      Rx.FitsIsCapacity(k, ram, pos, Rx.BufferNeed(o, len), k.len);
      CapacityIsRoom(k, ram, pos, k.len);
    }
  }

  // ----- the frame in the ring -----

  lemma {:induction false} ScatterAt(k: Ring, ram: Ram, pos: nat, need: int, p: nat, i: nat)
    requires k.len > 0 && pos <= p && i < Size(k, ram, p) && Room(k, ram, pos, p - pos) + i < need
    ensures Room(k, ram, pos, p - pos) + i < |Rx.Scatter(k, ram, pos, need)|
    ensures Rx.Scatter(k, ram, pos, need)[Room(k, ram, pos, p - pos) + i] == Flip(k.swap, Start(k, ram, p) + i)
    decreases p - pos
  {
    hide GetDesc, BufferAddress, BufferSize, Size, Start, Flip, Rx.Scatter;
    DescriptorIs(k, ram, pos);
    Rx.RunHead(k, ram, pos, need);
    var m := Rx.Min(Size(k, ram, pos), need);
    if p == pos {
      assert Room(k, ram, pos, 0) == 0;
      Rx.AddressAt(k, Start(k, ram, pos), m, i);
    } else {
      RoomFromFront(k, ram, pos, p - pos - 1);
      ScatterAt(k, ram, pos + 1, need - m, p, i);
    }
  }

  /** What the receive loop is asked for: `n` descriptors of the chip's are just enough for the frame, and the buffers
      keep clear of each other and of the descriptors. */
  predicate Ready(k: Ring, ram: Ram, pos: nat, size: nat, n: nat) {
    RingOk(k) && 0 < size < 65536 && Run(k, ram, pos, size, n) && Rx.Apart(k, Rx.Scatter(k, ram, pos, size), pos, n)
  }

  lemma ReadySucceeds(k: Ring, ram: Ram, pos: nat, data: seq<Byte>, n: nat)
    requires Ready(k, ram, pos, |data|, n)
    ensures n == Rx.Run(k, ram, pos, |data|)
    ensures Rx.Success(k, ram, pos, data, 0, Rx.Deliver(k, ram, pos, data, 0))
  {
    hide Rx.Apart, Rx.Scatter, Rx.Owned, Rx.Success, Rx.Deliver, Run;
    RunIs(k, ram, pos, |data|, n);
    Rx.DeliverRun(k, ram, pos, data, 0);
  }

  /** Every byte of the frame lies in the RAM at the next address of the buffers, end to end; with the byte swap, at the
      other byte of that word. */
  lemma ReceivedByte(k: Ring, ram: Ram, pos: nat, data: seq<Byte>, n: nat, p: nat, i: nat)
    requires Ready(k, ram, pos, |data|, n)
    requires pos <= p && i < Size(k, ram, p) && Room(k, ram, pos, p - pos) + i < |data|
    ensures var o := Rx.Deliver(k, ram, pos, data, 0);
            var a, v := Start(k, ram, p) + i, data[Room(k, ram, pos, p - pos) + i];
            o.Delivered? && o.offset == (pos + n - 1) % k.len + 1 &&
            (k.swap == 0 ==> o.ram[a % 32768] == v) &&
            (k.swap == 1 && a % 2 == 0 ==> o.ram[(a + 1) % 32768] == v) &&
            (k.swap == 1 && a % 2 == 1 ==> o.ram[(a - 1) % 32768] == v)
  {
    hide Rx.Apart, Rx.Scatter, Rx.Deliver, Rx.GivenBack, Rx.Untouched, Run, Size, Start, Room;
    ReadySucceeds(k, ram, pos, data, n);
    ScatterAt(k, ram, pos, |data|, p, i);
    assert data[0..] == data;
  }

  lemma {:induction false} GivenBackAt(k: Ring, ram: Ram, r: Ram, pos: nat, n: nat, first: bool, len: nat, p: nat)
    requires k.len > 0 && len < 65536 && pos <= p < pos + n && Rx.GivenBack(k, ram, r, pos, n, first, len)
    ensures GetDesc(k, r, p) == Rx.Used(GetDesc(k, ram, p), first && p == pos, p == pos + n - 1, len)
    decreases n
  {
    hide GetDesc, Rx.Used;
    if p > pos { GivenBackAt(k, ram, r, pos + 1, n - 1, false, len, p); }
  }

  lemma WordParts(hi: Byte, lo: Byte)
    ensures (hi as int * 256 + lo) / 256 == hi && (hi as int * 256 + lo) % 256 == lo
  {
  }

  /** The bytes of a descriptor from its words. */
  lemma SeenIs(k: Ring, ram: Ram, pos: nat, b: nat)
    requires k.len > 0 && b < 8
    ensures var d := GetDesc(k, ram, pos);
            var w := if b < 2 then d.d0 else if b < 4 then d.d1 else if b < 6 then d.d2 else d.d3;
            Seen(k.am79, ram, At(k, pos) + b) == if b % 2 == 0 then w / 256 else w % 256
  {
    hide GetWord, Seen, At, DescOffset;
    var off := At(k, pos);
    OffsetIs(k, pos);
    WordSeen(k.am79, ram, off);
    WordSeen(k.am79, ram, off + 2);
    WordSeen(k.am79, ram, off + 4);
    WordSeen(k.am79, ram, off + 6);
  }

  lemma WordSeen(am79: bool, ram: Ram, a: nat)
    ensures GetWord(am79, ram, a) / 256 == Seen(am79, ram, a) && GetWord(am79, ram, a) % 256 == Seen(am79, ram, a + 1)
  {
    hide GetWord, Seen;
    WordOfBytes(am79, ram, a);
    WordParts(Seen(am79, ram, a), Seen(am79, ram, a + 1));
  }

  lemma FreedBits(hi: Byte, lo: Byte)
    requires hi >= 128
    ensures Clear(hi as int * 256 + lo, OWN) == (hi - 128) as int * 256 + lo
  {
    WordBits(hi, lo);
  }

  lemma StartBits(hi: Byte, lo: Byte)
    ensures Set(hi as int * 256 + lo, STP) == (hi as int + if hi / 2 % 2 == 0 then 2 else 0) * 256 + lo
  {
    WordBits(hi, lo);
  }

  lemma EndBits(hi: Byte, lo: Byte)
    ensures Set(hi as int * 256 + lo, ENP) == (hi as int + if hi % 2 == 0 then 1 else 0) * 256 + lo
  {
    WordBits(hi, lo);
  }

  lemma UsedBits(hi: Byte, lo: Byte, d: Desc, first: bool, last: bool, len: nat)
    requires d.d1 == hi as int * 256 + lo && hi >= 128 && len < 65536
    ensures var u := Rx.Used(d, first, last, len);
            u.d1 / 256 == hi - 128 + (if first && hi / 2 % 2 == 0 then 2 else 0) +
                          (if last && hi % 2 == 0 then 1 else 0) &&
            u.d1 % 256 == lo && u.d0 == d.d0 && u.d2 == d.d2 && u.d3 == if last then len else d.d3
  {
    hide Set, Clear;
    var h1 := hi - 128;
    var h2 := h1 + if first && hi / 2 % 2 == 0 then 2 else 0;
    var h3 := h2 + if last && hi % 2 == 0 then 1 else 0;
    FreedBits(hi, lo);
    StartBits(h1, lo);
    EndBits(h2, lo);
    WordParts(h3, lo);
  }

  /** Each descriptor of the run is given back: its third byte loses bit 7; the first gets bit 1, the last bit 0 and, in
      its last two bytes, the length of the frame. */
  lemma ReceivedStatus(k: Ring, ram: Ram, pos: nat, data: seq<Byte>, n: nat, p: nat, b: nat)
    requires Ready(k, ram, pos, |data|, n) && pos <= p < pos + n && b < 8
    ensures var o := Rx.Deliver(k, ram, pos, data, 0);
            var x := Seen(k.am79, ram, At(k, p) + b);
            o.Delivered? &&
            Seen(k.am79, o.ram, At(k, p) + b) ==
            if b == 2 then
              x - 128 + (if p == pos && x / 2 % 2 == 0 then 2 else 0) +
                        (if p == pos + n - 1 && x % 2 == 0 then 1 else 0)
            else if b == 6 && p == pos + n - 1 then |data| / 256
            else if b == 7 && p == pos + n - 1 then |data| % 256
            else x
  {
    hide Rx.Apart, Rx.Scatter, Rx.Deliver, Rx.GivenBack, Rx.Untouched, Rx.Placed, GetDesc, Size, Start, Room, At, Seen,
         Rx.Used, Rx.Run;
    ReadySucceeds(k, ram, pos, data, n);
    var r := Rx.Deliver(k, ram, pos, data, 0).ram;
    GivenBackAt(k, ram, r, pos, n, true, |data|, p);
    SeenIs(k, ram, p, b);
    SeenIs(k, r, p, b);
    SeenIs(k, ram, p, 2);
    SeenIs(k, ram, p, 3);
    assert Own(k, ram, p);
    UsedBits(Seen(k.am79, ram, At(k, p) + 2), Seen(k.am79, ram, At(k, p) + 3), GetDesc(k, ram, p), p == pos,
             p == pos + n - 1, |data|);
  }

  /** The cell of a byte of a descriptor, and of a byte of a buffer. */
  function StatusCell(k: Ring, p: nat, b: nat): nat
    requires k.len > 0
  {
    (At(k, p) + b) % 32768
  }

  function FrameCell(k: Ring, ram: Ram, p: nat, i: nat): nat
    requires k.len > 0
  {
    var a := Start(k, ram, p) + i;
    (if k.swap == 0 then a else if a % 2 == 0 then a + 1 else a - 1) % 32768
  }

  lemma {:induction false} PlaceOfByte(k: Ring, ram: Ram, pos: nat, need: nat, t: nat) returns (p: nat, i: nat)
    requires k.len > 0 && t < need
    ensures pos <= p < pos + Rx.Run(k, ram, pos, need) && i < Size(k, ram, p) && Room(k, ram, pos, p - pos) + i == t
    decreases need
  {
    hide GetDesc, BufferAddress, BufferSize, Size, Start, Flip, Rx.Run, Rx.Scatter, Rx.Addresses;
    DescriptorIs(k, ram, pos);
    Rx.RunHead(k, ram, pos, need);
    if t < Size(k, ram, pos) {
      p, i := pos, t;
      assert Room(k, ram, pos, 0) == 0;
    } else {
      p, i := PlaceOfByte(k, ram, pos + 1, need - Size(k, ram, pos), t - Size(k, ram, pos));
      RoomFromFront(k, ram, pos, p - pos - 1);
    }
  }

  /** No other cell changes. */
  lemma OthersStay(k: Ring, ram: Ram, pos: nat, data: seq<Byte>, n: nat, c: nat)
    requires Ready(k, ram, pos, |data|, n) && c < 32768
    requires forall p: nat, b: nat :: pos <= p < pos + n && b < 8 ==> StatusCell(k, p, b) != c
    requires forall p: nat, i: nat :: pos <= p && i < Size(k, ram, p) && Room(k, ram, pos, p - pos) + i < |data| ==>
               FrameCell(k, ram, p, i) != c
    ensures Rx.Deliver(k, ram, pos, data, 0).Delivered?
    ensures Rx.Deliver(k, ram, pos, data, 0).ram[c] == ram[c]
  {
    hide Rx.Apart, Rx.Scatter, Rx.Deliver, Rx.GivenBack, Rx.Placed, Size, Start, Room, StatusCell, PlaceOf, Place,
         Rx.Run;
    ReadySucceeds(k, ram, pos, data, n);
    var at := Rx.Scatter(k, ram, pos, |data|);
    forall t | 0 <= t < |at|
      ensures Cell(at[t]) != c
    {
      var p, i := PlaceOfByte(k, ram, pos, |data|, t);
      ScatterAt(k, ram, pos, |data|, p, i);
      assert FrameCell(k, ram, p, i) != c;
    }
    if !Rx.Outside(k, c, pos, n) {
      var p := Rx.SomewhereIn(k, PlaceOf(k, c), pos, n);
      var b := StatusByte(k, c, p);
      assert false;
    }
  }

  /** A cell at the place of a descriptor is one of its bytes. */
  lemma StatusByte(k: Ring, c: nat, p: nat) returns (b: nat)
    requires RingOk(k) && c < RAM_SIZE && PlaceOf(k, c) == Place(k, p)
    ensures b < 8 && StatusCell(k, p, b) == c
  {
    var e := k.base % 8;
    var x := (c + RAM_SIZE - e) % RAM_SIZE;
    b := x % 8;
    DescriptorCells(k, p, b);
    assert DescOffset(k, p) == At(k, p);
    hide Place, DescOffset, At;
    assert (e + x) % RAM_SIZE == c by { ShiftBack(c, e); }
    assert 8 * (x / 8) + b == x;
  }

  lemma ShiftBack(c: nat, e: nat)
    requires c < RAM_SIZE && e < 8
    ensures (e + (c + RAM_SIZE - e) % RAM_SIZE) % RAM_SIZE == c
  {
  }

  /** The guard makes a frame ready, in no more descriptors than the ring has. */
  lemma GuardMakesReady(k: Ring, o: Rx.Mode, ram: Ram, pos: nat, len: nat)
    requires RingOk(k) && Rx.SpaceAvailable(k, o, ram, pos, len)
    requires var size := if o.strip then len else len + 4;
             Rx.Apart(k, Rx.Scatter(k, ram, pos, size), pos, Rx.Run(k, ram, pos, size))
    ensures var size := if o.strip then len else len + 4;
            Rx.Run(k, ram, pos, size) <= k.len && Ready(k, ram, pos, size, Rx.Run(k, ram, pos, size))
  {
    hide Rx.Apart, Rx.Scatter, Rx.Run, Rx.Owned, Rx.Capacity, Rx.Space, OwnAll, Room, GetDesc;
    var size, needed := if o.strip then len else len + 4, Rx.BufferNeed(o, len);
    var n := Rx.Run(k, ram, pos, size);
    Rx.SpaceMeansRun(k, ram, pos, needed, k.len);
    Rx.SmallerRun(k, ram, pos, size, needed);
    Rx.OwnedPrefix(k, ram, pos, n, Rx.Run(k, ram, pos, needed));
    OwnedIs(k, ram, pos, n);
    CapacityIsRoom(k, ram, pos, n);
    assert n > 0 by { Rx.RunHead(k, ram, pos, size); }
    CapacityIsRoom(k, ram, pos, n - 1);
    Rx.RunIsShortest(k, ram, pos, size, n);
    Rx.RunIsShortest(k, ram, pos, size, n - 1);
  }

  // ----- a frame that meets a descriptor of the host's -----

  lemma ErrorBits(hi: Byte, lo: Byte)
    ensures var w := Set(Set(Set(hi as int * 256 + lo, ERR), BUFF), OFLO);
            w / 256 == hi as int + (if hi / 64 % 2 == 0 then 64 else 0) + (if hi / 4 % 2 == 0 then 4 else 0) +
                       (if hi / 16 % 2 == 0 then 16 else 0) &&
            w % 256 == lo
  {
    hide Set;
    var h1 := hi as int + if hi / 64 % 2 == 0 then 64 else 0;
    var h2 := h1 + if hi / 4 % 2 == 0 then 4 else 0;
    ErrorBit(hi, lo);
    BufferBit(h1, lo);
    OverflowBit(h2, lo);
    OtherBits(hi);
    WordParts(h2 + if hi / 16 % 2 == 0 then 16 else 0, lo);
  }

  lemma OtherBits(hi: Byte)
    ensures var h1 := hi as int + if hi / 64 % 2 == 0 then 64 else 0;
            var h2 := h1 + if hi / 4 % 2 == 0 then 4 else 0;
            h2 < 256 && h1 / 4 % 2 == hi / 4 % 2 && h2 / 16 % 2 == hi / 16 % 2
  {
    var h1 := hi as int + if hi / 64 % 2 == 0 then 64 else 0;
    assert h1 / 4 % 2 == hi / 4 % 2 && h1 / 16 % 2 == hi / 16 % 2 by {
      assert (hi as int + 64) / 4 == hi / 4 + 16 && (hi as int + 64) / 16 == hi / 16 + 4;
    }
    assert h1 < 256;
    if h1 / 4 % 2 == 0 { AddFour(h1); }
  }

  lemma AddFour(h: nat)
    requires h < 256 && h / 4 % 2 == 0
    ensures h + 4 < 256 && (h + 4) / 16 == h / 16
  {
    var q, r := h / 8, h % 8;
    assert h == 8 * q + r && r < 4;
  }

  lemma ErrorBit(hi: Byte, lo: Byte)
    ensures Set(hi as int * 256 + lo, ERR) == (hi as int + if hi / 64 % 2 == 0 then 64 else 0) * 256 + lo
  {
  }

  lemma BufferBit(hi: Byte, lo: Byte)
    ensures Set(hi as int * 256 + lo, BUFF) == (hi as int + if hi / 4 % 2 == 0 then 4 else 0) * 256 + lo
  {
  }

  lemma OverflowBit(hi: Byte, lo: Byte)
    ensures Set(hi as int * 256 + lo, OFLO) == (hi as int + if hi / 16 % 2 == 0 then 16 else 0) * 256 + lo
  {
  }

  /** Storing a byte that the chip sees. */
  function Stored(am79: bool, ram: Ram, a: nat, v: Byte): Ram {
    if am79 || a / 32768 % 2 == 1 then ram[a % 32768 := v] else ram
  }

  /** The error goes into the third byte of the descriptor before: bits 6, 4 and 2. */
  lemma ErrorIsMarked(k: Ring, ram: Ram, pos: nat)
    requires k.len > 0 && pos > 0
    ensures var a := At(k, pos - 1) + 2;
            var x := Seen(k.am79, ram, a);
            Rx.MarkError(k, ram, pos) ==
            Stored(k.am79,
                   Stored(k.am79, ram, a, x + (if x / 64 % 2 == 0 then 64 else 0) +
                                          (if x / 16 % 2 == 0 then 16 else 0) + (if x / 4 % 2 == 0 then 4 else 0)),
                   a + 1, Seen(k.am79, ram, a + 1))
  {
    hide At, Set, Stored, PutWord, GetWord, Seen;
    PreviousIs(k, pos);
    var a := At(k, pos - 1) + 2;
    WordSeen(k.am79, ram, a);
    WordStored(k.am79, ram, a, Set(Set(Set(GetWord(k.am79, ram, a), ERR), BUFF), OFLO));
    ErrorBits(Seen(k.am79, ram, a), Seen(k.am79, ram, a + 1));
  }

  lemma PreviousIs(k: Ring, pos: nat)
    requires k.len > 0 && pos > 0
    ensures k.base + (pos + k.len - 1) % k.len * 8 == At(k, pos - 1)
  {
    var q, r := (pos - 1) / k.len, (pos - 1) % k.len;
    Distribute(k.len, q, -1);
    DivisionIsUnique(k.len, q + 1, r);
  }

  lemma WordStored(am79: bool, ram: Ram, a: nat, w: Half)
    ensures PutWord(am79, ram, a, w) == Stored(am79, Stored(am79, ram, a, w / 256), a + 1, w % 256)
  {
  }

  /** `m` descriptors of the chip's whose buffers do not hold what is left of the frame, and then one of the host's. */
  predicate Short(k: Ring, ram: Ram, pos: nat, left: nat, m: nat) {
    RingOk(k) && OwnAll(k, ram, pos, m) && !Own(k, ram, pos + m) && Room(k, ram, pos, m) < left < 65536 &&
    Rx.Distinct(k, pos, m + 1) && Rx.Apart(k, Rx.Scatter(k, ram, pos, Room(k, ram, pos, m)), pos, m + 1)
  }

  lemma FillFirst(k: Ring, ram: Ram, pos: nat, data: seq<Byte>, done: nat, m: nat)
    requires done < |data| < 65536 && m > 0 && Short(k, ram, pos, |data| - done, m)
    ensures var n, r := Size(k, ram, pos), Rx.FillOne(k, ram, pos, data, done);
            n < |data| - done && Rx.Chunk(k, ram, pos, data, done) == n &&
              Short(k, r, pos + 1, |data| - done - n, m - 1) &&
            (forall p :: pos < p <= pos + m ==> GetDesc(k, r, p) == GetDesc(k, ram, p)) &&
            GetDesc(k, r, pos) == Rx.Used(GetDesc(k, ram, pos), done == 0, false, |data|)
  {
    hide GetDesc, Rx.Used, PutStatus, Rx.PutData, Place, Rx.Apart, Rx.Addresses, Cell, Rx.Placed, Rx.Untouched,
         BufferAddress, Rx.Run, Rx.Scatter, Own, Size, Rx.Owned, Room;
    var d, n, room := GetDesc(k, ram, pos), Size(k, ram, pos), Room(k, ram, pos, m);
    var r, u := Rx.FillOne(k, ram, pos, data, done), Rx.Used(d, done == 0, false, |data|);
    DescriptorIs(k, ram, pos);
    RoomFromFront(k, ram, pos, m - 1);
    Rx.RunHead(k, ram, pos, room);
    var a, b := Rx.Addresses(k, BufferAddress(d), n), Rx.Scatter(k, ram, pos + 1, room - n);
    Rx.UsedKeeps(d, done == 0, false, |data|);
    Rx.UntouchedItself(k, a, ram, pos, 1);
    Rx.FirstApart(k, ram, ram, pos, a, b, m + 1);
    Rx.OneBuffer(k, ram, pos, data[done..done + n], u.d1, u.d3);
    Rx.FirstApart(k, ram, r, pos, a, b, m + 1);
    SameShort(k, ram, r, pos, m);
  }

  /** Descriptors and buffers from `pos` + 1 on are what they were. */
  lemma SameShort(k: Ring, ram: Ram, r: Ram, pos: nat, m: nat)
    requires RingOk(k) && m > 0 && OwnAll(k, ram, pos, m) && !Own(k, ram, pos + m)
    requires forall c: nat :: c < RAM_SIZE && !Rx.Outside(k, c, pos + 1, m) ==> ram[c] == r[c]
    ensures OwnAll(k, r, pos + 1, m - 1) && !Own(k, r, pos + m)
    ensures Room(k, r, pos + 1, m - 1) == Room(k, ram, pos + 1, m - 1)
    ensures var room := Room(k, ram, pos + 1, m - 1);
            Rx.Scatter(k, r, pos + 1, room) == Rx.Scatter(k, ram, pos + 1, room)
    ensures forall p :: pos < p <= pos + m ==> GetDesc(k, r, p) == GetDesc(k, ram, p)
  {
    hide GetDesc, Place, Rx.Run, Rx.Scatter, Own, Size, Rx.Owned, Room, Rx.Elsewhere;
    var room := Room(k, ram, pos + 1, m - 1);
    CapacityIsRoom(k, ram, pos + 1, m - 1);
    CapacityIsRoom(k, r, pos + 1, m - 1);
    Rx.RunIsShortest(k, ram, pos + 1, room, m - 1);
    Rx.SameRun(k, ram, r, pos + 1, room, m);
    forall p: nat | pos < p <= pos + m
      ensures GetDesc(k, r, p) == GetDesc(k, ram, p) && Own(k, r, p) == Own(k, ram, p)
    {
      InRange(k, ram, r, pos + 1, m, p);
      DescriptorIs(k, r, p);
      DescriptorIs(k, ram, p);
    }
    SameCapacity(k, ram, r, pos + 1, m - 1);
  }

  lemma InRange(k: Ring, r: Ram, s: Ram, pos: nat, n: nat, p: nat)
    requires RingOk(k) && pos <= p < pos + n
    requires forall c: nat :: c < RAM_SIZE && !Rx.Outside(k, c, pos, n) ==> r[c] == s[c]
    ensures GetDesc(k, r, p) == GetDesc(k, s, p)
  {
    hide GetDesc, Place, PlaceOf;
    forall c: nat | c < RAM_SIZE && PlaceOf(k, c) == Place(k, p)
      ensures r[c] == s[c]
    {
      if Rx.Outside(k, c, pos, n) { Rx.ElsewhereEach(k, PlaceOf(k, c), pos, n, p); }
    }
    Rx.InsidePlace(k, r, s, p);
  }

  lemma {:induction false} SameCapacity(k: Ring, r: Ram, s: Ram, pos: nat, n: nat)
    requires k.len > 0 && forall p :: pos <= p < pos + n ==> GetDesc(k, s, p) == GetDesc(k, r, p)
    ensures Rx.Capacity(k, s, pos, n) == Rx.Capacity(k, r, pos, n)
    decreases n
  {
    hide GetDesc;
    if n > 0 { SameCapacity(k, r, s, pos + 1, n - 1); }
  }

  lemma ShortStarts(k: Ring, ram: Ram, pos: nat, left: nat, m: nat)
    requires Short(k, ram, pos, left, m)
    ensures RingOk(k) && (Own(k, ram, pos) <==> m > 0)
  {
    hide Own, Room, Rx.Distinct, Rx.Apart, Rx.Scatter;
  }

  lemma OwnIsSeen(k: Ring, ram: Ram, p: nat)
    requires k.len > 0 && Own(k, ram, p)
    ensures k.am79 || (At(k, p) + 2) / 32768 % 2 == 1
  {
  }

  /** `r` is the RAM when the host's descriptor is met. */
  lemma {:induction false} ShortRunsOut(k: Ring, ram: Ram, pos: nat, data: seq<Byte>, done: nat, m: nat)
    returns (r: Ram)
    requires done < |data| && Short(k, ram, pos, |data| - done, m) && |data| < 65536
    ensures Rx.Deliver(k, ram, pos, data, done) ==
            if done > 0 || m > 0 then Rx.RanOut(Rx.MarkError(k, r, pos + m), (pos + m) % k.len, true)
            else Rx.RanOut(ram, pos % k.len, false)
    ensures if m == 0 then r == ram
            else
              GetDesc(k, r, pos + m - 1) ==
              Rx.Used(GetDesc(k, ram, pos + m - 1), done == 0 && m == 1, false, |data|)
    decreases m
  {
    hide GetDesc, Rx.Used, Rx.MarkError, Rx.Chunk, Rx.FillOne, Short, Has, Size;
    ShortStarts(k, ram, pos, |data| - done, m);
    DescriptorIs(k, ram, pos);
    if m == 0 {
      r := ram;
    } else {
      FillFirst(k, ram, pos, data, done, m);
      var n, r1 := Size(k, ram, pos), Rx.FillOne(k, ram, pos, data, done);
      r := ShortRunsOut(k, r1, pos + 1, data, done + n, m - 1);
    }
  }

  /** The frame is lost: at once if the first descriptor is the host's already; otherwise its part stays behind in the
      buffers, and the last descriptor that was used, given back without the end mark, says so in bits 6, 4 and 2. */
  lemma LostFrame(k: Ring, ram: Ram, pos: nat, data: seq<Byte>, m: nat)
    requires |data| > 0 && Short(k, ram, pos, |data|, m)
    ensures var o := Rx.Deliver(k, ram, pos, data, 0);
            o.RanOut? && o.offset == (pos + m) % k.len && (o.chained <==> m > 0) && (m == 0 ==> o.ram == ram) &&
            (m > 0 ==>
              var x, y := Seen(k.am79, ram, At(k, pos + m - 1) + 2), Seen(k.am79, o.ram, At(k, pos + m - 1) + 2);
              y == x - 128 + (if m == 1 && x / 2 % 2 == 0 then 2 else 0) + (if x / 64 % 2 == 0 then 64 else 0) +
                             (if x / 16 % 2 == 0 then 16 else 0) + (if x / 4 % 2 == 0 then 4 else 0))
  {
    hide GetDesc, Rx.Used, Rx.MarkError, Rx.Deliver, Room, Rx.Distinct, Rx.Apart, Rx.Scatter, Seen, At, Stored;
    var r := ShortRunsOut(k, ram, pos, data, 0, m);
    if m > 0 {
      var p := pos + m - 1;
      assert Own(k, ram, p);
      LastIsMarked(k, ram, r, p, m == 1, |data|);
    }
  }

  lemma LastIsMarked(k: Ring, ram: Ram, r: Ram, p: nat, first: bool, len: nat)
    requires k.len > 0 && len < 65536 && Own(k, ram, p)
    requires GetDesc(k, r, p) == Rx.Used(GetDesc(k, ram, p), first, false, len)
    ensures var x, y := Seen(k.am79, ram, At(k, p) + 2), Seen(k.am79, Rx.MarkError(k, r, p + 1), At(k, p) + 2);
            y == x - 128 + (if first && x / 2 % 2 == 0 then 2 else 0) + (if x / 64 % 2 == 0 then 64 else 0) +
                           (if x / 16 % 2 == 0 then 16 else 0) + (if x / 4 % 2 == 0 then 4 else 0)
  {
    hide GetDesc, Rx.Used, Rx.MarkError, Seen, At, Stored;
    OwnIsSeen(k, ram, p);
    var a := At(k, p) + 2;
    var x, z := Seen(k.am79, ram, a), Seen(k.am79, r, a);
    SeenIs(k, ram, p, 2);
    SeenIs(k, ram, p, 3);
    SeenIs(k, r, p, 2);
    UsedBits(x, Seen(k.am79, ram, a + 1), GetDesc(k, ram, p), first, false, len);
    ErrorIsMarked(k, r, p + 1);
    var v := z + (if z / 64 % 2 == 0 then 64 else 0) + (if z / 16 % 2 == 0 then 16 else 0) +
                 (if z / 4 % 2 == 0 then 4 else 0);
    SeenStored(k.am79, r, a, v, Seen(k.am79, r, a + 1));
    MarkedBits(x, z);
  }

  lemma SeenStored(am79: bool, r: Ram, a: nat, v: Byte, w: Byte)
    requires am79 || a / 32768 % 2 == 1
    ensures Seen(am79, Stored(am79, Stored(am79, r, a, v), a + 1, w), a) == v
  {
    assert a % 32768 != (a + 1) % 32768;
  }

  lemma MarkedBits(x: Byte, z: Byte)
    requires x >= 128 && (z == x - 128 || (z == x - 126 && x / 2 % 2 == 0))
    ensures z / 64 % 2 == x / 64 % 2 && z / 16 % 2 == x / 16 % 2 && z / 4 % 2 == x / 4 % 2
  {
    var q := x - 128;
    assert q / 64 == x / 64 - 2 && q / 16 == x / 16 - 8 && q / 4 == x / 4 - 32;
    if z != q { SmallBit(q); }
  }

  lemma SmallBit(q: nat)
    requires q / 2 % 2 == 0
    ensures (q + 2) / 4 == q / 4 && (q + 2) / 16 == q / 16 && (q + 2) / 64 == q / 64
  {
    var r := q % 64;
    assert q == 64 * (q / 64) + r;
  }
}
