/**
 The card's own routines over the board RAM array and its registers (a2065.cpp): the accessors, the receive loop,
 the guard's loop, the transmit loop and the address exchange, each tied to the function that specifies it.
 */
module A2065Card {
  import opened Numbers
  import opened A2065Ram
  import Rx = A2065Receive
  import Tx = A2065Transmit
  import M = A2065Munge
  import Addresses = A2065Addresses

  const RINT: Half := 0x0400
  const MISS: Half := 0x1000

  lemma NextModulo(n: nat, p: nat, q: nat)
    requires n > 0 && p % n == q % n
    ensures (p + 1) % n == (q + 1) % n
  {
    ModAdd(n, p, 1);
    ModAdd(n, q, 1);
  }

  lemma WholeTurn(n: nat, p: nat)
    requires n > 0
    ensures (p + n) % n == p % n
  {
    DivisionIsUnique(n, p / n + 1, p % n);
    Distribute(n, p / n, -1);
  }

  lemma SameOffset(k: Ring, offset: nat, pos: nat)
    requires k.len > 0 && offset < k.len && offset == pos % k.len
    ensures DescOffset(k, pos) == k.base + offset * 8
  {
  }

  lemma SameTail(x: seq<Byte>, y: seq<Byte>, z: seq<Byte>, a: nat, b: nat)
    requires |x| == |y| == |z| && a <= b <= |x| && y[a..] == x[a..] && z[b..] == y[b..]
    ensures z[b..] == x[b..]
  {
    assert y[b..] == y[a..][b - a..] && x[b..] == x[a..][b - a..];
  }

  class Card {
    const am79: bool
    const boardram: array<Byte>
    const transmitbuffer: array<Byte>
    var byteswap: nat
    var rdra: nat
    var rlen: nat
    var rdrOffset: nat
    var tdra: nat
    var tlen: nat
    var tdrOffset: nat
    var csr0: Half

    ghost predicate Valid()
      reads this, boardram
    {
      boardram.Length == RAM_SIZE && byteswap < 2 &&
      transmitbuffer.Length == MAX_PACKET_SIZE && transmitbuffer != boardram
    }

    ghost function Board(): Ram
      reads this, boardram
      requires Valid()
    {
      boardram[..]
    }

    ghost function RxRing(): Ring
      reads this
    {
      Ring(am79, byteswap, rdra, rlen)
    }

    ghost function TxRing(): Ring
      reads this
    {
      Ring(am79, byteswap, tdra, tlen)
    }

    method GetRamByte(offset: nat) returns (v: Byte)
      requires Valid()
      ensures v == GetByte(am79, Board(), offset)
    {
      if !(am79 || offset / 0x8000 % 2 == 1) { return 0; }
      v := boardram[offset % 0x8000];
    }

    method GetRamWord(offset: nat) returns (v: Half)
      requires Valid()
      ensures v == GetWord(am79, Board(), offset)
    {
      var hi := GetRamByte(offset);
      var lo := GetRamByte(offset + 1);
      v := hi as int * 256 + lo;
    }

    method PutRamByte(offset: nat, v: Byte)
      requires Valid()
      modifies boardram
      ensures Valid() && Board() == PutByte(am79, old(Board()), offset, v)
    {
      if am79 || offset / 0x8000 % 2 == 1 { boardram[offset % 0x8000] := v; }
    }

    method PutRamWord(offset: nat, v: Half)
      requires Valid()
      modifies boardram
      ensures Valid() && Board() == PutWord(am79, old(Board()), offset, v)
    {
      PutRamByte(offset, v / 256);
      PutRamByte(offset + 1, v % 256);
    }

    method ReadDescriptor(ghost k: Ring, ghost pos: nat, off: nat) returns (d: Desc)
      requires Valid() && k.len > 0 && k.am79 == am79 && off == DescOffset(k, pos)
      ensures d == GetDesc(k, Board(), pos)
    {
      var d0 := GetRamWord(off);
      var d1 := GetRamWord(off + 2);
      var d2 := GetRamWord(off + 4);
      var d3 := GetRamWord(off + 6);
      d := Desc(d0, d1, d2, d3);
    }

    /** gotfunc2's inner loop. */
    method CopyIn(address: nat, data: seq<Byte>)
      requires Valid()
      modifies boardram
      ensures Valid() && Board() == Rx.PutData(RxRing(), old(Board()), address, data)
    {
      var i := 0;
      while i < |data|
        invariant i <= |data| && Valid()
        invariant Rx.PutData(RxRing(), old(Board()), address, data) ==
                  Rx.PutData(RxRing(), Board(), address + i, data[i..])
      {
        PutRamByte(Flip(byteswap, address + i), data[i]);
        assert data[i..][1..] == data[i + 1..];
        i := i + 1;
      }
    }

    /** The loop's body when the descriptor is the chip's: fill its buffer and give it back. */
    method FillBuffer(ghost k: Ring, ghost pos: nat, off: nat, d: Desc, data: seq<Byte>, insize: nat) returns (n: nat)
      requires Valid() && k == RxRing() && k.len > 0 && off == DescOffset(k, pos)
      requires d == GetDesc(k, Board(), pos) && insize < |data| < 65536
      modifies boardram
      ensures Valid() && n == Rx.Chunk(k, old(Board()), pos, data, insize)
      ensures Board() == Rx.FillOne(k, old(Board()), pos, data, insize)
    {
      hide GetDesc, Has, Clear, Set, PutWord, Rx.PutData, BufferAddress;
      var rmd1, rmd3 := Clear(d.d1, OWN), d.d3;
      if insize == 0 { rmd1 := Set(rmd1, STP); }
      n := Rx.Min(65536 - d.d2, |data| - insize);
      CopyIn(BufferAddress(d), data[insize..insize + n]);
      if insize + n >= |data| {
        rmd1 := Set(rmd1, ENP);
        rmd3 := |data|;
      }
      PutRamWord(off + 2, rmd1);
      PutRamWord(off + 6, rmd3);
    }

    /** The loop's body when the descriptor is the host's. */
    method BufferError(ghost k: Ring, ghost pos: nat, prevoff: nat, chained: bool)
      requires Valid() && k == RxRing() && k.len > 0
      requires chained ==> pos > 0 && prevoff == DescOffset(k, pos - 1)
      modifies boardram, `csr0
      ensures Valid() && csr0 == Set(old(csr0), if chained then RINT else MISS)
      ensures Board() == if chained then Rx.MarkError(k, old(Board()), pos) else old(Board())
    {
      hide Set, PutWord, GetWord;
      if chained {
        WholeTurn(rlen, pos - 1);
        var w := GetRamWord(prevoff + 2);
        PutRamWord(prevoff + 2, Set(Set(Set(w, ERR), BUFF), OFLO));
        csr0 := Set(csr0, RINT);
      } else {
        csr0 := Set(csr0, MISS);
      }
    }

    /** gotfunc2 from its loop on: place the frame in the ring's buffers. */
    method ReceiveFrame(data: seq<Byte>)
      requires Valid() && rlen > 0 && 0 < |data| < 65536
      modifies boardram, `rdrOffset, `csr0
      ensures Valid()
      ensures match Rx.Deliver(RxRing(), old(Board()), old(rdrOffset), data, 0)
              case Delivered(ram, offset) => Board() == ram && rdrOffset == offset && csr0 == Set(old(csr0), RINT)
              case RanOut(ram, offset, chained) =>
                Board() == ram && rdrOffset == offset && csr0 == Set(old(csr0), if chained then RINT else MISS)
    {
      hide GetDesc, Has, Set, Rx.FillOne, Rx.Chunk, Rx.MarkError;
      ghost var k: Ring, pos: nat := RxRing(), rdrOffset;
      ghost var result := Rx.Deliver(k, Board(), rdrOffset, data, 0);
      var insize: nat, prevoff: nat := 0, 0;
      while true
        invariant Valid() && csr0 == old(csr0) && insize < |data|
        invariant rdrOffset % rlen == pos % rlen
        invariant insize > 0 ==> pos > 0 && prevoff == DescOffset(k, pos - 1)
        invariant result == Rx.Deliver(k, Board(), pos, data, insize)
        decreases |data| - insize
      {
        rdrOffset := rdrOffset % rlen;
        var off := rdra + rdrOffset * 8;
        var d := ReadDescriptor(k, pos, off);
        if !Has(d.d1, OWN) {
          BufferError(k, pos, prevoff, insize > 0);
          return;
        }
        rdrOffset := rdrOffset + 1;
        Rx.ChunkIsPositive(k, Board(), pos, data, insize);
        var n := FillBuffer(k, pos, off, d, data, insize);
        prevoff := off;
        insize := insize + n;
        if insize >= |data| {
          csr0 := Set(csr0, RINT);
          return;
        }
        DivisionIsUnique(rlen, 0, rdrOffset - 1);
        NextModulo(rlen, rdrOffset - 1, pos);
        pos := pos + 1;
      }
    }

    /** receive_space_available. */
    method ReceiveSpaceAvailable(o: Rx.Mode, len: int) returns (yes: bool)
      requires Valid()
      ensures yes == Rx.SpaceAvailable(RxRing(), o, Board(), rdrOffset, len)
    {
      hide GetDesc, Has;
      var needed := Rx.BufferNeed(o, len);
      if needed < 0 || !o.ready || !o.rxon || rlen == 0 { return false; }
      ghost var k := RxRing();
      var i := 0;
      while i < rlen
        invariant i <= rlen
        invariant Rx.Space(k, Board(), rdrOffset, Rx.BufferNeed(o, len), rlen) ==
                  Rx.Space(k, Board(), rdrOffset + i, needed, rlen - i)
      {
        var d := ReadDescriptor(k, rdrOffset + i, rdra + (rdrOffset + i) % rlen * 8);
        if !Has(d.d1, OWN) { return false; }
        needed := needed - (65536 - d.d2);
        if needed <= 0 { return true; }
        i := i + 1;
      }
      return false;
    }

    /** receive_packet_can_fit. */
    method ReceivePacketCanFit(o: Rx.Mode, len: int) returns (yes: bool)
      requires Valid()
      ensures yes == Rx.CanFit(RxRing(), o, Board(), rdrOffset, len)
    {
      hide GetDesc, Has;
      var needed := Rx.BufferNeed(o, len);
      if needed < 0 || !o.ready || rlen == 0 { return false; }
      ghost var k := RxRing();
      var i := 0;
      while i < rlen
        invariant i <= rlen
        invariant Rx.Fits(k, Board(), rdrOffset, Rx.BufferNeed(o, len), rlen) ==
                  Rx.Fits(k, Board(), rdrOffset + i, needed, rlen - i)
      {
        var d := ReadDescriptor(k, rdrOffset + i, rdra + (rdrOffset + i) % rlen * 8);
        needed := needed - (65536 - d.d2);
        if needed <= 0 { return true; }
        i := i + 1;
      }
      return false;
    }

    /** do_transmit's inner loop: bytes of a buffer, in wire order; `outside` where the next one would go behind the
        transmit buffer. */
    method CopyOut(ghost k: Ring, address: nat, n: nat, outsize0: nat) returns (outsize: nat, outside: bool)
      requires Valid() && k == TxRing() && outsize0 <= MAX_PACKET_SIZE
      modifies transmitbuffer
      ensures outside <==> outsize0 + n > MAX_PACKET_SIZE
      ensures !outside ==> outsize == outsize0 + n
      ensures !outside ==>
                transmitbuffer[..outsize] == old(transmitbuffer[..outsize0]) + Tx.ReadData(k, Board(), address, n)
      ensures !outside ==> transmitbuffer[outsize..] == old(transmitbuffer[..])[outsize..]
    {
      hide GetByte;
      outsize, outside := outsize0, false;
      var i: nat := 0;
      while i < n
        invariant i <= n && outsize == outsize0 + i <= MAX_PACKET_SIZE && !outside
        invariant transmitbuffer[..outsize] + Tx.ReadData(k, Board(), address + i, n - i) ==
                  old(transmitbuffer[..outsize0]) + Tx.ReadData(k, Board(), address, n)
        invariant transmitbuffer[outsize..] == old(transmitbuffer[..])[outsize..]
      {
        if outsize == MAX_PACKET_SIZE { return outsize, true; }
        ghost var head := transmitbuffer[..outsize];
        var b := GetRamByte(Flip(byteswap, address + i));
        ghost var rest := Tx.ReadData(k, Board(), address + i + 1, n - i - 1);
        assert head + ([b] + rest) == (head + [b]) + rest;
        transmitbuffer[outsize] := b;
        assert transmitbuffer[..outsize + 1] == head + [b];
        assert transmitbuffer[outsize + 1..] == old(transmitbuffer[..])[outsize + 1..];
        outsize := outsize + 1;
        i := i + 1;
      }
    }

    /** Zeros up to 60 bytes. */
    method PadOut(size0: nat, outsize0: nat) returns (outsize: nat, outside: bool)
      requires Valid() && size0 < 60 && outsize0 <= MAX_PACKET_SIZE
      modifies transmitbuffer
      ensures outside <==> outsize0 + (60 - size0) > MAX_PACKET_SIZE
      ensures !outside ==>
                outsize == outsize0 + (60 - size0) &&
                transmitbuffer[..outsize] == old(transmitbuffer[..outsize0]) + seq(60 - size0, _ => 0) &&
                transmitbuffer[outsize..] == old(transmitbuffer[..])[outsize..]
    {
      outsize, outside := outsize0, false;
      var size := size0;
      while size < 60
        invariant size0 <= size <= 60 && outsize == outsize0 + (size - size0) <= MAX_PACKET_SIZE && !outside
        invariant transmitbuffer[..outsize] == old(transmitbuffer[..outsize0]) + seq(size - size0, _ => 0)
        invariant transmitbuffer[outsize..] == old(transmitbuffer[..])[outsize..]
      {
        if outsize == MAX_PACKET_SIZE { return outsize, true; }
        ghost var head := transmitbuffer[..outsize];
        transmitbuffer[outsize] := 0;
        assert transmitbuffer[..outsize + 1] == head + [0];
        assert transmitbuffer[outsize + 1..] == old(transmitbuffer[..])[outsize + 1..];
        size := size + 1;
        outsize := outsize + 1;
      }
    }

    /** The loop's body for a descriptor of the chip's: take its buffer and give it back. */
    method TakeBuffer(ghost k: Ring, ghost pos: nat, off: nat, d: Desc, pad: bool, outsize0: nat)
      returns (outsize: nat, outside: bool, u: Desc)
      requires Valid() && k == TxRing() && RingOk(k) && off == DescOffset(k, pos) && d == GetDesc(k, Board(), pos)
      requires outsize0 <= MAX_PACKET_SIZE
      modifies boardram, transmitbuffer
      ensures Valid() && u == Desc(d.d0, Clear(d.d1, OWN), d.d2, d.d3)
      ensures var all := old(transmitbuffer[..outsize0]) + Tx.Fragment(k, old(Board()), d, pad);
              (outside <==> |all| > MAX_PACKET_SIZE) &&
              (!outside ==>
                outsize == |all| && transmitbuffer[..outsize] == all &&
                transmitbuffer[outsize..] == old(transmitbuffer[..])[outsize..] &&
                Board() == PutStatus(k, old(Board()), pos, u.d1, u.d3))
    {
      hide GetDesc, Clear, Has, PutWord, Tx.ReadData, PutStatus;
      var size := 65536 - d.d2;
      if size > MAX_PACKET_SIZE { size := MAX_PACKET_SIZE; }
      u := Desc(d.d0, Clear(d.d1, OWN), d.d2, d.d3);
      ghost var before, bytes := transmitbuffer[..outsize0], Tx.ReadData(k, Board(), BufferAddress(d), size);
      outsize, outside := CopyOut(k, BufferAddress(d), size, outsize0);
      if outside { return; }
      if size < 60 && pad {
        outsize, outside := PadOut(size, outsize);
        if outside { return; }
        assert (before + bytes) + seq(60 - size, _ => 0) == before + (bytes + seq(60 - size, _ => 0));
      }
      GiveBack(k, pos, off, u);
    }

    /** Write a descriptor's two status words. */
    method GiveBack(ghost k: Ring, ghost pos: nat, off: nat, u: Desc)
      requires Valid() && k.len > 0 && k.am79 == am79 && off == DescOffset(k, pos)
      modifies boardram
      ensures Valid() && Board() == PutStatus(k, old(Board()), pos, u.d1, u.d3)
    {
      hide PutWord;
      PutRamWord(off + 2, u.d1);
      PutRamWord(off + 6, u.d3);
    }

    /** do_transmit's loop: gather the chain that starts at the ring's current position. */
    method CollectChain(ghost k: Ring, pad: bool)
      returns (outsize: nat, outside: bool, err: bool, last: Desc, off: nat, found: bool, ghost pos: nat)
      requires Valid() && k == TxRing() && RingOk(k)
      modifies boardram, transmitbuffer, `tdrOffset
      ensures Valid() && outsize <= MAX_PACKET_SIZE
      ensures outside == Tx.Gather(k, pad, old(Board()), old(tdrOffset), []).Outside?
      ensures !outside ==>
                var c := Tx.Gather(k, pad, old(Board()), old(tdrOffset), []).chain;
                c == Tx.Chain(Board(), pos, transmitbuffer[..outsize], err, last, c.visits) &&
                (!err ==> pos > 0) && off == DescOffset(k, if err then pos else pos - 1) &&
                (found <==> c.visits > 1 || !err) &&
                tdrOffset == (if err then pos % k.len else (pos - 1) % k.len + 1) &&
                transmitbuffer[outsize..] == old(transmitbuffer[..])[outsize..]
    {
      hide GetDesc, DescOffset, PutStatus, Has, Set, Clear, PutWord, Tx.Fragment, Tx.Gather, Tx.OwnedCount;
      outsize, outside, err, found, pos := 0, false, false, false, tdrOffset;
      ghost var g := Tx.Gather(k, pad, Board(), tdrOffset, []);
      ghost var done: nat := 0;
      assert transmitbuffer[..0] == [];
      while true
        invariant Valid() && !err && !outside && tdrOffset % tlen == pos % tlen && (found <==> done > 0)
        invariant outsize <= MAX_PACKET_SIZE && transmitbuffer[outsize..] == old(transmitbuffer[..])[outsize..]
        invariant g == Tx.Visited(Tx.Gather(k, pad, Board(), pos, transmitbuffer[..outsize]), done)
        decreases Tx.OwnedCount(k, Board(), tlen)
      {
        tdrOffset := tdrOffset % tlen;
        off := tdra + tdrOffset * 8;
        assert off == DescOffset(k, pos) by { SameOffset(k, tdrOffset, pos); }
        var d := ReadDescriptor(k, pos, off);
        Tx.GatherTurn(k, pad, Board(), pos, transmitbuffer[..outsize]);
        if !Has(d.d1, OWN) {
          last := Desc(d.d0, Set(d.d1, ERR), d.d2, Set(Set(d.d3, 0x8000), 0x4000));
          GiveBack(k, pos, off, last);
          err := true;
          return;
        }
        Tx.ClearedBit(d.d1);
        ghost var taken, before := outsize, transmitbuffer[..];
        outsize, outside, last := TakeBuffer(k, pos, off, d, pad, outsize);
        if outside { return 0, outside, err, last, off, found, pos; }
        SameTail(old(transmitbuffer[..]), before, transmitbuffer[..], taken, outsize);
        DivisionIsUnique(tlen, 0, tdrOffset);
        NextModulo(tlen, tdrOffset, pos);
        tdrOffset := tdrOffset + 1;
        found := true;
        pos := pos + 1;
        done := done + 1;
        if Has(last.d1, ENP) { return; }
      }
    }

    /** do_transmit; `outside` where it would touch a byte behind the transmit buffer. */
    method DoTransmit(o: Tx.Options, macs: M.Macs) returns (sent: Tx.Outcome, outside: bool)
      requires Valid() && (tlen > 0 ==> RingOk(TxRing()))
      modifies boardram, transmitbuffer, `tdrOffset, `csr0
      ensures Valid()
      ensures Tx.Transmit(TxRing(), o, macs, old(transmitbuffer[..]), old(Board()), old(tdrOffset), old(csr0)) ==
              if outside then Tx.OutsideBuffer else Tx.After(Board(), tdrOffset, csr0, sent)
    {
      hide GetDesc, Has, Set, Clear, PutStatus, M.Munge, M.StaysInside, Tx.Gather;
      sent, outside := Tx.Skipped, false;
      if tlen == 0 { return; }
      ghost var k: Ring, pos: nat, stale := TxRing(), tdrOffset, transmitbuffer[..];
      var d := ReadDescriptor(k, tdrOffset, tdra + tdrOffset % tlen * 8);
      if !Has(d.d1, OWN) || !Has(d.d1, STP) {
        tdrOffset := tdrOffset % tlen;
        if !am79 || !o.noPoll { tdrOffset := tdrOffset + 1; }
        return;
      }
      var outsize, err, last, off, found;
      outsize, outside, err, last, off, found, pos := CollectChain(k, o.pad);
      if outside { return; }
      if err {
        csr0 := Clear(Clear(csr0, Tx.TXON), Tx.TDMD);
        sent := Tx.Failed;
      } else if outsize < 60 {
        GiveBack(k, pos - 1, off, Desc(last.d0, Set(last.d1, ERR), last.d2, Set(Set(last.d3, 0x8000), 0x4000)));
        csr0 := Clear(csr0, Tx.TXON);
        sent := Tx.Failed;
      } else {
        assert transmitbuffer[..] == Tx.Filled(transmitbuffer[..outsize], stale) by {
          assert transmitbuffer[..] == transmitbuffer[..outsize] + transmitbuffer[outsize..];
        }
        if o.hostFcs && !Has(d.d1, Tx.ADD_FCS) { outsize := outsize - 4; }
        outside := MungePacket(macs, transmitbuffer, outsize);
        if outside { return; }
        sent := Tx.Sent(transmitbuffer[..outsize]);
      }
      csr0 := Set(csr0, Tx.TINT);
    }

    /** gotfunc2: filter the frame, exchange addresses, append the check sequence and place it in the ring.  `stale` is
        what its packet buffer holds behind the frame; `outside` where the exchange would leave that buffer. */
    method GotFrame(o: Rx.Mode, filter: Filter, frame: seq<Byte>, stale: seq<Byte>, crc: seq<Byte> -> seq<Byte>)
      returns (outside: bool)
      requires Valid() && rlen > 0 && |frame| + |stale| == MAX_PACKET_SIZE
      requires forall d :: |crc(d)| == 4
      modifies boardram, `rdrOffset, `csr0
      ensures Valid()
      ensures outside <==> Kept(o, filter, frame) && !M.StaysInside(filter.macs, frame + stale)
      ensures outside || !Taken(o, filter, frame) ==>
                Board() == old(Board()) && rdrOffset == old(rdrOffset) && csr0 == old(csr0)
      ensures !outside && Taken(o, filter, frame) ==>
                match Rx.Deliver(RxRing(), old(Board()), old(rdrOffset), OnTheBoard(o, filter, frame, stale, crc), 0)
                case Delivered(ram, offset) => Board() == ram && rdrOffset == offset && csr0 == Set(old(csr0), RINT)
                case RanOut(ram, offset, chained) =>
                  Board() == ram && rdrOffset == offset && csr0 == Set(old(csr0), if chained then RINT else MISS)
    {
      hide Rx.Deliver, M.Munge, M.StaysInside;
      outside := false;
      if !o.rxon || |frame| < 20 { return; }
      var dst, src := frame[..6], frame[6..12];
      var group := dst[0] % 2 == 1;
      if group && dst != BROADCAST {
        if !filter.groups { return; }
      } else if !filter.prom && dst != filter.macs.host && dst != BROADCAST {
        return;
      }
      if dst == filter.macs.host && src == filter.macs.host { return; }
      if dst == BROADCAST && src == filter.macs.host { return; }
      if group && src == filter.macs.host { return; }
      var b := frame + stale;
      var tmp := new Byte[MAX_PACKET_SIZE](i requires 0 <= i < MAX_PACKET_SIZE => b[i]);
      assert tmp[..] == b;
      outside := MungePacket(filter.macs, tmp, |frame|);
      if outside { return; }
      var d := tmp[..|frame|];
      if !o.strip {
        if |frame| > MAX_PACKET_SIZE - 4 { return; }
        d := d + crc(d);
      }
      ReceiveFrame(d);
    }
  }

  const BROADCAST: M.Mac := [255, 255, 255, 255, 255, 255]

  /** Promiscuous mode; whether the group address filter lets anything through; the two addresses. */
  datatype Filter = Filter(prom: bool, groups: bool, macs: M.Macs)

  /** The frames gotfunc2 keeps: for this card or a group it listens to, not sent by itself. */
  predicate Accepts(f: Filter, frame: seq<Byte>)
    requires |frame| >= 12
  {
    var dst, src := frame[..6], frame[6..12];
    var toGroup := dst[0] % 2 == 1;
    (if toGroup && dst != BROADCAST then f.groups else f.prom || dst == f.macs.host || dst == BROADCAST) &&
    !(src == f.macs.host && (dst == f.macs.host || toGroup))
  }

  /** The frames that get as far as the address exchange. */
  predicate Kept(o: Rx.Mode, f: Filter, frame: seq<Byte>) { o.rxon && |frame| >= 20 && Accepts(f, frame) }

  /** The frames that get as far as the ring. */
  predicate Taken(o: Rx.Mode, f: Filter, frame: seq<Byte>) {
    Kept(o, f, frame) && (o.strip || |frame| <= MAX_PACKET_SIZE - 4)
  }

  /** Frames to this card's host are kept, broadcasts too, frames to other stations in promiscuous mode, and frames to
      other groups as the filter says; but of the host's own frames only those that it sends to another station. */
  lemma KeptFrames(o: Rx.Mode, f: Filter, frame: seq<Byte>)
    requires o.rxon && |frame| >= 20
    ensures var dst, src := frame[..6], frame[6..12];
            Kept(o, f, frame) <==>
            if dst == [255, 255, 255, 255, 255, 255] then src != f.macs.host
            else if dst[0] % 2 == 1 then f.groups && src != f.macs.host
            else if dst == f.macs.host then src != f.macs.host
            else f.prom
  {
  }

  /** Bit 10 of the status tells of a received frame, bit 12 of a missed one. */
  lemma Interrupts(csr0: Half)
    ensures Set(csr0, RINT) == csr0 + if csr0 / 1024 % 2 == 0 then 1024 else 0
    ensures Set(csr0, MISS) == csr0 + if csr0 / 4096 % 2 == 0 then 4096 else 0
  {
  }

  /** What is placed in the ring; `stale` lies behind the frame in the packet buffer. */
  function OnTheBoard(o: Rx.Mode, f: Filter, frame: seq<Byte>, stale: seq<Byte>, crc: seq<Byte> -> seq<Byte>)
    : seq<Byte>
  {
    var d := M.Munge(f.macs, frame + stale)[..|frame|];
    if o.strip then d else d + crc(d)
  }

  /** For a frame that holds what it claims, that is the frame with its addresses exchanged, whatever its packet buffer
      holds behind it; and the exchange stays in the buffer unless the frame fills it. */
  lemma OnTheBoardIsMunged(o: Rx.Mode, f: Filter, frame: seq<Byte>, stale: seq<Byte>, crc: seq<Byte> -> seq<Byte>)
    requires Addresses.Sound(frame)
    ensures var d := OnTheBoard(o, f, frame, stale, crc);
            |d| >= |frame| && Addresses.AddressesExchanged(f.macs, frame, d[..|frame|]) &&
            d[|frame|..] == if o.strip then [] else crc(d[..|frame|])
    ensures stale != [] ==> M.StaysInside(f.macs, frame + stale)
  {
    hide M.Munge, M.StaysInside, M.HoldsHeaders, M.WellFormed, Addresses.Sound, Addresses.AddressesExchanged;
    Addresses.SoundIs(frame);
    Addresses.MungeExchanges(f.macs, frame);
    M.StaleIsIrrelevant(f.macs, frame, stale);
    assert OnTheBoard(o, f, frame, stale, crc)[..|frame|] == M.Munge(f.macs, frame);
    if stale != [] { M.WellFormedStaysInside(f.macs, frame, stale); }
  }

  /** What the look-ahead guard promises for a frame that is kept and whose exchange stays in the packet buffer. */
  lemma GuardedFrameArrives(k: Ring, o: Rx.Mode, f: Filter, ram: Ram, pos: nat, frame: seq<Byte>, stale: seq<Byte>,
                            crc: seq<Byte> -> seq<Byte>)
    requires RingOk(k) && Rx.SpaceAvailable(k, o, ram, pos, |frame|) && Taken(o, f, frame)
    requires |frame| + |stale| == MAX_PACKET_SIZE && M.StaysInside(f.macs, frame + stale)
    requires |crc(M.Munge(f.macs, frame + stale)[..|frame|])| == 4
    requires var n := |OnTheBoard(o, f, frame, stale, crc)|;
             Rx.Apart(k, Rx.Scatter(k, ram, pos, n), pos, Rx.Run(k, ram, pos, n))
    ensures var data := OnTheBoard(o, f, frame, stale, crc);
            |data| < 65536 && Rx.Run(k, ram, pos, |data|) <= k.len &&
            Rx.Success(k, ram, pos, data, 0, Rx.Deliver(k, ram, pos, data, 0))
  {
    hide Rx.Deliver, M.Munge, M.StaysInside, Rx.Success, Rx.Apart, Rx.Scatter, Rx.Run, Rx.SpaceAvailable;
    Rx.GuardMeansDelivery(k, o, ram, pos, |frame|, OnTheBoard(o, f, frame, stale, crc));
  }

  // ----- mungepacket -----

  /** dofakemac. */
  method DoFakeMac(m: M.Macs, p: array<Byte>, off: nat) returns (hit: bool)
    requires off + 6 <= p.Length
    modifies p
    ensures p[..] == M.ExchangeAt(m, old(p[..]), off)
    ensures hit == M.Exchanged(m, M.MacAt(old(p[..]), off))
  {
    hit := false;
    var x := p[off..off + 6];
    assert x == M.MacAt(p[..], off);
    if m.fake == m.host { assert M.PutMac(p[..], off, x) == p[..]; return true; }
    if x == m.fake {
      CopyMac(p, off, m.host);
      return true;
    }
    if x == m.host {
      CopyMac(p, off, m.fake);
      return true;
    }
    assert M.PutMac(p[..], off, x) == p[..];
  }

  method CopyMac(p: array<Byte>, off: nat, x: M.Mac)
    requires off + 6 <= p.Length
    modifies p
    ensures p[..] == M.PutMac(old(p[..]), off, x)
  {
    p[off], p[off + 1], p[off + 2], p[off + 3], p[off + 4], p[off + 5] := x[0], x[1], x[2], x[3], x[4], x[5];
  }

  /** A big-endian word of the buffer. */
  function WordOf(p: array<Byte>, i: nat): (w: nat)
    requires i + 1 < p.Length
    reads p
    ensures w == M.WordAt(p[..], i)
  {
    p[i] as int * 256 + p[i + 1]
  }

  /** Sum the words of a region, as the program's loop does. */
  method SumWords(p: array<Byte>, start: nat, count: nat) returns (sum: nat)
    requires start + count < p.Length
    ensures sum == M.WordSum(p[..], start, start + (count + 1) / 2 * 2)
  {
    sum := 0;
    var i := 0;
    while i < (count + 1) / 2 * 2
      invariant i % 2 == 0 && i <= (count + 1) / 2 * 2
      invariant M.WordSum(p[..], start, start + (count + 1) / 2 * 2) ==
                sum + M.WordSum(p[..], start + i, start + (count + 1) / 2 * 2)
    {
      sum := sum + WordOf(p, start + i);
      i := i + 2;
    }
  }

  /** The repair; `outside` if the byte after the datagram, which it clears, lies behind the buffer. */
  method FixUdpChecksum(p: array<Byte>, u: nat) returns (outside: bool)
    requires u + 8 <= p.Length && 34 <= p.Length
    modifies p
    ensures outside <==> u + M.WordAt(old(p[..]), u + 4) >= p.Length
    ensures !outside ==> p[..] == M.FixChecksum(old(p[..]), u)
  {
    hide M.At, M.WordAt, M.WordSum, M.Fold;
    var len2 := WordOf(p, u + 4);
    outside := u + len2 >= p.Length;
    p[u + 6] := 0;
    p[u + 7] := 0;
    if outside { return; }
    p[u + len2] := 0;
    assert p[..] == M.Blanked(old(p[..]), u);
    var sum := SumWords(p, u, len2);
    sum := sum + WordOf(p, 26) + WordOf(p, 28) + WordOf(p, 30) + WordOf(p, 32) + 17 + len2;
    assert sum == M.UdpSum(p[..], u, len2);
    sum := FoldSum(sum);
    p[u + 6] := (65535 - sum) / 256;
    p[u + 7] := (65535 - sum) % 256;
  }

  method FoldSum(sum0: nat) returns (sum: nat)
    ensures sum == M.Fold(sum0)
  {
    sum := sum0;
    while sum / 65536 != 0
      invariant M.Fold(sum) == M.Fold(sum0)
      decreases sum
    {
      sum := sum % 65536 + sum / 65536;
    }
  }

  /** The type of the frame in the buffer, and where its datagram starts. */
  method ReadKind(p: array<Byte>) returns (kind: M.Kind)
    requires p.Length == MAX_PACKET_SIZE
    ensures kind == M.KindOf(p[..])
    ensures kind.Dhcp? ==> 14 <= kind.u <= 74
  {
    var etype := WordOf(p, 12);
    if etype == 0x0806 {
      return if WordOf(p, 14) == 1 && p[18] == 6 then M.Arp else M.Other;
    }
    if etype != 0x0800 { return M.Other; }
    var u := 14 + p[14] as int % 16 * 4;
    if p[23] != 17 { return M.Other; }
    var sp, dp := WordOf(p, u), WordOf(p, u + 2);
    return if sp == 67 || sp == 68 || dp == 67 || dp == 68 then M.Dhcp(u) else M.Other;
  }

  /** mungepacket, on a packet buffer that holds a frame of `len` bytes. */
  method MungePacket(m: M.Macs, p: array<Byte>, len: nat) returns (outside: bool)
    requires p.Length == MAX_PACKET_SIZE
    modifies p
    ensures outside <==> len >= 20 && !M.StaysInside(m, old(p[..]))
    ensures !outside ==> p[..] == if len < 20 then old(p[..]) else M.Munge(m, old(p[..]))
  {
    hide M.ExchangeAt, M.FixChecksum, M.KindOf, M.Exchanged, M.WordAt;
    outside := false;
    if len < 20 || m.fake == m.host { return; }
    ghost var p0 := p[..];
    var kind := ReadKind(p);
    var dst := DoFakeMac(m, p, 0);
    var src := DoFakeMac(m, p, 6);
    match kind {
      case Arp =>
        var sender := DoFakeMac(m, p, 22);
        var target := DoFakeMac(m, p, 32);
        AllPlaces(m, p0, [22, 32]);
        assert [0, 6] + [22, 32] == M.Places(M.Arp);
      case Dhcp(u) =>
        var client := DoFakeMac(m, p, u + 36);
        AllPlaces(m, p0, [u + 36]);
        assert [0, 6] + [u + 36] == M.Places(M.Dhcp(u));
        FixIsDecided(m, p0, u);
        if client && (p[u + 6] != 0 || p[u + 7] != 0) { outside := FixUdpChecksum(p, u); }
      case Other =>
        AllPlaces(m, p0, []);
        assert [0, 6] + [] == M.Places(M.Other);
    }
  }

  lemma AllPlaces(m: M.Macs, p: seq<Byte>, rest: seq<nat>)
    requires |rest| <= 2
    ensures var p2 := M.ExchangeAt(m, M.ExchangeAt(m, p, 0), 6);
            M.ExchangeAll(m, p, [0, 6] + rest) ==
            if |rest| == 0 then p2
            else if |rest| == 1 then M.ExchangeAt(m, p2, rest[0])
            else M.ExchangeAt(m, M.ExchangeAt(m, p2, rest[0]), rest[1])
  {
    hide M.ExchangeAt;
    var p1 := M.ExchangeAt(m, p, 0);
    var p2 := M.ExchangeAt(m, p1, 6);
    assert ([0, 6] + rest)[1..] == [6] + rest && ([6] + rest)[1..] == rest;
    assert M.ExchangeAll(m, p, [0, 6] + rest) == M.ExchangeAll(m, p2, rest);
    if |rest| == 1 {
      assert rest[1..] == [];
      assert M.ExchangeAll(m, M.ExchangeAt(m, p2, rest[0]), []) == M.ExchangeAt(m, p2, rest[0]);
    } else if |rest| == 2 {
      assert rest[1..] == [rest[1]] && rest[1..][1..] == [];
      var p3 := M.ExchangeAt(m, p2, rest[0]);
      assert M.ExchangeAll(m, p3, [rest[1]]) == M.ExchangeAll(m, M.ExchangeAt(m, p3, rest[1]), []);
    }
  }

  /** The exchanges in the Ethernet header and in the datagram's body leave the bytes that decide about the repair. */
  lemma FixIsDecided(m: M.Macs, p: seq<Byte>, u: nat)
    requires u >= 14
    ensures var p2 := M.ExchangeAt(m, M.ExchangeAt(m, p, 0), 6);
            var p3 := M.ExchangeAt(m, p2, u + 36);
            (M.Inside(p2, u + 36) <==> M.Inside(p, u + 36)) &&
            (M.Inside(p, u + 36) ==> M.MacAt(p2, u + 36) == M.MacAt(p, u + 36)) &&
            M.At(p3, u + 6) == M.At(p, u + 6) && M.At(p3, u + 7) == M.At(p, u + 7) &&
            M.WordAt(p3, u + 4) == M.WordAt(p, u + 4)
  {
  }
}
