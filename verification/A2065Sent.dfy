/**
 What a transmit attempt reads and leaves, byte by byte (a2065.cpp:684-789): which bytes of the RAM a chain is gathered
 from, which bytes of its descriptors change, and which flags the chip raises.
 */
module A2065Sent {
  import opened Numbers
  import opened A2065Ram
  import opened A2065Wire
  import Rx = A2065Receive
  import Tx = A2065Transmit
  import Munge = A2065Munge

  /** Of a buffer at most 4000 bytes are read; with automatic padding, it counts for at least 60. */
  function Read(k: Ring, ram: Ram, pos: nat): nat
    requires k.len > 0
  {
    if Size(k, ram, pos) > 4000 then 4000 else Size(k, ram, pos)
  }

  function Held(k: Ring, ram: Ram, pad: bool, pos: nat): nat
    requires k.len > 0
  {
    if pad && Read(k, ram, pos) < 60 then 60 else Read(k, ram, pos)
  }

  function Total(k: Ring, ram: Ram, pad: bool, pos: nat, n: nat): nat
    requires k.len > 0
  {
    if n == 0 then 0 else Total(k, ram, pad, pos, n - 1) + Held(k, ram, pad, pos + n - 1)
  }

  /** `n` different descriptors of the chip's, of which the last alone ends a frame, and none lies in a buffer. */
  predicate Whole(k: Ring, ram: Ram, pos: nat, n: nat) {
    RingOk(k) && n > 0 && OwnAll(k, ram, pos, n) && EndsAt(k, ram, pos, n, pos + n - 1) && Rx.Distinct(k, pos, n) &&
    Tx.BuffersClear(k, ram, pos, n, pos, n)
  }

  predicate EndsAt(k: Ring, ram: Ram, pos: nat, n: nat, last: nat)
    requires k.len > 0
  {
    forall p: nat :: pos <= p < pos + n ==> (Ends(k, ram, p) <==> p == last)
  }

  lemma {:induction false} CompleteIs(k: Ring, ram: Ram, pos: nat, n: nat)
    requires k.len > 0 && n > 0 && OwnAll(k, ram, pos, n) && EndsAt(k, ram, pos, n, pos + n - 1)
    ensures Tx.Complete(k, ram, pos, n)
    decreases n
  {
    hide GetDesc, Own, Ends, Has;
    assert Own(k, ram, pos) && (Ends(k, ram, pos) <==> n == 1);
    DescriptorIs(k, ram, pos);
    if n > 1 { CompleteIs(k, ram, pos + 1, n - 1); }
  }

  // ----- the bytes of a chain -----

  lemma {:induction false} TotalFromFront(k: Ring, ram: Ram, pad: bool, pos: nat, n: nat)
    requires k.len > 0
    ensures Total(k, ram, pad, pos, n + 1) == Held(k, ram, pad, pos) + Total(k, ram, pad, pos + 1, n)
  {
    hide Held;
    if n > 0 { TotalFromFront(k, ram, pad, pos, n - 1); } else { assert Total(k, ram, pad, pos, 0) == 0; }
  }

  lemma {:induction false} ReadDataAt(k: Ring, ram: Ram, address: nat, n: nat, i: nat)
    requires i < n
    ensures Tx.ReadData(k, ram, address, n)[i] == Seen(k.am79, ram, Flip(k.swap, address + i))
    decreases n
  {
    if i > 0 { ReadDataAt(k, ram, address + 1, n - 1, i - 1); }
  }

  lemma FragmentIs(k: Ring, ram: Ram, pad: bool, pos: nat, i: nat)
    requires k.len > 0
    ensures var f := Tx.Fragment(k, ram, GetDesc(k, ram, pos), pad);
            |f| == Held(k, ram, pad, pos) &&
            (i < |f| ==>
              f[i] ==
              if i < Read(k, ram, pos) then Seen(k.am79, ram, Flip(k.swap, Start(k, ram, pos) + i)) else 0)
  {
    hide GetDesc, Start, Size, BufferSize, BufferAddress, Seen, Flip;
    DescriptorIs(k, ram, pos);
    if i < Read(k, ram, pos) { ReadDataAt(k, ram, Start(k, ram, pos), Read(k, ram, pos), i); }
  }

  lemma {:induction false} FragmentsAt(k: Ring, ram: Ram, pad: bool, pos: nat, n: nat, p: nat, i: nat)
    requires k.len > 0 && pos <= p < pos + n && i < Held(k, ram, pad, p)
    ensures var all := Tx.Fragments(k, ram, pad, pos, n);
            |all| == Total(k, ram, pad, pos, n) && Total(k, ram, pad, pos, p - pos) + i < |all| &&
            all[Total(k, ram, pad, pos, p - pos) + i] ==
            if i < Read(k, ram, p) then Seen(k.am79, ram, Flip(k.swap, Start(k, ram, p) + i)) else 0
    decreases n
  {
    hide GetDesc, Start, Size, Seen, Flip, Held, Read, Tx.Fragment;
    FragmentIs(k, ram, pad, pos, i);
    TotalFromFront(k, ram, pad, pos, n - 1);
    if p == pos {
      FragmentsLength(k, ram, pad, pos + 1, n - 1);
      assert Total(k, ram, pad, pos, 0) == 0;
    } else {
      TotalFromFront(k, ram, pad, pos, p - pos - 1);
      FragmentsAt(k, ram, pad, pos + 1, n - 1, p, i);
    }
  }

  lemma {:induction false} FragmentsLength(k: Ring, ram: Ram, pad: bool, pos: nat, n: nat)
    requires k.len > 0
    ensures |Tx.Fragments(k, ram, pad, pos, n)| == Total(k, ram, pad, pos, n)
    decreases n
  {
    hide GetDesc, Held, Tx.Fragment;
    if n > 0 {
      FragmentIs(k, ram, pad, pos, 0);
      TotalFromFront(k, ram, pad, pos, n - 1);
      FragmentsLength(k, ram, pad, pos + 1, n - 1);
    }
  }

  /** A chain that fits the transmit buffer is gathered buffer by buffer: byte `i` of each from the next address of the
      RAM, with the byte swap from the other byte of that word, and zeros for padding.  One that does not fit runs over
      the buffer. */
  lemma GatheredByte(k: Ring, pad: bool, ram: Ram, pos: nat, n: nat, p: nat, i: nat)
    requires Whole(k, ram, pos, n) && pos <= p < pos + n && i < Held(k, ram, pad, p)
    ensures Tx.Gather(k, pad, ram, pos, []).Outside? <==> Total(k, ram, pad, pos, n) > 4000
    ensures var g := Tx.Gather(k, pad, ram, pos, []);
            g.Inside? ==>
              var a, t := Start(k, ram, p) + i, Total(k, ram, pad, pos, p - pos) + i;
              !g.chain.broken && g.chain.next == pos + n && |g.chain.out| == Total(k, ram, pad, pos, n) &&
                t < |g.chain.out| &&
              (i >= Read(k, ram, p) ==> g.chain.out[t] == 0) &&
              (i < Read(k, ram, p) && k.swap == 0 ==> g.chain.out[t] == Seen(k.am79, ram, a)) &&
              (i < Read(k, ram, p) && k.swap == 1 && a % 2 == 0 ==> g.chain.out[t] == Seen(k.am79, ram, a + 1)) &&
              (i < Read(k, ram, p) && k.swap == 1 && a % 2 == 1 ==> g.chain.out[t] == Seen(k.am79, ram, a - 1))
  {
    hide GetDesc, Tx.Gather, Tx.Fragments, Tx.Complete, Tx.BuffersClear, Rx.Distinct, Start, Size, Seen, Total, Read,
         Held,
         Tx.Returned, Rx.Untouched, OwnAll, EndsAt;
    CompleteIs(k, ram, pos, n);
    Tx.CompleteChainIsGathered(k, pad, ram, pos, n);
    FragmentsAt(k, ram, pad, pos, n, p, i);
    var all := Tx.Fragments(k, ram, pad, pos, n);
    assert [] + all == all;
  }

  // ----- the descriptors of a chain -----

  lemma {:induction false} ReturnedAt(k: Ring, ram: Ram, r: Ram, pos: nat, n: nat, p: nat)
    requires k.len > 0 && pos <= p < pos + n && Tx.Returned(k, ram, r, pos, n)
    ensures var d := GetDesc(k, ram, p); GetDesc(k, r, p) == Desc(d.d0, Clear(d.d1, OWN), d.d2, d.d3)
    decreases n
  {
    hide GetDesc, Clear;
    if p > pos { ReturnedAt(k, ram, r, pos + 1, n - 1, p); }
  }

  /** One that was the chip's is the host's again, and otherwise as it was. */
  lemma ReturnedBytes(k: Ring, ram: Ram, r: Ram, p: nat, b: nat)
    requires k.len > 0 && b < 8 && Own(k, ram, p)
    requires var d := GetDesc(k, ram, p); GetDesc(k, r, p) == Desc(d.d0, Clear(d.d1, OWN), d.d2, d.d3)
    ensures Seen(k.am79, r, At(k, p) + b) == Seen(k.am79, ram, At(k, p) + b) - if b == 2 then 128 else 0
  {
    hide GetDesc, Clear, Seen, At;
    SeenIs(k, ram, p, b);
    SeenIs(k, r, p, b);
    SeenIs(k, ram, p, 2);
    SeenIs(k, ram, p, 3);
    var hi, lo := Seen(k.am79, ram, At(k, p) + 2), Seen(k.am79, ram, At(k, p) + 3);
    FreedBits(hi, lo);
    WordParts(hi - 128, lo);
  }

  lemma SentStatus(k: Ring, pad: bool, ram: Ram, pos: nat, n: nat, p: nat, b: nat)
    requires Whole(k, ram, pos, n) && Total(k, ram, pad, pos, n) <= 4000 && pos <= p < pos + n && b < 8
    ensures var g := Tx.Gather(k, pad, ram, pos, []);
            g.Inside? &&
            Seen(k.am79, g.chain.ram, At(k, p) + b) == Seen(k.am79, ram, At(k, p) + b) - if b == 2 then 128 else 0
  {
    hide GetDesc, Tx.Gather, Tx.Fragments, Tx.Complete, Tx.BuffersClear, Rx.Distinct, Total, Own,
         Tx.Returned, Rx.Untouched, EndsAt, Clear, Seen, At;
    CompleteIs(k, ram, pos, n);
    Tx.CompleteChainIsGathered(k, pad, ram, pos, n);
    FragmentsLength(k, ram, pad, pos, n);
    var r := Tx.Gather(k, pad, ram, pos, []).chain.ram;
    ReturnedAt(k, ram, r, pos, n, p);
    ReturnedBytes(k, ram, r, p, b);
  }

  // ----- a chain that meets a descriptor of the host's -----

  /** `m` different descriptors of the chip's, none of which ends the frame, and then one of the host's. */
  predicate Cut(k: Ring, ram: Ram, pos: nat, m: nat) {
    RingOk(k) && OwnAll(k, ram, pos, m) && EndsAt(k, ram, pos, m, pos + m) && !Own(k, ram, pos + m) &&
    Rx.Distinct(k, pos, m + 1)
  }

  function Underflow(d: Desc): Desc { Desc(d.d0, Set(d.d1, ERR), d.d2, Set(Set(d.d3, 0x8000), 0x4000)) }

  lemma {:induction false} CutIsBroken(k: Ring, pad: bool, ram: Ram, pos: nat, out: seq<Byte>, m: nat)
    requires Cut(k, ram, pos, m)
    ensures var c := Tx.Collect(k, pad, ram, pos, out);
            c.broken && c.next == pos + m && |c.out| == |out| + Total(k, ram, pad, pos, m) &&
            (Reached(k, pos + m) ==> GetDesc(k, c.ram, pos + m) == Underflow(GetDesc(k, ram, pos + m)))
    decreases m
  {
    hide GetDesc, PutStatus, Place, PlaceOf, Reached, Tx.Fragment, Has, Clear, Set, Tx.OwnedCount, Own, Ends, Held,
         Total;
    DescriptorIs(k, ram, pos);
    var d := GetDesc(k, ram, pos);
    if m == 0 {
      TotalOfNothing(k, ram, pad, pos);
      PutStatusEffect(k, ram, pos, Underflow(d).d1, Underflow(d).d3);
    } else {
      assert Own(k, ram, pos) && !Ends(k, ram, pos);
      Tx.ClearedBit(d.d1);
      var r := PutStatus(k, ram, pos, Clear(d.d1, OWN), d.d3);
      CutNext(k, ram, r, pad, pos, m) by { PutStatusEffect(k, ram, pos, Clear(d.d1, OWN), d.d3); }
      FragmentIs(k, ram, pad, pos, 0);
      TotalFromFront(k, ram, pad, pos, m - 1);
      CutIsBroken(k, pad, r, pos + 1, out + Tx.Fragment(k, ram, d, pad), m - 1);
    }
  }

  lemma TotalOfNothing(k: Ring, ram: Ram, pad: bool, pos: nat)
    requires k.len > 0
    ensures Total(k, ram, pad, pos, 0) == 0
  {
  }

  lemma CutNext(k: Ring, ram: Ram, r: Ram, pad: bool, pos: nat, m: nat)
    requires m > 0 && Cut(k, ram, pos, m)
    requires forall c: nat :: c < RAM_SIZE && PlaceOf(k, c) != Place(k, pos) ==> r[c] == ram[c]
    ensures Cut(k, r, pos + 1, m - 1) && GetDesc(k, r, pos + m) == GetDesc(k, ram, pos + m)
    ensures Total(k, r, pad, pos + 1, m - 1) == Total(k, ram, pad, pos + 1, m - 1)
  {
    hide GetDesc, Place, PlaceOf, Own, Ends, Size, Has;
    forall p: nat | pos < p <= pos + m
      ensures GetDesc(k, r, p) == GetDesc(k, ram, p) && Own(k, r, p) == Own(k, ram, p)
      ensures Ends(k, r, p) == Ends(k, ram, p) && Size(k, r, p) == Size(k, ram, p)
    {
      Rx.ElsewhereEach(k, Place(k, pos), pos + 1, m, p);
      SameDescriptor(k, r, ram, p);
      DescriptorIs(k, r, p);
      DescriptorIs(k, ram, p);
    }
    SameTotal(k, ram, r, pad, pos + 1, m - 1);
  }

  lemma {:induction false} SameTotal(k: Ring, ram: Ram, r: Ram, pad: bool, pos: nat, n: nat)
    requires k.len > 0 && forall p: nat :: pos <= p < pos + n ==> Size(k, r, p) == Size(k, ram, p)
    ensures Total(k, r, pad, pos, n) == Total(k, ram, pad, pos, n)
  {
    hide Size;
    if n > 0 { SameTotal(k, ram, r, pad, pos, n - 1); }
  }

  // ----- the attempt -----

  lemma Flags(w: Half)
    ensures Set(w, Tx.TINT) == w + if w / 512 % 2 == 0 then 512 else 0
    ensures Set(Clear(w, Tx.TXON), Tx.TINT) ==
            w - (if w / 16 % 2 == 1 then 16 else 0) + (if w / 512 % 2 == 0 then 512 else 0)
    ensures Set(Clear(Clear(w, Tx.TXON), Tx.TDMD), Tx.TINT) ==
            w - (if w / 16 % 2 == 1 then 16 else 0) - (if w / 8 % 2 == 1 then 8 else 0) +
                (if w / 512 % 2 == 0 then 512 else 0)
  {
    LowBits(w, 16);
    LowBits(w, 8);
    LowBits(Clear(w, 16), 8);
    assert Clear(w, 16) / 8 % 2 == w / 8 % 2 by { if w / 16 % 2 == 1 { assert (w - 16) / 8 == w / 8 - 2; } }
  }

  lemma LowBits(w: Half, b: Half)
    requires b in {8, 16}
    ensures Clear(w, b) / 512 == w / 512
  {
    var q, r := w / 512, w % 512;
    assert w == 512 * q + r;
    if b == 8 { assert w / 8 == 64 * q + r / 8; } else { assert w / 16 == 32 * q + r / 16; }
  }

  lemma OutsizeIs(k: Ring, pad: bool, ram: Ram, pos: nat, n: nat)
    requires Whole(k, ram, pos, n) && Total(k, ram, pad, pos, n) <= 4000
    ensures var g := Tx.Gather(k, pad, ram, pos, []);
            g.Inside? && Tx.Gathered(k, pad, ram, pos, n, [], g.chain) && |g.chain.out| == Total(k, ram, pad, pos, n)
  {
    hide Tx.Gather, Tx.Fragments, Tx.Complete, Tx.BuffersClear, Rx.Distinct, Total, Tx.Returned, Rx.Untouched, EndsAt,
         OwnAll;
    CompleteIs(k, ram, pos, n);
    Tx.CompleteChainIsGathered(k, pad, ram, pos, n);
    FragmentsLength(k, ram, pad, pos, n);
    assert [] + Tx.Fragments(k, ram, pad, pos, n) == Tx.Fragments(k, ram, pad, pos, n);
  }

  /** Nothing happens unless the descriptor at hand is the chip's and starts a frame; the ring moves on, except where
      the Am79C960 has been told not to poll. */
  lemma SkippedAttempt(k: Ring, o: Tx.Options, macs: Munge.Macs, stale: seq<Byte>, ram: Ram, pos: nat, csr0: Half)
    requires RingOk(k) && |stale| == MAX_PACKET_SIZE && !(Own(k, ram, pos) && Starts(k, ram, pos))
    ensures Tx.Transmit(k, o, macs, stale, ram, pos, csr0) ==
            Tx.After(ram, if k.am79 && o.noPoll then pos % k.len else pos % k.len + 1, csr0, Tx.Skipped)
  {
    hide GetDesc, Tx.Gather, Has, Own, Starts;
    DescriptorIs(k, ram, pos);
  }

  /** A gathered chain is sent if its address exchange stays in the transmit buffer: without its last four bytes when
      those are the host's check sequence, which bit 5 of `first` denies.  The chip raises bit 9 of its status. */
  predicate SentOff(k: Ring, o: Tx.Options, macs: Munge.Macs, stale: seq<Byte>, first: Byte, csr0: Half, c: Tx.Chain,
                    a: Tx.After)
    requires k.len > 0 && 60 <= |c.out| <= |stale| && c.next > 0
  {
    var b := c.out + stale[|c.out|..];
    var size := if o.hostFcs && first / 32 % 2 == 0 then |c.out| - 4 else |c.out|;
    a == if Munge.StaysInside(macs, b) then
           Tx.After(c.ram, (c.next - 1) % k.len + 1, csr0 + (if csr0 / 512 % 2 == 0 then 512 else 0),
                    Tx.Sent(Munge.Munge(macs, b)[..size]))
         else Tx.OutsideBuffer
  }

  /** A whole chain of 60 to 4000 bytes is. */
  lemma SentAttempt(k: Ring, o: Tx.Options, macs: Munge.Macs, stale: seq<Byte>, ram: Ram, pos: nat, n: nat, csr0: Half)
    requires Whole(k, ram, pos, n) && Starts(k, ram, pos) && |stale| == MAX_PACKET_SIZE
    requires 60 <= Total(k, ram, o.pad, pos, n) <= 4000
    ensures var g, a := Tx.Gather(k, o.pad, ram, pos, []), Tx.Transmit(k, o, macs, stale, ram, pos, csr0);
            g.Inside? && |g.chain.out| == Total(k, ram, o.pad, pos, n) && g.chain.next == pos + n &&
            SentOff(k, o, macs, stale, Seen(k.am79, ram, At(k, pos) + 2), csr0, g.chain, a)
  {
    hide GetDesc, Tx.Gather, Has, Seen, At, Total, Munge.Munge, Munge.StaysInside, Tx.Gathered, Whole, Set, Tx.Finish,
         Tx.Transmit, Own, Starts, Clear, SentOff;
    WholeIsOwned(k, ram, pos, n);
    OutsizeIs(k, o.pad, ram, pos, n);
    var c := Tx.Gather(k, o.pad, ram, pos, []).chain;
    assert !c.broken && c.next == pos + n by { EndOfChain(k, o.pad, ram, pos, n, c); }
    AttemptIs(k, o, macs, stale, ram, pos, csr0);
    SequenceBit(k, ram, pos);
    FinishIs(k, o, macs, stale, GetDesc(k, ram, pos), Seen(k.am79, ram, At(k, pos) + 2), csr0, c);
  }

  lemma WholeIsOwned(k: Ring, ram: Ram, pos: nat, n: nat)
    requires Whole(k, ram, pos, n)
    ensures RingOk(k) && n > 0 && Own(k, ram, pos) && Own(k, ram, pos + n - 1)
  {
    hide Own, Ends, Rx.Distinct, Tx.BuffersClear;
  }

  lemma CutIsOwned(k: Ring, ram: Ram, pos: nat, m: nat)
    requires m > 0 && Cut(k, ram, pos, m)
    ensures RingOk(k) && Own(k, ram, pos)
  {
    hide Own, Ends, Rx.Distinct;
  }

  lemma EndOfChain(k: Ring, pad: bool, ram: Ram, pos: nat, n: nat, c: Tx.Chain)
    requires k.len > 0 && Tx.Gathered(k, pad, ram, pos, n, [], c)
    ensures !c.broken && c.next == pos + n
  {
  }

  lemma AttemptIs(k: Ring, o: Tx.Options, macs: Munge.Macs, stale: seq<Byte>, ram: Ram, pos: nat, csr0: Half)
    requires RingOk(k) && Own(k, ram, pos) && Starts(k, ram, pos) && |stale| == MAX_PACKET_SIZE
    requires Tx.Gather(k, o.pad, ram, pos, []).Inside?
    ensures Tx.Transmit(k, o, macs, stale, ram, pos, csr0) ==
            Tx.Finish(k, o, macs, stale, GetDesc(k, ram, pos), csr0, Tx.Gather(k, o.pad, ram, pos, []).chain)
  {
    hide GetDesc, Tx.Gather, Has, Tx.Finish, Own, Starts;
    DescriptorIs(k, ram, pos);
  }

  lemma FinishIs(k: Ring, o: Tx.Options, macs: Munge.Macs, stale: seq<Byte>, d: Desc, first: Byte, csr0: Half,
                 c: Tx.Chain)
    requires RingOk(k) && 60 <= |c.out| <= |stale| && !c.broken && c.next > 0
    requires Has(d.d1, Tx.ADD_FCS) <==> first / 32 % 2 == 1
    ensures SentOff(k, o, macs, stale, first, csr0, c, Tx.Finish(k, o, macs, stale, d, csr0, c))
  {
    hide Munge.Munge, Munge.StaysInside, Set, Has;
    Flags(csr0);
  }

  lemma SequenceBit(k: Ring, ram: Ram, pos: nat)
    requires k.len > 0
    ensures Has(GetDesc(k, ram, pos).d1, Tx.ADD_FCS) <==> Seen(k.am79, ram, At(k, pos) + 2) / 32 % 2 == 1
  {
    hide GetDesc, Seen, At;
    SeenIs(k, ram, pos, 2);
  }

  lemma UnderflowBytes(k: Ring, ram: Ram, r: Ram, p: nat, d: Desc, b: nat)
    requires k.len > 0 && b < 8 && GetDesc(k, ram, p) == d && GetDesc(k, r, p) == Underflow(d)
    ensures var x := Seen(k.am79, ram, At(k, p) + b);
            Seen(k.am79, r, At(k, p) + b) ==
            if b == 2 && x / 64 % 2 == 0 then x + 64
            else if b == 6 then x % 64 + 192
            else x
  {
    hide GetDesc, Seen, At, Set;
    SeenIs(k, ram, p, b);
    SeenIs(k, r, p, b);
    SeenIs(k, ram, p, 2);
    SeenIs(k, ram, p, 3);
    SeenIs(k, ram, p, 6);
    SeenIs(k, ram, p, 7);
    ErrorBit(Seen(k.am79, ram, At(k, p) + 2), Seen(k.am79, ram, At(k, p) + 3));
    TopBits(Seen(k.am79, ram, At(k, p) + 6), Seen(k.am79, ram, At(k, p) + 7));
  }

  lemma TopBits(hi: Byte, lo: Byte)
    ensures var w := Set(Set(hi as int * 256 + lo, 0x8000), 0x4000); w / 256 == hi % 64 + 192 && w % 256 == lo
  {
    WordBits(hi, lo);
    var h1 := hi as int + if hi < 128 then 128 else 0;
    assert Set(hi as int * 256 + lo, 0x8000) == h1 * 256 + lo;
    ErrorBit(h1, lo);
    WordParts(hi % 64 + 192, lo);
  }

  /** A chain that is cut short is not sent: the host's descriptor gets bit 6 of its third byte and bits 7 and 6 of its
      seventh, the transmitter goes off (bit 4), the demand is dropped (bit 3), and bit 9 is raised. */
  lemma CutAttempt(k: Ring, o: Tx.Options, macs: Munge.Macs, stale: seq<Byte>, ram: Ram, pos: nat, m: nat, csr0: Half,
                   b: nat)
    requires m > 0 && Cut(k, ram, pos, m) && Starts(k, ram, pos) && |stale| == MAX_PACKET_SIZE && b < 8
    ensures var a := Tx.Transmit(k, o, macs, stale, ram, pos, csr0);
            if Total(k, ram, o.pad, pos, m) > 4000 then a == Tx.OutsideBuffer
            else
              a.After? && a.outcome == Tx.Failed && a.pos == (pos + m) % k.len &&
              a.csr0 == csr0 - (if csr0 / 16 % 2 == 1 then 16 else 0) - (if csr0 / 8 % 2 == 1 then 8 else 0) +
                               (if csr0 / 512 % 2 == 0 then 512 else 0) &&
              (Reached(k, pos + m) ==>
                var x := Seen(k.am79, ram, At(k, pos + m) + b);
                Seen(k.am79, a.ram, At(k, pos + m) + b) ==
                if b == 2 && x / 64 % 2 == 0 then x + 64
                else if b == 6 then x % 64 + 192
                else x)
  {
    hide GetDesc, Tx.Gather, Tx.Collect, Has, Seen, At, Total, OwnAll, EndsAt, Rx.Distinct, Set, Clear, Underflow,
         Reached;
    CutIsOwned(k, ram, pos, m);
    DescriptorIs(k, ram, pos);
    CutIsBroken(k, o.pad, ram, pos, [], m);
    Tx.OutsideIsTooMuch(k, o.pad, ram, pos, []);
    Flags(csr0);
    var r := Tx.Collect(k, o.pad, ram, pos, []).ram;
    if Reached(k, pos + m) { UnderflowBytes(k, ram, r, pos + m, GetDesc(k, ram, pos + m), b); }
  }

  /** A whole chain of less than 60 bytes is not sent either: its last descriptor gets the same bits, the transmitter
      goes off and bit 9 is raised, but the demand stays. */
  lemma ShortAttempt(k: Ring, o: Tx.Options, macs: Munge.Macs, stale: seq<Byte>, ram: Ram, pos: nat, n: nat, csr0: Half,
                     b: nat)
    requires Whole(k, ram, pos, n) && Starts(k, ram, pos) && |stale| == MAX_PACKET_SIZE && b < 8
    requires Total(k, ram, o.pad, pos, n) < 60
    ensures var a, last := Tx.Transmit(k, o, macs, stale, ram, pos, csr0), pos + n - 1;
            a.After? && a.outcome == Tx.Failed && a.pos == last % k.len + 1 &&
            a.csr0 == csr0 - (if csr0 / 16 % 2 == 1 then 16 else 0) + (if csr0 / 512 % 2 == 0 then 512 else 0) &&
            var x := Seen(k.am79, ram, At(k, last) + b);
            Seen(k.am79, a.ram, At(k, last) + b) ==
            if b == 2 then x - 128 + (if x / 64 % 2 == 0 then 64 else 0)
            else if b == 6 then x % 64 + 192
            else x
  {
    hide GetDesc, Tx.Gather, Has, Seen, At, Total, Tx.Gathered, Whole, Set, Clear, PutStatus;
    WholeIsOwned(k, ram, pos, n);
    OutsizeIs(k, o.pad, ram, pos, n);
    DescriptorIs(k, ram, pos);
    Flags(csr0);
    var c, p := Tx.Gather(k, o.pad, ram, pos, []).chain, pos + n - 1;
    LastIsReturned(k, o.pad, ram, pos, n);
    ReturnedBytes(k, ram, c.ram, p, b);
    ReturnedBytes(k, ram, c.ram, p, 2);
    var u := Underflow(c.last);
    var r := PutStatus(k, c.ram, p, u.d1, u.d3);
    PutUnderflow(k, ram, c.ram, p);
    UnderflowBytes(k, c.ram, r, p, c.last, b);
    MarkedBits(Seen(k.am79, ram, At(k, p) + 2), Seen(k.am79, ram, At(k, p) + 2) - 128);
  }

  lemma PutUnderflow(k: Ring, ram: Ram, r: Ram, p: nat)
    requires RingOk(k) && Own(k, ram, p)
    ensures var u := Underflow(GetDesc(k, r, p)); GetDesc(k, PutStatus(k, r, p, u.d1, u.d3), p) == u
  {
    hide GetDesc, Set, PutStatus, Place, PlaceOf;
    GetDescAtPlace(k, ram, p);
    DescriptorIs(k, ram, p);
    assert Reached(k, p) by { Rx.NoBits(); }
    var u := Underflow(GetDesc(k, r, p));
    PutStatusEffect(k, r, p, u.d1, u.d3);
  }

  lemma {:induction false} LastIs(k: Ring, pad: bool, ram: Ram, pos: nat, n: nat, out: seq<Byte>)
    requires RingOk(k) && Rx.Distinct(k, pos, n) && Tx.Complete(k, ram, pos, n)
    ensures var d := GetDesc(k, ram, pos + n - 1);
            Tx.Collect(k, pad, ram, pos, out).last == Desc(d.d0, Clear(d.d1, OWN), d.d2, d.d3)
    decreases n
  {
    hide GetDesc, PutStatus, Place, PlaceOf, Tx.Fragment, Has, Clear, Tx.OwnedCount;
    var d := GetDesc(k, ram, pos);
    Tx.ClearedBit(d.d1);
    if n > 1 {
      var r := PutStatus(k, ram, pos, Clear(d.d1, OWN), d.d3);
      PutStatusEffect(k, ram, pos, Clear(d.d1, OWN), d.d3);
      Tx.SameComplete(k, ram, r, pos, pos + 1, n - 1);
      Rx.ElsewhereEach(k, Place(k, pos), pos + 1, n - 1, pos + n - 1);
      SameDescriptor(k, r, ram, pos + n - 1);
      LastIs(k, pad, r, pos + 1, n - 1, out + Tx.Fragment(k, ram, d, pad));
    }
  }

  lemma LastIsReturned(k: Ring, pad: bool, ram: Ram, pos: nat, n: nat)
    requires Whole(k, ram, pos, n) && Total(k, ram, pad, pos, n) <= 4000
    ensures var g, d := Tx.Gather(k, pad, ram, pos, []), GetDesc(k, ram, pos + n - 1);
            g.Inside? && !g.chain.broken && g.chain.next == pos + n &&
            g.chain.last == GetDesc(k, g.chain.ram, pos + n - 1) == Desc(d.d0, Clear(d.d1, OWN), d.d2, d.d3)
  {
    hide GetDesc, Tx.Gather, Tx.Collect, Tx.Complete, Tx.BuffersClear, Rx.Distinct, Total, Clear, Tx.Returned, OwnAll,
         EndsAt;
    OutsizeIs(k, pad, ram, pos, n);
    CompleteIs(k, ram, pos, n);
    LastIs(k, pad, ram, pos, n, []);
    Tx.OutsideIsTooMuch(k, pad, ram, pos, []);
    ReturnedAt(k, ram, Tx.Gather(k, pad, ram, pos, []).chain.ram, pos, n, pos + n - 1);
  }
}
