/**
 Transmitting a frame from the descriptor ring (a2065.cpp:684-789): a chain of buffers is gathered, and each
 descriptor is given back as it is read.

 Nothing bounds the chain but ownership: the loop stops because every descriptor it passes stops being the
 chip's, so that the ring runs out.  Nothing compares what is gathered with the transmit buffer either: `Gather` stops
 where the program would store behind its buffer, and `Collect` is the loop with a buffer that has no end.
 */
module A2065Transmit {
  import opened A2065Ram
  import opened Numbers
  import Addresses = A2065Addresses
  import Munge = A2065Munge
  import Receive = A2065Receive

  const ADD_FCS: Half := 0x2000

  /** Bytes at consecutive chip addresses, give or take the byte swap. */
  function ReadData(k: Ring, ram: Ram, address: nat, n: nat): (r: seq<Byte>)
    ensures |r| == n
    decreases n
  {
    if n == 0 then [] else [GetByte(k.am79, ram, Flip(k.swap, address))] + ReadData(k, ram, address + 1, n - 1)
  }

  /** Of a longer buffer only the first 4000 bytes are read. */
  function ReadSize(d: Desc): nat { if BufferSize(d) > MAX_PACKET_SIZE then MAX_PACKET_SIZE else BufferSize(d) }

  /** What one descriptor contributes; with automatic padding, a short buffer is filled up to 60 bytes. */
  function Fragment(k: Ring, ram: Ram, d: Desc, pad: bool): seq<Byte> {
    var n := ReadSize(d);
    ReadData(k, ram, BufferAddress(d), n) + if n < 60 && pad then seq(60 - n, _ => 0) else []
  }

  // ----- ownership is used up -----

  function OwnedCount(k: Ring, ram: Ram, n: nat): nat
    requires k.len > 0
  {
    if n == 0 then 0 else OwnedCount(k, ram, n - 1) + if Has(GetDesc(k, ram, n - 1).d1, OWN) then 1 else 0
  }

  lemma {:induction false} CountBound(k: Ring, ram: Ram, n: nat)
    requires k.len > 0
    ensures OwnedCount(k, ram, n) <= n
  {
    hide GetDesc;
    if n > 0 { CountBound(k, ram, n - 1); }
  }

  /** A descriptor given back unowned is unowned wherever the ring meets it again. */
  lemma GivenBackElsewhere(k: Ring, ram: Ram, pos: nat, i: nat, d1: Half, d3: Half)
    requires RingOk(k) && !Has(d1, OWN)
    ensures var x, y := GetDesc(k, ram, i), GetDesc(k, PutStatus(k, ram, pos, d1, d3), i);
            (Has(y.d1, OWN) ==> Has(x.d1, OWN)) && (y.d1 == x.d1 || (Place(k, i) == Place(k, pos) && y.d1 == d1)) &&
            (Place(k, i) == Place(k, pos) && Reached(k, pos) ==> !Has(y.d1, OWN)) &&
            (pos % k.len == i % k.len ==> !Has(y.d1, OWN))
  {
    hide GetDesc, PutStatus, Place, PlaceOf, Has, Reached;
    var r := PutStatus(k, ram, pos, d1, d3);
    GetDescAtPlace(k, ram, i);
    GetDescAtPlace(k, r, i);
    GetDescAtPlace(k, r, pos);
    SamePosition(k, pos, i);
    Receive.NoBits();
    PutStatusEffect(k, ram, pos, d1, d3);
    if Place(k, i) != Place(k, pos) { SameDescriptor(k, r, ram, i); }
    if !Reached(k, pos) { PutStatusAtPlace(k, ram, pos, d1, d3); }
  }

  lemma SamePosition(k: Ring, pos: nat, i: nat)
    requires k.len > 0
    ensures pos % k.len == i % k.len ==> Place(k, pos) == Place(k, i) && Reached(k, pos) == Reached(k, i)
  {
  }

  lemma {:induction false} CountFalls(k: Ring, ram: Ram, pos: nat, d1: Half, d3: Half, n: nat)
    requires RingOk(k) && !Has(d1, OWN) && n <= k.len
    ensures OwnedCount(k, PutStatus(k, ram, pos, d1, d3), n) <= OwnedCount(k, ram, n)
    ensures Has(GetDesc(k, ram, pos).d1, OWN) && pos % k.len < n ==>
              OwnedCount(k, PutStatus(k, ram, pos, d1, d3), n) < OwnedCount(k, ram, n)
    decreases n
  {
    hide GetDesc, PutStatus, Has, Place, Reached;
    if n > 0 {
      CountFalls(k, ram, pos, d1, d3, n - 1);
      GivenBackElsewhere(k, ram, pos, n - 1, d1, d3);
      SameDesc(k, ram, pos, n - 1);
      DivisionIsUnique(k.len, 0, n - 1);
    }
  }

  lemma SameDesc(k: Ring, ram: Ram, pos: nat, i: nat)
    requires k.len > 0
    ensures pos % k.len == i % k.len ==> GetDesc(k, ram, pos) == GetDesc(k, ram, i)
  {
  }

  // ----- the gathering loop -----

  /** `next` is the ring position after the last descriptor read, unreduced; `last` that descriptor as given back. */
  datatype Chain = Chain(ram: Ram, next: nat, out: seq<Byte>, broken: bool, last: Desc, visits: nat)

  /** Gather from position `pos` until a descriptor marked ENP, or one that is not the chip's: then the chain is broken,
      and that descriptor gets the error. */
  function Collect(k: Ring, pad: bool, ram: Ram, pos: nat, out: seq<Byte>): Chain
    requires RingOk(k)
    decreases OwnedCount(k, ram, k.len)
  {
    var d := GetDesc(k, ram, pos);
    if !Has(d.d1, OWN) then
      var u := Desc(d.d0, Set(d.d1, ERR), d.d2, Set(Set(d.d3, 0x8000), 0x4000));
      Chain(PutStatus(k, ram, pos, u.d1, u.d3), pos, out, true, u, 1)
    else
      var u := Desc(d.d0, Clear(d.d1, OWN), d.d2, d.d3);
      var r := PutStatus(k, ram, pos, u.d1, u.d3);
      if Has(u.d1, ENP) then Chain(r, pos + 1, out + Fragment(k, ram, d, pad), false, u, 1)
      else
        CountFalls(k, ram, pos, u.d1, u.d3, k.len);
        var c := Collect(k, pad, r, pos + 1, out + Fragment(k, ram, d, pad));
        c.(visits := c.visits + 1)
  }

  /** Whatever the RAM holds, the loop looks at no more than the chip's descriptors and one more. */
  lemma {:induction false} VisitsAreBounded(k: Ring, pad: bool, ram: Ram, pos: nat, out: seq<Byte>)
    requires RingOk(k)
    ensures Collect(k, pad, ram, pos, out).visits <= OwnedCount(k, ram, k.len) + 1 <= k.len + 1
    decreases OwnedCount(k, ram, k.len)
  {
    hide GetDesc, PutStatus, Has, Clear, Set, Fragment, OwnedCount;
    CountBound(k, ram, k.len);
    var d := GetDesc(k, ram, pos);
    if Has(d.d1, OWN) {
      var d1 := Clear(d.d1, OWN);
      assert !Has(d1, OWN) by { ClearedBit(d.d1); }
      CountFalls(k, ram, pos, d1, d.d3, k.len);
      var r := PutStatus(k, ram, pos, d1, d.d3);
      if !Has(d1, ENP) { VisitsAreBounded(k, pad, r, pos + 1, out + Fragment(k, ram, d, pad)); }
    }
  }

  lemma ClearedBit(w: Half)
    ensures !Has(Clear(w, OWN), OWN) && Has(Clear(w, OWN), ENP) == Has(w, ENP)
  {
  }

  // ----- the transmit buffer -----

  /** A store behind the buffer leaves everything else open. */
  datatype Gathering = Outside | Inside(chain: Chain)

  function Visited(g: Gathering, n: nat): Gathering {
    match g
    case Outside => g
    case Inside(c) => Inside(c.(visits := c.visits + n))
  }

  /** The loop as it is: it gathers into a buffer of 4000 bytes. */
  function Gather(k: Ring, pad: bool, ram: Ram, pos: nat, out: seq<Byte>): (g: Gathering)
    requires RingOk(k) && |out| <= MAX_PACKET_SIZE
    ensures g.Inside? ==> |g.chain.out| <= MAX_PACKET_SIZE
    decreases OwnedCount(k, ram, k.len)
  {
    var d := GetDesc(k, ram, pos);
    if !Has(d.d1, OWN) then
      var u := Desc(d.d0, Set(d.d1, ERR), d.d2, Set(Set(d.d3, 0x8000), 0x4000));
      Inside(Chain(PutStatus(k, ram, pos, u.d1, u.d3), pos, out, true, u, 1))
    else
      var all := out + Fragment(k, ram, d, pad);
      var u := Desc(d.d0, Clear(d.d1, OWN), d.d2, d.d3);
      var r := PutStatus(k, ram, pos, u.d1, u.d3);
      if |all| > MAX_PACKET_SIZE then Outside
      else if Has(u.d1, ENP) then Inside(Chain(r, pos + 1, all, false, u, 1))
      else
        CountFalls(k, ram, pos, u.d1, u.d3, k.len);
        Visited(Gather(k, pad, r, pos + 1, all), 1)
  }

  /** One turn of the loop. */
  lemma GatherTurn(k: Ring, pad: bool, ram: Ram, pos: nat, out: seq<Byte>)
    requires RingOk(k) && |out| <= MAX_PACKET_SIZE
    ensures var d := GetDesc(k, ram, pos);
            var all := out + Fragment(k, ram, d, pad);
            var r := PutStatus(k, ram, pos, Clear(d.d1, OWN), d.d3);
            if !Has(d.d1, OWN) then
              var u := Desc(d.d0, Set(d.d1, ERR), d.d2, Set(Set(d.d3, 0x8000), 0x4000));
              Gather(k, pad, ram, pos, out) == Inside(Chain(PutStatus(k, ram, pos, u.d1, u.d3), pos, out, true, u, 1))
            else if |all| > MAX_PACKET_SIZE then Gather(k, pad, ram, pos, out) == Outside
            else if Has(d.d1, ENP) then
              Gather(k, pad, ram, pos, out) ==
              Inside(Chain(r, pos + 1, all, false, Desc(d.d0, Clear(d.d1, OWN), d.d2, d.d3), 1))
            else
              OwnedCount(k, r, k.len) < OwnedCount(k, ram, k.len) &&
              Gather(k, pad, ram, pos, out) == Visited(Gather(k, pad, r, pos + 1, all), 1)
  {
    hide GetDesc, PutStatus, Has, Clear, Set, Fragment, OwnedCount;
    var d := GetDesc(k, ram, pos);
    if Has(d.d1, OWN) {
      ClearedBit(d.d1);
      CountFalls(k, ram, pos, Clear(d.d1, OWN), d.d3, k.len);
    }
  }

  /** Whatever the RAM holds and however the chain ends, a byte is stored behind the buffer if and only if more than
      4000 are gathered; otherwise the buffer makes no difference. */
  lemma {:induction false} OutsideIsTooMuch(k: Ring, pad: bool, ram: Ram, pos: nat, out: seq<Byte>)
    requires RingOk(k) && |out| <= MAX_PACKET_SIZE
    ensures |Collect(k, pad, ram, pos, out).out| >= |out|
    ensures Gather(k, pad, ram, pos, out) ==
            var c := Collect(k, pad, ram, pos, out); if |c.out| > MAX_PACKET_SIZE then Outside else Inside(c)
    decreases OwnedCount(k, ram, k.len)
  {
    hide GetDesc, PutStatus, Has, Clear, Set, Fragment, OwnedCount;
    var d := GetDesc(k, ram, pos);
    if Has(d.d1, OWN) {
      var all, d1 := out + Fragment(k, ram, d, pad), Clear(d.d1, OWN);
      var r := PutStatus(k, ram, pos, d1, d.d3);
      assert !Has(d1, OWN) by { ClearedBit(d.d1); }
      CountFalls(k, ram, pos, d1, d.d3, k.len);
      if !Has(d1, ENP) {
        if |all| <= MAX_PACKET_SIZE {
          OutsideIsTooMuch(k, pad, r, pos + 1, all);
        } else {
          CollectGrows(k, pad, r, pos + 1, all);
        }
      }
    }
  }

  lemma {:induction false} CollectGrows(k: Ring, pad: bool, ram: Ram, pos: nat, out: seq<Byte>)
    requires RingOk(k)
    ensures |Collect(k, pad, ram, pos, out).out| >= |out|
    decreases OwnedCount(k, ram, k.len)
  {
    hide GetDesc, PutStatus, Has, Clear, Set, Fragment, OwnedCount;
    var d := GetDesc(k, ram, pos);
    if Has(d.d1, OWN) {
      var d1 := Clear(d.d1, OWN);
      assert !Has(d1, OWN) by { ClearedBit(d.d1); }
      CountFalls(k, ram, pos, d1, d.d3, k.len);
      CollectGrows(k, pad, PutStatus(k, ram, pos, d1, d.d3), pos + 1, out + Fragment(k, ram, d, pad));
    }
  }

  // ----- what is gathered -----

  /** `n` descriptors of the chip's from `pos` on, the last and only the last marked ENP. */
  predicate Complete(k: Ring, ram: Ram, pos: nat, n: nat)
    requires k.len > 0
    decreases n
  {
    n > 0 && Has(GetDesc(k, ram, pos).d1, OWN) &&
    Has(GetDesc(k, ram, pos).d1, ENP) == (n == 1) && (n > 1 ==> Complete(k, ram, pos + 1, n - 1))
  }

  function Fragments(k: Ring, ram: Ram, pad: bool, pos: nat, n: nat): seq<Byte>
    requires k.len > 0
    decreases n
  {
    if n == 0 then [] else Fragment(k, ram, GetDesc(k, ram, pos), pad) + Fragments(k, ram, pad, pos + 1, n - 1)
  }

  /** The bytes read from the buffers of `n` descriptors from `pos` on keep clear of the `m` descriptors from `from`
      on. */
  predicate BuffersClear(k: Ring, ram: Ram, pos: nat, n: nat, from: nat, m: nat)
    requires k.len > 0
    decreases n
  {
    n == 0 || (BufferClear(k, GetDesc(k, ram, pos), from, m) && BuffersClear(k, ram, pos + 1, n - 1, from, m))
  }

  predicate BufferClear(k: Ring, d: Desc, from: nat, m: nat)
    requires k.len > 0
  {
    AllOutside(k, Receive.Addresses(k, BufferAddress(d), ReadSize(d)), from, m)
  }

  predicate AllOutside(k: Ring, at: seq<nat>, from: nat, m: nat)
    requires k.len > 0
  {
    forall i :: 0 <= i < |at| ==> Receive.Outside(k, Cell(at[i]), from, m)
  }

  /** Bytes off the descriptors read the same after one of those has changed. */
  lemma {:induction false} SameData(k: Ring, ram: Ram, r: Ram, pos: nat, address: nat, n: nat, from: nat, m: nat)
    requires k.len > 0 && from <= pos < from + m && AllOutside(k, Receive.Addresses(k, address, n), from, m)
    requires forall c: nat :: c < RAM_SIZE && PlaceOf(k, c) != Place(k, pos) ==> r[c] == ram[c]
    ensures ReadData(k, r, address, n) == ReadData(k, ram, address, n)
    decreases n
  {
    hide Place, PlaceOf, Receive.Elsewhere;
    if n > 0 {
      var at := Receive.Addresses(k, address, n);
      var rest := Receive.Addresses(k, address + 1, n - 1);
      assert at == [Flip(k.swap, address)] + rest;
      Receive.ElsewhereEach(k, PlaceOf(k, Cell(at[0])), from, m, pos);
      forall i | 0 <= i < |rest| ensures Receive.Outside(k, Cell(rest[i]), from, m) { assert at[i + 1] == rest[i]; }
      SameData(k, ram, r, pos, address + 1, n - 1, from, m);
    }
  }

  /** A change to the descriptor at `done` leaves a chain of other descriptors as it was, */
  lemma {:induction false} SameComplete(k: Ring, ram: Ram, r: Ram, done: nat, pos: nat, n: nat)
    requires RingOk(k) && Complete(k, ram, pos, n) && Receive.Elsewhere(k, Place(k, done), pos, n)
    requires forall c: nat :: c < RAM_SIZE && PlaceOf(k, c) != Place(k, done) ==> r[c] == ram[c]
    ensures Complete(k, r, pos, n)
    decreases n
  {
    hide GetDesc, Place, PlaceOf, Has;
    SameDescriptor(k, r, ram, pos);
    if n > 1 { SameComplete(k, ram, r, done, pos + 1, n - 1); }
  }

  /** and what it holds. */
  lemma {:induction false} SameChain(k: Ring, ram: Ram, r: Ram, done: nat, pad: bool, pos: nat, n: nat, from: nat,
                                     m: nat)
    requires RingOk(k) && BuffersClear(k, ram, pos, n, from, m) && from <= done < from + m
    requires forall c: nat :: c < RAM_SIZE && PlaceOf(k, c) != Place(k, done) ==> r[c] == ram[c]
    requires Receive.Elsewhere(k, Place(k, done), pos, n)
    ensures Fragments(k, r, pad, pos, n) == Fragments(k, ram, pad, pos, n)
    ensures BuffersClear(k, r, pos, n, from, m)
    decreases n
  {
    hide GetDesc, Place, PlaceOf, ReadData, BufferAddress, AllOutside;
    if n > 0 {
      SameDescriptor(k, r, ram, pos);
      var d := GetDesc(k, ram, pos);
      SameData(k, ram, r, done, BufferAddress(d), ReadSize(d), from, m);
      SameChain(k, ram, r, done, pad, pos + 1, n - 1, from, m);
    }
  }

  /** `n` descriptors from `pos` on with ownership returned and nothing else changed. */
  predicate Returned(k: Ring, ram: Ram, r: Ram, pos: nat, n: nat)
    requires k.len > 0
    decreases n
  {
    n == 0 ||
    (var d := GetDesc(k, ram, pos);
     GetDesc(k, r, pos) == Desc(d.d0, Clear(d.d1, OWN), d.d2, d.d3) && Returned(k, ram, r, pos + 1, n - 1))
  }

  lemma {:induction false} SameReturned(k: Ring, ram: Ram, r1: Ram, r2: Ram, done: nat, pos: nat, n: nat)
    requires RingOk(k)
    requires forall c: nat :: c < RAM_SIZE && PlaceOf(k, c) != Place(k, done) ==> r1[c] == ram[c]
    requires Receive.Elsewhere(k, Place(k, done), pos, n)
    requires Returned(k, r1, r2, pos, n)
    ensures Returned(k, ram, r2, pos, n)
    decreases n
  {
    hide GetDesc, Place, PlaceOf;
    if n > 0 {
      SameDescriptor(k, r1, ram, pos);
      SameReturned(k, ram, r1, r2, done, pos + 1, n - 1);
    }
  }

  /** A complete chain is sent as the concatenation of its buffers; its descriptors are returned, nothing else is
      written, and the ring stands behind it. */
  predicate Gathered(k: Ring, pad: bool, ram: Ram, pos: nat, n: nat, out: seq<Byte>, c: Chain)
    requires k.len > 0
  {
    !c.broken && c.next == pos + n && c.visits == n && c.out == out + Fragments(k, ram, pad, pos, n) &&
    Returned(k, ram, c.ram, pos, n) && Receive.Untouched(k, [], ram, c.ram, pos, n)
  }

  lemma {:induction false} CompleteChainIsCollected(k: Ring, pad: bool, ram: Ram, pos: nat, n: nat, out: seq<Byte>,
                                                    from: nat, m: nat)
    requires RingOk(k) && Receive.Distinct(k, pos, n) && from <= pos && pos + n <= from + m
    requires Complete(k, ram, pos, n) && BuffersClear(k, ram, pos, n, from, m)
    ensures Gathered(k, pad, ram, pos, n, out, Collect(k, pad, ram, pos, out))
    decreases n
  {
    hide GetDesc, PutStatus, Place, PlaceOf, Fragment, BufferClear, Has, Clear, OwnedCount;
    var d := GetDesc(k, ram, pos);
    var u := Desc(d.d0, Clear(d.d1, OWN), d.d2, d.d3);
    var r := PutStatus(k, ram, pos, u.d1, u.d3);
    ClearedBit(d.d1);
    GetDescAtPlace(k, ram, pos);
    assert Reached(k, pos) by { Receive.NoBits(); }
    PutStatusEffect(k, ram, pos, u.d1, u.d3);
    if n == 1 {
      assert Fragments(k, ram, pad, pos + 1, 0) == [];
      assert out + (Fragment(k, ram, d, pad) + []) == out + Fragment(k, ram, d, pad);
      assert Returned(k, ram, r, pos + 1, 0);
    } else {
      SameComplete(k, ram, r, pos, pos + 1, n - 1);
      SameChain(k, ram, r, pos, pad, pos + 1, n - 1, from, m);
      var out1 := out + Fragment(k, ram, d, pad);
      CompleteChainIsCollected(k, pad, r, pos + 1, n - 1, out1, from, m);
      GatheredNext(k, pad, ram, r, pos, n, out, Collect(k, pad, r, pos + 1, out1));
    }
  }

  lemma GatheredNext(k: Ring, pad: bool, ram: Ram, r: Ram, pos: nat, n: nat, out: seq<Byte>, c: Chain)
    requires RingOk(k) && n > 1 && Receive.Distinct(k, pos, n)
    requires forall x: nat :: x < RAM_SIZE && PlaceOf(k, x) != Place(k, pos) ==> r[x] == ram[x]
    requires var d := GetDesc(k, ram, pos); GetDesc(k, r, pos) == Desc(d.d0, Clear(d.d1, OWN), d.d2, d.d3)
    requires Fragments(k, r, pad, pos + 1, n - 1) == Fragments(k, ram, pad, pos + 1, n - 1)
    requires Gathered(k, pad, r, pos + 1, n - 1, out + Fragment(k, ram, GetDesc(k, ram, pos), pad), c)
    ensures Gathered(k, pad, ram, pos, n, out, c.(visits := n))
  {
    hide GetDesc, Place, PlaceOf, Fragment, Clear;
    SameReturned(k, ram, r, c.ram, pos, pos + 1, n - 1);
    SameDescriptor(k, c.ram, r, pos);
  }

  /** The program's loop on a complete chain of different descriptors. */
  lemma CompleteChainIsGathered(k: Ring, pad: bool, ram: Ram, pos: nat, n: nat)
    requires RingOk(k) && Receive.Distinct(k, pos, n)
    requires Complete(k, ram, pos, n) && BuffersClear(k, ram, pos, n, pos, n)
    ensures var g := Gather(k, pad, ram, pos, []);
            if |Fragments(k, ram, pad, pos, n)| > MAX_PACKET_SIZE then g.Outside?
            else g.Inside? && Gathered(k, pad, ram, pos, n, [], g.chain)
  {
    hide Collect, Gather, Returned, Receive.Untouched, Receive.Distinct, Complete, BuffersClear, Fragments;
    CompleteChainIsCollected(k, pad, ram, pos, n, [], pos, n);
    OutsideIsTooMuch(k, pad, ram, pos, []);
  }

  // ----- a chain that meets itself -----

  /** Where a chain has a descriptor that is not the chip's before its end, it is broken. */
  lemma {:induction false} HostBreaks(k: Ring, pad: bool, ram: Ram, pos: nat, out: seq<Byte>, p: nat)
    requires RingOk(k) && pos <= p && !Has(GetDesc(k, ram, p).d1, OWN)
    requires forall q :: pos <= q < p ==> !Has(GetDesc(k, ram, q).d1, ENP)
    ensures Collect(k, pad, ram, pos, out).broken
    decreases p - pos
  {
    hide GetDesc, PutStatus, Place, Reached, Fragment, Has, Clear, Set, OwnedCount;
    var d := GetDesc(k, ram, pos);
    if Has(d.d1, OWN) {
      var d1 := Clear(d.d1, OWN);
      ClearedBit(d.d1);
      var r := PutStatus(k, ram, pos, d1, d.d3);
      GivenBackElsewhere(k, ram, pos, p, d1, d.d3);
      forall q | pos + 1 <= q < p
        ensures !Has(GetDesc(k, r, q).d1, ENP)
      {
        GivenBackElsewhere(k, ram, pos, q, d1, d.d3);
      }
      HostBreaks(k, pad, r, pos + 1, out + Fragment(k, ram, d, pad), p);
    }
  }

  lemma {:induction false} CompleteMeans(k: Ring, ram: Ram, pos: nat, n: nat, p: nat)
    requires k.len > 0 && Complete(k, ram, pos, n) && pos <= p < pos + n
    ensures Has(GetDesc(k, ram, p).d1, OWN) && Has(GetDesc(k, ram, p).d1, ENP) == (p == pos + n - 1)
    decreases n
  {
    hide GetDesc, Has;
    if p > pos { CompleteMeans(k, ram, pos + 1, n - 1, p); }
  }

  /** A chain that meets one of its descriptors again finds it given back: it is broken, however complete it looked. */
  lemma {:induction false} MeetingBreaks(k: Ring, pad: bool, ram: Ram, pos: nat, n: nat, out: seq<Byte>)
    requires RingOk(k) && Complete(k, ram, pos, n) && !Receive.Distinct(k, pos, n)
    ensures Collect(k, pad, ram, pos, out).broken
    decreases n
  {
    hide GetDesc, PutStatus, Place, PlaceOf, Reached, Fragment, Has, Clear, Set, OwnedCount;
    Receive.OneIsDistinct(k, pos);
    var d := GetDesc(k, ram, pos);
    var d1 := Clear(d.d1, OWN);
    var r, out1 := PutStatus(k, ram, pos, d1, d.d3), out + Fragment(k, ram, d, pad);
    ClearedBit(d.d1);
    if Receive.Elsewhere(k, Place(k, pos), pos + 1, n - 1) {
      PutStatusEffect(k, ram, pos, d1, d.d3);
      SameComplete(k, ram, r, pos, pos + 1, n - 1);
      MeetingBreaks(k, pad, r, pos + 1, n - 1, out1);
    } else {
      var p := Receive.SomewhereIn(k, Place(k, pos), pos + 1, n - 1);
      assert Reached(k, pos) by { GetDescAtPlace(k, ram, pos); Receive.NoBits(); }
      GivenBackElsewhere(k, ram, pos, p, d1, d.d3);
      forall q | pos + 1 <= q < p
        ensures !Has(GetDesc(k, r, q).d1, ENP)
      {
        CompleteMeans(k, ram, pos, n, q);
        GivenBackElsewhere(k, ram, pos, q, d1, d.d3);
      }
      HostBreaks(k, pad, r, pos + 1, out1, p);
    }
  }

  // ----- a transmit attempt as a whole -----

  const TXON: Half := 0x0010
  const TDMD: Half := 0x0008
  const TINT: Half := 0x0200

  /** Pad short buffers; the host supplies the check sequence; polling is off (Am79C960 only). */
  datatype Options = Options(pad: bool, hostFcs: bool, noPoll: bool)

  datatype Outcome = Skipped | Failed | Sent(frame: seq<Byte>)

  /** What an attempt leaves; nothing is said once a byte behind the transmit buffer has been touched. */
  datatype After = OutsideBuffer | After(ram: Ram, pos: nat, csr0: Half, outcome: Outcome)

  /** `stale` is what the transmit buffer holds before. */
  function Transmit(k: Ring, o: Options, macs: Munge.Macs, stale: seq<Byte>, ram: Ram, pos: nat, csr0: Half): After
    requires (k.len == 0 || RingOk(k)) && |stale| == MAX_PACKET_SIZE
  {
    if k.len == 0 then After(ram, pos, csr0, Skipped)
    else
      var d := GetDesc(k, ram, pos);
      if !Has(d.d1, OWN) || !Has(d.d1, STP) then
        After(ram, pos % k.len + (if k.am79 && o.noPoll then 0 else 1), csr0, Skipped)
      else
        match Gather(k, o.pad, ram, pos, [])
        case Outside => OutsideBuffer
        case Inside(c) => Finish(k, o, macs, stale, d, csr0, c)
  }

  /** The transmit buffer after gathering. */
  function Filled(out: seq<Byte>, stale: seq<Byte>): (b: seq<Byte>)
    requires |out| <= |stale|
    ensures |b| == |stale|
  {
    out + stale[|out|..]
  }

  /** How many bytes of a chain are the frame's: the chain may end in a check sequence that the host supplies. */
  function FrameSize(o: Options, first: Desc, n: nat): nat
    requires n >= 60
  {
    if o.hostFcs && !Has(first.d1, ADD_FCS) then n - 4 else n
  }

  /** What follows the gathering loop; `first` is the chain's first descriptor. */
  function Finish(k: Ring, o: Options, macs: Munge.Macs, stale: seq<Byte>, first: Desc, csr0: Half, c: Chain): After
    requires RingOk(k) && |c.out| <= |stale|
  {
    if c.broken then
      After(c.ram, c.next % k.len, Set(Clear(Clear(csr0, TXON), TDMD), TINT), Failed)
    else
      var at := if c.next == 0 then 0 else c.next - 1;
      if |c.out| < 60 then
        After(PutStatus(k, c.ram, at, Set(c.last.d1, ERR), Set(Set(c.last.d3, 0x8000), 0x4000)), at % k.len + 1,
              Set(Clear(csr0, TXON), TINT), Failed)
      else
        var buffer := Filled(c.out, stale);
        if !Munge.StaysInside(macs, buffer) then OutsideBuffer
        else
          var frame := Munge.Munge(macs, buffer)[..FrameSize(o, first, |c.out|)];
          After(c.ram, at % k.len + 1, Set(csr0, TINT), Sent(frame))
  }

  /** A complete chain of at least 60 bytes is sent, once, and the transmitter stays on, if and only if its
      descriptors are different ones, it fits the transmit buffer, and the address exchange does not leave that
      buffer.  All chains within one turn of a ring of up to 4096 descriptors have different ones. */
  lemma CompleteChainIsSent(k: Ring, o: Options, macs: Munge.Macs, stale: seq<Byte>, ram: Ram, pos: nat, n: nat,
                            csr0: Half)
    requires RingOk(k) && Complete(k, ram, pos, n) && BuffersClear(k, ram, pos, n, pos, n) && |stale| == MAX_PACKET_SIZE
    requires Has(GetDesc(k, ram, pos).d1, STP) && |Fragments(k, ram, o.pad, pos, n)| >= 60
    ensures var a, all := Transmit(k, o, macs, stale, ram, pos, csr0), Fragments(k, ram, o.pad, pos, n);
            if Receive.Distinct(k, pos, n) && |all| <= MAX_PACKET_SIZE &&
               Munge.StaysInside(macs, Filled(all, stale))
            then
              a.After? && a.csr0 == Set(csr0, TINT) && a.pos == (pos + n - 1) % k.len + 1 &&
              a.outcome == Sent(Munge.Munge(macs, Filled(all, stale))[..FrameSize(o, GetDesc(k, ram, pos), |all|)]) &&
              Returned(k, ram, a.ram, pos, n) && Receive.Untouched(k, [], ram, a.ram, pos, n)
            else if Receive.Distinct(k, pos, n) then a.OutsideBuffer?
            else a.OutsideBuffer? || a.outcome == Failed
    ensures n <= k.len <= 4096 ==> Receive.Distinct(k, pos, n)
  {
    hide GetDesc, Collect, Gather, Fragments, Returned, Receive.Untouched, BuffersClear, Munge.Munge, Has,
         Receive.Distinct, Munge.StaysInside;
    if n <= k.len <= 4096 { Receive.RingIsDistinct(k, pos, n); }
    if Receive.Distinct(k, pos, n) {
      CompleteChainIsGathered(k, o.pad, ram, pos, n);
      var all := Fragments(k, ram, o.pad, pos, n);
      assert [] + all == all;
    } else {
      MeetingBreaks(k, o.pad, ram, pos, n, []);
      OutsideIsTooMuch(k, o.pad, ram, pos, []);
    }
  }

  /** A frame that holds what it claims is sent with its addresses exchanged, whatever the buffer held before. */
  lemma SentFrameIsMunged(macs: Munge.Macs, stale: seq<Byte>, all: seq<Byte>, n: nat)
    requires n <= |all| <= |stale| && Addresses.Sound(all[..n])
    ensures Addresses.AddressesExchanged(macs, all[..n], Munge.Munge(macs, Filled(all, stale))[..n])
    ensures n < |stale| ==> Munge.StaysInside(macs, Filled(all, stale))
  {
    hide Munge.Munge, Munge.HoldsHeaders, Munge.WellFormed, Munge.StaysInside, Addresses.Sound,
         Addresses.AddressesExchanged;
    Addresses.SoundIs(all[..n]);
    Addresses.MungeExchanges(macs, all[..n]);
    var rest := all[n..] + stale[|all|..];
    assert Filled(all, stale) == all[..n] + rest;
    Munge.StaleIsIrrelevant(macs, all[..n], rest);
    if n < |stale| { Munge.WellFormedStaysInside(macs, all[..n], rest); }
  }

  /** The words of a descriptor of a ring at address 0. */
  lemma DescBytes(k: Ring, ram: Ram, pos: nat)
    requires RingOk(k) && k.am79 && k.base == 0
    ensures var c, d := 8 * Place(k, pos), GetDesc(k, ram, pos);
            d.d1 == ram[c + 2] as int * 256 + ram[c + 3] && d.d2 == ram[c + 4] as int * 256 + ram[c + 5]
  {
    hide GetDesc, Place, DescOffset;
    GetDescAtPlace(k, ram, pos);
    var p := Place(k, pos);
    assert CellOf(k, p, 2) == 8 * p + 2 && CellOf(k, p, 3) == 8 * p + 3;
    assert CellOf(k, p, 4) == 8 * p + 4 && CellOf(k, p, 5) == 8 * p + 5;
  }

  /** The first two descriptors at address 0: both the chip's, the first starts a frame, the second ends it, and each
      has a buffer of `size` bytes. */
  predicate TwoDescriptors(ram: Ram, size: nat) {
    ram[2] == 0x82 && ram[3] == 0 && ram[10] == 0x81 && ram[11] == 0 && size <= 65536 &&
    ram[4] as int * 256 + ram[5] == 65536 - size && ram[12] as int * 256 + ram[13] == 65536 - size
  }

  lemma StatusBits()
    ensures Has(0x8200, OWN) && Has(0x8200, STP) && !Has(0x8200, ENP) && Has(0x8100, OWN) && Has(0x8100, ENP)
  {
  }

  /** A ring of 4097 descriptors at the start of the RAM has its first and its last at the same place.  A chain of
      60-byte buffers that begins with the last looks complete after three and cannot be sent. */
  lemma ChainCanMeetItself(o: Options, macs: Munge.Macs, stale: seq<Byte>, csr0: Half, ram: Ram)
    requires TwoDescriptors(ram, 60) && |stale| == MAX_PACKET_SIZE
    ensures var k := Ring(true, 0, 0, 4097);
            Complete(k, ram, 4096, 3) && !Receive.Distinct(k, 4096, 3) &&
            Transmit(k, o, macs, stale, ram, 4096, csr0).After? &&
            Transmit(k, o, macs, stale, ram, 4096, csr0).outcome == Failed
  {
    hide Gather, GetDesc, Has, PutStatus, Clear, ReadData;
    var k := Ring(true, 0, 0, 4097);
    assert Place(k, 4096) == Place(k, 4097) == 0 && Place(k, 4098) == 1;
    DescBytes(k, ram, 4096);
    DescBytes(k, ram, 4097);
    DescBytes(k, ram, 4098);
    StatusBits();
    assert Complete(k, ram, 4098, 1);
    assert Complete(k, ram, 4097, 2);
    var d := GetDesc(k, ram, 4096);
    ClearedBit(d.d1);
    GivenBackElsewhere(k, ram, 4096, 4097, Clear(d.d1, OWN), d.d3);
    GatherTurn(k, o.pad, ram, 4096, []);
    GatherTurn(k, o.pad, PutStatus(k, ram, 4096, Clear(d.d1, OWN), d.d3), 4097, [] + Fragment(k, ram, d, o.pad));
  }

  /** Two different descriptors with buffers of 4000 bytes make a complete chain that runs over the transmit buffer. */
  lemma ChainCanBeTooLong(o: Options, macs: Munge.Macs, stale: seq<Byte>, csr0: Half, ram: Ram)
    requires TwoDescriptors(ram, 4000) && |stale| == MAX_PACKET_SIZE
    ensures var k := Ring(true, 0, 0, 2);
            Complete(k, ram, 0, 2) && Receive.Distinct(k, 0, 2) && |Fragments(k, ram, o.pad, 0, 2)| == 8000 &&
            Transmit(k, o, macs, stale, ram, 0, csr0).OutsideBuffer?
  {
    hide Gather, GetDesc, Has, PutStatus, Clear, Fragment, Fragments, Complete, Receive.Distinct, Place;
    var k := Ring(true, 0, 0, 2);
    TwoLongBuffers(k, o.pad, ram);
    var d := GetDesc(k, ram, 0);
    var r := PutStatus(k, ram, 0, Clear(d.d1, OWN), d.d3);
    LongFragment(k, r, GetDesc(k, ram, 1), o.pad);
    GatherTurn(k, o.pad, ram, 0, []);
    SecondStays(k, ram, Clear(d.d1, OWN), d.d3);
    GatherTurn(k, o.pad, r, 1, [] + Fragment(k, ram, d, o.pad));
  }

  lemma TwoLongBuffers(k: Ring, pad: bool, ram: Ram)
    requires TwoDescriptors(ram, 4000) && k == Ring(true, 0, 0, 2)
    ensures Complete(k, ram, 0, 2) && Receive.Distinct(k, 0, 2) && |Fragments(k, ram, pad, 0, 2)| == 8000
    ensures var d, e := GetDesc(k, ram, 0), GetDesc(k, ram, 1);
            Has(d.d1, OWN) && Has(d.d1, STP) && !Has(d.d1, ENP) && Has(e.d1, OWN) && e.d2 == 65536 - 4000 &&
            |Fragment(k, ram, d, pad)| == 4000
  {
    hide GetDesc, Has, Fragment, Receive.Distinct;
    assert Place(k, 0) == 0 && Place(k, 1) == 1;
    hide Place;
    DescBytes(k, ram, 0);
    DescBytes(k, ram, 1);
    StatusBits();
    assert Complete(k, ram, 1, 1);
    Receive.RingIsDistinct(k, 0, 2);
    LongFragment(k, ram, GetDesc(k, ram, 0), pad);
    LongFragment(k, ram, GetDesc(k, ram, 1), pad);
    assert Fragments(k, ram, pad, 2, 0) == [];
    assert |Fragments(k, ram, pad, 1, 1)| == 4000;
  }

  lemma LongFragment(k: Ring, ram: Ram, d: Desc, pad: bool)
    requires d.d2 == 65536 - 4000
    ensures |Fragment(k, ram, d, pad)| == 4000
  {
    hide ReadData;
  }

  lemma SecondStays(k: Ring, ram: Ram, d1: Half, d3: Half)
    requires k == Ring(true, 0, 0, 2)
    ensures GetDesc(k, PutStatus(k, ram, 0, d1, d3), 1) == GetDesc(k, ram, 1)
  {
    hide GetDesc, PutStatus, PlaceOf;
    PutStatusEffect(k, ram, 0, d1, d3);
    SameDescriptor(k, PutStatus(k, ram, 0, d1, d3), ram, 1);
  }
}
