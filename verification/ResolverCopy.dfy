/**
 The copying functions of bsdsocket_results.cpp in their own form: a socket base with three result buffers, a
 guest allocator, and writes into guest memory through a cursor.
 */
module ResolverCopy {
  import opened GuestMemory
  import opened Options
  import opened ResolverResults
  import Layout = ResolverLayout
  import opened Numbers

  /** A result buffer of the socket base: its guest address and the size it was allocated with. */
  class Slot {
    var address: nat
    var granted: nat

    constructor ()
      ensures address == 0 && granted == 0
    {
      address, granted := 0, 0;
    }
  }

  predicate Apart(a: nat, n: nat, b: nat, k: nat) { a + n <= b || b + k <= a }

  /** The guest's allocated blocks: address and size. */
  predicate HeapOk(heap: map<nat, nat>, top: nat) {
    top < TWO32 &&
    (forall a :: a in heap ==> 0 < a && 0 < heap[a] && a + heap[a] <= top) &&
    forall a, b :: a in heap && b in heap && a != b ==> Apart(a, heap[a], b, heap[b])
  }

  /** A block the allocator may hand out; 0 when it has none. */
  predicate Offered(heap: map<nat, nat>, top: nat, offer: nat, size: nat) {
    offer == 0 || (offer + size <= top && forall a :: a in heap ==> Apart(a, heap[a], offer, size))
  }

  /** A block handed out is none of those in use, and fits beside them. */
  lemma OfferIsNew(heap: map<nat, nat>, top: nat, offer: nat, size: nat)
    requires HeapOk(heap, top) && Offered(heap, top, offer, size) && size > 0
    ensures offer != 0 ==> offer !in heap && HeapOk(heap[offer := size], top)
  {
    if offer != 0 {
      forall a | a in heap
        ensures a != offer
      {
        assert Apart(a, heap[a], offer, size);
      }
    }
  }

  class Resolver {
    const hostent: Slot
    const protoent: Slot
    const servent: Slot
    var mem: seq<Byte>
    ghost var heap: map<nat, nat>
    ghost var written: multiset<int>   // addresses written by the current call
    var errno: int
    var herrno: int

    /** Every buffer is a block of its own, and is remembered with the size it was allocated with. */
    ghost predicate SlotOk(s: Slot)
      reads this`heap, s
    {
      if s.address == 0 then s.granted == 0 else s.address in heap && heap[s.address] == s.granted
    }

    ghost predicate Valid()
      reads this`heap, this`mem, hostent, protoent, servent
    {
      hostent != protoent && hostent != servent && protoent != servent &&
      HeapOk(heap, |mem|) && SlotOk(hostent) && SlotOk(protoent) && SlotOk(servent) &&
      (hostent.address != 0 ==> hostent.address != protoent.address && hostent.address != servent.address) &&
      (protoent.address != 0 ==> protoent.address != servent.address)
    }

    constructor (memory: seq<Byte>, blocks: map<nat, nat>)
      requires HeapOk(blocks, |memory|)
      ensures Valid() && mem == memory && heap == blocks
    {
      hostent := new Slot();
      protoent := new Slot();
      servent := new Slot();
      mem := memory;
      heap := blocks;
      written := multiset{};
      errno, herrno := 0, 0;
    }

    /** Frees are matched: the block exists and has this size. */
    method FreeMem(address: nat, size: nat)
      requires address in heap && heap[address] == size
      modifies this`heap
      ensures heap == old(heap) - {address}
    {
      heap := heap - {address};
    }

    method AllocMem(size: nat, offer: nat) returns (address: nat)
      requires Offered(heap, |mem|, offer, size)
      modifies this`heap
      ensures address == offer && heap == if offer == 0 then old(heap) else old(heap)[offer := size]
    {
      if offer != 0 { heap := heap[offer := size]; }
      address := offer;
    }

    /** The heap once a buffer that is too small has been given back. */
    ghost function Freed(s: Slot, size: nat): map<nat, nat>
      reads this`heap, s
    {
      if s.address != 0 && s.granted < size then heap - {s.address} else heap
    }

    /** A buffer is given back with the size it was allocated with. */
    method GiveBack(slot: Slot)
      requires Valid() && (slot == hostent || slot == protoent || slot == servent) && slot.address != 0
      modifies this`heap, slot
      ensures Valid() && slot.address == 0 && slot.granted == 0 && heap == old(heap) - {old(slot.address)}
    {
      FreeMem(slot.address, slot.granted);
      slot.address := 0;
      slot.granted := 0;
    }

    /** An empty buffer is filled, if the guest has memory left. */
    method Acquire(slot: Slot, size: nat, offer: nat)
      requires Valid() && (slot == hostent || slot == protoent || slot == servent) && slot.address == 0 && size > 0
      requires Offered(heap, |mem|, offer, size)
      modifies this`heap, slot
      ensures Valid() && slot.address == offer && slot.granted == (if offer == 0 then 0 else size)
      ensures heap == if offer == 0 then old(heap) else old(heap)[offer := size]
    {
      OfferIsNew(heap, |mem|, offer, size);
      slot.granted := 0;
      slot.address := AllocMem(size, offer);
      if slot.address != 0 { slot.granted := size; }
    }

    /** result_buffer. */
    method ResultBuffer(slot: Slot, size: nat, offer: nat) returns (ok: bool)
      requires Valid() && (slot == hostent || slot == protoent || slot == servent) && size > 0
      requires Offered(Freed(slot, size), |mem|, offer, size)
      modifies this`heap, this`errno, slot
      ensures Valid()
      ensures ok == (size <= LIMIT && slot.address != 0)
      ensures size > LIMIT || (old(slot.address) != 0 && size <= old(slot.granted)) ==>
                slot.address == old(slot.address) && slot.granted == old(slot.granted) && heap == old(heap)
      ensures size <= LIMIT && (old(slot.address) == 0 || old(slot.granted) < size) ==>
                slot.address == offer && slot.granted == (if offer == 0 then 0 else size) &&
                heap == if offer == 0 then old(Freed(slot, size)) else old(Freed(slot, size))[offer := size]
      ensures ok ==> size <= slot.granted && slot.address + slot.granted <= |mem| && errno == old(errno)
      ensures !ok ==> errno == ENOMEM
    {
      hide Offered, Valid;
      if size > LIMIT {
        errno := ENOMEM;
        return false;
      }
      if slot.address != 0 && slot.granted < size { GiveBack(slot); }
      if slot.address == 0 {
        Acquire(slot, size, offer);
        if slot.address == 0 {
          errno := ENOMEM;
          return false;
        }
      }
      SlotIsInMemory(slot);
      ok := true;
    }

    lemma SlotIsInMemory(slot: Slot)
      requires Valid() && (slot == hostent || slot == protoent || slot == servent) && slot.address != 0
      ensures slot.address + slot.granted <= |mem| < TWO32
    {
    }

    // ----- writes -----

    /** trap_put_bytes. */
    method PutBytes(bs: seq<Byte>, a: nat)
      requires a + |bs| <= |mem|
      modifies this`mem, this`written
      ensures |mem| == |old(mem)| && mem == Poke(old(mem), a, bs) && written == old(written) + Span(a, |bs|)
    {
      mem := mem[..a] + bs + mem[a + |bs|..];
      written := written + Span(a, |bs|);
    }

    /** trap_put_long. */
    method PutLong(a: nat, v: nat)
      requires a + 4 <= |mem| && v < TWO32
      modifies this`mem, this`written
      ensures |mem| == |old(mem)| && mem == Poke(old(mem), a, Long4(v)) && written == old(written) + Span(a, 4)
    {
      PutBytes(Long4(v), a);
    }

    /** put_string. */
    method PutString(cursor: nat, s: Option<Text>) returns (address: nat, next: nat)
      requires cursor + |Chunk(s)| <= |mem|
      modifies this`mem, this`written
      ensures |mem| == |old(mem)| && mem == Poke(old(mem), cursor, Chunk(s)) &&
              written == old(written) + Span(cursor, |Chunk(s)|)
      ensures address == NamePointer(cursor, s) && next == cursor + |Chunk(s)|
    {
      if s.None? {
        PokeNothing(mem, cursor);
        return 0, cursor;
      }
      address := cursor;
      PutBytes(s.value + [0], cursor);
      next := cursor + |s.value| + 1;
    }

    /** put_aliases. */
    method PutAliases(table: nat, cursor: nat, aliases: seq<Text>) returns (next: nat)
      requires Reach(cursor, Terminated(aliases)) && table + 4 * (|aliases| + 1) <= cursor
      requires cursor + |Joined(Terminated(aliases))| <= |mem|
      modifies this`mem, this`written
      ensures |mem| == |old(mem)| && next == cursor + |Joined(Terminated(aliases))|
      ensures LaidOut(old(mem), mem, table, cursor, Terminated(aliases))
      ensures written == old(written) + (Span(table, 4 * (|aliases| + 1)) + Span(cursor, |Joined(Terminated(aliases))|))
    {
      hide Poke, Joined, Span, Laid, Starts, Terminated, Long4;
      next := cursor;
      var i := 0;
      LaidNothing(mem, table, cursor);
      while i < |aliases|
        invariant i <= |aliases| && |mem| == |old(mem)|
        invariant next == cursor + |Joined(Terminated(aliases[..i]))|
        invariant Laid(old(mem), mem, table, cursor, Terminated(aliases[..i]))
        invariant written == old(written) + (Span(table, 4 * i) + Span(cursor, next - cursor))
      {
        OneAlias(cursor, aliases, i);
        LayNext(old(mem), mem, table, cursor, Terminated(aliases[..i]), aliases[i] + [0]);
        var was := next;
        var address;
        address, next := PutString(next, Some(aliases[i]));
        PutLong(table + i * 4, address);
        SpansGrow(old(written), table, i, cursor, was - cursor, next - was);
        i := i + 1;
      }
      assert aliases[..i] == aliases;
      LayZero(old(mem), mem, table, cursor, Terminated(aliases));
      PutLong(table + |aliases| * 4, 0);
      SpansEnd(old(written), table, i, cursor, next - cursor);
    }

    /** One address and the pointer to it. */
    method PutAddress(slot: nat, address: seq<Byte>, at: nat)
      requires slot + 4 <= at < TWO32 && at + |address| <= |mem|
      modifies this`mem, this`written
      ensures |mem| == |old(mem)| && mem == Poke(Poke(old(mem), at, address), slot, Long4(at))
      ensures written == old(written) + Span(slot, 4) + Span(at, |address|)
    {
      hide Poke, Span, Long4;
      PokesCommute(mem, slot, Long4(at), at, address);
      PutLong(slot, at);
      PutBytes(address, at);
    }

    /** The address loop of bsdsock_copy_hostent, with the zero after its table. */
    method PutAddresses(table: nat, at: nat, addresses: seq<seq<Byte>>, length: nat) returns (next: nat)
      requires LongEnough(addresses, length) && Reach(at, Clipped(addresses, length)) &&
               table + 4 * (|addresses| + 1) <= at
      requires at + |Joined(Clipped(addresses, length))| <= |mem|
      modifies this`mem, this`written
      ensures |mem| == |old(mem)| && next == at + |Joined(Clipped(addresses, length))|
      ensures LaidOut(old(mem), mem, table, at, Clipped(addresses, length))
      ensures written ==
              old(written) + (Span(table, 4 * (|addresses| + 1)) + Span(at, |Joined(Clipped(addresses, length))|))
    {
      hide Poke, Joined, Span, Laid, Starts, Clipped, Long4;
      next := at;
      var i := 0;
      LaidNothing(mem, table, at);
      NoAddresses(length);
      while i < |addresses|
        invariant i <= |addresses| && |mem| == |old(mem)|
        invariant next == at + |Joined(Clipped(addresses[..i], length))|
        invariant Laid(old(mem), mem, table, at, Clipped(addresses[..i], length))
        invariant written == old(written) + (Span(table, 4 * i) + Span(at, next - at))
      {
        OneAddress(at, addresses, length, i);
        LayNext(old(mem), mem, table, at, Clipped(addresses[..i], length), addresses[i][..length]);
        PutAddress(table + i * 4, addresses[i][..length], next);
        assert written == old(written) + (Span(table, 4 * (i + 1)) + Span(at, next - at + length)) by {
          SpansGrow(old(written), table, i, at, next - at, length);
        }
        next := next + length;
        i := i + 1;
      }
      assert addresses[..i] == addresses;
      LayZero(old(mem), mem, table, at, Clipped(addresses, length));
      PutLong(table + |addresses| * 4, 0);
      SpansEnd(old(written), table, i, at, next - at);
    }

    // ----- the three structures -----

    /** The bytes of the structure are the image, each has been written once, and nothing else has. */
    ghost predicate Wrote(was: seq<Byte>, base: nat, image: seq<Byte>)
      reads this`mem, this`written
    {
      Has(mem, base, image) && SameOutside(was, mem, base, |image|) && written == Span(base, |image|)
    }

    /** The fixed fields of a host structure. */
    method PutHostLongs(base: nat, na: nat, kind: int, length: nat)
      requires base + 24 + 4 * na < TWO32 && base + 20 <= |mem|
      modifies this`mem, this`written
      ensures |mem| == |old(mem)| && mem == Poke(old(mem), base + 4, HostLongs(base, na, kind, length))
      ensures written == old(written) + Span(base + 4, 16)
    {
      hide Poke, Span, Long4, HostLongs;
      FourLongs(written, base + 4);
      HostLongsAre(base, na, kind, length);
      var l1, l2, l3, l4 := Long4(base + 20), Long4(U32(kind)), Long4(U32(length)), Long4(base + 24 + 4 * na);
      PutLong(base + 4, base + 20);
      PutLong(base + 8, U32(kind));
      PokesJoin(old(mem), base + 4, l1, l2);
      PutLong(base + 12, U32(length));
      PokesJoin(old(mem), base + 4, l1 + l2, l3);
      PutLong(base + 16, base + 24 + 4 * na);
      PokesJoin(old(mem), base + 4, l1 + l2 + l3, l4);
    }

    /** What bsdsock_copy_hostent writes, up to the name. */
    method WriteHostLists(base: nat, ghost name: Option<Text>, aliases: seq<Text>, kind: int, length: nat,
                          addresses: seq<seq<Byte>>)
      returns (cursor: nat)
      requires LongEnough(addresses, length)
      requires HostFits(base, name, Terminated(aliases), Clipped(addresses, length))
      requires base + HostSize(name, Terminated(aliases), Clipped(addresses, length)) <= |mem| && written == multiset{}
      modifies this`mem, this`written
      ensures |mem| == |old(mem)|
      ensures var a, b := Terminated(aliases), Clipped(addresses, length);
              var plan := HostPlan(base, name, a, b, kind, length);
              cursor == plan.g && Has(Last(plan, mem), base, HostImage(base, name, a, b, kind, length)) &&
              SameOutside(old(mem), Last(plan, mem), base, HostSize(name, a, b)) &&
              written + Span(plan.g, |Chunk(name)|) + Span(base, 4) == Span(base, HostSize(name, a, b))
    {
      hide Poke, Span, Long4, Joined, Terminated, Clipped, LaidOut, Has, SameOutside, HostImage, Pointers, Chunk,
           HostLongs,
        NamePointer, Last;
      ghost var a, b := Terminated(aliases), Clipped(addresses, length);
      var table := base + 24 + |aliases| * 4;
      cursor := table + (|addresses| + 1) * 4;
      PutHostLongs(base, |aliases|, kind, length);
      cursor := PutAliases(base + 20, cursor, aliases);
      ghost var m2 := mem;
      cursor := PutAddresses(table, cursor, addresses, length);
      HostFollows(old(mem), m2, mem, base, name, a, b, kind, length);
      HostSpans(base, name, a, b);
    }

    /** Everything bsdsock_copy_hostent writes, once it has its buffer. */
    method WriteHost(base: nat, name: Option<Text>, aliases: seq<Text>, kind: int, length: nat,
                     addresses: seq<seq<Byte>>)
      requires LongEnough(addresses, length)
      requires HostFits(base, name, Terminated(aliases), Clipped(addresses, length))
      requires base + HostSize(name, Terminated(aliases), Clipped(addresses, length)) <= |mem| && written == multiset{}
      modifies this`mem, this`written
      ensures |mem| == |old(mem)|
      ensures Wrote(old(mem), base,
              HostImage(base, name, Terminated(aliases), Clipped(addresses, length), kind, length))
    {
      hide Poke, Span, Long4, Joined, Terminated, Clipped, Has, SameOutside, HostImage, Pointers, Chunk, HostLongs,
           NamePointer;
      var cursor := WriteHostLists(base, name, aliases, kind, length, addresses);
      var address;
      address, cursor := PutString(cursor, name);
      PutLong(base, address);
    }

    /** Writing does not touch the buffers. */
    twostate lemma StaysValid()
      requires old(Valid()) && |mem| == old(|mem|) && heap == old(heap)
      requires unchanged(hostent) && unchanged(protoent) && unchanged(servent)
      ensures Valid()
    {
    }

    /** bsdsock_copy_hostent; `offer` is the block the guest would allocate. */
    method CopyHostent(name: Option<Text>, aliases: Option<seq<Text>>, kind: int, length: int,
                       addresses: Option<seq<seq<Byte>>>, offer: nat)
      returns (ok: bool)
      requires Valid() && length < 0x8000_0000
      requires length >= 0 ==>
                 LongEnough(Items(addresses), length) &&
                 var size := HostSize(name, Terminated(Items(aliases)), Clipped(Items(addresses), length));
                 Offered(Freed(hostent, size), |mem|, offer, size)
      modifies this`mem, this`written, this`heap, this`errno, this`herrno, hostent
      ensures Valid()
      ensures length < 0 ==>
                !ok && errno == 22 && herrno == 3 && mem == old(mem) && heap == old(heap) &&
                hostent.address == old(hostent.address) && hostent.granted == old(hostent.granted)
      ensures length >= 0 ==>
                var a, b := Terminated(Items(aliases)), Clipped(Items(addresses), length);
                var size := HostSize(name, a, b);
                ok == (size <= 0x7fff_ffff && hostent.address != 0) &&
                (!ok ==> errno == 12 && herrno == 3 && mem == old(mem)) &&
                (ok ==>
                   errno == 0 && herrno == 0 && size <= hostent.granted && HostFits(hostent.address, name, a, b) &&
                   Wrote(old(mem), hostent.address, HostImage(hostent.address, name, a, b, kind, length)) &&
                   hostent.address + 20 <= |mem| && HostPointersInside(mem, hostent.address, size, name, a, b) &&
                   ReadHost(mem, hostent.address) == Host(name, Items(aliases), U32(kind), length, b) &&
                   Layout.HostAt(mem, hostent.address, name, Items(aliases), kind, length, Items(addresses)))
    {
      hide Valid, Offered, Terminated, Clipped, Joined, HostImage, Has, SameOutside, ReadHost, HostPointersInside, Span,
           Layout.HostAt;
      written := multiset{};
      if length < 0 {
        errno := EINVAL;
        herrno := NO_RECOVERY;
        return false;
      }
      var names, places := Items(aliases), Items(addresses);
      var aliasBytes, aliasCount := AliasSize(names);
      var size := 28 + |Chunk(name)| + aliasBytes;
      size := size + |places| * (length + 4);
      assert |places| * (length + 4) == |places| * length + 4 * |places|;
      ok := ResultBuffer(hostent, size, offer);
      if !ok {
        herrno := NO_RECOVERY;
        return;
      }
      SlotIsInMemory(hostent);
      label Found:
      WriteHost(hostent.address, name, names, kind, length, places);
      StaysValid@Found();
      HostReadsBack(mem, hostent.address, name, names, kind, length, places);
      Layout.HostIs(mem, hostent.address, name, names, kind, length, places);
      errno := 0;
      herrno := 0;
    }

    /** alias_size. */
    method AliasSize(aliases: seq<Text>) returns (size: nat, count: nat)
      ensures size == |Joined(Terminated(aliases))| + 4 * |aliases| && count == |aliases|
    {
      hide Joined, Terminated;
      size, count := 0, 0;
      NoAliases();
      while count < |aliases|
        invariant count <= |aliases| && size == |Joined(Terminated(aliases[..count]))| + 4 * count
      {
        OneMoreAlias(aliases, count);
        size := size + |aliases[count]| + 1 + 4;
        count := count + 1;
      }
      assert aliases[..count] == aliases;
    }

    /** The fixed fields of a protocol or service structure. */
    method PutEntryLongs(base: nat, table: nat, number: int)
      requires table < TWO32 && base + 12 <= |mem|
      modifies this`mem, this`written
      ensures |mem| == |old(mem)| && mem == Poke(old(mem), base + 4, Long4(table) + Long4(U32(number)))
      ensures written == old(written) + Span(base + 4, 8)
    {
      hide Poke, Span, Long4;
      PutLong(base + 4, table);
      PutLong(base + 8, U32(number));
      PokesJoin(old(mem), base + 4, Long4(table), Long4(U32(number)));
      SpanJoin(base + 4, 4, 4);
    }

    /** What bsdsock_copy_protoent and bsdsock_copy_servent write, up to the name. */
    method WriteEntryLists(base: nat, service: bool, ghost name: Option<Text>, ghost protocol: Option<Text>,
                           aliases: seq<Text>, number: int)
      returns (cursor: nat)
      requires EntryFits(base, if service then 4 else 0, name, protocol, Terminated(aliases))
      requires base + EntrySize(if service then 4 else 0, name, protocol, Terminated(aliases)) <= |mem| &&
               written == multiset{}
      modifies this`mem, this`written
      ensures |mem| == |old(mem)|
      ensures var plan := EntryPlan(base, service, name, protocol, Terminated(aliases), number);
              cursor == plan.g &&
              Has(EntryLast(plan, mem), base, EntryImage(base, service, name, protocol, Terminated(aliases), number)) &&
              SameOutside(old(mem), EntryLast(plan, mem), base, plan.size) &&
              written + Span(plan.g, |Chunk(name)|) + Span(base, 4) + Span(plan.g + |Chunk(name)|, |Chunk(protocol)|) +
              Span(base + 12, if service then 4 else 0) == Span(base, plan.size)
    {
      hide Poke, Span, Long4, Joined, Terminated, LaidOut, Has, SameOutside, EntryImage, Pointers, Chunk, NamePointer,
           EntryLast, EntryPlan;
      EntryPlanIs(base, service, name, protocol, Terminated(aliases), number);
      ghost var plan := EntryPlan(base, service, name, protocol, Terminated(aliases), number);
      var table := base + if service then 16 else 12;
      cursor := table + 4 + |aliases| * 4;
      PutEntryLongs(base, table, number);
      cursor := PutAliases(table, cursor, aliases);
      EntryFollows(old(mem), mem, base, service, name, protocol, Terminated(aliases), number);
      EntryTiles(base, service, name, protocol, Terminated(aliases), number, written);
    }

    /** Everything bsdsock_copy_protoent writes, once it has its buffer. */
    method WriteProto(base: nat, name: Option<Text>, aliases: seq<Text>, number: int)
      requires EntryFits(base, 0, name, None, Terminated(aliases))
      requires base + EntrySize(0, name, None, Terminated(aliases)) <= |mem| && written == multiset{}
      modifies this`mem, this`written
      ensures |mem| == |old(mem)|
      ensures Wrote(old(mem), base, EntryImage(base, false, name, None, Terminated(aliases), number))
    {
      hide Poke, Span, Long4, Joined, Terminated, Has, SameOutside, EntryImage, Pointers, NamePointer;
      var cursor := WriteEntryLists(base, false, name, None, aliases, number);
      var address;
      address, cursor := PutString(cursor, name);
      PutLong(base, address);
      PokeNothing(mem, cursor);
      PokeNothing(mem, base + 12);
      NoSpan(cursor);
      NoSpan(base + 12);
    }

    /** Everything bsdsock_copy_servent writes, once it has its buffer. */
    method WriteServ(base: nat, name: Option<Text>, protocol: Option<Text>, aliases: seq<Text>, number: int)
      requires EntryFits(base, 4, name, protocol, Terminated(aliases))
      requires base + EntrySize(4, name, protocol, Terminated(aliases)) <= |mem| && written == multiset{}
      modifies this`mem, this`written
      ensures |mem| == |old(mem)|
      ensures Wrote(old(mem), base, EntryImage(base, true, name, protocol, Terminated(aliases), number))
    {
      hide Poke, Span, Long4, Joined, Terminated, Has, SameOutside, EntryImage, Pointers, NamePointer, Chunk;
      var cursor := WriteEntryLists(base, true, name, protocol, aliases, number);
      var address;
      address, cursor := PutString(cursor, name);
      PutLong(base, address);
      address, cursor := PutString(cursor, protocol);
      PutLong(base + 12, address);
    }

    /** bsdsock_copy_protoent; `offer` is the block the guest would allocate. */
    method CopyProtoent(name: Option<Text>, aliases: Option<seq<Text>>, number: int, offer: nat) returns (ok: bool)
      requires Valid() && Offered(Freed(protoent, EntrySize(0, name, None, Terminated(Items(aliases)))), |mem|, offer,
                                  EntrySize(0, name, None, Terminated(Items(aliases))))
      modifies this`mem, this`written, this`heap, this`errno, protoent
      ensures Valid()
      ensures var a := Terminated(Items(aliases));
              var size := EntrySize(0, name, None, a);
              ok == (size <= 0x7fff_ffff && protoent.address != 0) &&
              (!ok ==> errno == 12 && mem == old(mem)) &&
              (ok ==>
                 errno == 0 && size <= protoent.granted && EntryFits(protoent.address, 0, name, None, a) &&
                 Wrote(old(mem), protoent.address, EntryImage(protoent.address, false, name, None, a, number)) &&
                 protoent.address + 16 <= |mem| &&
                 ListingPointersInside(mem, protoent.address, size, false, name, None, a) &&
                 ReadListing(mem, protoent.address, false) == Listing(name, Items(aliases), U32(number), None) &&
                 Layout.ProtoAt(mem, protoent.address, name, Items(aliases), number))
    {
      hide Valid, Offered, Terminated, Joined, EntryImage, Has, SameOutside, ReadListing, ListingPointersInside, Span,
           Layout.ProtoAt;
      written := multiset{};
      var names := Items(aliases);
      var aliasBytes, count := AliasSize(names);
      var size := 16 + |Chunk(name)| + aliasBytes;
      ok := ResultBuffer(protoent, size, offer);
      if !ok { return; }
      SlotIsInMemory(protoent);
      label Found:
      WriteProto(protoent.address, name, names, number);
      StaysValid@Found();
      EntryReadsBack(mem, protoent.address, false, name, None, names, number);
      Layout.EntryIs(mem, protoent.address, false, name, None, names, number);
      errno := 0;
    }

    /** bsdsock_copy_servent; `offer` is the block the guest would allocate. */
    method CopyServent(name: Option<Text>, aliases: Option<seq<Text>>, port: int, protocol: Option<Text>, offer: nat)
      returns (ok: bool)
      requires Valid() &&
               Offered(Freed(servent, EntrySize(4, name, protocol, Terminated(Items(aliases)))), |mem|, offer,
                                  EntrySize(4, name, protocol, Terminated(Items(aliases))))
      modifies this`mem, this`written, this`heap, this`errno, servent
      ensures Valid()
      ensures var a := Terminated(Items(aliases));
              var size := EntrySize(4, name, protocol, a);
              ok == (size <= 0x7fff_ffff && servent.address != 0) &&
              (!ok ==> errno == 12 && mem == old(mem)) &&
              (ok ==>
                 errno == 0 && size <= servent.granted && EntryFits(servent.address, 4, name, protocol, a) &&
                 Wrote(old(mem), servent.address, EntryImage(servent.address, true, name, protocol, a, port)) &&
                 servent.address + 16 <= |mem| &&
                 ListingPointersInside(mem, servent.address, size, true, name, protocol, a) &&
                 ReadListing(mem, servent.address, true) == Listing(name, Items(aliases), U32(port), protocol) &&
                 Layout.ServAt(mem, servent.address, name, Items(aliases), port, protocol))
    {
      hide Valid, Offered, Terminated, Joined, EntryImage, Has, SameOutside, ReadListing, ListingPointersInside, Span,
           Layout.ServAt;
      written := multiset{};
      var names := Items(aliases);
      var aliasBytes, count := AliasSize(names);
      var size := 20 + |Chunk(name)| + |Chunk(protocol)| + aliasBytes;
      ok := ResultBuffer(servent, size, offer);
      if !ok { return; }
      SlotIsInMemory(servent);
      label Found:
      WriteServ(servent.address, name, protocol, names, port);
      StaysValid@Found();
      EntryReadsBack(mem, servent.address, true, name, protocol, names, port);
      Layout.EntryIs(mem, servent.address, true, name, protocol, names, port);
      errno := 0;
    }
  }

  lemma NoAliases()
    ensures Joined(Terminated([])) == []
  {
  }

  lemma OneMoreAlias(aliases: seq<Text>, i: nat)
    requires i < |aliases|
    ensures |Joined(Terminated(aliases[..i + 1]))| == |Joined(Terminated(aliases[..i]))| + |aliases[i]| + 1
  {
    hide Joined;
    assert aliases[..i + 1][..i] == aliases[..i];
    OneMore(0, Terminated(aliases[..i]), aliases[i] + [0]);
  }

  /** Where the parts of an entry go. */
  lemma EntryPlanIs(base: nat, service: bool, name: Option<Text>, protocol: Option<Text>, a: seq<seq<Byte>>,
                    number: int)
    requires EntryFits(base, if service then 4 else 0, name, protocol, a)
    ensures var plan, table := EntryPlan(base, service, name, protocol, a, number), base + if service then 16 else 12;
            plan.base == base && table < TWO32 && plan.t == Long4(table) + Long4(U32(number)) &&
            base + 12 + |plan.r| == table && plan.e == table + 4 * (|a| + 1) && |plan.p| == 4 * (|a| + 1) &&
            plan.j == Joined(a) && plan.g == plan.e + |plan.j|
  {
    hide Joined, Chunk, NamePointer;
  }

  /** The fixed fields, the table and the aliases, and what is still to come, tile the entry. */
  lemma EntryTiles(base: nat, service: bool, name: Option<Text>, protocol: Option<Text>, a: seq<seq<Byte>>, number: int,
                   w: multiset<int>)
    requires EntryFits(base, if service then 4 else 0, name, protocol, a)
    requires var plan := EntryPlan(base, service, name, protocol, a, number);
             w == Span(base + 4, 8) + (Span(base + 12 + |plan.r|, |plan.p|) + Span(plan.e, |plan.j|))
    ensures var plan := EntryPlan(base, service, name, protocol, a, number);
            w + Span(plan.g, |Chunk(name)|) + Span(base, 4) + Span(plan.g + |Chunk(name)|, |Chunk(protocol)|) +
            Span(base + 12, if service then 4 else 0) == Span(base, plan.size)
  {
    hide Span, Pointers, Joined, Chunk, Long4, NamePointer;
    EntrySpans(EntryPlan(base, service, name, protocol, a, number));
  }

  lemma NoSpan(a: int)
    ensures Span(a, 0) == multiset{}
  {
  }

  lemma EntryFollows(m0: seq<Byte>, m2: seq<Byte>, base: nat, service: bool, name: Option<Text>, protocol: Option<Text>,
                     a: seq<seq<Byte>>, number: int)
    requires EntryFits(base, if service then 4 else 0, name, protocol, a)
    requires base + EntrySize(if service then 4 else 0, name, protocol, a) <= |m0| && |m2| == |m0|
    requires var plan := EntryPlan(base, service, name, protocol, a, number);
             LaidOut(Poke(m0, base + 4, plan.t), m2, base + 12 + |plan.r|, plan.e, a)
    ensures var plan := EntryPlan(base, service, name, protocol, a, number);
            Has(EntryLast(plan, m2), base, EntryImage(base, service, name, protocol, a, number)) &&
            SameOutside(m0, EntryLast(plan, m2), base, plan.size)
  {
    hide Poke, Long4, Joined, Has, SameOutside, SameExcept, EntryImage, Pointers, Chunk, NamePointer, EntryLast;
    EntryAssembled(m0, m2, base, service, name, protocol, a, number);
  }

  lemma HostLongsAre(base: nat, na: nat, kind: int, length: nat)
    requires base + 24 + 4 * na < TWO32
    ensures HostLongs(base, na, kind, length) ==
            Long4(base + 20) + Long4(U32(kind)) + Long4(U32(length)) + Long4(base + 24 + 4 * na)
  {
  }

  lemma FourLongs(w: multiset<int>, a: nat)
    ensures w + Span(a, 4) + Span(a + 4, 4) + Span(a + 8, 4) + Span(a + 12, 4) == w + Span(a, 16)
  {
    hide Span;
    SpanJoin(a, 4, 4);
    SpanJoin(a, 8, 4);
    SpanJoin(a, 12, 4);
  }

  /** The loops leave what HostAssembled needs. */
  lemma HostFollows(m0: seq<Byte>, m2: seq<Byte>, m3: seq<Byte>, base: nat, name: Option<Text>, a: seq<seq<Byte>>,
                    b: seq<seq<Byte>>, kind: int, length: nat)
    requires HostFits(base, name, a, b) && base + HostSize(name, a, b) <= |m0|
    requires LaidOut(Poke(m0, base + 4, HostLongs(base, |a|, kind, length)), m2, base + 20,
             base + 28 + 4 * |a| + 4 * |b|, a)
    requires LaidOut(m2, m3, base + 24 + 4 * |a|, base + 28 + 4 * |a| + 4 * |b| + |Joined(a)|, b)
    ensures |m3| == |m0|
    ensures var m5 := Last(HostPlan(base, name, a, b, kind, length), m3);
            Has(m5, base, HostImage(base, name, a, b, kind, length)) && SameOutside(m0, m5, base, HostSize(name, a, b))
  {
    hide Poke, Long4, Joined, Has, SameOutside, SameExcept, HostImage, Pointers, Chunk, HostLongs, NamePointer;
    HostAssembled(m0, m2, m3, base, name, a, b, kind, length);
  }

  lemma LaidNothing(m: seq<Byte>, table: nat, at: nat)
    requires 0 < at < TWO32 && table <= at <= |m|
    ensures Joined([]) == [] && Terminated([]) == [] && Laid(m, m, table, at, []) &&
            Span(table, 0) + Span(at, 0) == multiset{}
  {
  }

  lemma NoAddresses(length: nat)
    ensures Clipped([], length) == [] && Joined([]) == []
  {
  }

  lemma Shuffle(w: multiset<int>, a: multiset<int>, b: multiset<int>, c: multiset<int>, d: multiset<int>)
    ensures w + (a + b) + d + c == w + ((a + c) + (b + d))
    ensures w + (a + b) + c + d == w + ((a + c) + (b + d))
    ensures w + (a + b) + c == w + ((a + c) + b)
  {
  }

  /** One more chunk and one more pointer, in either order of writing. */
  lemma SpansGrow(w: multiset<int>, table: nat, i: nat, at: nat, n: nat, k: nat)
    ensures var w1 := w + (Span(table, 4 * i) + Span(at, n));
            var w2 := w + (Span(table, 4 * (i + 1)) + Span(at, n + k));
            w1 + Span(at + n, k) + Span(table + 4 * i, 4) == w2 && w1 + Span(table + 4 * i, 4) + Span(at + n, k) == w2
  {
    hide Span;
    SpanJoin(table, 4 * i, 4);
    SpanJoin(at, n, k);
    Shuffle(w, Span(table, 4 * i), Span(at, n), Span(table + 4 * i, 4), Span(at + n, k));
  }

  lemma SpansEnd(w: multiset<int>, table: nat, i: nat, at: nat, n: nat)
    ensures w + (Span(table, 4 * i) + Span(at, n)) + Span(table + 4 * i, 4) ==
            w + (Span(table, 4 * (i + 1)) + Span(at, n))
  {
    hide Span;
    SpanJoin(table, 4 * i, 4);
    Shuffle(w, Span(table, 4 * i), Span(at, n), Span(table + 4 * i, 4), multiset{});
  }

  lemma OneAddress(at: nat, addresses: seq<seq<Byte>>, length: nat, i: nat)
    requires i < |addresses| && LongEnough(addresses, length) && Reach(at, Clipped(addresses, length))
    ensures Clipped(addresses[..i + 1], length) == Clipped(addresses[..i], length) + [addresses[i][..length]]
    ensures Reach(at, Clipped(addresses[..i + 1], length))
    ensures Joined(Clipped(addresses[..i + 1], length)) ==
            Joined(Clipped(addresses[..i], length)) + addresses[i][..length]
    ensures |Joined(Clipped(addresses[..i + 1], length))| <= |Joined(Clipped(addresses, length))|
  {
    assert addresses[..i + 1][..i] == addresses[..i];
    OneMore(at, Clipped(addresses[..i], length), addresses[i][..length]);
    PrefixIsShorter(Clipped(addresses, length), Clipped(addresses[..i + 1], length));
  }

  lemma OneAlias(at: nat, aliases: seq<Text>, i: nat)
    requires i < |aliases| && Reach(at, Terminated(aliases))
    ensures Terminated(aliases[..i + 1]) == Terminated(aliases[..i]) + [aliases[i] + [0]]
    ensures Reach(at, Terminated(aliases[..i + 1]))
    ensures Joined(Terminated(aliases[..i + 1])) == Joined(Terminated(aliases[..i])) + (aliases[i] + [0])
    ensures |Joined(Terminated(aliases[..i + 1]))| <= |Joined(Terminated(aliases))|
  {
    assert aliases[..i + 1][..i] == aliases[..i];
    OneMore(at, Terminated(aliases[..i]), aliases[i] + [0]);
    PrefixIsShorter(Terminated(aliases), Terminated(aliases[..i + 1]));
  }

  lemma {:induction false} PrefixIsShorter(cs: seq<seq<Byte>>, ds: seq<seq<Byte>>)
    requires |ds| <= |cs| && forall j :: 0 <= j < |ds| ==> ds[j] == cs[j]
    ensures |Joined(ds)| <= |Joined(cs)|
    decreases |cs|
  {
    var n := |cs| - 1;
    if |ds| == |cs| {
      assert ds == cs;
    } else {
      PrefixIsShorter(cs[..n], ds);
    }
  }
}
