/**
 Exchanging the card's Ethernet address with the host's in a frame, and repairing the UDP checksum of a
 DHCP datagram whose body holds the address (a2065.cpp:166-257).

 The exchange works on a packet buffer: the frame and, behind it, whatever the buffer still holds.  `Munge` is applied
 to the whole buffer; where it would read or write behind the buffer (there `At` is zero and `Poke` does nothing), the
 program's behaviour is undefined.  `StaysInside` says exactly when that does not happen, and `StaleIsIrrelevant` that
 the bytes behind a frame that holds what it claims do not matter.
 */
module A2065Munge {
  import opened Numbers
  import opened Options
  import Board = A2065Ram

  type Frame = seq<Byte>

  type Mac = m: seq<Byte> | |m| == 6 witness [0, 0, 0, 0, 0, 0]

  function At(p: Frame, i: nat): Byte { if i < |p| then p[i] else 0 }

  function WordAt(p: Frame, i: nat): (w: nat)
    ensures w < 65536
  {
    At(p, i) * 256 + At(p, i + 1)
  }

  function Poke(p: Frame, i: nat, v: Byte): (q: Frame)
    ensures |q| == |p|
  {
    if i < |p| then p[i := v] else p
  }

  datatype Macs = Macs(fake: Mac, host: Mac)

  /** dofakemac on six bytes. */
  function Exchange(m: Macs, x: Mac): Mac {
    if m.fake == m.host then x else if x == m.fake then m.host else if x == m.host then m.fake else x
  }

  predicate Exchanged(m: Macs, x: Mac) { m.fake == m.host || x == m.fake || x == m.host }

  predicate Inside(p: Frame, off: nat) { off + 6 <= |p| }

  function MacAt(p: Frame, off: nat): Mac
    requires Inside(p, off)
  {
    p[off..off + 6]
  }

  function PutMac(p: Frame, off: nat, x: Mac): (q: Frame)
    requires Inside(p, off)
    ensures |q| == |p|
  {
    p[..off] + x + p[off + 6..]
  }

  function ExchangeAt(m: Macs, p: Frame, off: nat): (q: Frame)
    ensures |q| == |p|
  {
    if Inside(p, off) then PutMac(p, off, Exchange(m, MacAt(p, off))) else p
  }

  // ----- the checksum -----

  /** The sum of the 16-bit words at `i`, `i`+2, ... below `end`. */
  function WordSum(p: Frame, i: nat, end: nat): nat
    decreases if i < end then end - i else 0
  {
    if i < end then WordAt(p, i) + WordSum(p, i + 2, end) else 0
  }

  /** Datagram of `n` bytes at `u`, and pseudo-header: addresses from the IPv4 header at 14, protocol 17, length. */
  function UdpSum(p: Frame, u: nat, n: nat): nat {
    WordSum(p, u, u + (n + 1) / 2 * 2) + WordAt(p, 26) + WordAt(p, 28) + WordAt(p, 30) + WordAt(p, 32) + 17 + n
  }

  /** Add the carries back in until the sum fits in sixteen bits (RFC 1071, section 1). */
  function Fold(s: nat): (r: nat)
    ensures r < 65536
  {
    if s < 65536 then s else Fold(s % 65536 + s / 65536)
  }

  /** The frame with zeros for the checksum and the byte after the datagram. */
  function Blanked(p: Frame, u: nat): (q: Frame)
    ensures |q| == |p|
  {
    Poke(Poke(Poke(p, u + 6, 0), u + 7, 0), u + WordAt(p, u + 4), 0)
  }

  /** Blank, sum, and store the complement. */
  function FixChecksum(p: Frame, u: nat): (q: Frame)
    ensures |q| == |p|
  {
    var z := Blanked(p, u);
    var c := 65535 - Fold(UdpSum(z, u, WordAt(p, u + 4)));
    Poke(Poke(z, u + 6, c / 256), u + 7, c % 256)
  }

  // ----- what kind of frame it is: decided by bytes that no exchange changes -----

  datatype Kind = Arp | Dhcp(u: nat) | Other

  function UdpStart(p: Frame): nat { 14 + At(p, 14) % 16 * 4 }

  predicate DhcpPort(n: nat) { n == 67 || n == 68 }

  function KindOf(p: Frame): Kind {
    if WordAt(p, 12) == 0x0806 then
      if WordAt(p, 14) == 1 && At(p, 18) == 6 then Arp else Other
    else if WordAt(p, 12) == 0x0800 && At(p, 23) == 17 &&
            (DhcpPort(WordAt(p, UdpStart(p))) || DhcpPort(WordAt(p, UdpStart(p) + 2))) then
      Dhcp(UdpStart(p))
    else Other
  }

  /** Where a frame of this kind carries Ethernet addresses. */
  function Places(kind: Kind): seq<nat> {
    match kind
    case Other => [0, 6]
    case Arp => [0, 6, 22, 32]
    case Dhcp(u) => [0, 6, u + 36]
  }

  function ExchangeAll(m: Macs, p: Frame, places: seq<nat>): (q: Frame)
    ensures |q| == |p|
    decreases |places|
  {
    if places == [] then p else ExchangeAll(m, ExchangeAt(m, p, places[0]), places[1..])
  }

  /** The datagram has a checksum and its client address is about to change. */
  predicate NeedsFix(m: Macs, p: Frame, u: nat) {
    Inside(p, u + 36) && Exchanged(m, MacAt(p, u + 36)) && (At(p, u + 6) != 0 || At(p, u + 7) != 0)
  }

  /** mungepacket, with the option on. */
  function Munge(m: Macs, p: Frame): (q: Frame)
    ensures |q| == |p|
  {
    if |p| < 20 || m.fake == m.host then p
    else
      var x := ExchangeAll(m, p, Places(KindOf(p)));
      match KindOf(p)
      case Dhcp(u) => if NeedsFix(m, p, u) then FixChecksum(x, u) else x
      case _ => x
  }

  /** The exchange touches no byte behind the buffer: the byte after a datagram that is repaired lies inside.
      (Addresses and headers end before byte 116, and the sum before the byte after the datagram.) */
  predicate StaysInside(m: Macs, b: Frame) {
    m.fake == m.host || !KindOf(b).Dhcp? || !NeedsFix(m, b, KindOf(b).u) ||
    KindOf(b).u + WordAt(b, KindOf(b).u + 4) < |b|
  }

  // ----- the repaired checksum is right -----

  lemma {:induction false} FoldMod(s: nat)
    ensures Fold(s) % 65535 == s % 65535 && (Fold(s) == 0 <==> s == 0)
  {
    if s >= 65536 {
      FoldMod(s % 65536 + s / 65536);
      var h, x := s / 65536, s % 65536 + s / 65536;
      assert s == 65535 * h + x;
      DivisionIsUnique(65535, h + x / 65535, x % 65535);
    }
  }

  lemma {:induction false} WordSumSplit(p: Frame, i: nat, mid: nat, end: nat)
    requires i <= mid <= end && (mid - i) % 2 == 0
    ensures WordSum(p, i, end) == WordSum(p, i, mid) + WordSum(p, mid, end)
    decreases mid - i
  {
    if i < mid { WordSumSplit(p, i + 2, mid, end); }
  }

  lemma {:induction false} SameWordSum(p: Frame, q: Frame, i: nat, end: nat)
    requires (end - i) % 2 == 0
    requires forall j: nat :: i <= j < end ==> At(p, j) == At(q, j)
    ensures WordSum(p, i, end) == WordSum(q, i, end)
    decreases if i < end then end - i else 0
  {
    if i < end { SameWordSum(p, q, i + 2, end); }
  }

  /** Changing one aligned word changes the sum by the difference. */
  lemma WordSumPoke(z: Frame, q: Frame, u: nat, end: nat)
    requires u + 8 <= end && (end - u) % 2 == 0
    requires forall j: nat :: u <= j < end && j != u + 6 && j != u + 7 ==> At(q, j) == At(z, j)
    requires WordAt(z, u + 6) == 0
    ensures WordSum(q, u, end) == WordSum(z, u, end) + WordAt(q, u + 6)
  {
    WordSumSplit(z, u, u + 6, end);
    WordSumSplit(q, u, u + 6, end);
    SameWordSum(z, q, u, u + 6);
    SameWordSum(z, q, u + 8, end);
  }

  /** The datagram lies in the frame, is long enough for a DHCP client address, and its IPv4 header is not cut short. */
  predicate HoldsDatagram(p: Frame, u: nat) {
    u >= 34 && 42 <= WordAt(p, u + 4) && u + WordAt(p, u + 4) <= |p|
  }

  lemma ComplementMod(s: nat, f: nat)
    requires f < 65536 && f % 65535 == s % 65535
    ensures (s + (65535 - f)) % 65535 == 0
  {
    DivisionIsUnique(65535, s / 65535 - f / 65535 + 1, 0);
  }

  lemma StoredComplement(z: Frame, q: Frame, u: nat, n: nat)
    requires u >= 34 && n >= 42 && WordAt(z, u + 6) == 0
    requires forall j: nat :: j != u + 6 && j != u + 7 ==> At(q, j) == At(z, j)
    requires WordAt(q, u + 6) == 65535 - Fold(UdpSum(z, u, n))
    ensures Fold(UdpSum(q, u, n)) == 0xffff
  {
    hide Fold, WordSum, At;
    var s := UdpSum(z, u, n);
    WordSumPoke(z, q, u, u + (n + 1) / 2 * 2);
    assert UdpSum(q, u, n) == s + (65535 - Fold(s));
    FoldMod(s);
    ComplementMod(s, Fold(s));
    FoldMod(s + (65535 - Fold(s)));
  }

  lemma CheckBytes(z: Frame, u: nat, c: nat)
    requires u + 8 <= |z| && c < 65536
    ensures var q := Poke(Poke(z, u + 6, c / 256), u + 7, c % 256);
            WordAt(q, u + 6) == c && forall j: nat :: j != u + 6 && j != u + 7 ==> At(q, j) == At(z, j)
  {
  }

  /** After the repair, datagram and pseudo-header, stored checksum included, add up to all ones. */
  lemma FixedSumsToOnes(p: Frame, u: nat)
    requires HoldsDatagram(p, u)
    ensures Fold(UdpSum(FixChecksum(p, u), u, WordAt(p, u + 4))) == 0xffff
    ensures WordAt(FixChecksum(p, u), u + 4) == WordAt(p, u + 4)
    ensures forall j: nat :: j != u + 6 && j != u + 7 && j != u + WordAt(p, u + 4) ==>
            At(FixChecksum(p, u), j) == At(p, j)
  {
    hide Fold, UdpSum;
    var z, n := Blanked(p, u), WordAt(p, u + 4);
    CheckBytes(z, u, 65535 - Fold(UdpSum(z, u, n)));
    StoredComplement(z, FixChecksum(p, u), u, n);
  }

  // ----- a checksum of zero -----

  /** RFC 768 keeps the checksum 0 for datagrams without one and has 0xffff stored for a computed zero.  The program
      means to, but tests all 32 bits of the complement, which are never all zero: it stores 0 exactly when the sum
      of the blanked datagram is a multiple of 65535. */
  lemma ZeroIsStored(p: Frame, u: nat)
    requires HoldsDatagram(p, u)
    ensures WordAt(FixChecksum(p, u), u + 6) == 0 <==> UdpSum(Blanked(p, u), u, WordAt(p, u + 4)) % 65535 == 0
  {
    hide Fold, WordSum, Blanked, At;
    var s := UdpSum(Blanked(p, u), u, WordAt(p, u + 4));
    CheckBytes(Blanked(p, u), u, 65535 - Fold(s));
    FoldMod(s);
  }

  const CARD: Mac := [0, 0, 0, 0, 0, 1]
  const HOST: Mac := [0, 0, 0, 0, 0, 2]

  function RequestByte(client: Byte, i: nat): Byte {
    match i
    case 12 => 8
    case 14 => 0x45
    case 23 => 17
    case 26 => 255
    case 27 => 17
    case 35 => 68
    case 37 => 67
    case 39 => 42
    case 40 => 1
    case 75 => client
    case _ => 0
  }

  /** A DHCP request of 42 bytes from 255.17.0.0 port 68 to port 67, with a checksum, for the address `client`. */
  function Request(client: Byte): Frame { seq(77, i requires 0 <= i < 77 => RequestByte(client, i)) }

  lemma {:induction false} ZeroSum(p: Frame, i: nat, end: nat)
    requires (end - i) % 2 == 0 && forall k: nat :: i <= k < end ==> At(p, k) == 0
    ensures WordSum(p, i, end) == 0
    decreases if i < end then end - i else 0
  {
    if i < end { ZeroSum(p, i + 2, end); }
  }

  lemma BlankedRequest(i: nat)
    ensures At(Blanked(Request(2), 34), i) == if i == 40 then 0 else RequestByte(2, i)
  {
    hide RequestByte;
    assert WordAt(Request(2), 38) == 42 by { Length(); }
    if i >= 76 { Padding(i); }
    if i == 41 { Padding(i); }
  }

  lemma Length()
    ensures RequestByte(2, 38) == 0 && RequestByte(2, 39) == 42
  {
  }

  lemma Padding(i: nat)
    requires i == 41 || i >= 76
    ensures RequestByte(2, i) == 0
  {
  }

  lemma SumHead(p: Frame, i: nat, end: nat, hi: Byte, lo: Byte)
    requires i < end && At(p, i) == hi && At(p, i + 1) == lo
    ensures WordSum(p, i, end) == hi * 256 + lo + WordSum(p, i + 2, end)
  {
  }

  lemma RequestSum()
    ensures UdpSum(Blanked(Request(2), 34), 34, 42) == 65535
  {
    hide WordSum, Blanked, Request, At;
    var z := Blanked(Request(2), 34);
    forall i: nat ensures At(z, i) == if i == 40 then 0 else RequestByte(2, i) { BlankedRequest(i); }
    SumHead(z, 34, 76, 0, 68);
    SumHead(z, 36, 76, 0, 67);
    SumHead(z, 38, 76, 0, 42);
    WordSumSplit(z, 40, 74, 76);
    ZeroSum(z, 40, 74);
    SumHead(z, 74, 76, 0, 2);
    ZeroSum(z, 76, 76);
    assert WordAt(z, 26) == 65297 && WordAt(z, 28) == WordAt(z, 30) == WordAt(z, 32) == 0;
  }

  /** A datagram that had a checksum and leaves the exchange without one. */
  lemma ChecksumCanVanish()
    ensures var p, q := Request(1), Munge(Macs(CARD, HOST), Request(1));
            WellFormed(p) && KindOf(p) == Dhcp(34) && WordAt(p, 40) != 0 && WordAt(q, 40) == 0
  {
    hide FixChecksum, Blanked, Fold, UdpSum, ExchangeAll, KindOf, HoldsDatagram;
    var m, p := Macs(CARD, HOST), Request(1);
    RequestKind(1);
    RequestKind(2);
    assert MacAt(p, 70) == CARD by { RequestAddress(1); }
    RequestExchanged();
    RequestSum();
    ZeroIsStored(Request(2), 34);
  }

  lemma RequestKind(client: Byte)
    ensures KindOf(Request(client)) == Dhcp(34) && HoldsDatagram(Request(client), 34)
    ensures WordAt(Request(client), 38) == 42 && At(Request(client), 40) == 1
  {
  }

  lemma RequestAddress(client: Byte)
    ensures |Request(client)| == 77 && MacAt(Request(client), 0) == MacAt(Request(client), 6) == [0, 0, 0, 0, 0, 0]
    ensures MacAt(Request(client), 70) == [0, 0, 0, 0, 0, client]
  {
  }

  lemma NotExchanged(m: Macs, p: Frame, off: nat)
    requires Inside(p, off) && !Exchanged(m, MacAt(p, off))
    ensures ExchangeAt(m, p, off) == p
  {
  }

  lemma RequestExchanged()
    ensures ExchangeAll(Macs(CARD, HOST), Request(1), [0, 6, 70]) == Request(2)
  {
    hide ExchangeAt, Request, MacAt;
    var m, p := Macs(CARD, HOST), Request(1);
    RequestAddress(1);
    NotExchanged(m, p, 0);
    NotExchanged(m, p, 6);
    ClientExchanged();
    assert [0, 6, 70][1..] == [6, 70] && [6, 70][1..] == [70] && [70][1..] == [];
    assert ExchangeAll(m, p, [70]) == ExchangeAll(m, Request(2), []);
  }

  lemma ClientExchanged()
    ensures ExchangeAt(Macs(CARD, HOST), Request(1), 70) == Request(2)
  {
    hide Request;
    RequestAddress(1);
    ClientPut();
  }

  lemma ClientPut()
    ensures |Request(1)| == 77 && PutMac(Request(1), 70, HOST) == Request(2)
  {
    assert forall i: nat :: i != 75 ==> RequestByte(1, i) == RequestByte(2, i);
    assert RequestByte(2, 75) == 2;
    assert forall i :: 70 <= i < 75 ==> RequestByte(2, i) == 0;
  }

  // ----- munging twice -----

  lemma ExchangeTwice(m: Macs, x: Mac)
    ensures Exchange(m, Exchange(m, x)) == x
  {
  }

  /** Six bytes are exchanged and the others stay. */
  lemma ExchangeAtBytes(m: Macs, p: Frame, off: nat)
    requires Inside(p, off)
    ensures MacAt(ExchangeAt(m, p, off), off) == Exchange(m, MacAt(p, off))
    ensures forall j: nat :: j < off || j >= off + 6 ==> At(ExchangeAt(m, p, off), j) == At(p, j)
  {
  }

  /** The place among `places` whose six bytes include byte `j`. */
  function Owner(places: seq<nat>, j: nat): Option<nat> {
    if places == [] then None
    else if places[0] <= j < places[0] + 6 then Some(places[0])
    else Owner(places[1..], j)
  }

  predicate Spread(places: seq<nat>) {
    forall i, k :: 0 <= i < k < |places| ==> places[i] + 6 <= places[k]
  }

  predicate AllInside(p: Frame, places: seq<nat>) { forall i :: 0 <= i < |places| ==> Inside(p, places[i]) }

  lemma {:induction false} OwnerIsPlace(places: seq<nat>, j: nat)
    ensures Owner(places, j).Some? ==>
            Owner(places, j).value in places && Owner(places, j).value <= j < Owner(places, j).value + 6
    ensures Owner(places, j).None? ==> forall i :: 0 <= i < |places| ==> !(places[i] <= j < places[i] + 6)
  {
    if places != [] {
      OwnerIsPlace(places[1..], j);
      forall i | 0 <= i < |places| && Owner(places, j).None? ensures !(places[i] <= j < places[i] + 6) {
        if i > 0 { assert places[i] == places[1..][i - 1]; }
      }
    }
  }

  /** What becomes of byte `j` when addresses are exchanged. */
  function ByteAfter(m: Macs, p: Frame, places: seq<nat>, j: nat): Byte {
    match Owner(places, j)
    case Some(off) => if Inside(p, off) && off <= j < off + 6 then Exchange(m, MacAt(p, off))[j - off] else At(p, j)
    case None => At(p, j)
  }

  lemma LaterMac(m: Macs, p: Frame, off: nat, o: nat)
    requires Inside(p, off) && Inside(p, o) && off + 6 <= o
    ensures MacAt(ExchangeAt(m, p, off), o) == MacAt(p, o)
  {
  }

  lemma {:induction false} ExchangeAllByte(m: Macs, p: Frame, places: seq<nat>, j: nat)
    requires Spread(places) && AllInside(p, places)
    ensures At(ExchangeAll(m, p, places), j) == ByteAfter(m, p, places, j)
    decreases |places|
  {
    hide ExchangeAt, Exchange;
    if places != [] {
      var off, rest := places[0], places[1..];
      var x := ExchangeAt(m, p, off);
      forall i | 0 <= i < |rest| ensures Inside(x, rest[i]) && rest[i] == places[i + 1] { }
      ExchangeAllByte(m, x, rest, j);
      ExchangeAtBytes(m, p, off);
      OwnerIsPlace(rest, j);
      match Owner(rest, j)
      case None =>
        assert At(x, j) == if off <= j < off + 6 then MacAt(x, off)[j - off] else At(p, j);
      case Some(o) =>
        var i :| 0 <= i < |rest| && rest[i] == o;
        assert places[i + 1] == o && off + 6 <= o;
        LaterMac(m, p, off, o);
    }
  }

  lemma MacAfter(m: Macs, p: Frame, q: Frame, places: seq<nat>, i: nat)
    requires Spread(places) && AllInside(p, places) && |q| == |p| && i < |places|
    requires forall k: nat :: Owner(places, k).Some? ==> At(q, k) == At(ExchangeAll(m, p, places), k)
    ensures MacAt(q, places[i]) == Exchange(m, MacAt(p, places[i]))
  {
    hide ExchangeAll, Owner, Exchange;
    var off := places[i];
    forall t | 0 <= t < 6
      ensures MacAt(q, off)[t] == Exchange(m, MacAt(p, off))[t]
    {
      OwnerUnique(places, i, off + t);
      ExchangeAllByte(m, p, places, off + t);
      assert At(q, off + t) == Exchange(m, MacAt(p, off))[t];
    }
  }

  /** Exchanging the addresses of a frame that has the exchanged addresses of `p` brings back those of `p`. */
  lemma ExchangeAllTwice(m: Macs, p: Frame, q: Frame, places: seq<nat>, j: nat)
    requires Spread(places) && AllInside(p, places) && |q| == |p|
    requires forall k: nat :: Owner(places, k).Some? ==> At(q, k) == At(ExchangeAll(m, p, places), k)
    ensures At(ExchangeAll(m, q, places), j) == At(if Owner(places, j).Some? then p else q, j)
  {
    hide ExchangeAll, Owner, Exchange;
    assert AllInside(q, places);
    ExchangeAllByte(m, q, places, j);
    OwnerIsPlace(places, j);
    if Owner(places, j).Some? {
      var i :| 0 <= i < |places| && places[i] == Owner(places, j).value;
      MacAfter(m, p, q, places, i);
      ExchangeTwice(m, MacAt(p, places[i]));
    }
  }

  lemma {:induction false} OwnerUnique(places: seq<nat>, i: nat, j: nat)
    requires Spread(places) && i < |places| && places[i] <= j < places[i] + 6
    ensures Owner(places, j) == Some(places[i])
    decreases |places|
  {
    if i > 0 {
      assert places[0] + 6 <= places[i];
      OwnerUnique(places[1..], i - 1, j);
    }
  }

  predicate WellFormed(p: Frame) {
    |p| >= 20 &&
    match KindOf(p)
    case Other => true
    case Arp => |p| >= 38
    case Dhcp(u) => HoldsDatagram(p, u)
  }

  /** The bytes a checksum repair may overwrite: the checksum, and the byte after the datagram. */
  predicate Scratch(p: Frame, j: nat) {
    match KindOf(p)
    case Dhcp(u) => j == u + 6 || j == u + 7 || j == u + WordAt(p, u + 4)
    case _ => false
  }

  lemma PlacesAreSane(p: Frame)
    requires WellFormed(p)
    ensures Spread(Places(KindOf(p))) && AllInside(p, Places(KindOf(p)))
    ensures forall j: nat :: Scratch(p, j) ==> Owner(Places(KindOf(p)), j) == None
  {
    forall j: nat | Scratch(p, j) ensures Owner(Places(KindOf(p)), j) == None { OwnerIsPlace(Places(KindOf(p)), j); }
  }

  /** The bytes that decide a frame's kind are neither addresses nor scratch. */
  lemma SameKind(p: Frame, q: Frame)
    requires WellFormed(p) && |q| == |p|
    requires forall j: nat :: Owner(Places(KindOf(p)), j).None? && !Scratch(p, j) ==> At(q, j) == At(p, j)
    ensures KindOf(q) == KindOf(p) && WellFormed(q)
    ensures forall j: nat :: Scratch(q, j) <==> Scratch(p, j)
  {
    hide Owner;
    var places := Places(KindOf(p));
    forall j: nat | Decisive(KindOf(p), j)
      ensures At(q, j) == At(p, j)
    {
      OwnerIsPlace(places, j);
    }
    assert forall j: nat :: 12 <= j < 22 ==> Decisive(KindOf(p), j);
  }

  /** The bytes that decide the kind. */
  predicate Decisive(kind: Kind, j: nat) {
    match kind
    case Other => 12 <= j
    case Arp => 12 <= j < 22
    case Dhcp(u) => 12 <= j < 34 || u <= j < u + 6
  }

  /** Outside the scratch bytes, munging is exchanging. */
  lemma MungeBytes(m: Macs, p: Frame, j: nat)
    requires WellFormed(p) && m.fake != m.host && !Scratch(p, j)
    ensures At(Munge(m, p), j) == At(ExchangeAll(m, p, Places(KindOf(p))), j)
  {
    hide ExchangeAll, Owner;
    var places := Places(KindOf(p));
    var x := ExchangeAll(m, p, places);
    PlacesAreSane(p);
    if KindOf(p).Dhcp? {
      var u := KindOf(p).u;
      forall k: nat | u + 4 <= k < u + 6 ensures At(x, k) == At(p, k) {
        ExchangeAllByte(m, p, places, k);
        OwnerIsPlace(places, k);
      }
      assert WordAt(x, u + 4) == WordAt(p, u + 4);
      FixedSumsToOnes(x, u);
    }
  }

  /** Munging a well-formed frame twice restores every byte but the checksum and the pad byte. */
  lemma MungeTwice(m: Macs, p: Frame, j: nat)
    requires WellFormed(p)
    ensures |Munge(m, Munge(m, p))| == |p|
    ensures !Scratch(p, j) ==> At(Munge(m, Munge(m, p)), j) == At(p, j)
  {
    hide ExchangeAll, Owner, Munge;
    if m.fake == m.host {
      MungeOff(m, p);
    } else {
      var q, places := Munge(m, p), Places(KindOf(p));
      PlacesAreSane(p);
      forall k: nat | !Scratch(p, k)
        ensures At(q, k) == At(ExchangeAll(m, p, places), k)
        ensures Owner(places, k).None? ==> At(q, k) == At(p, k)
      {
        MungeBytes(m, p, k);
        ExchangeAllByte(m, p, places, k);
      }
      SameKind(p, q);
      if !Scratch(p, j) {
        MungeBytes(m, q, j);
        ExchangeAllTwice(m, p, q, places, j);
      }
    }
  }

  // ----- what lies behind the frame -----

  /** The headers that decide about the frame are in it. */
  predicate HoldsHeaders(p: Frame) {
    |p| >= 20 &&
    (WordAt(p, 12) == 0x0800 ==> |p| >= 24 && (At(p, 23) == 17 ==> UdpStart(p) + 4 <= |p|))
  }

  lemma SameKindInBuffer(p: Frame, t: Frame)
    requires HoldsHeaders(p)
    ensures KindOf(p + t) == KindOf(p)
  {
    assert forall j: nat :: j < |p| ==> At(p + t, j) == At(p, j);
  }

  /** Exchanging addresses inside the frame leaves the bytes behind it. */
  lemma {:induction false} ExchangeInFrame(m: Macs, p: Frame, t: Frame, places: seq<nat>)
    requires AllInside(p, places)
    ensures ExchangeAll(m, p + t, places) == ExchangeAll(m, p, places) + t
    decreases |places|
  {
    hide Exchange;
    if places != [] {
      var x, off := ExchangeAt(m, p, places[0]), places[0];
      assert MacAt(p + t, off) == MacAt(p, off);
      assert ExchangeAt(m, p + t, off) == x + t;
      forall i | 0 <= i < |places[1..]| ensures Inside(x, places[1..][i]) { assert places[1..][i] == places[i + 1]; }
      ExchangeInFrame(m, x, t, places[1..]);
    }
  }

  /** The repair of a datagram that lies in the frame does not look behind it. */
  lemma FixInFrame(p: Frame, t: Frame, u: nat)
    requires HoldsDatagram(p, u)
    ensures FixChecksum(p + t, u)[..|p|] == FixChecksum(p, u)
  {
    hide Fold;
    var n := WordAt(p, u + 4);
    var z, y := Blanked(p, u), Blanked(p + t, u);
    assert WordAt(p + t, u + 4) == n;
    assert y[..|p|] == z;
    assert forall j: nat :: j < |p| ==> At(y, j) == At(z, j);
    assert At(y, u + n) == At(z, u + n) == 0;
    SameWordSum(y, z, u, u + (n + 1) / 2 * 2);
    assert UdpSum(y, u, n) == UdpSum(z, u, n);
  }

  /** A frame that holds what it claims is exchanged the same whatever lies behind it in the buffer. */
  lemma StaleIsIrrelevant(m: Macs, p: Frame, t: Frame)
    requires HoldsHeaders(p) && WellFormed(p)
    ensures Munge(m, p + t)[..|p|] == Munge(m, p)
  {
    hide ExchangeAll, FixChecksum, KindOf, NeedsFix, Owner, HoldsHeaders, HoldsDatagram;
    if m.fake != m.host {
      var kind := KindOf(p);
      PlacesAreSane(p);
      SameKindInBuffer(p, t);
      ExchangeInFrame(m, p, t, Places(kind));
      var x := ExchangeAll(m, p, Places(kind));
      if kind.Dhcp? {
        SameNeed(m, p, t, kind.u);
        ExchangeKeepsDatagram(m, p, kind.u);
        FixInFrame(x, t, kind.u);
      }
    }
  }

  /** Nor does its exchange leave the buffer, unless frame and datagram fill it to the last byte. */
  lemma WellFormedStaysInside(m: Macs, p: Frame, t: Frame)
    requires HoldsHeaders(p) && WellFormed(p) && t != []
    ensures StaysInside(m, p + t)
  {
    hide KindOf, NeedsFix, HoldsHeaders;
    SameKindInBuffer(p, t);
    if KindOf(p).Dhcp? { assert WordAt(p + t, KindOf(p).u + 4) == WordAt(p, KindOf(p).u + 4); }
  }

  lemma SameNeed(m: Macs, p: Frame, t: Frame, u: nat)
    requires HoldsDatagram(p, u)
    ensures NeedsFix(m, p + t, u) == NeedsFix(m, p, u)
  {
    assert MacAt(p + t, u + 36) == MacAt(p, u + 36);
  }

  lemma ExchangeKeepsDatagram(m: Macs, p: Frame, u: nat)
    requires WellFormed(p) && KindOf(p) == Dhcp(u)
    ensures HoldsDatagram(ExchangeAll(m, p, Places(Dhcp(u))), u)
  {
    hide ExchangeAll, Owner;
    var places := Places(Dhcp(u));
    var x := ExchangeAll(m, p, places);
    PlacesAreSane(p);
    forall k: nat | u + 4 <= k < u + 6 ensures At(x, k) == At(p, k) {
      ExchangeAllByte(m, p, places, k);
      OwnerIsPlace(places, k);
    }
  }

  /** The request above with a datagram length of 65535: in the packet buffer, whatever is behind the frame, the repair
      writes to byte 65569. */
  lemma LongClaimLeavesBuffer(t: Frame)
    requires |t| == Board.MAX_PACKET_SIZE - 77
    ensures var p := Request(1)[38 := 255][39 := 255];
            |p| == 77 && !StaysInside(Macs(CARD, HOST), p + t) && KindOf(p + t) == Dhcp(34)
  {
    hide KindOf, HoldsDatagram;
    var p := Request(1)[38 := 255][39 := 255];
    LongClaim();
    SameKindInBuffer(p, t);
    assert MacAt(p + t, 70) == MacAt(p, 70);
    assert At(p + t, 40) == 1 && WordAt(p + t, 38) == 65535;
  }

  lemma LongClaim()
    ensures var p := Request(1)[38 := 255][39 := 255];
            |p| == 77 && HoldsHeaders(p) && KindOf(p) == Dhcp(34) && MacAt(p, 70) == CARD && At(p, 40) == 1
  {
    var p := Request(1)[38 := 255][39 := 255];
    RequestAddress(1);
    assert MacAt(p, 70) == MacAt(Request(1), 70);
  }

  lemma MungeOff(m: Macs, p: Frame)
    requires m.fake == m.host
    ensures Munge(m, p) == p
  {
  }

  /** A DHCP datagram that had a checksum and carried one of the two addresses has a right checksum afterwards. */
  lemma MungedChecksumIsRight(m: Macs, p: Frame)
    requires WellFormed(p) && KindOf(p).Dhcp? && m.fake != m.host && NeedsFix(m, p, KindOf(p).u)
    ensures var u, q := KindOf(p).u, Munge(m, p); Fold(UdpSum(q, u, WordAt(q, u + 4))) == 0xffff
  {
    hide ExchangeAll, Owner, Fold, UdpSum;
    var u, places := KindOf(p).u, Places(KindOf(p));
    var x := ExchangeAll(m, p, places);
    PlacesAreSane(p);
    forall k: nat | u + 4 <= k < u + 6 ensures At(x, k) == At(p, k) {
      ExchangeAllByte(m, p, places, k);
      OwnerIsPlace(places, k);
    }
    FixedSumsToOnes(x, u);
  }
}
