/**
 Which bytes of a frame the address exchange changes (a2065.cpp:166-257), told by offsets of the frame alone: in every
 frame the destination at 0 and the source at 6,
   in an ARP packet for IPv4 over Ethernet the hardware addresses at 22 and
 32, and in a DHCP datagram the client's at offset 36 of the UDP header (RFC 826; RFC 2131, section 2).
 */
module A2065Addresses {
  import opened Numbers
  import opened Options
  import opened A2065Munge

  /** Ethernet type 0x0806, hardware type 1, hardware addresses of six bytes. */
  predicate IsArp(p: Frame) {
    |p| >= 20 && p[12] == 8 && p[13] == 6 && p[14] == 0 && p[15] == 1 && p[18] == 6
  }

  /** Ethernet type 0x0800, protocol 17. */
  predicate IsUdp(p: Frame) { |p| >= 24 && p[12] == 8 && p[13] == 0 && p[23] == 17 }

  /** The UDP header follows the IPv4 header, whose length in words is in the low four bits of byte 14. */
  function Header(p: Frame): nat
    requires IsUdp(p)
  {
    14 + 4 * (p[14] as int % 16)
  }

  /** Source or destination port 67 or 68. */
  predicate IsDhcp(p: Frame) {
    IsUdp(p) && var u := Header(p);
    u + 4 <= |p| && ((p[u] == 0 && p[u + 1] in {67, 68}) || (p[u + 2] == 0 && p[u + 3] in {67, 68}))
  }

  /** The length of the datagram, its header included. */
  function Length(p: Frame): nat
    requires IsDhcp(p) && Header(p) + 6 <= |p|
  {
    256 * p[Header(p) + 4] as int + p[Header(p) + 5]
  }

  /** The frame holds the headers it announces. */
  predicate Headed(p: Frame) {
    |p| >= 20 && (p[12] == 8 && p[13] == 0 ==> |p| >= 24) && (IsUdp(p) ==> Header(p) + 4 <= |p|)
  }

  /** And an ARP packet is complete, and a DHCP datagram has its length, room for the client's address, and an IPv4
      header of at least 20 bytes before it. */
  predicate Sound(p: Frame) {
    Headed(p) && (IsArp(p) ==> |p| >= 38) &&
    (IsDhcp(p) ==> Header(p) >= 34 && Header(p) + 42 <= |p| && 42 <= Length(p) && Header(p) + Length(p) <= |p|)
  }

  /** The address at an offset is the host's if it was the card's, the card's if it was the host's, and else the same.
      */
  predicate Swapped(m: Macs, p: Frame, q: Frame, off: nat)
    requires off + 6 <= |p| == |q|
  {
    var x := p[off..off + 6];
    q[off..off + 6] == if x == m.fake then m.host else if x == m.host then m.fake else x
  }

  /** The repair of the checksum is due: there is one, and the client's address is one of the two. */
  predicate Due(m: Macs, p: Frame)
    requires IsDhcp(p) && Header(p) + 42 <= |p|
  {
    var u := Header(p);
    (p[u + 6] != 0 || p[u + 7] != 0) && p[u + 36..u + 42] in [m.fake, m.host]
  }

  /** `q` is `p` with its addresses exchanged, and but for the checksum and pad byte of a repaired datagram that is
      all. */
  predicate AddressesExchanged(m: Macs, p: Frame, q: Frame)
    requires Sound(p)
  {
    |q| == |p| && Swapped(m, p, q, 0) && Swapped(m, p, q, 6) &&
    if IsArp(p) then
      Swapped(m, p, q, 22) && Swapped(m, p, q, 32) &&
      forall j :: 12 <= j < |p| && !(22 <= j < 28) && !(32 <= j < 38) ==> q[j] == p[j]
    else if IsDhcp(p) then
      var u, end := Header(p), Header(p) + Length(p);
      Swapped(m, p, q, u + 36) &&
      (forall j :: 12 <= j < |p| && !(u + 36 <= j < u + 42) && !(u + 6 <= j < u + 8) && j != end ==> q[j] == p[j]) &&
      (m.fake == m.host || !Due(m, p) ==>
        q[u + 6] == p[u + 6] && q[u + 7] == p[u + 7] && (end < |p| ==> q[end] == p[end]))
    else forall j :: 12 <= j < |p| ==> q[j] == p[j]
  }

  lemma WordIs(p: Frame, i: nat, hi: Byte, lo: Byte)
    requires i + 2 <= |p|
    ensures WordAt(p, i) == hi as int * 256 + lo <==> p[i] == hi && p[i + 1] == lo
  {
  }

  lemma KindIs(p: Frame)
    requires Headed(p)
    ensures KindOf(p) == if IsArp(p) then Arp else if IsDhcp(p) then Dhcp(Header(p)) else Other
  {
    hide WordAt;
    WordIs(p, 12, 8, 6);
    WordIs(p, 12, 8, 0);
    WordIs(p, 14, 0, 1);
    if IsUdp(p) {
      var u := Header(p);
      WordIs(p, u, 0, 67);
      WordIs(p, u, 0, 68);
      WordIs(p, u + 2, 0, 67);
      WordIs(p, u + 2, 0, 68);
    }
  }

  lemma SoundIs(p: Frame)
    ensures Sound(p) <==> HoldsHeaders(p) && WellFormed(p)
  {
    hide KindOf;
    HeadedIs(p);
    if Headed(p) { KindIs(p); }
  }

  lemma HeadedIs(p: Frame)
    ensures Headed(p) <==> HoldsHeaders(p)
  {
    hide WordAt;
    if |p| >= 20 { WordIs(p, 12, 8, 0); }
  }

  /** What is known of every byte of the result. */
  lemma MungedByte(m: Macs, p: Frame, j: nat)
    requires Sound(p) && m.fake != m.host
    ensures var q, places := Munge(m, p), Places(KindOf(p));
            (!Scratch(p, j) ==> At(q, j) == ByteAfter(m, p, places, j)) &&
            (KindOf(p).Dhcp? && !NeedsFix(m, p, KindOf(p).u) ==> At(q, j) == ByteAfter(m, p, places, j))
  {
    assert |p| >= 20;
    hide ExchangeAll, Owner, ByteAfter, KindOf, NeedsFix, FixChecksum, Scratch, Sound;
    SoundIs(p);
    PlacesAreSane(p);
    ExchangeAllByte(m, p, Places(KindOf(p)), j);
    if !Scratch(p, j) { MungeBytes(m, p, j); }
  }

  lemma PlaceIsSwapped(m: Macs, p: Frame, i: nat)
    requires Sound(p) && m.fake != m.host && i < |Places(KindOf(p))|
    ensures var off := Places(KindOf(p))[i]; off + 6 <= |p| && Swapped(m, p, Munge(m, p), off)
  {
    hide ExchangeAll, Owner, KindOf, Munge, Scratch, Sound, Places;
    var places := Places(KindOf(p));
    SoundIs(p);
    PlacesAreSane(p);
    forall k: nat | Owner(places, k).Some? ensures At(Munge(m, p), k) == At(ExchangeAll(m, p, places), k) {
      MungeBytes(m, p, k);
    }
    MacAfter(m, p, Munge(m, p), places, i);
  }

  /** A byte off all places is nobody's. */
  lemma NoOwner(m: Macs, p: Frame, places: seq<nat>, j: nat)
    requires forall i :: 0 <= i < |places| ==> !(places[i] <= j < places[i] + 6)
    ensures ByteAfter(m, p, places, j) == At(p, j)
  {
    OwnerIsPlace(places, j);
  }

  lemma DueIs(m: Macs, p: Frame)
    requires IsDhcp(p) && Header(p) + 42 <= |p| && m.fake != m.host
    ensures NeedsFix(m, p, Header(p)) <==> Due(m, p)
  {
  }

  /** The program exchanges the addresses, and does nothing else. */
  lemma MungeExchanges(m: Macs, p: Frame)
    requires Sound(p)
    ensures AddressesExchanged(m, p, Munge(m, p))
  {
    hide Munge, Sound, AddressesExchanged;
    if m.fake == m.host {
      MungeOff(m, p);
      NothingExchanged(m, p);
    } else {
      KindOfSound(p);
      PlaceIsSwapped(m, p, 0);
      PlaceIsSwapped(m, p, 1);
      if IsArp(p) {
        PlaceIsSwapped(m, p, 2);
        PlaceIsSwapped(m, p, 3);
      } else if IsDhcp(p) {
        PlaceIsSwapped(m, p, 2);
      }
      ExchangedAll(m, p);
    }
  }

  lemma KindOfSound(p: Frame)
    requires Sound(p)
    ensures KindOf(p) == (if IsArp(p) then Arp else if IsDhcp(p) then Dhcp(Header(p)) else Other) && |p| >= 20
  {
    hide KindOf;
    KindIs(p);
  }

  lemma NothingExchanged(m: Macs, p: Frame)
    requires Sound(p) && m.fake == m.host
    ensures AddressesExchanged(m, p, p)
  {
  }

  /** The places, and what lies between them. */
  lemma ExchangedAll(m: Macs, p: Frame)
    requires Sound(p) && m.fake != m.host && |p| >= 20
    requires var q := Munge(m, p);
             Swapped(m, p, q, 0) && Swapped(m, p, q, 6) &&
               (IsArp(p) ==> Swapped(m, p, q, 22) && Swapped(m, p, q, 32)) &&
             (!IsArp(p) && IsDhcp(p) ==> Swapped(m, p, q, Header(p) + 36))
    ensures AddressesExchanged(m, p, Munge(m, p))
  {
    hide Munge, Swapped, Due;
    RestStays(m, p);
  }

  lemma RestStays(m: Macs, p: Frame)
    requires Sound(p) && m.fake != m.host && |p| >= 20
    ensures var q := Munge(m, p);
            if IsArp(p) then forall j :: 12 <= j < |p| && !(22 <= j < 28) && !(32 <= j < 38) ==> q[j] == p[j]
            else if IsDhcp(p) then
              var u, end := Header(p), Header(p) + Length(p);
              (forall j :: 12 <= j < |p| && !(u + 36 <= j < u + 42) && !(u + 6 <= j < u + 8) && j != end ==>
                q[j] == p[j]) &&
              (!Due(m, p) ==> q[u + 6] == p[u + 6] && q[u + 7] == p[u + 7] && (end < |p| ==> q[end] == p[end]))
            else forall j :: 12 <= j < |p| ==> q[j] == p[j]
  {
    hide KindOf, Munge, ByteAfter, NeedsFix, Owner, Due;
    KindIs(p);
    var q, places := Munge(m, p), Places(KindOf(p));
    forall j | 12 <= j < |p| && (forall i :: 0 <= i < |places| ==> !(places[i] <= j < places[i] + 6)) &&
               (!Scratch(p, j) || (IsDhcp(p) && !Due(m, p)))
      ensures q[j] == p[j]
    {
      MungedByte(m, p, j);
      NoOwner(m, p, places, j);
      if IsDhcp(p) { DueIs(m, p); }
    }
  }

  // ----- the repaired checksum -----

  /** The sum of the big-endian words of an even number of bytes. */
  function Words(s: seq<Byte>): nat { if |s| < 2 then 0 else 256 * s[0] as int + s[1] + Words(s[2..]) }

  lemma {:induction false} WordsJoin(a: seq<Byte>, b: seq<Byte>)
    requires |a| % 2 == 0
    ensures Words(a + b) == Words(a) + Words(b)
  {
    if a == [] {
      assert a + b == b;
    } else {
      assert (a + b)[2..] == a[2..] + b;
      WordsJoin(a[2..], b);
    }
  }

  lemma {:induction false} WordSumIs(p: Frame, i: nat, end: nat, s: seq<Byte>)
    requires i <= end && |s| == end - i && |s| % 2 == 0 && forall t :: 0 <= t < |s| ==> At(p, i + t) == s[t]
    ensures WordSum(p, i, end) == Words(s)
    decreases |s|
  {
    if s != [] {
      assert At(p, i + 0) == s[0] && At(p, i + 1) == s[1];
      forall t | 0 <= t < |s[2..]| ensures At(p, i + 2 + t) == s[2..][t] { assert At(p, i + (t + 2)) == s[t + 2]; }
      WordSumIs(p, i + 2, end, s[2..]);
    }
  }

  /** What the checksum covers (RFC 768): source and destination address, protocol, length, and the datagram, padded
      with a zero to whole words. */
  function Covered(q: Frame, u: nat, n: nat): seq<Byte>
    requires 34 <= u && u + n <= |q| && n < 65536
  {
    q[26..34] + [0, 17, n / 256, n % 256] + q[u..u + n] + if n % 2 == 1 then [0] else []
  }

  lemma SumIs(q: Frame, u: nat, n: nat)
    requires 34 <= u && u + n <= |q| && n < 65536 && (n % 2 == 1 ==> At(q, u + n) == 0)
    ensures UdpSum(q, u, n) == Words(Covered(q, u, n))
  {
    var body := q[u..u + n] + if n % 2 == 1 then [0] else [];
    WordSumIs(q, u, u + (n + 1) / 2 * 2, body);
    WordSumIs(q, 26, 34, q[26..34]);
    assert WordSum(q, 26, 34) == WordAt(q, 26) + WordAt(q, 28) + WordAt(q, 30) + WordAt(q, 32) by {
      assert WordSum(q, 34, 34) == 0;
      assert WordSum(q, 30, 34) == WordAt(q, 30) + WordSum(q, 32, 34);
    }
    assert Covered(q, u, n) == q[26..34] + ([0, 17, n / 256, n % 256] + body);
    WordsJoin(q[26..34], [0, 17, n / 256, n % 256] + body);
    WordsJoin([0, 17, n / 256, n % 256], body);
    assert Words([0, 17, n / 256, n % 256]) == 17 + n by {
      assert [0, 17, n / 256, n % 256][2..] == [n / 256, n % 256] && [n / 256, n % 256][2..] == [];
    }
  }

  lemma LengthStays(m: Macs, p: Frame)
    requires Sound(p) && IsDhcp(p)
    ensures var u, q := Header(p), Munge(m, p); q[u + 4] == p[u + 4] && q[u + 5] == p[u + 5]
  {
    hide Munge, Due, Swapped;
    MungeExchanges(m, p);
    var u, q := Header(p), Munge(m, p);
    assert 12 <= u + 4 && u + 5 < |p| && u + 5 < u + Length(p);
  }

  /** A repaired datagram keeps its length, and what its checksum covers, the checksum included, is a positive
      multiple of 65535: in ones' complement arithmetic, all ones. */
  lemma RepairedSum(m: Macs, p: Frame)
    requires Sound(p) && IsDhcp(p) && m.fake != m.host && Due(m, p)
    ensures var u, n, q := Header(p), Length(p), Munge(m, p);
            q[u + 4] == p[u + 4] && q[u + 5] == p[u + 5] &&
            Words(Covered(q, u, n)) > 0 && Words(Covered(q, u, n)) % 65535 == 0
  {
    hide KindOf, Munge, Fold, UdpSum, Due, NeedsFix, Covered, WordSum, AddressesExchanged;
    var u, n, q := Header(p), Length(p), Munge(m, p);
    KindIs(p);
    DueIs(m, p);
    SoundIs(p);
    MungeExchanges(m, p);
    LengthStays(m, p);
    MungedChecksumIsRight(m, p);
    PadIsZero(m, p);
    SumIs(q, u, n);
    FoldMod(UdpSum(q, u, n));
  }

  lemma PadIsZero(m: Macs, p: Frame)
    requires Sound(p) && IsDhcp(p) && m.fake != m.host && Due(m, p)
    ensures At(Munge(m, p), Header(p) + Length(p)) == 0
  {
    hide KindOf, Due, NeedsFix, Fold, UdpSum, ExchangeAll, AddressesExchanged;
    var u, n := Header(p), Length(p);
    KindIs(p);
    DueIs(m, p);
    SoundIs(p);
    var x := ExchangeAll(m, p, Places(Dhcp(u)));
    MungeExchanges(m, p);
    SameLength(m, p, x);
  }

  lemma SameLength(m: Macs, p: Frame, x: Frame)
    requires Sound(p) && IsDhcp(p) && x == ExchangeAll(m, p, Places(Dhcp(Header(p))))
    ensures WordAt(x, Header(p) + 4) == Length(p)
  {
    hide KindOf, ExchangeAll, ByteAfter;
    var u, places := Header(p), Places(Dhcp(Header(p)));
    KindIs(p);
    SoundIs(p);
    PlacesAreSane(p);
    ExchangeAllByte(m, p, places, u + 4);
    ExchangeAllByte(m, p, places, u + 5);
    NoOwner(m, p, places, u + 4);
    NoOwner(m, p, places, u + 5);
  }

  /** The exchange leaves a packet buffer exactly for a datagram that is repaired and claims to reach the buffer's
      end. */
  lemma StaysIs(m: Macs, b: Frame)
    requires |b| == 4000
    ensures StaysInside(m, b) <==>
            m.fake == m.host || !IsDhcp(b) || !Due(m, b) || Header(b) + Length(b) < 4000
  {
    hide KindOf, Due, NeedsFix;
    KindIs(b);
    if IsDhcp(b) && m.fake != m.host { DueIs(m, b); }
  }
}
