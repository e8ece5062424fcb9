/**
 The result structures as bytes at offsets (bsdsocket_results.cpp): what the guest finds in memory, told without the
 sizes, images and tables of ResolverResults.
 */
module ResolverLayout {
  import opened GuestMemory
  import opened Options
  import opened ResolverResults
  import opened Numbers

  /** Four bytes, the most significant first. */
  function Long(m: seq<Byte>, a: nat): nat
    requires a + 4 <= |m|
  {
    256 * (256 * (256 * m[a] as int + m[a + 1]) + m[a + 2]) + m[a + 3]
  }

  /** The bytes of a string and a NUL. */
  predicate TextAt(m: seq<Byte>, p: nat, s: seq<Byte>) {
    p + |s| < |m| && m[p..p + |s|] == s && m[p + |s|] == 0
  }

  predicate StringAt(m: seq<Byte>, a: nat, s: Option<seq<Byte>>) {
    a + 4 <= |m| &&
    match s
    case None => Long(m, a) == 0
    case Some(t) => Long(m, a) != 0 && TextAt(m, Long(m, a), t)
  }

  /** A table of pointers, the i-th to the i-th string, and then a zero. */
  predicate TextsAt(m: seq<Byte>, table: nat, ss: seq<seq<Byte>>) {
    table + 4 * |ss| + 4 <= |m| && Long(m, table + 4 * |ss|) == 0 &&
    forall i :: 0 <= i < |ss| ==> Long(m, table + 4 * i) != 0 && TextAt(m, Long(m, table + 4 * i), ss[i])
  }

  predicate BytesAt(m: seq<Byte>, p: nat, s: seq<Byte>) { p + |s| <= |m| && m[p..p + |s|] == s }

  /** The same with the first `n` bytes of each address. */
  predicate AddressesAt(m: seq<Byte>, table: nat, addresses: seq<seq<Byte>>, n: nat)
    requires forall i :: 0 <= i < |addresses| ==> n <= |addresses[i]|
  {
    table + 4 * |addresses| + 4 <= |m| && Long(m, table + 4 * |addresses|) == 0 &&
    forall i :: 0 <= i < |addresses| ==>
      Long(m, table + 4 * i) != 0 && BytesAt(m, Long(m, table + 4 * i), addresses[i][..n])
  }

  /** struct hostent: name, aliases, type and length of addresses, addresses. */
  predicate HostAt(m: seq<Byte>, base: nat, name: Option<seq<Byte>>, aliases: seq<seq<Byte>>, kind: int, length: nat,
                   addresses: seq<seq<Byte>>)
    requires forall i :: 0 <= i < |addresses| ==> length <= |addresses[i]|
  {
    base + 20 <= |m| && StringAt(m, base, name) && TextsAt(m, Long(m, base + 4), aliases) &&
    Long(m, base + 8) == kind % 0x1_0000_0000 && Long(m, base + 12) == length &&
    AddressesAt(m, Long(m, base + 16), addresses, length)
  }

  /** struct protoent: name, aliases, number; struct servent: with the port for a number, and the protocol. */
  predicate ProtoAt(m: seq<Byte>, base: nat, name: Option<seq<Byte>>, aliases: seq<seq<Byte>>, number: int) {
    base + 12 <= |m| && StringAt(m, base, name) && TextsAt(m, Long(m, base + 4), aliases) &&
    Long(m, base + 8) == number % 0x1_0000_0000
  }

  predicate ServAt(m: seq<Byte>, base: nat, name: Option<seq<Byte>>, aliases: seq<seq<Byte>>, port: int,
                   protocol: Option<seq<Byte>>)
  {
    ProtoAt(m, base, name, aliases, port) && StringAt(m, base + 12, protocol)
  }

  lemma LongIs(m: seq<Byte>, a: nat, v: nat)
    requires v < TWO32 && Has(m, a, Long4(v))
    ensures a + 4 <= |m| && Long(m, a) == v
  {
    LongReadsBack(m, a, v);
  }

  lemma TextIs(m: seq<Byte>, p: nat, s: Text)
    requires Has(m, p, s + [0])
    ensures TextAt(m, p, s)
  {
    HasBoth(m, p, s, [0]);
    assert m[p + |s|..p + |s| + 1] == [0];
  }

  lemma ItemIs(m: seq<Byte>, table: nat, at: nat, cs: seq<seq<Byte>>, i: nat)
    requires i < |cs| && Small(Starts(at, cs)) && Has(m, table, Table(Starts(at, cs))) && Has(m, at, Joined(cs))
    ensures table + 4 * i + 4 <= |m| && Long(m, table + 4 * i) != 0 && Has(m, Long(m, table + 4 * i), cs[i])
  {
    hide Long4, Table, Starts, Joined, Has, Long;
    TableEntry(m, table, Starts(at, cs), i);
    LongIs(m, table + 4 * i, Starts(at, cs)[i]);
    ChunkIsThere(m, at, cs, i);
  }

  /** A table in place and its chunks. */
  lemma ListIs(m: seq<Byte>, table: nat, at: nat, cs: seq<seq<Byte>>)
    requires Reach(at, cs) && Has(m, table, Pointers(at, cs)) && Has(m, at, Joined(cs))
    ensures table + 4 * |cs| + 4 <= |m| && Long(m, table + 4 * |cs|) == 0
    ensures forall i :: 0 <= i < |cs| ==> Long(m, table + 4 * i) != 0 && Has(m, Long(m, table + 4 * i), cs[i])
  {
    hide Long4, Table, Starts, Joined, Has, Long, Small;
    StartsAreSmall(at, cs);
    HasBoth(m, table, Table(Starts(at, cs)), Long4(0));
    LongIs(m, table + 4 * |cs|, 0);
    forall i | 0 <= i < |cs|
      ensures Long(m, table + 4 * i) != 0 && Has(m, Long(m, table + 4 * i), cs[i])
    {
      ItemIs(m, table, at, cs, i);
    }
  }

  lemma TextsAre(m: seq<Byte>, table: nat, at: nat, ss: seq<Text>)
    requires var cs := Terminated(ss); Reach(at, cs) && Has(m, table, Pointers(at, cs)) && Has(m, at, Joined(cs))
    ensures TextsAt(m, table, ss)
  {
    hide Has, Long, Joined, Pointers, TextAt, Terminated, Reach;
    var cs := Terminated(ss);
    ListIs(m, table, at, cs);
    forall i | 0 <= i < |ss|
      ensures TextAt(m, Long(m, table + 4 * i), ss[i])
    {
      assert Has(m, Long(m, table + 4 * i), cs[i]);
      TextIs(m, Long(m, table + 4 * i), ss[i]);
    }
  }

  lemma AddressesAre(m: seq<Byte>, table: nat, at: nat, addresses: seq<seq<Byte>>, n: nat)
    requires LongEnough(addresses, n)
    requires var cs := Clipped(addresses, n); Reach(at, cs) && Has(m, table, Pointers(at, cs)) && Has(m, at, Joined(cs))
    ensures AddressesAt(m, table, addresses, n)
  {
    hide Long, Joined, Pointers, Clipped, Reach;
    var cs := Clipped(addresses, n);
    ListIs(m, table, at, cs);
    forall i | 0 <= i < |addresses|
      ensures BytesAt(m, Long(m, table + 4 * i), addresses[i][..n])
    {
      assert Has(m, Long(m, table + 4 * i), cs[i]);
    }
  }

  lemma StringIs(m: seq<Byte>, a: nat, p: nat, s: Option<Text>)
    requires 0 < p < TWO32 && Has(m, a, Long4(NamePointer(p, s))) && Has(m, p, Chunk(s))
    ensures StringAt(m, a, s)
  {
    hide Has, Long, Long4, TextAt;
    LongIs(m, a, NamePointer(p, s));
    if s.Some? { TextIs(m, p, s.value); }
  }

  lemma FieldsAre(m: seq<Byte>, base: nat, na: nat, kind: int, length: nat)
    requires base + 24 + 4 * na < TWO32 && length < TWO32 && Has(m, base + 4, HostLongs(base, na, kind, length))
    ensures base + 20 <= |m| && Long(m, base + 4) == base + 20 && Long(m, base + 8) == kind % 0x1_0000_0000
    ensures Long(m, base + 12) == length && Long(m, base + 16) == base + 24 + 4 * na
  {
    hide Long4, Long, Has;
    var l1, l2, l3, l4 := Long4(base + 20), Long4(U32(kind)), Long4(U32(length)), Long4(base + 24 + 4 * na);
    HasFour(m, base + 4, l1, l2, l3, l4);
    LongIs(m, base + 4, base + 20);
    LongIs(m, base + 8, U32(kind));
    LongIs(m, base + 12, U32(length));
    LongIs(m, base + 16, base + 24 + 4 * na);
  }

  /** The image of a host structure is one. */
  lemma HostIs(m: seq<Byte>, base: nat, name: Option<Text>, aliases: seq<Text>, kind: int, length: nat,
               addresses: seq<seq<Byte>>)
    requires LongEnough(addresses, length) && length < TWO32
    requires HostFits(base, name, Terminated(aliases), Clipped(addresses, length))
    requires Has(m, base, HostImage(base, name, Terminated(aliases), Clipped(addresses, length), kind, length))
    ensures HostAt(m, base, name, aliases, kind, length, addresses)
  {
    hide HostImage, HostLongs, Long4, Long, Joined, Pointers, Terminated, Clipped, Has, Chunk, NamePointer, TextsAt,
         AddressesAt, StringAt;
    var a, b := Terminated(aliases), Clipped(addresses, length);
    var table := base + 24 + 4 * |a|;
    var at := table + 4 * (|b| + 1);
    var at2 := at + |Joined(a)|;
    HostParts(m, base, name, a, b, kind, length);
    FieldsAre(m, base, |a|, kind, length);
    TextsAre(m, base + 20, at, aliases);
    AddressesAre(m, table, at2, addresses, length);
    StringIs(m, base, at2 + |Joined(b)|, name);
  }

  /** So are the images of the others. */
  lemma EntryIs(m: seq<Byte>, base: nat, service: bool, name: Option<Text>, protocol: Option<Text>, aliases: seq<Text>,
                number: int)
    requires EntryFits(base, if service then 4 else 0, name, protocol, Terminated(aliases))
    requires Has(m, base, EntryImage(base, service, name, protocol, Terminated(aliases), number))
    ensures ProtoAt(m, base, name, aliases, number)
    ensures service ==> ServAt(m, base, name, aliases, number, protocol)
  {
    hide Long4, Long, Joined, Pointers, Terminated, Has, Chunk, NamePointer, TextsAt, StringAt, U32;
    var n := EntryPlan(base, service, name, protocol, Terminated(aliases), number);
    var table := base + if service then 16 else 12;
    EntryParts(m, n);
    HasBoth(m, base + 4, Long4(table), Long4(U32(number)));
    LongIs(m, base + 4, table);
    LongIs(m, base + 8, U32(number));
    NumberIs(number);
    TextsAre(m, table, n.e, aliases);
    StringIs(m, base, n.g, name);
    if service { StringIs(m, base + 12, n.g + |n.c|, protocol); }
  }

  lemma NumberIs(n: int)
    ensures U32(n) == n % 0x1_0000_0000
  {
  }
}
