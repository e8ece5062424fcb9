/**
 Resolver results copied into guest memory (bsdsocket_results.cpp): the size of a structure is computed first, a
 buffer is found for it, and then pointers and strings are written through a moving cursor.
 */
module ResolverResults {
  import opened GuestMemory
  import opened Options
  import opened Numbers

  const LIMIT := 0x7fffffff

  const ENOMEM := 12
  const EINVAL := 22
  const NO_RECOVERY := 3

  // ----- sizes and images -----

  function Chunk(s: Option<Text>): seq<Byte> { if s.None? then [] else s.value + [0] }

  /** A missing list is an empty one. */
  function Items<T>(l: Option<seq<T>>): seq<T> { if l.None? then [] else l.value }

  function Terminated(ss: seq<Text>): (cs: seq<seq<Byte>>)
    ensures |cs| == |ss| && forall i :: 0 <= i < |cs| ==> cs[i] == ss[i] + [0]
    decreases |ss|
  {
    if ss == [] then [] else Terminated(ss[..|ss| - 1]) + [ss[|ss| - 1] + [0]]
  }

  predicate LongEnough(addresses: seq<seq<Byte>>, n: nat) { forall i :: 0 <= i < |addresses| ==> n <= |addresses[i]| }

  function Clipped(addresses: seq<seq<Byte>>, n: nat): (cs: seq<seq<Byte>>)
    requires LongEnough(addresses, n)
    ensures |cs| == |addresses| && (forall i :: 0 <= i < |cs| ==> cs[i] == addresses[i][..n]) &&
            |Joined(cs)| == |cs| * n
    decreases |addresses|
  {
    if addresses == [] then [] else
    var k := |addresses| - 1;
    var cs := Clipped(addresses[..k], n) + [addresses[k][..n]];
    assert cs[..k] == Clipped(addresses[..k], n);
    cs
  }

  /** A pointer table and its chunks: all pointers are nonzero 32-bit addresses. */
  predicate Reach(at: nat, cs: seq<seq<Byte>>) { 0 < at && at + |Joined(cs)| < TWO32 }

  lemma {:induction false} StartsAreSmall(at: nat, cs: seq<seq<Byte>>)
    requires Reach(at, cs)
    ensures Small(Starts(at, cs))
    decreases |cs|
  {
    if cs != [] { StartsAreSmall(at, cs[..|cs| - 1]); }
  }

  /** The table of pointers to chunks that start at `at`, with its zero. */
  function Pointers(at: nat, cs: seq<seq<Byte>>): (bs: seq<Byte>)
    requires Reach(at, cs)
    ensures |bs| == 4 * (|cs| + 1)
  {
    StartsAreSmall(at, cs);
    Table(Starts(at, cs)) + Long4(0)
  }

  function U32(n: int): (u: nat)
    ensures u < TWO32
  {
    n % TWO32
  }

  // ----- laying out a table and its chunks -----

  /** The first chunks of a list and their pointers are in place; nothing else has changed. */
  ghost predicate Laid(o: seq<Byte>, m: seq<Byte>, table: nat, at: nat, cs: seq<seq<Byte>>) {
    Reach(at, cs) && Small(Starts(at, cs)) && Has(m, table, Table(Starts(at, cs))) && Has(m, at, Joined(cs)) &&
    SameExcept(o, m, table, 4 * |cs|, at, |Joined(cs)|)
  }

  lemma PokeSameExcept(o: seq<Byte>, m: seq<Byte>, a: nat, n: nat, b: nat, k: nat, bs: seq<Byte>)
    requires SameExcept(o, m, a, n, b, k) && b + k + |bs| <= |m|
    ensures SameExcept(o, Poke(m, b + k, bs), a, n, b, k + |bs|)
  {
    var r := Poke(m, b + k, bs);
    assert r[..a] == m[..a];
    assert r[a + n..b] == m[a + n..b];
    assert r[b + k + |bs|..] == m[b + k + |bs|..] == m[b + k..][|bs|..] == o[b + k..][|bs|..] == o[b + k + |bs|..];
  }

  lemma PokeSameBetween(o: seq<Byte>, m: seq<Byte>, a: nat, n: nat, b: nat, k: nat, bs: seq<Byte>)
    requires SameExcept(o, m, a, n, b, k) && a + n + |bs| <= b
    ensures SameExcept(o, Poke(m, a + n, bs), a, n + |bs|, b, k)
  {
    var r := Poke(m, a + n, bs);
    assert r[..a] == m[..a];
    assert r[a + n + |bs|..b] == m[a + n + |bs|..b] == m[a + n..b][|bs|..] == o[a + n..b][|bs|..] == o[a + n + |bs|..b];
    assert r[b + k..] == m[b + k..];
  }


  lemma OneMore(at: nat, cs: seq<seq<Byte>>, c: seq<Byte>)
    ensures Joined(cs + [c]) == Joined(cs) + c && Starts(at, cs + [c]) == Starts(at, cs) + [at + |Joined(cs)|]
  {
    assert (cs + [c])[..|cs|] == cs;
  }

  lemma OneMoreEntry(ps: seq<nat>, p: nat)
    requires Small(ps + [p])
    ensures Small(ps) && p < TWO32 && Table(ps + [p]) == Table(ps) + Long4(p)
  {
    hide Long4;
    var all := ps + [p];
    assert all[..|ps|] == ps && all[|ps|] == p;
    forall i | 0 <= i < |ps|
      ensures 0 < ps[i] < TWO32
    {
      assert all[i] == ps[i];
    }
  }

  /** The next chunk goes behind the others. */
  lemma LayChunk(m: seq<Byte>, table: nat, ts: seq<Byte>, at: nat, js: seq<Byte>, c: seq<Byte>)
    requires Has(m, table, ts) && Has(m, at, js) && table + |ts| <= at && at + |js| + |c| <= |m|
    ensures var r := Poke(m, at + |js|, c);
            Has(r, table, ts) && Has(r, at, js + c)
  {
    hide Has, Poke;
    PokeKeeps(m, at + |js|, c, table, ts);
    PokeKeeps(m, at + |js|, c, at, js);
    PokeHas(m, at + |js|, c);
    HasBoth(Poke(m, at + |js|, c), at, js, c);
  }

  /** And its address behind theirs. */
  lemma LayPointer(m: seq<Byte>, table: nat, ts: seq<Byte>, at: nat, js: seq<Byte>, l: seq<Byte>)
    requires Has(m, table, ts) && Has(m, at, js) && table + |ts| + |l| <= at && at + |js| <= |m|
    ensures var r := Poke(m, table + |ts|, l);
            Has(r, table, ts + l) && Has(r, at, js)
  {
    hide Has, Poke;
    PokeKeeps(m, table + |ts|, l, table, ts);
    PokeKeeps(m, table + |ts|, l, at, js);
    PokeHas(m, table + |ts|, l);
    HasBoth(Poke(m, table + |ts|, l), table, ts, l);
  }

  lemma LayNext(o: seq<Byte>, m: seq<Byte>, table: nat, at: nat, cs: seq<seq<Byte>>, c: seq<Byte>)
    requires Laid(o, m, table, at, cs) && Reach(at, cs + [c])
    requires table + 4 * |cs| + 4 <= at && at + |Joined(cs)| + |c| <= |m|
    ensures var p := at + |Joined(cs)|;
            p < TWO32 && Laid(o, Poke(Poke(m, p, c), table + 4 * |cs|, Long4(p)), table, at, cs + [c])
  {
    hide Long4, Poke, Joined, Starts, Table, Has, SameExcept;
    var p := at + |Joined(cs)|;
    var ps := Starts(at, cs);
    OneMore(at, cs, c);
    StartsAreSmall(at, cs + [c]);
    OneMoreEntry(ps, p);
    var m1 := Poke(m, p, c);
    LayChunk(m, table, Table(ps), at, Joined(cs), c);
    PokeSameExcept(o, m, table, 4 * |cs|, at, |Joined(cs)|, c);
    LayPointer(m1, table, Table(ps), at, Joined(cs + [c]), Long4(p));
    PokeSameBetween(o, m1, table, 4 * |cs|, at, |Joined(cs + [c])|, Long4(p));
  }

  /** The whole list, with its zero. */
  ghost predicate LaidOut(o: seq<Byte>, m: seq<Byte>, table: nat, at: nat, cs: seq<seq<Byte>>) {
    Reach(at, cs) && Has(m, table, Pointers(at, cs)) && Has(m, at, Joined(cs)) &&
    SameExcept(o, m, table, 4 * (|cs| + 1), at, |Joined(cs)|)
  }

  lemma LayZero(o: seq<Byte>, m: seq<Byte>, table: nat, at: nat, cs: seq<seq<Byte>>)
    requires Laid(o, m, table, at, cs) && table + 4 * |cs| + 4 <= at
    ensures LaidOut(o, Poke(m, table + 4 * |cs|, Long4(0)), table, at, cs)
  {
    hide Long4, Poke;
    var q, ps := table + 4 * |cs|, Starts(at, cs);
    PokeHas(m, q, Long4(0));
    PokeKeeps(m, q, Long4(0), table, Table(ps));
    PokeKeeps(m, q, Long4(0), at, Joined(cs));
    HasBoth(Poke(m, q, Long4(0)), table, Table(ps), Long4(0));
    PokeSameBetween(o, m, table, 4 * |cs|, at, |Joined(cs)|, Long4(0));
  }

  // ----- reading back -----

  function ReadString(m: seq<Byte>, p: nat): Option<seq<Byte>> { if p == 0 then None else Some(ReadText(m, p)) }

  function ReadTexts(m: seq<Byte>, ps: seq<nat>): seq<seq<Byte>> {
    seq(|ps|, i requires 0 <= i < |ps| => ReadText(m, ps[i]))
  }

  function ReadBytes(m: seq<Byte>, p: nat, n: nat): seq<Byte> { if p + n <= |m| then m[p..p + n] else [] }

  function ReadAddresses(m: seq<Byte>, ps: seq<nat>, n: nat): seq<seq<Byte>> {
    seq(|ps|, i requires 0 <= i < |ps| => ReadBytes(m, ps[i], n))
  }

  /** Every pointer of a list leads to as many bytes as it needs inside `[lo, hi)`. */
  predicate Within(ps: seq<nat>, cs: seq<seq<Byte>>, lo: nat, hi: nat) {
    |ps| == |cs| && forall i :: 0 <= i < |ps| ==> lo <= ps[i] && ps[i] + |cs[i]| <= hi
  }

  lemma ListReadsBack(m: seq<Byte>, table: nat, at: nat, cs: seq<seq<Byte>>)
    requires Reach(at, cs) && Has(m, table, Pointers(at, cs)) && Has(m, at, Joined(cs))
    ensures var ps := ReadTable(m, table);
            ps == Starts(at, cs) && Within(ps, cs, at, at + |Joined(cs)|) &&
            forall i :: 0 <= i < |cs| ==> Has(m, ps[i], cs[i])
  {
    hide Long4, Table, Starts, Joined;
    StartsAreSmall(at, cs);
    var ps := Starts(at, cs);
    HasBoth(m, table, Table(ps), Long4(0));
    TableReadsBack(m, table, ps, 0);
    assert ps[0..] == ps;
    forall i | 0 <= i < |cs|
      ensures Has(m, ps[i], cs[i]) && at <= ps[i] && ps[i] + |cs[i]| <= at + |Joined(cs)|
    {
      ChunkIsThere(m, at, cs, i);
    }
  }

  lemma TextsReadBack(m: seq<Byte>, ps: seq<nat>, ss: seq<Text>)
    requires |ps| == |ss| && forall i :: 0 <= i < |ss| ==> Has(m, ps[i], Terminated(ss)[i])
    ensures ReadTexts(m, ps) == ss
  {
    hide Has, ReadText, Terminated;
    var ts := ReadTexts(m, ps);
    forall i | 0 <= i < |ss|
      ensures ts[i] == ss[i]
    {
      var cs := Terminated(ss);
      assert Has(m, ps[i], cs[i]);
      TextReadsBack(m, ps[i], ss[i]);
    }
  }

  lemma AddressesReadBack(m: seq<Byte>, ps: seq<nat>, cs: seq<seq<Byte>>, n: nat)
    requires |ps| == |cs| && forall i :: 0 <= i < |cs| ==> |cs[i]| == n && Has(m, ps[i], cs[i])
    ensures ReadAddresses(m, ps, n) == cs
  {
  }

  // ----- the structures -----

  /** The host structure's bytes before its name pointer's: sizes, tables and their chunks, then the name. */
  predicate HostFits(base: nat, name: Option<Text>, a: seq<seq<Byte>>, b: seq<seq<Byte>>) {
    0 < base && base + HostSize(name, a, b) < TWO32
  }

  function HostSize(name: Option<Text>, a: seq<seq<Byte>>, b: seq<seq<Byte>>): nat {
    28 + 4 * |a| + 4 * |b| + |Joined(a)| + |Joined(b)| + |Chunk(name)|
  }

  function NamePointer(at: nat, name: Option<Text>): (p: nat)
    ensures p <= at
  {
    if name.None? then 0 else at
  }

  /** The fixed fields after the name pointer. */
  function HostLongs(base: nat, na: nat, kind: int, length: nat): (bs: seq<Byte>)
    requires base + 24 + 4 * na < TWO32
    ensures |bs| == 16
  {
    Long4(base + 20) + Long4(U32(kind)) + Long4(U32(length)) + Long4(base + 24 + 4 * na)
  }

  /** The whole structure: name pointer, fixed fields, two tables of pointers, and what they point to. */
  function HostImage(base: nat, name: Option<Text>, a: seq<seq<Byte>>, b: seq<seq<Byte>>, kind: int,
                     length: nat): (bs: seq<Byte>)
    requires HostFits(base, name, a, b)
    ensures |bs| == HostSize(name, a, b)
  {
    var at := base + 24 + 4 * |a| + 4 * (|b| + 1);
    var at2 := at + |Joined(a)|;
    Long4(NamePointer(at2 + |Joined(b)|, name)) + HostLongs(base, |a|, kind, length) +
    (Pointers(at, a) + Pointers(at2, b)) +
    (Joined(a) + Joined(b) + Chunk(name))
  }

  /** A host structure as a guest program reads it. */
  datatype Host = Host(name: Option<seq<Byte>>, aliases: seq<seq<Byte>>, kind: nat, length: nat,
                       addresses: seq<seq<Byte>>)

  function ReadHost(m: seq<Byte>, base: nat): Host
    requires base + 20 <= |m|
  {
    Host(ReadString(m, GetLong(m, base)), ReadTexts(m, ReadTable(m, GetLong(m, base + 4))), GetLong(m, base + 8),
         GetLong(m, base + 12), ReadAddresses(m, ReadTable(m, GetLong(m, base + 16)), GetLong(m, base + 12)))
  }

  /** Where its pointers lead. */
  predicate HostPointersInside(m: seq<Byte>, base: nat, size: nat, name: Option<Text>, a: seq<seq<Byte>>,
                               b: seq<seq<Byte>>)
    requires base + 20 <= |m|
  {
    var n, p, q := GetLong(m, base), GetLong(m, base + 4), GetLong(m, base + 16);
    (name.Some? ==> base <= n && n + |Chunk(name)| <= base + size) &&
    base <= p && p + 4 * (|a| + 1) <= base + size && base <= q && q + 4 * (|b| + 1) <= base + size &&
    Within(ReadTable(m, p), a, base, base + size) && Within(ReadTable(m, q), b, base, base + size)
  }

  lemma HasThree(m: seq<Byte>, a: nat, x: seq<Byte>, y: seq<Byte>, z: seq<Byte>)
    ensures Has(m, a, x + y + z) <==> Has(m, a, x) && Has(m, a + |x|, y) && Has(m, a + |x| + |y|, z)
  {
    hide Has;
    HasBoth(m, a, x + y, z);
    HasBoth(m, a, x, y);
  }

  lemma HasFour(m: seq<Byte>, a: nat, x: seq<Byte>, y: seq<Byte>, z: seq<Byte>, w: seq<Byte>)
    ensures Has(m, a, x + y + z + w) <==>
            Has(m, a, x) && Has(m, a + |x|, y) && Has(m, a + |x| + |y|, z) && Has(m, a + |x| + |y| + |z|, w)
  {
    hide Has;
    HasBoth(m, a, x + y + z, w);
    HasThree(m, a, x, y, z);
  }

  /** Seven parts one after the other, at `a`, a + 4, a + 20, d, e, f and g. */
  lemma HasSeven(m: seq<Byte>, a: nat, d: nat, e: nat, f: nat, g: nat, x: seq<Byte>, y: seq<Byte>, p: seq<Byte>,
                 q: seq<Byte>, j: seq<Byte>, k: seq<Byte>, c: seq<Byte>)
    requires |x| == 4 && |y| == 16 && d == a + 20 + |p| && e == d + |q| && f == e + |j| && g == f + |k|
    ensures Has(m, a, x + y + (p + q) + (j + k + c)) <==>
            Has(m, a, x) && Has(m, a + 4, y) && Has(m, a + 20, p) && Has(m, d, q) && Has(m, e, j) && Has(m, f, k) &&
            Has(m, g, c)
  {
    hide Has;
    HasFour(m, a, x, y, p + q, j + k + c);
    HasBoth(m, a + 20, p, q);
    HasThree(m, e, j, k, c);
  }

  lemma HostImageIs(base: nat, name: Option<Text>, a: seq<seq<Byte>>, b: seq<seq<Byte>>, kind: int, length: nat)
    requires HostFits(base, name, a, b)
    ensures var at := base + 24 + 4 * |a| + 4 * (|b| + 1);
            var at2 := at + |Joined(a)|;
            HostImage(base, name, a, b, kind, length) ==
            Long4(NamePointer(at2 + |Joined(b)|, name)) + HostLongs(base, |a|, kind, length) +
            (Pointers(at, a) + Pointers(at2, b)) + (Joined(a) + Joined(b) + Chunk(name))
  {
    hide Long4, Joined, Pointers, Chunk, HostLongs, NamePointer;
  }

  /** The parts of the image, each in its place. */
  lemma HostParts(m: seq<Byte>, base: nat, name: Option<Text>, a: seq<seq<Byte>>, b: seq<seq<Byte>>, kind: int,
                  length: nat)
    requires HostFits(base, name, a, b)
    ensures var table := base + 24 + 4 * |a|;
            var at := table + 4 * (|b| + 1);
            var at2 := at + |Joined(a)|;
            var at3 := at2 + |Joined(b)|;
            Has(m, base, HostImage(base, name, a, b, kind, length)) <==>
            Has(m, base, Long4(NamePointer(at3, name))) && Has(m, base + 4, HostLongs(base, |a|, kind, length)) &&
            Has(m, base + 20, Pointers(at, a)) && Has(m, table, Pointers(at2, b)) &&
            Has(m, at, Joined(a)) && Has(m, at2, Joined(b)) && Has(m, at3, Chunk(name))
  {
    hide Has, Long4, Joined, Pointers, Chunk, HostLongs, NamePointer, HostImage;
    var table := base + 24 + 4 * |a|;
    var at := table + 4 * (|b| + 1);
    var at2 := at + |Joined(a)|;
    var at3 := at2 + |Joined(b)|;
    HostImageIs(base, name, a, b, kind, length);
    HasSeven(m, base, table, at, at2, at3, Long4(NamePointer(at3, name)), HostLongs(base, |a|, kind, length),
             Pointers(at, a), Pointers(at2, b), Joined(a), Joined(b), Chunk(name));
  }

  lemma NameReadsBack(m: seq<Byte>, at: nat, name: Option<Text>)
    requires 0 < at && Has(m, at, Chunk(name))
    ensures ReadString(m, NamePointer(at, name)) == name
  {
    hide ReadText, Has;
    if name.Some? { TextReadsBack(m, at, name.value); }
  }

  lemma HostFieldsReadBack(m: seq<Byte>, base: nat, na: nat, kind: int, length: nat)
    requires base + 24 + 4 * na < TWO32 && length < TWO32 && Has(m, base + 4, HostLongs(base, na, kind, length))
    ensures base + 20 <= |m|
    ensures GetLong(m, base + 4) == base + 20 && GetLong(m, base + 8) == U32(kind)
    ensures GetLong(m, base + 12) == length && GetLong(m, base + 16) == base + 24 + 4 * na
  {
    hide Long4, GetLong;
    var l1, l2, l3, l4 := Long4(base + 20), Long4(U32(kind)), Long4(U32(length)), Long4(base + 24 + 4 * na);
    HasFour(m, base + 4, l1, l2, l3, l4);
    LongReadsBack(m, base + 4, base + 20);
    LongReadsBack(m, base + 8, U32(kind));
    LongReadsBack(m, base + 12, U32(length));
    LongReadsBack(m, base + 16, base + 24 + 4 * na);
  }

  /** A host structure is read back as it was given, and every pointer in it leads into it. */
  lemma HostReadsBack(m: seq<Byte>, base: nat, name: Option<Text>, aliases: seq<Text>, kind: int, length: nat,
                      addresses: seq<seq<Byte>>)
    requires LongEnough(addresses, length) && length < TWO32
    requires HostFits(base, name, Terminated(aliases), Clipped(addresses, length))
    requires Has(m, base, HostImage(base, name, Terminated(aliases), Clipped(addresses, length), kind, length))
    ensures base + 20 <= |m|
    ensures ReadHost(m, base) == Host(name, aliases, U32(kind), length, Clipped(addresses, length))
    ensures var a, b := Terminated(aliases), Clipped(addresses, length);
            HostPointersInside(m, base, HostSize(name, a, b), name, a, b)
  {
    hide HostImage, HostLongs, Long4, GetLong, Joined, Pointers, Terminated, Clipped, Has, Within, Reach;
    hide ReadTable, ReadString, ReadText, ReadTexts, ReadAddresses, Starts, U32;
    var a, b := Terminated(aliases), Clipped(addresses, length);
    var table := base + 24 + 4 * |a|;
    var at := table + 4 * (|b| + 1);
    var at2 := at + |Joined(a)|;
    var at3 := at2 + |Joined(b)|;
    HostParts(m, base, name, a, b, kind, length);
    HostFieldsReadBack(m, base, |a|, kind, length);
    LongReadsBack(m, base, NamePointer(at3, name));
    HostListsReadBack(m, base, name, aliases, length, addresses);
    NameReadsBack(m, at3, name);
  }

  lemma HostListsReadBack(m: seq<Byte>, base: nat, name: Option<Text>, aliases: seq<Text>, length: nat,
                          addresses: seq<seq<Byte>>)
    requires LongEnough(addresses, length) && HostFits(base, name, Terminated(aliases), Clipped(addresses, length))
    requires var a, b := Terminated(aliases), Clipped(addresses, length);
             var table := base + 24 + 4 * |a|;
             var at := table + 4 * (|b| + 1);
             var at2 := at + |Joined(a)|;
             Has(m, base + 20, Pointers(at, a)) && Has(m, table, Pointers(at2, b)) && Has(m, at, Joined(a)) &&
             Has(m, at2, Joined(b))
    ensures var a, b := Terminated(aliases), Clipped(addresses, length);
            var table := base + 24 + 4 * |a|;
            ReadTexts(m, ReadTable(m, base + 20)) == aliases && ReadAddresses(m, ReadTable(m, table), length) == b &&
            Within(ReadTable(m, base + 20), a, base, base + HostSize(name, a, b)) &&
            Within(ReadTable(m, table), b, base, base + HostSize(name, a, b))
  {
    hide Joined, Pointers, Has, Starts, Terminated, Clipped, ReadTable, ReadTexts, ReadAddresses;
    var a, b := Terminated(aliases), Clipped(addresses, length);
    var table := base + 24 + 4 * |a|;
    var at := table + 4 * (|b| + 1);
    ListReadsBack(m, base + 20, at, a);
    ListReadsBack(m, table, at + |Joined(a)|, b);
    TextsReadBack(m, ReadTable(m, base + 20), aliases);
    AddressesReadBack(m, ReadTable(m, table), b, length);
  }

  // ----- the host structure, step by step -----

  /** A structure with two tables, `p` and `q`, and their chunks, `j` and `k`, at the places where they belong. */
  datatype Plan = Plan(base: nat, t: seq<Byte>, p: seq<Byte>, q: seq<Byte>, j: seq<Byte>, k: seq<Byte>, c: seq<Byte>,
                       l: seq<Byte>, d: nat, e: nat, f: nat, g: nat, size: nat)

  predicate PlanOk(n: Plan) {
    |n.l| == 4 && |n.t| == 16 && n.d == n.base + 20 + |n.p| && n.e == n.d + |n.q| && n.f == n.e + |n.j| &&
    n.g == n.f + |n.k| && n.base + n.size == n.g + |n.c|
  }

  /** m0 is written with the fixed fields; then the first list gives m2, and the second m3. */
  predicate Followed(n: Plan, m0: seq<Byte>, m2: seq<Byte>, m3: seq<Byte>)
    requires PlanOk(n)
  {
    n.base + n.size <= |m0| &&
    SameExcept(Poke(m0, n.base + 4, n.t), m2, n.base + 20, |n.p|, n.e, |n.j|) && Has(m2, n.base + 20, n.p) &&
    Has(m2, n.e, n.j) &&
    SameExcept(m2, m3, n.d, |n.q|, n.f, |n.k|) && Has(m3, n.d, n.q) && Has(m3, n.f, n.k)
  }

  /** The name and its pointer come last. */
  function Last(n: Plan, m3: seq<Byte>): seq<Byte>
    requires PlanOk(n) && n.base + n.size <= |m3|
  {
    Poke(Poke(m3, n.g, n.c), n.base, n.l)
  }

  lemma FollowedFirst(n: Plan, m0: seq<Byte>, m2: seq<Byte>, m3: seq<Byte>)
    requires PlanOk(n) && Followed(n, m0, m2, m3)
    ensures |m3| == |m0| && Has(m3, n.base + 4, n.t) && Has(m3, n.base + 20, n.p) && Has(m3, n.e, n.j)
  {
    hide Has, Poke, SameExcept;
    var m1 := Poke(m0, n.base + 4, n.t);
    PokeHas(m0, n.base + 4, n.t);
    Survives(m1, m2, n.base + 20, |n.p|, n.e, |n.j|, n.base + 4, n.t);
    Survives(m2, m3, n.d, |n.q|, n.f, |n.k|, n.base + 4, n.t);
    Survives(m2, m3, n.d, |n.q|, n.f, |n.k|, n.base + 20, n.p);
    Survives(m2, m3, n.d, |n.q|, n.f, |n.k|, n.e, n.j);
    SameLength(m1, m2, n.base + 20, |n.p|, n.e, |n.j|);
    SameLength(m2, m3, n.d, |n.q|, n.f, |n.k|);
  }

  lemma SameLength(m: seq<Byte>, r: seq<Byte>, a: nat, n: nat, b: nat, k: nat)
    requires SameExcept(m, r, a, n, b, k)
    ensures |m| == |r|
  {
  }

  lemma FollowedLast(n: Plan, m3: seq<Byte>)
    requires PlanOk(n) && n.base + n.size <= |m3|
    requires Has(m3, n.base + 4, n.t) && Has(m3, n.base + 20, n.p) && Has(m3, n.e, n.j) && Has(m3, n.d, n.q) &&
             Has(m3, n.f, n.k)
    ensures Has(Last(n, m3), n.base, n.l + n.t + (n.p + n.q) + (n.j + n.k + n.c))
  {
    hide Has, Poke;
    var body := n.t + n.p + n.q + (n.j + n.k);
    HasThree(m3, n.base + 4, n.t, n.p, n.q);
    HasBoth(m3, n.e, n.j, n.k);
    HasBoth(m3, n.base + 4, n.t + n.p + n.q, n.j + n.k);
    var m4 := Poke(m3, n.g, n.c);
    PokeHas(m3, n.g, n.c);
    PokeKeeps(m3, n.g, n.c, n.base + 4, body);
    HasBoth(m4, n.base + 4, body, n.c);
    PokeHas(m4, n.base, n.l);
    PokeKeeps(m4, n.base, n.l, n.base + 4, body + n.c);
    HasBoth(Last(n, m3), n.base, n.l, body + n.c);
    assert n.l + (body + n.c) == n.l + n.t + (n.p + n.q) + (n.j + n.k + n.c);
  }

  lemma FollowedFrame(n: Plan, m0: seq<Byte>, m2: seq<Byte>, m3: seq<Byte>)
    requires PlanOk(n) && Followed(n, m0, m2, m3) && |m3| == |m0|
    ensures SameOutside(m0, Last(n, m3), n.base, n.size)
  {
    hide Poke, SameExcept, Has;
    PokeInside(m0, m0, n.base, n.size, n.base + 4, n.t);
    hide SameOutside;
    ExceptIsInside(Poke(m0, n.base + 4, n.t), m2, n.base + 20, |n.p|, n.e, |n.j|, m0, n.base, n.size);
    ExceptIsInside(m2, m3, n.d, |n.q|, n.f, |n.k|, m0, n.base, n.size);
    PokeInside(m0, m3, n.base, n.size, n.g, n.c);
    PokeInside(m0, Poke(m3, n.g, n.c), n.base, n.size, n.base, n.l);
  }

  function HostPlan(base: nat, name: Option<Text>, a: seq<seq<Byte>>, b: seq<seq<Byte>>, kind: int,
                    length: nat): (n: Plan)
    requires HostFits(base, name, a, b)
    ensures PlanOk(n) && n.size == HostSize(name, a, b)
  {
    var table := base + 24 + 4 * |a|;
    var at := table + 4 * (|b| + 1);
    var at2 := at + |Joined(a)|;
    var at3 := at2 + |Joined(b)|;
    Plan(base, HostLongs(base, |a|, kind, length), Pointers(at, a), Pointers(at2, b), Joined(a), Joined(b), Chunk(name),
         Long4(NamePointer(at3, name)), table, at, at2, at3, HostSize(name, a, b))
  }

  /** The writes of bsdsock_copy_hostent, in their order, make the image. */
  lemma HostAssembled(m0: seq<Byte>, m2: seq<Byte>, m3: seq<Byte>, base: nat, name: Option<Text>, a: seq<seq<Byte>>,
                      b: seq<seq<Byte>>, kind: int, length: nat)
    requires HostFits(base, name, a, b) && Followed(HostPlan(base, name, a, b, kind, length), m0, m2, m3)
    ensures |m3| == |m0|
    ensures var m5 := Last(HostPlan(base, name, a, b, kind, length), m3);
            Has(m5, base, HostImage(base, name, a, b, kind, length)) && SameOutside(m0, m5, base, HostSize(name, a, b))
  {
    var n := HostPlan(base, name, a, b, kind, length);
    HostImageIs(base, name, a, b, kind, length);
    assert HostImage(base, name, a, b, kind, length) == n.l + n.t + (n.p + n.q) + (n.j + n.k + n.c) by {
      hide Long4, Joined, Pointers, Chunk, HostLongs, NamePointer, HostImage;
    }
    hide Long4, Joined, Pointers, Chunk, HostLongs, NamePointer, HostImage, HostPlan, Followed, Last, Has, SameOutside;
    FollowedFirst(n, m0, m2, m3);
    FollowedFrame(n, m0, m2, m3);
    assert Followed(n, m0, m2, m3);
    PlanSize(n, m0, m2, m3);
    FollowedLast(n, m3);
  }

  lemma PlanSize(n: Plan, m0: seq<Byte>, m2: seq<Byte>, m3: seq<Byte>)
    requires PlanOk(n) && Followed(n, m0, m2, m3)
    ensures n.base + n.size <= |m0| && Has(m3, n.d, n.q) && Has(m3, n.f, n.k)
  {
    hide Has, SameExcept, Poke;
  }

  /** Every byte of the structure is written exactly once. */
  lemma HostSpans(base: nat, name: Option<Text>, a: seq<seq<Byte>>, b: seq<seq<Byte>>)
    ensures var at := base + 28 + 4 * |a| + 4 * |b|;
            var at2 := at + |Joined(a)|;
            Span(base + 4, 16) + (Span(base + 20, 4 * (|a| + 1)) + Span(at, |Joined(a)|)) +
            (Span(base + 24 + 4 * |a|, 4 * (|b| + 1)) + Span(at2, |Joined(b)|)) +
            Span(at2 + |Joined(b)|, |Chunk(name)|) + Span(base, 4) == Span(base, HostSize(name, a, b))
  {
    hide Span, Joined, Chunk;
    var table := base + 24 + 4 * |a|;
    var at := table + 4 * (|b| + 1);
    var at2 := at + |Joined(a)|;
    var at3 := at2 + |Joined(b)|;
    SpanJoin(base, 4, 16);
    SpanJoin(base, 20, 4 * (|a| + 1));
    SpanJoin(base, 24 + 4 * |a|, 4 * (|b| + 1));
    SpanJoin(base, at - base, |Joined(a)|);
    SpanJoin(base, at2 - base, |Joined(b)|);
    SpanJoin(base, at3 - base, |Chunk(name)|);
  }

  // ----- protocol and service structures: one table -----

  function EntrySize(extra: nat, name: Option<Text>, protocol: Option<Text>, a: seq<seq<Byte>>): nat {
    16 + extra + 4 * |a| + |Joined(a)| + |Chunk(name)| + |Chunk(protocol)|
  }

  predicate EntryFits(base: nat, extra: nat, name: Option<Text>, protocol: Option<Text>, a: seq<seq<Byte>>) {
    0 < base && base + EntrySize(extra, name, protocol, a) < TWO32
  }

  /** Name pointer, table pointer, number, for a service the protocol's pointer, the table, and the chunks. */
  function EntryImage(base: nat, service: bool, name: Option<Text>, protocol: Option<Text>, a: seq<seq<Byte>>,
                      number: int): (bs: seq<Byte>)
    requires EntryFits(base, if service then 4 else 0, name, protocol, a)
    ensures |bs| == EntrySize(if service then 4 else 0, name, protocol, a)
  {
    var n := EntryPlan(base, service, name, protocol, a, number);
    n.l + n.t + n.r + n.p + (n.j + n.c + n.v)
  }

  /** The parts and where they go: `l` name pointer, `t` fixed fields, `r` protocol pointer, `p` table, `j` aliases at
      `e`, `c` name at `g`, `v` protocol. */
  datatype Entry = Entry(base: nat, l: seq<Byte>, t: seq<Byte>, r: seq<Byte>, p: seq<Byte>, j: seq<Byte>,
                         c: seq<Byte>, v: seq<Byte>, e: nat, g: nat, size: nat)

  predicate EntryOk(n: Entry) {
    |n.l| == 4 && |n.t| == 8 && n.e == n.base + 12 + |n.r| + |n.p| && n.g == n.e + |n.j| &&
    n.base + n.size == n.g + |n.c| + |n.v|
  }

  function EntryPlan(base: nat, service: bool, name: Option<Text>, protocol: Option<Text>, a: seq<seq<Byte>>,
                     number: int): (n: Entry)
    requires EntryFits(base, if service then 4 else 0, name, protocol, a)
    ensures EntryOk(n) && n.size == EntrySize(if service then 4 else 0, name, protocol, a)
  {
    var table := base + 12 + if service then 4 else 0;
    var at := table + 4 * (|a| + 1);
    var g := at + |Joined(a)|;
    Entry(base, Long4(NamePointer(g, name)), Long4(table) + Long4(U32(number)),
          if service then Long4(NamePointer(g + |Chunk(name)|, protocol)) else [],
          Pointers(at, a), Joined(a), Chunk(name), Chunk(protocol), at, g,
          EntrySize(if service then 4 else 0, name, protocol, a))
  }

  /** m0 is written with the fixed fields; then the aliases give m2. */
  predicate EntryFollowed(n: Entry, m0: seq<Byte>, m2: seq<Byte>)
    requires EntryOk(n)
  {
    n.base + n.size <= |m0| && |m2| == |m0| &&
    SameExcept(Poke(m0, n.base + 4, n.t), m2, n.base + 12 + |n.r|, |n.p|, n.e, |n.j|) &&
    Has(m2, n.base + 12 + |n.r|, n.p) && Has(m2, n.e, n.j)
  }

  /** The name and its pointer, then the protocol and its pointer. */
  function EntryLast(n: Entry, m2: seq<Byte>): seq<Byte>
    requires EntryOk(n) && n.base + n.size <= |m2|
  {
    Poke(Poke(Poke(Poke(m2, n.g, n.c), n.base, n.l), n.g + |n.c|, n.v), n.base + 12, n.r)
  }

  lemma EntryKept(n: Entry, m0: seq<Byte>, m2: seq<Byte>)
    requires EntryOk(n) && EntryFollowed(n, m0, m2)
    ensures Has(m2, n.base + 4, n.t)
  {
    hide Has, Poke, SameExcept;
    PokeHas(m0, n.base + 4, n.t);
    Survives(Poke(m0, n.base + 4, n.t), m2, n.base + 12 + |n.r|, |n.p|, n.e, |n.j|, n.base + 4, n.t);
  }

  lemma EntryCompleted(n: Entry, m2: seq<Byte>)
    requires EntryOk(n) && n.base + n.size <= |m2|
    requires Has(m2, n.base + 4, n.t) && Has(m2, n.base + 12 + |n.r|, n.p) && Has(m2, n.e, n.j)
    ensures Has(EntryLast(n, m2), n.base, n.l + n.t + n.r + n.p + (n.j + n.c + n.v))
  {
    hide Has, Poke;
    var q := n.base + 12 + |n.r|;
    HasBoth(m2, q, n.p, n.j);
    var m3 := Poke(m2, n.g, n.c);
    PokeHas(m2, n.g, n.c);
    PokeKeeps(m2, n.g, n.c, n.base + 4, n.t);
    PokeKeeps(m2, n.g, n.c, q, n.p + n.j);
    HasBoth(m3, q, n.p + n.j, n.c);
    var m4 := Poke(m3, n.base, n.l);
    PokeHas(m3, n.base, n.l);
    PokeKeeps(m3, n.base, n.l, n.base + 4, n.t);
    PokeKeeps(m3, n.base, n.l, q, n.p + n.j + n.c);
    HasBoth(m4, n.base, n.l, n.t);
    EntryFinished(n, m4);
  }

  lemma EntryFinished(n: Entry, m4: seq<Byte>)
    requires EntryOk(n) && n.base + n.size <= |m4|
    requires Has(m4, n.base, n.l + n.t) && Has(m4, n.base + 12 + |n.r|, n.p + n.j + n.c)
    ensures Has(Poke(Poke(m4, n.g + |n.c|, n.v), n.base + 12, n.r), n.base, n.l + n.t + n.r + n.p + (n.j + n.c + n.v))
  {
    hide Has, Poke;
    var q, h := n.base + 12 + |n.r|, n.g + |n.c|;
    var m5 := Poke(m4, h, n.v);
    PokeHas(m4, h, n.v);
    PokeKeeps(m4, h, n.v, n.base, n.l + n.t);
    PokeKeeps(m4, h, n.v, q, n.p + n.j + n.c);
    HasBoth(m5, q, n.p + n.j + n.c, n.v);
    var m6 := Poke(m5, n.base + 12, n.r);
    PokeHas(m5, n.base + 12, n.r);
    PokeKeeps(m5, n.base + 12, n.r, n.base, n.l + n.t);
    PokeKeeps(m5, n.base + 12, n.r, q, n.p + n.j + n.c + n.v);
    HasThree(m6, n.base, n.l + n.t, n.r, n.p + n.j + n.c + n.v);
    assert n.l + n.t + n.r + (n.p + n.j + n.c + n.v) == n.l + n.t + n.r + n.p + (n.j + n.c + n.v);
  }

  lemma EntryFrame(n: Entry, m0: seq<Byte>, m2: seq<Byte>)
    requires EntryOk(n) && EntryFollowed(n, m0, m2)
    ensures SameOutside(m0, EntryLast(n, m2), n.base, n.size)
  {
    hide Poke, SameExcept, Has;
    PokeInside(m0, m0, n.base, n.size, n.base + 4, n.t);
    hide SameOutside;
    ExceptIsInside(Poke(m0, n.base + 4, n.t), m2, n.base + 12 + |n.r|, |n.p|, n.e, |n.j|, m0, n.base, n.size);
    var m3 := Poke(m2, n.g, n.c);
    var m4 := Poke(m3, n.base, n.l);
    var m5 := Poke(m4, n.g + |n.c|, n.v);
    PokeInside(m0, m2, n.base, n.size, n.g, n.c);
    PokeInside(m0, m3, n.base, n.size, n.base, n.l);
    PokeInside(m0, m4, n.base, n.size, n.g + |n.c|, n.v);
    PokeInside(m0, m5, n.base, n.size, n.base + 12, n.r);
  }

  /** The writes of bsdsock_copy_protoent and bsdsock_copy_servent, in their order, make the image. */
  lemma EntryAssembled(m0: seq<Byte>, m2: seq<Byte>, base: nat, service: bool, name: Option<Text>,
                       protocol: Option<Text>, a: seq<seq<Byte>>, number: int)
    requires EntryFits(base, if service then 4 else 0, name, protocol, a)
    requires EntryFollowed(EntryPlan(base, service, name, protocol, a, number), m0, m2)
    ensures var m5 := EntryLast(EntryPlan(base, service, name, protocol, a, number), m2);
            Has(m5, base, EntryImage(base, service, name, protocol, a, number)) &&
            SameOutside(m0, m5, base, EntrySize(if service then 4 else 0, name, protocol, a))
  {
    hide EntrySize, EntryLast, Has, SameExcept, SameOutside, Poke;
    var n := EntryPlan(base, service, name, protocol, a, number);
    EntryKept(n, m0, m2);
    EntryCompleted(n, m2);
    EntryFrame(n, m0, m2);
  }

  lemma EntrySpans(n: Entry)
    requires EntryOk(n)
    ensures Span(n.base + 4, 8) + (Span(n.base + 12 + |n.r|, |n.p|) + Span(n.e, |n.j|)) + Span(n.g, |n.c|) +
            Span(n.base, 4) + Span(n.g + |n.c|, |n.v|) + Span(n.base + 12, |n.r|) == Span(n.base, n.size)
  {
    hide Span;
    SpanJoin(n.base, 4, 8);
    SpanJoin(n.base, 12, |n.r|);
    SpanJoin(n.base, 12 + |n.r|, |n.p|);
    SpanJoin(n.base, n.e - n.base, |n.j|);
    SpanJoin(n.base, n.g - n.base, |n.c|);
    SpanJoin(n.base, n.g + |n.c| - n.base, |n.v|);
  }

  /** A protocol or service structure as a guest program reads it. */
  datatype Listing = Listing(name: Option<seq<Byte>>, aliases: seq<seq<Byte>>, number: nat, protocol: Option<seq<Byte>>)

  function ReadListing(m: seq<Byte>, base: nat, service: bool): Listing
    requires base + 16 <= |m|
  {
    Listing(ReadString(m, GetLong(m, base)), ReadTexts(m, ReadTable(m, GetLong(m, base + 4))), GetLong(m, base + 8),
            if service then ReadString(m, GetLong(m, base + 12)) else None)
  }

  predicate ListingPointersInside(m: seq<Byte>, base: nat, size: nat, service: bool, name: Option<Text>,
                                  protocol: Option<Text>, a: seq<seq<Byte>>)
    requires base + 16 <= |m|
  {
    var n, p, r := GetLong(m, base), GetLong(m, base + 4), GetLong(m, base + 12);
    (name.Some? ==> base <= n && n + |Chunk(name)| <= base + size) &&
    base <= p && p + 4 * (|a| + 1) <= base + size && Within(ReadTable(m, p), a, base, base + size) &&
    (service && protocol.Some? ==> base <= r && r + |Chunk(protocol)| <= base + size)
  }

  lemma EntryParts(m: seq<Byte>, n: Entry)
    requires EntryOk(n) && Has(m, n.base, n.l + n.t + n.r + n.p + (n.j + n.c + n.v))
    ensures Has(m, n.base, n.l) && Has(m, n.base + 4, n.t) && Has(m, n.base + 12, n.r) &&
            Has(m, n.base + 12 + |n.r|, n.p) && Has(m, n.e, n.j) && Has(m, n.g, n.c) && Has(m, n.g + |n.c|, n.v)
  {
    hide Has;
    HasBoth(m, n.base, n.l + n.t + n.r + n.p, n.j + n.c + n.v);
    HasFour(m, n.base, n.l, n.t, n.r, n.p);
    HasThree(m, n.e, n.j, n.c, n.v);
  }

  /** Protocol and service structures are read back as they were given, and every pointer leads into them. */
  lemma EntryReadsBack(m: seq<Byte>, base: nat, service: bool, name: Option<Text>, protocol: Option<Text>,
                       aliases: seq<Text>, number: int)
    requires service || protocol.None?
    requires EntryFits(base, if service then 4 else 0, name, protocol, Terminated(aliases))
    requires Has(m, base, EntryImage(base, service, name, protocol, Terminated(aliases), number))
    ensures base + 16 <= |m|
    ensures ReadListing(m, base, service) == Listing(name, aliases, U32(number), protocol)
    ensures ListingPointersInside(m, base, EntrySize(if service then 4 else 0, name, protocol, Terminated(aliases)),
                                  service, name, protocol, Terminated(aliases))
  {
    hide Long4, GetLong, Joined, Pointers, Terminated, Has, Within, U32;
    hide ReadTable, ReadString, ReadText, ReadTexts, Starts;
    var n := EntryPlan(base, service, name, protocol, Terminated(aliases), number);
    EntryParts(m, n);
    EntryBounds(m, n);
    EntryFieldsReadBack(m, base, base + 12 + |n.r|, number);
    EntryListReadsBack(m, n, base + 12 + |n.r|, aliases);
    PointerReadsBack(m, base, n.g, name);
    if service { PointerReadsBack(m, base + 12, n.g + |n.c|, protocol); }
  }

  lemma EntryFieldsReadBack(m: seq<Byte>, base: nat, table: nat, number: int)
    requires table < TWO32 && Has(m, base + 4, Long4(table) + Long4(U32(number)))
    ensures base + 12 <= |m| && GetLong(m, base + 4) == table && GetLong(m, base + 8) == U32(number)
  {
    hide Long4, GetLong, U32;
    HasBoth(m, base + 4, Long4(table), Long4(U32(number)));
    LongReadsBack(m, base + 4, table);
    LongReadsBack(m, base + 8, U32(number));
  }

  /** A pointer to a string, or zero if there is none. */
  lemma PointerReadsBack(m: seq<Byte>, at: nat, p: nat, s: Option<Text>)
    requires 0 < p < TWO32 && Has(m, at, Long4(NamePointer(p, s))) && Has(m, p, Chunk(s))
    ensures at + 4 <= |m| && GetLong(m, at) == NamePointer(p, s) && ReadString(m, GetLong(m, at)) == s
  {
    hide Long4, GetLong, ReadString, Chunk, NamePointer;
    LongReadsBack(m, at, NamePointer(p, s));
    NameReadsBack(m, p, s);
  }

  lemma EntryBounds(m: seq<Byte>, n: Entry)
    requires EntryOk(n) && Has(m, n.base + 12 + |n.r|, n.p) && |n.p| >= 4
    ensures n.base + 16 <= |m|
  {
  }

  lemma EntryListReadsBack(m: seq<Byte>, n: Entry, table: nat, aliases: seq<Text>)
    requires EntryOk(n) && table == n.base + 12 + |n.r| && Reach(n.e, Terminated(aliases)) &&
             n.j == Joined(Terminated(aliases))
    requires n.p == Pointers(n.e, Terminated(aliases)) && Has(m, table, n.p) && Has(m, n.e, n.j)
    ensures ReadTexts(m, ReadTable(m, table)) == aliases
    ensures Within(ReadTable(m, table), Terminated(aliases), n.base, n.base + n.size)
  {
    hide Joined, Pointers, Has, Starts, Terminated, ReadTable, ReadTexts;
    ListReadsBack(m, table, n.e, Terminated(aliases));
    TextsReadBack(m, ReadTable(m, table), aliases);
  }
}
