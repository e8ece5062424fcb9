/**
 The ATonce INT 13h disk service (atonce.cpp:628-715): cylinder, head and sector against linear addresses, the packed
 drive parameters, and sector transfers between guest memory and the disk image.
 */
module AtonceDisk {
  import opened GuestMemory
  import opened Numbers

  const SECTOR := 512

  /** The PC disk: byte offset in the image, heads and sectors per track, total sectors. */
  datatype Geometry = Geometry(offset: nat, heads: nat, spt: nat, sectors: nat)

  predicate GeometryOk(g: Geometry) { 1 <= g.heads <= 256 && 1 <= g.spt <= 63 && g.sectors < TWO32 }

  // ----- addressing -----

  function Lba(g: Geometry, c: nat, h: nat, s: int): nat
    requires s > 0
  {
    (c * g.heads + h) * g.spt + (s - 1)
  }

  /** Cylinder, head and sector of a linear address. */
  function Chs(g: Geometry, lba: nat): (int, int, int)
    requires g.heads > 0 && g.spt > 0
  {
    (lba / g.spt / g.heads, lba / g.spt % g.heads, lba % g.spt + 1)
  }

  /** The last cylinder of the disk that a request can name, -1 if there is not even one. */
  function MaxCyl(g: Geometry): (m: int)
    requires GeometryOk(g)
    ensures -1 <= m <= 1023
  {
    var perCyl := g.heads * g.spt;
    Numbers.ProductIsPositive(g.heads, g.spt);
    if g.sectors / perCyl - 1 > 1023 then 1023 else g.sectors / perCyl - 1
  }

  predicate InRange(g: Geometry, c: nat, h: nat, s: int)
    requires GeometryOk(g)
  {
    c <= MaxCyl(g) && h < g.heads && 1 <= s <= g.spt
  }

  function Reachable(g: Geometry): int
    requires GeometryOk(g)
  {
    (MaxCyl(g) + 1) * g.heads * g.spt
  }

  /** Addresses are different for different places, */
  lemma LbaThenChs(g: Geometry, c: nat, h: nat, s: nat)
    requires GeometryOk(g) && h < g.heads && 1 <= s <= g.spt
    ensures Chs(g, Lba(g, c, h, s)) == (c, h, s)
  {
    var t := c * g.heads + h;
    Numbers.Commute(t, g.spt);
    Numbers.Commute(c, g.heads);
    Numbers.DivisionIsUnique(g.spt, t, s - 1);
    Numbers.DivisionIsUnique(g.heads, c, h);
  }

  /** every address has a place, */
  lemma ChsThenLba(g: Geometry, lba: nat)
    requires GeometryOk(g) && lba < Reachable(g)
    ensures var (c, h, s) := Chs(g, lba);
            0 <= c && 0 <= h && InRange(g, c, h, s) && Lba(g, c, h, s) == lba
  {
    hide MaxCyl;
    var t := lba / g.spt;
    Numbers.DivisionBounds(lba, g.spt);
    Numbers.DivisionBounds(t, g.heads);
    var n := MaxCyl(g) + 1;
    Numbers.QuotientBelow(lba, n * g.heads, g.spt);
    Numbers.QuotientBelow(t, n, g.heads);
  }

  /** and all of them are on the disk. */
  lemma LbaIsOnTheDisk(g: Geometry, c: nat, h: nat, s: nat)
    requires GeometryOk(g) && InRange(g, c, h, s)
    ensures Lba(g, c, h, s) < Reachable(g) <= g.sectors
  {
    var n, perCyl := MaxCyl(g) + 1, g.heads * g.spt;
    Numbers.ProductIsPositive(g.heads, g.spt);
    Numbers.Below(n, g.heads, c, h);
    Numbers.Below(n * g.heads, g.spt, c * g.heads + h, s - 1);
    Numbers.MultipleBelow(g.sectors, perCyl, n);
    assert n * g.heads * g.spt == n * perCyl by { Numbers.Associate(n, g.heads, g.spt); }
  }

  // ----- drive parameters -----

  function CylOf(ch: nat, cl: nat): nat { ch + cl / 64 * 256 }

  function SecOf(cl: nat): nat { cl % 64 }

  const TWO31 := 0x8000_0000

  /** An unsigned 32-bit number cast to int. */
  function Signed32(n: nat): int { if n >= TWO31 then n - TWO32 else n }

  function Cylinders(g: Geometry): nat
    requires g.heads > 0 && g.spt > 0
  {
    Numbers.ProductIsPositive(g.heads, g.spt);
    Numbers.DivisionBounds(g.sectors, g.heads * g.spt);
    g.sectors / (g.heads * g.spt)
  }

  /** The last cylinder as AH=08 computes it.  The cast makes 2^31 cylinders -2^31, and one less than that overflows:
      the language leaves the result open, and it is `o` here. */
  function Computed(g: Geometry, o: int): int
    requires GeometryOk(g)
  {
    var m := if Cylinders(g) == TWO31 then o else Signed32(Cylinders(g)) - 1;
    if m > 1023 then 1023 else m
  }

  /** CH and CL as AH=08 packs them, truncated to bytes. */
  function PackedCh(m: int): nat { m % 256 }

  function PackedCl(g: Geometry, m: int): nat { g.spt + m / 4 % 256 / 64 * 64 }

  /** The last cylinder that a guest decodes from them. */
  function Reported(g: Geometry, o: int): nat
    requires GeometryOk(g)
  {
    var m := Computed(g, o);
    CylOf(PackedCh(m), PackedCl(g, m))
  }

  /** Bits 8 and 9 of a number, as AH=08 takes them. */
  lemma TopBits(m: int)
    ensures m / 4 % 256 / 64 == m / 256 % 4
  {
    var q, low := m / 256, m % 256;
    assert m / 4 == 64 * q + low / 4;
    assert 64 * q + low / 4 == 256 * (q / 4) + (64 * (q % 4) + low / 4);
    Numbers.DivisionIsUnique(256, q / 4, 64 * (q % 4) + low / 4);
    Numbers.DivisionIsUnique(64, q % 4, low / 4);
  }

  lemma TenBits(m: int)
    ensures m % 256 + m / 256 % 4 * 256 == m % 1024
  {
    var q, low := m / 256, m % 256;
    assert m == 1024 * (q / 4) + (256 * (q % 4) + low);
    Numbers.DivisionIsUnique(1024, q / 4, 256 * (q % 4) + low);
  }

  /** Whatever number of cylinders is packed, its ten low bits and the sectors per track are decoded. */
  lemma PackUnpack(g: Geometry, m: int)
    requires GeometryOk(g)
    ensures PackedCh(m) < 256 && PackedCl(g, m) < 256 && SecOf(PackedCl(g, m)) == g.spt
    ensures CylOf(PackedCh(m), PackedCl(g, m)) == m % 1024
  {
    var top := m / 256 % 4;
    TopBits(m);
    TenBits(m);
    assert PackedCl(g, m) == 64 * top + g.spt;
    Numbers.DivisionIsUnique(64, top, g.spt);
  }

  /** Only a disk of one head and one sector per track has 2^31 cylinders or more. */
  lemma ManyCylinders(g: Geometry)
    requires GeometryOk(g) && Cylinders(g) >= TWO31
    ensures g.heads == 1 && g.spt == 1 && Cylinders(g) == g.sectors
  {
    var perCyl := g.heads * g.spt;
    Numbers.ProductIsPositive(g.heads, g.spt);
    Numbers.DivisionBounds(g.sectors, perCyl);
    if perCyl >= 2 {
      Numbers.AtLeastTwice(perCyl, Cylinders(g));
      assert false;
    }
    Numbers.FactorsOfOne(g.heads, g.spt);
  }

  lemma CylindersIs(g: Geometry)
    requires GeometryOk(g) && g.heads * g.spt > 0
    ensures Cylinders(g) == g.sectors / (g.heads * g.spt)
  {
  }

  /** What AH=08 reports.  It is the last cylinder if and only if the disk has a full cylinder and fewer than 2^31 of
      them, or the ten low bits of what is computed happen to be those of the limit 1023.  A disk without a full
      cylinder claims 1024, and one with more than 2^31 claims its number modulo 1024. */
  lemma ParametersUnpack(g: Geometry, o: int)
    requires GeometryOk(g)
    ensures var m := Computed(g, o);
            PackedCh(m) < 256 && PackedCl(g, m) < 256 && SecOf(PackedCl(g, m)) == g.spt
    ensures Reported(g, o) == MaxCyl(g) <==>
              g.sectors >= g.heads * g.spt &&
              (Cylinders(g) > TWO31 ==> g.sectors % 1024 == 0) &&
              (Cylinders(g) == TWO31 ==> o >= 1023 || o % 1024 == 1023)
    ensures g.sectors < g.heads * g.spt ==> Reported(g, o) == 1023
    ensures Cylinders(g) > TWO31 ==> Reported(g, o) == (g.sectors - 1) % 1024
  {
    hide PackedCl, PackedCh, CylOf, Cylinders;
    Numbers.ProductIsPositive(g.heads, g.spt);
    Numbers.FullCylinder(g.sectors, g.heads * g.spt);
    assert Cylinders(g) == g.sectors / (g.heads * g.spt) by { CylindersIs(g); }
    PackUnpack(g, Computed(g, o));
    if Cylinders(g) >= TWO31 { ManyCylinders(g); }
  }

  /** A disk of 2^31 + 1 sectors, one head and one sector per track reports a single cylinder. */
  lemma LargeDiskReportsOne(o: int)
    ensures var g := Geometry(0, 1, 1, 0x8000_0001);
            GeometryOk(g) && MaxCyl(g) == 1023 && Reported(g, o) == 0 && PackedCl(g, Computed(g, o)) == 1
  {
    ParametersUnpack(Geometry(0, 1, 1, 0x8000_0001), o);
  }

  /** For a guest that goes by the report: every place it may use is on the disk if and only if the disk has a full
      cylinder, however many it has. */
  lemma ReportedPlacesAreOnTheDisk(g: Geometry, o: int)
    requires GeometryOk(g)
    ensures (forall c: nat, h: nat, s: nat :: c <= Reported(g, o) && h < g.heads && 1 <= s <= g.spt ==>
               Lba(g, c, h, s) < g.sectors) <==>
            g.sectors >= g.heads * g.spt
  {
    hide MaxCyl, Lba, Computed, CylOf, Cylinders;
    PackUnpack(g, Computed(g, o));
    if g.sectors >= g.heads * g.spt {
      forall c: nat, h: nat, s: nat | c <= Reported(g, o) && h < g.heads && 1 <= s <= g.spt
        ensures Lba(g, c, h, s) < g.sectors
      {
        AtMostReported(g, o);
        LbaIsOnTheDisk(g, c, h, s);
      }
    } else {
      ParametersUnpack(g, o);
      assert Lba(g, 0, g.heads - 1, g.spt) >= g.sectors by { LastOfCylinder(g); }
    }
  }

  lemma AtMostReported(g: Geometry, o: int)
    requires GeometryOk(g) && g.sectors >= g.heads * g.spt
    ensures Reported(g, o) <= MaxCyl(g)
  {
    hide PackedCl, PackedCh, CylOf;
    PackUnpack(g, Computed(g, o));
    Numbers.ProductIsPositive(g.heads, g.spt);
    Numbers.FullCylinder(g.sectors, g.heads * g.spt);
  }

  lemma LastOfCylinder(g: Geometry)
    requires GeometryOk(g) && g.sectors < g.heads * g.spt
    ensures Lba(g, 0, g.heads - 1, g.spt) >= g.sectors
  {
    Numbers.Commute(g.heads, g.spt);
    Numbers.Distribute(g.spt, g.heads, 1);
  }

  // ----- transfers -----

  /** How many of the sectors are inside the image: the service stops at the first that is not. */
  function Moves(pos: nat, count: nat, size: nat): (n: nat)
    ensures n <= count && (n > 0 ==> pos + SECTOR * n <= size) && (n < count ==> pos + SECTOR * n + SECTOR > size)
    decreases count
  {
    if count == 0 || pos + SECTOR > size then 0 else 1 + Moves(pos + SECTOR, count - 1, size)
  }

  /** What AH=02 leaves in memory, before the result. */
  function Loaded(mem: seq<Byte>, disk: seq<Byte>, pos: nat, buf: nat, count: nat): (m: seq<Byte>)
    requires buf + SECTOR * count <= |mem|
    ensures |m| == |mem|
  {
    var n := Moves(pos, count, |disk|);
    if n == 0 then mem else Poke(mem, buf, disk[pos..pos + SECTOR * n])
  }

  /** What AH=03 leaves on the disk. */
  function Stored(mem: seq<Byte>, disk: seq<Byte>, pos: nat, buf: nat, count: nat): (d: seq<Byte>)
    requires buf + SECTOR * count <= |mem|
    ensures |d| == |disk|
  {
    var n := Moves(pos, count, |disk|);
    if n == 0 then disk else Poke(disk, pos, mem[buf..buf + SECTOR * n])
  }

  /** AH, AL and the carry flag in the register frame. */
  function Answered(mem: seq<Byte>, frame: nat, ah: Byte, al: Byte, error: bool): (m: seq<Byte>)
    requires frame + 0x19 <= |mem|
    ensures |m| == |mem|
  {
    var m := mem[frame + 0x13 := ah][frame + 0x12 := al];
    var fl := m[frame + 0x18];
    m[frame + 0x18 := fl - fl % 2 + if error then 1 else 0]
  }

  lemma StoredSectors(mem: seq<Byte>, disk: seq<Byte>, pos: nat, buf: nat, count: nat)
    requires buf + SECTOR * count <= |mem| && Moves(pos, count, |disk|) > 0
    ensures var n := SECTOR * Moves(pos, count, |disk|);
            Stored(mem, disk, pos, buf, count)[pos..pos + n] == mem[buf..buf + n]
  {
    hide Moves, Poke;
    PokeHas(disk, pos, mem[buf..buf + SECTOR * Moves(pos, count, |disk|)]);
  }

  lemma LoadedSectors(mem: seq<Byte>, disk: seq<Byte>, pos: nat, buf: nat, count: nat)
    requires buf + SECTOR * count <= |mem| && Moves(pos, count, |disk|) > 0
    ensures var n := SECTOR * Moves(pos, count, |disk|);
            Has(Loaded(mem, disk, pos, buf, count), buf, disk[pos..pos + n])
  {
    hide Moves, Poke, Has;
    PokeHas(mem, buf, disk[pos..pos + SECTOR * Moves(pos, count, |disk|)]);
  }

  /** Written sectors are read back, whatever was in the buffer they are read into: as many as are on the disk. */
  lemma WriteThenRead(mem: seq<Byte>, disk: seq<Byte>, pos: nat, buf: nat, count: nat, later: seq<Byte>, into: nat)
    requires buf + SECTOR * count <= |mem| && into + SECTOR * count <= |later|
    ensures var n := Moves(pos, count, |disk|);
            var d := Stored(mem, disk, pos, buf, count);
            Has(Loaded(later, d, pos, into, count), into, mem[buf..buf + SECTOR * n])
  {
    hide Moves, Stored, Loaded;
    if Moves(pos, count, |disk|) > 0 {
      StoredSectors(mem, disk, pos, buf, count);
      LoadedSectors(later, Stored(mem, disk, pos, buf, count), pos, into, count);
    }
  }

  /** The answer of the read does not disturb the sectors, if the register frame is elsewhere. */
  lemma RoundTrip(mem: seq<Byte>, disk: seq<Byte>, pos: nat, buf: nat, count: nat, later: seq<Byte>, into: nat,
                  frame: nat, ah: Byte, al: Byte, error: bool)
    requires buf + SECTOR * count <= |mem| && into + SECTOR * count <= |later| && frame + 0x19 <= |later|
    requires frame + 0x19 <= into || into + SECTOR * count <= frame + 0x12
    ensures var n := Moves(pos, count, |disk|);
            Has(Answered(Loaded(later, Stored(mem, disk, pos, buf, count), pos, into, count), frame, ah, al, error),
                into, mem[buf..buf + SECTOR * n])
  {
    hide Moves, Stored, Loaded;
    WriteThenRead(mem, disk, pos, buf, count, later, into);
    var m := Loaded(later, Stored(mem, disk, pos, buf, count), pos, into, count);
    var n := SECTOR * Moves(pos, count, |disk|);
    assert Answered(m, frame, ah, al, error)[into..into + n] == m[into..into + n];
  }

  // ----- transfers and the end of the partition -----

  /** Byte offset in the image of the first sector of a request. */
  function Position(g: Geometry, c: nat, h: nat, s: nat): nat
    requires s > 0
  {
    g.offset + Lba(g, c, h, s) * SECTOR
  }

  /** The number of sectors moved, from what the caller knows: the count asked for, or what the image still holds. */
  function Sectors(pos: nat, count: nat, size: nat): nat {
    var left := if size < pos then 0 else (size - pos) / SECTOR;
    if count <= left then count else left
  }

  lemma {:induction false} MovesIsSectors(pos: nat, count: nat, size: nat)
    ensures Moves(pos, count, size) == Sectors(pos, count, size)
    decreases count
  {
    if count > 0 && pos + SECTOR <= size { MovesIsSectors(pos + SECTOR, count - 1, size); }
  }

  /** Some memory would make the write change byte `i` of the image. */
  ghost predicate CanChange(disk: seq<Byte>, pos: nat, count: nat, i: nat)
    requires i < |disk|
  {
    exists mem: seq<Byte>, buf: nat ::
      buf + SECTOR * count <= |mem| && Stored(mem, disk, pos, buf, count)[i] != disk[i]
  }

  predicate SameBut(d: seq<Byte>, disk: seq<Byte>, i: nat) {
    |d| == |disk| && forall k :: 0 <= k < |disk| && k != i ==> d[k] == disk[k]
  }

  /** Another byte `i` of the image would make the read leave something else in memory. */
  ghost predicate CanSee(disk: seq<Byte>, pos: nat, count: nat, i: nat) {
    exists mem: seq<Byte>, buf: nat, d: seq<Byte> ::
      buf + SECTOR * count <= |mem| && SameBut(d, disk, i) &&
      Loaded(mem, d, pos, buf, count) != Loaded(mem, disk, pos, buf, count)
  }

  predicate InSectors(pos: nat, n: nat, i: nat) { pos <= i < pos + SECTOR * n }

  lemma WriteChangesItsSectors(disk: seq<Byte>, pos: nat, count: nat, i: nat)
    requires i < |disk|
    ensures CanChange(disk, pos, count, i) <==> InSectors(pos, Moves(pos, count, |disk|), i)
  {
    hide Moves, Stored;
    if InSectors(pos, Moves(pos, count, |disk|), i) {
      var mem: seq<Byte> := seq(SECTOR * count, _ => 255 - disk[i]);
      StoredByte(mem, disk, pos, 0, count, i);
      assert Stored(mem, disk, pos, 0, count)[i] != disk[i];
    } else {
      forall mem: seq<Byte>, buf: nat | buf + SECTOR * count <= |mem|
        ensures Stored(mem, disk, pos, buf, count)[i] == disk[i]
      {
        StoredByte(mem, disk, pos, buf, count, i);
      }
    }
  }

  /** A byte of the image after a write: memory's if it lies in the sectors moved, and its own otherwise. */
  lemma StoredByte(mem: seq<Byte>, disk: seq<Byte>, pos: nat, buf: nat, count: nat, i: nat)
    requires buf + SECTOR * count <= |mem| && i < |disk|
    ensures Stored(mem, disk, pos, buf, count)[i] ==
            if InSectors(pos, Moves(pos, count, |disk|), i) then mem[buf + (i - pos)] else disk[i]
  {
    hide Moves;
  }

  lemma ReadSeesItsSectors(disk: seq<Byte>, pos: nat, count: nat, i: nat)
    requires i < |disk|
    ensures CanSee(disk, pos, count, i) <==> InSectors(pos, Moves(pos, count, |disk|), i)
  {
    hide Moves, Loaded;
    if InSectors(pos, Moves(pos, count, |disk|), i) {
      var mem: seq<Byte> := seq(SECTOR * count, _ => 0);
      var d := disk[i := 255 - disk[i]];
      LoadedByte(mem, disk, pos, 0, count, i);
      LoadedByte(mem, d, pos, 0, count, i);
      assert SameBut(d, disk, i) && Loaded(mem, d, pos, 0, count) != Loaded(mem, disk, pos, 0, count);
    } else {
      forall mem: seq<Byte>, buf: nat, d: seq<Byte> | buf + SECTOR * count <= |mem| && SameBut(d, disk, i)
        ensures Loaded(mem, d, pos, buf, count) == Loaded(mem, disk, pos, buf, count)
      {
        LoadedIgnores(mem, disk, pos, buf, count, i, d);
      }
    }
  }

  lemma LoadedByte(mem: seq<Byte>, disk: seq<Byte>, pos: nat, buf: nat, count: nat, i: nat)
    requires buf + SECTOR * count <= |mem| && InSectors(pos, Moves(pos, count, |disk|), i)
    ensures i < |disk| && buf + (i - pos) < |mem|
    ensures Loaded(mem, disk, pos, buf, count)[buf + (i - pos)] == disk[i]
  {
    hide Moves;
  }

  lemma LoadedIgnores(mem: seq<Byte>, disk: seq<Byte>, pos: nat, buf: nat, count: nat, i: nat, d: seq<Byte>)
    requires buf + SECTOR * count <= |mem| && SameBut(d, disk, i) && !InSectors(pos, Moves(pos, count, |disk|), i)
    ensures Loaded(mem, d, pos, buf, count) == Loaded(mem, disk, pos, buf, count)
  {
    hide Moves, Poke;
    var n := Moves(pos, count, |disk|);
    if n > 0 { assert d[pos..pos + SECTOR * n] == disk[pos..pos + SECTOR * n]; }
  }

  predicate InPartition(g: Geometry, i: nat) { g.offset <= i < g.offset + SECTOR * g.sectors }

  /** The service does not look at the end of the partition.  A request with places of any geometry, valid or not,
      writes and reads inside the partition exactly if nothing is moved or the last sector moved is below its end. */
  lemma StaysInPartition(g: Geometry, c: nat, h: nat, s: nat, count: nat, disk: seq<Byte>)
    requires s > 0
    ensures var pos := Position(g, c, h, s);
            var n := Sectors(pos, count, |disk|);
            var inside := n == 0 || Lba(g, c, h, s) + n <= g.sectors;
            ((forall i: nat :: i < |disk| && CanChange(disk, pos, count, i) ==> InPartition(g, i)) <==> inside) &&
            ((forall i: nat :: i < |disk| && CanSee(disk, pos, count, i) ==> InPartition(g, i)) <==> inside)
  {
    hide CanChange, CanSee, Moves, Lba, Sectors;
    var pos := Position(g, c, h, s);
    var n := Moves(pos, count, |disk|);
    MovesIsSectors(pos, count, |disk|);
    forall i: nat | i < |disk|
      ensures CanChange(disk, pos, count, i) <==> InSectors(pos, n, i)
      ensures CanSee(disk, pos, count, i) <==> InSectors(pos, n, i)
    {
      WriteChangesItsSectors(disk, pos, count, i);
      ReadSeesItsSectors(disk, pos, count, i);
    }
    if n > 0 {
      var last := pos + SECTOR * n - 1;
      assert InSectors(pos, n, last) && last < |disk|;
      assert InPartition(g, last) <==> Lba(g, c, h, s) + n <= g.sectors;
    }
  }

  /** For places of the reported geometry the first sector at least is inside, so that only the count matters. */
  lemma ReportedStaysInPartition(g: Geometry, c: nat, h: nat, s: nat, count: nat, disk: seq<Byte>)
    requires GeometryOk(g) && InRange(g, c, h, s)
    ensures var pos := Position(g, c, h, s);
            (forall i: nat :: i < |disk| && CanChange(disk, pos, count, i) ==> InPartition(g, i)) <==>
            Sectors(pos, count, |disk|) <= g.sectors - Lba(g, c, h, s)
    ensures count <= 1 ==> Sectors(Position(g, c, h, s), count, |disk|) <= g.sectors - Lba(g, c, h, s)
  {
    hide CanChange, CanSee, Lba, MaxCyl;
    LbaIsOnTheDisk(g, c, h, s);
    StaysInPartition(g, c, h, s, count, disk);
  }

  /** Two sectors written to the last place of a two-sector disk: the second one lands behind the partition. */
  lemma WriteCanLeavePartition(mem: seq<Byte>, disk: seq<Byte>, buf: nat)
    requires |disk| == 3 * SECTOR && buf + 2 * SECTOR <= |mem| && mem[buf + SECTOR] != disk[2 * SECTOR]
    ensures var g := Geometry(0, 1, 1, 2);
            GeometryOk(g) && InRange(g, 1, 0, 1) && !InPartition(g, 2 * SECTOR) &&
            Stored(mem, disk, Position(g, 1, 0, 1), buf, 2)[2 * SECTOR] != disk[2 * SECTOR]
  {
    MovesIsSectors(SECTOR, 2, |disk|);
  }

  // ----- requests in numbers -----

  /** Linear addresses count the sectors of a track, then the heads of a cylinder, then the cylinders, from place 0,
      0, 1 on. */
  lemma PlacesInOrder(g: Geometry, c: nat, h: nat, s: nat)
    requires GeometryOk(g) && s > 0
    ensures Lba(g, 0, 0, 1) == 0 && Lba(g, c, h, s + 1) == Lba(g, c, h, s) + 1
    ensures Lba(g, c, h + 1, 1) == Lba(g, c, h, g.spt) + 1 && Lba(g, c + 1, 0, 1) == Lba(g, c, g.heads - 1, g.spt) + 1
  {
    Numbers.Distribute(g.spt, c * g.heads + h, -1);
    Numbers.Distribute(g.spt, c * g.heads + g.heads, 1);
    assert (c + 1) * g.heads == c * g.heads + g.heads;
  }

  /** A caller packs cylinder and sector as the PC's BIOS has it: the cylinder's two high bits above the sector. */
  lemma PlaceIsPacked(c: nat, s: nat)
    requires c < 1024 && s < 64
    ensures CylOf(c % 256, s + 64 * (c / 256)) == c && SecOf(s + 64 * (c / 256)) == s
  {
    Numbers.DivisionIsUnique(64, c / 256, s);
  }

  /** The answer goes to AH and AL of the register frame and to the carry flag, and nowhere else. */
  lemma AnswerBytes(mem: seq<Byte>, frame: nat, ah: Byte, al: Byte, error: bool, i: nat)
    requires frame + 0x19 <= |mem| && i < |mem|
    ensures Answered(mem, frame, ah, al, error)[i] ==
            if i == frame + 0x13 then ah
            else if i == frame + 0x12 then al
            else if i == frame + 0x18 then mem[i] / 2 * 2 + (if error then 1 else 0)
            else mem[i]
  {
  }

  /** What a request moves, byte by byte: `n` whole sectors of 512 bytes, as many as are asked for and lie in the image,
      between the buffer and the place in the image that the packed registers name. */
  lemma RequestBytes(g: Geometry, r: Request, mem: seq<Byte>, disk: seq<Byte>, i: nat)
    requires GeometryOk(g) && r.cl % 64 != 0 && r.buf + 512 * r.al <= |mem|
    ensures var pos := g.offset + 512 * (((r.ch + 256 * (r.cl / 64)) * g.heads + r.dh) * g.spt + (r.cl % 64 - 1));
            var left := if |disk| < pos then 0 else (|disk| - pos) / 512;
            var n := if r.al <= left then r.al else left;
            Position(g, CylOf(r.ch, r.cl), r.dh, SecOf(r.cl)) == pos && Moves(pos, r.al, |disk|) == n &&
            (i < |mem| ==>
              Loaded(mem, disk, pos, r.buf, r.al)[i] ==
              if r.buf <= i < r.buf + 512 * n then disk[pos + (i - r.buf)] else mem[i]) &&
            (i < |disk| ==>
              Stored(mem, disk, pos, r.buf, r.al)[i] ==
              if pos <= i < pos + 512 * n then mem[r.buf + (i - pos)] else disk[i])
  {
    var pos := Position(g, CylOf(r.ch, r.cl), r.dh, SecOf(r.cl));
    hide Lba, Moves, GeometryOk, CylOf, SecOf, Position;
    MovesIsSectors(pos, r.al, |disk|);
    PositionIs(g, r);
    if i < |disk| { StoredByte(mem, disk, pos, r.buf, r.al, i); }
  }

  lemma PositionIs(g: Geometry, r: Request)
    requires r.cl % 64 != 0
    ensures Position(g, CylOf(r.ch, r.cl), r.dh, SecOf(r.cl)) ==
            g.offset + 512 * (((r.ch + 256 * (r.cl / 64)) * g.heads + r.dh) * g.spt + (r.cl % 64 - 1))
  {
  }

  // ----- the service -----

  datatype Request = Request(ah: Byte, al: Byte, ch: Byte, cl: Byte, dh: Byte, dl: Byte, buf: nat, frame: nat)

  class DiskService {
    const g: Geometry
    const attached: bool
    var mem: seq<Byte>
    var disk: seq<Byte>

    constructor (geometry: Geometry, found: bool, memory: seq<Byte>, image: seq<Byte>)
      ensures g == geometry && attached == found && mem == memory && disk == image
    {
      g, attached, mem, disk := geometry, found, memory, image;
    }

    /** atonce_disk_result. */
    method Result(frame: nat, ah: Byte, al: Byte, error: bool)
      requires frame + 0x19 <= |mem|
      modifies this`mem
      ensures mem == Answered(old(mem), frame, ah, al, error)
    {
      mem := mem[frame + 0x13 := ah];
      mem := mem[frame + 0x12 := al];
      var fl := mem[frame + 0x18];
      if error { fl := fl - fl % 2 + 1; } else { fl := fl - fl % 2; }
      mem := mem[frame + 0x18 := fl];
    }

    /** One sector from the image to memory, byte by byte. */
    method CopyIn(sp: nat, b: nat)
      requires sp + SECTOR <= |disk| && b + SECTOR <= |mem|
      modifies this`mem
      ensures mem == Poke(old(mem), b, disk[sp..sp + SECTOR])
    {
      var sb := disk[sp..sp + SECTOR];
      PokeNothing(mem, b);
      var i := 0;
      while i < SECTOR
        invariant i <= SECTOR && |mem| == |old(mem)| && mem == Poke(old(mem), b, sb[..i])
      {
        assert sb[..i + 1] == sb[..i] + [sb[i]];
        PokeOneMore(old(mem), b, sb[..i], sb[i]);
        mem := mem[b + i := sb[i]];
        i := i + 1;
      }
      assert sb[..SECTOR] == sb;
    }

    /** One sector from memory to the image. */
    method CopyOut(b: nat, sp: nat)
      requires sp + SECTOR <= |disk| && b + SECTOR <= |mem|
      modifies this`disk
      ensures disk == Poke(old(disk), sp, mem[b..b + SECTOR])
    {
      var sb: seq<Byte> := [];
      var i := 0;
      while i < SECTOR
        invariant i <= SECTOR && sb == mem[b..b + i]
      {
        sb := sb + [mem[b + i]];
        i := i + 1;
      }
      disk := disk[..sp] + sb + disk[sp + SECTOR..];
    }

    /** The loop of AH=02. */
    method ReadSectors(pos: nat, buf: nat, count: nat) returns (done: nat)
      requires buf + SECTOR * count <= |mem|
      modifies this`mem
      ensures done == Moves(pos, count, |disk|) && mem == Loaded(old(mem), disk, pos, buf, count)
    {
      hide Poke;
      done := 0;
      PokeNothing(mem, buf);
      while done < count
        invariant done <= count && |mem| == |old(mem)| &&
                  done + Moves(pos + done * SECTOR, count - done, |disk|) == Moves(pos, count, |disk|)
        invariant done > 0 ==>
                  pos + SECTOR * done <= |disk| && mem == Poke(old(mem), buf, disk[pos..pos + SECTOR * done])
        invariant done == 0 ==> mem == old(mem)
      {
        var sp := pos + done * SECTOR;
        if sp + SECTOR > |disk| { break; }
        CopyIn(sp, buf + done * SECTOR);
        if done > 0 { OneMoreSector(old(mem), buf, disk, pos, sp); }
        done := done + 1;
      }
    }

    /** The loop of AH=03. */
    method WriteSectors(pos: nat, buf: nat, count: nat) returns (done: nat)
      requires buf + SECTOR * count <= |mem|
      modifies this`disk
      ensures done == Moves(pos, count, |old(disk)|) && disk == Stored(mem, old(disk), pos, buf, count)
    {
      hide Poke;
      done := 0;
      while done < count
        invariant done <= count && |disk| == |old(disk)| &&
                  done + Moves(pos + done * SECTOR, count - done, |disk|) == Moves(pos, count, |disk|)
        invariant done > 0 ==>
                  pos + SECTOR * done <= |disk| && disk == Poke(old(disk), pos, mem[buf..buf + SECTOR * done])
        invariant done == 0 ==> disk == old(disk)
      {
        var sp, b := pos + done * SECTOR, buf + done * SECTOR;
        if sp + SECTOR > |disk| { break; }
        CopyOut(b, sp);
        if done > 0 { OneMoreSector(old(disk), pos, mem, buf, b); }
        done := done + 1;
      }
    }

    /** The computation of AH=08. */
    method LastCylinder(o: int) returns (maxcyl: int)
      requires GeometryOk(g)
      ensures maxcyl == Computed(g, o)
    {
      var percyl := g.heads * g.spt;
      Numbers.ProductIsPositive(g.heads, g.spt);
      var quotient := g.sectors / percyl;
      if quotient >= TWO31 { quotient := quotient - TWO32; }
      maxcyl := if quotient == -TWO31 then o else quotient - 1;
      if maxcyl > 1023 { maxcyl := 1023; }
    }

    /** atonce_disk_bypass; not handled means that the 68k's driver gets a trap.  `o` is what the subtraction gives
        where it overflows. */
    method Bypass(r: Request, o: int) returns (handled: bool)
      requires GeometryOk(g) && r.frame + 0x19 <= |mem| && r.buf + SECTOR * r.al <= |mem|
      modifies this
      ensures handled == (r.dl == 0x80 && attached)
      ensures !handled ==> mem == old(mem) && disk == old(disk)
      ensures handled && (r.ah == 2 || r.ah == 3) && SecOf(r.cl) == 0 ==>
                mem == Answered(old(mem), r.frame, 1, 0, true) && disk == old(disk)
      ensures handled && r.ah == 2 && SecOf(r.cl) != 0 ==>
                var pos := Position(g, CylOf(r.ch, r.cl), r.dh, SecOf(r.cl));
                var n := Moves(pos, r.al, |disk|);
                disk == old(disk) &&
                mem == Answered(Loaded(old(mem), disk, pos, r.buf, r.al), r.frame,
                                if n == r.al then 0 else 4, n, n < r.al)
      ensures handled && r.ah == 3 && SecOf(r.cl) != 0 ==>
                var pos := Position(g, CylOf(r.ch, r.cl), r.dh, SecOf(r.cl));
                var n := Moves(pos, r.al, |disk|);
                disk == Stored(old(mem), old(disk), pos, r.buf, r.al) &&
                mem == Answered(old(mem), r.frame, if n == r.al then 0 else 4, n, n < r.al)
      ensures handled && r.ah == 8 ==>
                disk == old(disk) &&
                var m := Computed(g, o);
                PackedCl(g, m) < 256 && PackedCh(m) < 256 &&
                mem == Answered(old(mem)[r.frame + 0x10 := PackedCl(g, m)][r.frame + 0x11 := PackedCh(m)]
                                        [r.frame + 0x0e := 1][r.frame + 0x0f := g.heads - 1], r.frame, 0, 0, false)
      ensures handled && r.ah != 2 && r.ah != 3 && r.ah != 8 ==>
                mem == Answered(old(mem), r.frame, 0, r.al, false) && disk == old(disk)
    {
      hide Loaded, Stored, Answered, Moves, Lba, Computed;
      if r.dl < 0x80 || r.dl % 0x80 != 0 { return false; }
      if !attached { return false; }
      handled := true;
      var cyl, sec := CylOf(r.ch, r.cl), SecOf(r.cl);
      if r.ah == 2 || r.ah == 3 {
        if sec == 0 {
          Result(r.frame, 1, 0, true);
          return;
        }
        var pos := Position(g, cyl, r.dh, sec);
        var done: nat;
        if r.ah == 2 {
          done := ReadSectors(pos, r.buf, r.al);
        } else {
          done := WriteSectors(pos, r.buf, r.al);
        }
        Result(r.frame, if done == r.al then 0 else 4, done, done < r.al);
      } else if r.ah == 8 {
        var maxcyl := LastCylinder(o);
        PackUnpack(g, maxcyl);
        mem := mem[r.frame + 0x10 := g.spt + maxcyl / 4 % 256 / 64 * 64];
        mem := mem[r.frame + 0x11 := maxcyl % 256];
        mem := mem[r.frame + 0x0e := 1];
        mem := mem[r.frame + 0x0f := g.heads - 1];
        Result(r.frame, 0, 0, false);
      } else {
        Result(r.frame, 0, r.al, false);
      }
    }
  }

  /** The next sector of `from` joins those from `start` on that have been copied. */
  lemma OneMoreSector(o: seq<Byte>, a: nat, from: seq<Byte>, start: nat, next: nat)
    requires start <= next && next + SECTOR <= |from| && a + (next - start) + SECTOR <= |o|
    ensures Poke(Poke(o, a, from[start..next]), a + (next - start), from[next..next + SECTOR]) ==
            Poke(o, a, from[start..next + SECTOR])
  {
    hide Poke;
    PokesJoin(o, a, from[start..next], from[next..next + SECTOR]);
    assert from[start..next] + from[next..next + SECTOR] == from[start..next + SECTOR];
  }

  lemma PokeOneMore(m: seq<Byte>, a: nat, bs: seq<Byte>, b: Byte)
    requires a + |bs| < |m|
    ensures Poke(m, a, bs)[a + |bs| := b] == Poke(m, a, bs + [b])
  {
  }
}
