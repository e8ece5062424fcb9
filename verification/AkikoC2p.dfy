/**
 Akiko's chunky-to-planar converter (akiko.cpp:308-408) behind its four register bytes (akiko.cpp:1715-1720,
 1824-1876, 1900-1906, 2013-2047).

 `Planes` is the simple bit-by-bit reference of the source; `Converter.Convert` is the optimised form it is
 replaced with.  `Regs` is the register protocol as a state machine over single accesses.
 */
module AkikoC2p {

  /** Bit 0 first. */
  type Long = x: seq<bool> | |x| == 32 witness seq(32, _ => false)
  type Octet = x: seq<bool> | |x| == 8 witness seq(8, _ => false)
  type Eight = x: seq<Long> | |x| == 8 witness seq(8, _ => seq(32, _ => false))

  // ----- words of bits -----

  function Zero(): Long { seq(32, _ => false) }

  function Bit(n: nat): Long { seq(32, i => i == n) }

  function And(x: Long, y: Long): Long { seq(32, i requires 0 <= i < 32 => x[i] && y[i]) }

  function Or(x: Long, y: Long): Long { seq(32, i requires 0 <= i < 32 => x[i] || y[i]) }

  /** A byte shifted left into a long. */
  function Widen(v: Octet, n: nat): Long
    requires n <= 24
  {
    seq(n, _ => false) + v + seq(24 - n, _ => false)
  }

  /** The byte at offset 0 (most significant) to 3. */
  function Part(x: Long, offset: nat): Octet
    requires offset < 4
  {
    x[8 * (3 - offset)..8 * (3 - offset) + 8]
  }

  /** A truth value shifted left. */
  function Flag(on: bool, n: nat): Long { if on then Bit(n) else Zero() }

  lemma TestBit(x: Long, n: nat)
    requires n < 32
    ensures And(x, Bit(n)) != Zero() <==> x[n]
  {
    if x[n] {
      assert And(x, Bit(n))[n];
    } else {
      assert And(x, Bit(n)) == Zero();
    }
  }

  // ----- the transpose -----

  /** Bit `k` of pixel `31 - b` is bit `b` of plane `k`: the reference form, read off its index arithmetic. */
  function Plane(buffer: Eight, k: nat): Long
    requires k < 8
  {
    seq(32, b requires 0 <= b < 32 => buffer[7 - b / 4][8 * (b % 4) + k])
  }

  function Planes(buffer: Eight): Eight { seq(8, k requires 0 <= k < 8 => Plane(buffer, k)) }

  /** The colour of pixel `p`, left to right: four bytes to a long, most significant byte first. */
  function Pixel(buffer: Eight, p: nat): Octet
    requires p < 32
  {
    Part(buffer[p / 4], p % 4)
  }

  /** Planes back to pixels. */
  function Chunky(planes: Eight): Eight {
    seq(8, l requires 0 <= l < 8 => seq(32, i requires 0 <= i < 32 => planes[i % 8][4 * (7 - l) + i / 8]))
  }

  /** What the hardware is for: plane k holds bit k of every pixel, leftmost pixel in the top bit. */
  lemma PlanesHoldPixelBits(buffer: Eight, p: nat, k: nat)
    requires p < 32 && k < 8
    ensures Planes(buffer)[k][31 - p] == Pixel(buffer, p)[k] == buffer[p / 4][8 * (3 - p % 4) + k]
  {
    var b := 31 - p;
    assert 7 - b / 4 == p / 4 && b % 4 == 3 - p % 4;
  }

  lemma ChunkyUndoesPlanes(buffer: Eight)
    ensures Chunky(Planes(buffer)) == buffer
  {
    forall l | 0 <= l < 8
      ensures Chunky(Planes(buffer))[l] == buffer[l]
    {
      forall i | 0 <= i < 32
        ensures Chunky(Planes(buffer))[l][i] == buffer[l][i]
      {
        var b := 4 * (7 - l) + i / 8;
        assert b / 4 == 7 - l && b % 4 == i / 8 && 8 * (i / 8) + i % 8 == i;
      }
    }
  }

  lemma PlanesUndoesChunky(planes: Eight)
    ensures Planes(Chunky(planes)) == planes
  {
    forall k | 0 <= k < 8
      ensures Planes(Chunky(planes))[k] == planes[k]
    {
      forall b | 0 <= b < 32
        ensures Planes(Chunky(planes))[k][b] == planes[k][b]
      {
        var i := 8 * (b % 4) + k;
        assert i % 8 == k && i / 8 == b % 4 && 4 * (b / 4) + b % 4 == b;
      }
    }
  }

  // ----- the register protocol -----

  datatype Regs = Regs(buffer: Eight, result: Eight, read: int, write: nat)

  predicate RegsOk(r: Regs) { -1 <= r.read < 8 && r.write < 8 }

  /** akiko_c2p_write. */
  function PutByte(r: Regs, offset: nat, v: Octet): (s: Regs)
    requires RegsOk(r) && offset < 4
    ensures RegsOk(s)
  {
    var was := if offset == 3 then Zero() else r.buffer[r.write];
    var now := Or(was, Widen(v, 8 * (3 - offset)));
    Regs(r.buffer[r.write := now], r.result, -1, if offset == 0 then (r.write + 1) % 8 else r.write)
  }

  /** The state after akiko_c2p_read. */
  function AfterRead(r: Regs): (s: Regs)
    requires RegsOk(r)
    ensures RegsOk(s) && 0 <= s.read
  {
    if r.read < 0 then Regs(r.buffer, Planes(r.buffer), 0, 0) else r.(write := 0)
  }

  /** Its value. */
  function ReadByte(r: Regs, offset: nat): Octet
    requires RegsOk(r) && offset < 4
  {
    var s := AfterRead(r);
    Part(s.result[s.read], offset)
  }

  /** check_read_c2p. */
  function Advance(r: Regs): (s: Regs)
    requires RegsOk(r)
    ensures RegsOk(s)
  {
    r.(read := (r.read + 1) % 8)
  }

  datatype Access =
    | PutB(offset: nat, b: Octet)
    | PutW(offset: nat, hi: Octet, lo: Octet)
    | PutL(l: Long)
    | GetB(offset: nat)
    | GetW(offset: nat)
    | GetL

  /** Accesses that stay inside the four register bytes. */
  predicate Inside(a: Access) {
    match a
    case PutB(o, _) => o < 4
    case PutW(o, _, _) => o < 3
    case GetB(o) => o < 4
    case GetW(o) => o < 3
    case _ => true
  }

  predicate IsRead(a: Access) { a.GetB? || a.GetW? || a.GetL? }

  function PutLong(r: Regs, l: Long): (s: Regs)
    requires RegsOk(r)
    ensures RegsOk(s)
  {
    PutByte(PutByte(PutByte(PutByte(r, 3, Part(l, 3)), 2, Part(l, 2)), 1, Part(l, 1)), 0, Part(l, 0))
  }

  /** Wide accesses go byte by byte, highest address first; only the whole access advances the read position. */
  function Apply(r: Regs, a: Access): (s: Regs)
    requires RegsOk(r) && Inside(a)
    ensures RegsOk(s)
  {
    match a
    case PutB(o, b) => PutByte(r, o, b)
    case PutW(o, hi, lo) => PutByte(PutByte(r, o + 1, lo), o, hi)
    case PutL(l) => PutLong(r, l)
    case GetB(_) => Advance(AfterRead(r))
    case GetW(_) => Advance(AfterRead(AfterRead(r)))
    case GetL => Advance(AfterRead(AfterRead(AfterRead(AfterRead(r)))))
  }

  /** The value of a long read. */
  function ReadLong(r: Regs): Long
    requires RegsOk(r)
  {
    var r1 := AfterRead(r);
    var r2 := AfterRead(r1);
    var r3 := AfterRead(r2);
    ReadByte(r, 3) + ReadByte(r1, 2) + ReadByte(r2, 1) + ReadByte(r3, 0)
  }

  predicate AllInside(h: seq<Access>) { forall i :: 0 <= i < |h| ==> Inside(h[i]) }

  /** Oldest access first. */
  function Run(r: Regs, h: seq<Access>): (s: Regs)
    requires RegsOk(r) && AllInside(h)
    ensures RegsOk(s)
    decreases |h|
  {
    if h == [] then r else Apply(Run(r, h[..|h| - 1]), h[|h| - 1])
  }

  function PutLongs(r: Regs, ls: seq<Long>): (s: Regs)
    requires RegsOk(r)
    ensures RegsOk(s)
    decreases |ls|
  {
    if ls == [] then r else PutLong(PutLongs(r, ls[..|ls| - 1]), ls[|ls| - 1])
  }

  function GetLongs(r: Regs, m: nat): (s: (Regs, seq<Long>))
    requires RegsOk(r)
    ensures RegsOk(s.0) && |s.1| == m
  {
    if m == 0 then (r, []) else
    var (t, ls) := GetLongs(r, m - 1);
    (Apply(t, GetL), ls + [ReadLong(t)])
  }

  // ----- what a program sees -----

  lemma PutLongStores(r: Regs, l: Long)
    requires RegsOk(r)
    ensures PutLong(r, l) == Regs(r.buffer[r.write := l], r.result, -1, (r.write + 1) % 8)
  {
    var a := Or(Zero(), Widen(Part(l, 3), 0));
    var b := Or(a, Widen(Part(l, 2), 8));
    var c := Or(b, Widen(Part(l, 1), 16));
    var d := Or(c, Widen(Part(l, 0), 24));
    forall i | 0 <= i < 32
      ensures d[i] == l[i]
    {
    }
    assert d == l;
  }

  /** Slot of the j-th long written when the first goes to slot `w`. */
  function Home(w: nat, j: nat): nat { (w + j) % 8 }

  lemma HomeNext(w: nat, n: nat)
    requires w < 8 && n < 8
    ensures Home(w, 0) == w && (Home(w, n) + 1) % 8 == Home(w, n + 1)
  {
  }

  predicate Filled(buffer: Eight, w: nat, ls: seq<Long>) {
    forall j :: 0 <= j < |ls| ==> buffer[Home(w, j)] == ls[j]
  }

  lemma HomesAreApart(w: nat, j: nat, n: nat)
    requires w < 8 && j < n < 8
    ensures Home(w, j) != Home(w, n)
  {
  }

  lemma NothingFilled(buffer: Eight, w: nat)
    ensures Filled(buffer, w, [])
  {
  }

  lemma FillNext(buffer: Eight, w: nat, ls: seq<Long>, l: Long)
    requires w < 8 && |ls| < 8 && Filled(buffer, w, ls)
    ensures Filled(buffer[Home(w, |ls|) := l], w, ls + [l])
  {
    forall j | 0 <= j < |ls|
      ensures Home(w, j) != Home(w, |ls|)
    {
      HomesAreApart(w, j, |ls|);
    }
  }

  lemma {:induction false} PutLongsStores(r: Regs, ls: seq<Long>)
    requires RegsOk(r) && |ls| <= 8
    ensures var s := PutLongs(r, ls);
            s.write == Home(r.write, |ls|) && s.result == r.result && (ls != [] ==> s.read == -1) &&
            Filled(s.buffer, r.write, ls)
    decreases |ls|
  {
    hide PutLong, Filled, Home;
    HomeNext(r.write, if ls == [] then 0 else |ls| - 1);
    if ls == [] {
      NothingFilled(r.buffer, r.write);
    } else {
      var n := |ls| - 1;
      var t := PutLongs(r, ls[..n]);
      PutLongsStores(r, ls[..n]);
      PutLongStores(t, ls[n]);
      FillNext(t.buffer, r.write, ls[..n], ls[n]);
      assert ls[..n] + [ls[n]] == ls;
    }
  }

  /** Which of the eight longs is in slot `i`. */
  function Which(w: nat, i: nat): (j: nat)
    requires w < 8
    ensures j < 8
  {
    (i + 8 - w) % 8
  }

  lemma WhichInvertsHome(w: nat, i: nat)
    requires w < 8 && i < 8
    ensures Home(w, Which(w, i)) == i
  {
  }

  /** Eight longs as they lie in the buffer when the first went to slot `w`. */
  function Rotate(ls: Eight, w: nat): Eight
    requires w < 8
  {
    seq(8, i requires 0 <= i < 8 => ls[Which(w, i)])
  }

  lemma FilledIsRotated(buffer: Eight, w: nat, ls: Eight)
    requires w < 8 && Filled(buffer, w, ls)
    ensures buffer == Rotate(ls, w)
  {
    hide Home, Which;
    forall i | 0 <= i < 8
      ensures buffer[i] == Rotate(ls, w)[i]
    {
      WhichInvertsHome(w, i);
    }
  }

  lemma EightLongsFillTheBuffer(r: Regs, ls: Eight)
    requires RegsOk(r)
    ensures var s := PutLongs(r, ls);
            s.write == r.write && s.read == -1 && s.buffer == Rotate(ls, r.write)
  {
    hide PutLongs, Filled, Rotate;
    PutLongsStores(r, ls);
    FilledIsRotated(PutLongs(r, ls).buffer, r.write, ls);
  }

  lemma LongReadIsOneRead(r: Regs)
    requires RegsOk(r)
    ensures Apply(r, GetL) == Advance(AfterRead(r)) && ReadLong(r) == AfterRead(r).result[AfterRead(r).read]
  {
    hide Planes;
    var s := AfterRead(r);
    var x := s.result[s.read];
    assert AfterRead(s) == s;
    assert Part(x, 3) + Part(x, 2) + Part(x, 1) + Part(x, 0) == x;
  }

  lemma {:induction false} LongReadsCycle(r: Regs, m: nat)
    requires RegsOk(r) && r.read == -1
    ensures var s := GetLongs(r, m);
            (if m == 0 then s.0 == r else s.0 == Regs(r.buffer, Planes(r.buffer), m % 8, 0)) &&
            forall k :: 0 <= k < m ==> s.1[k] == Planes(r.buffer)[k % 8]
  {
    hide Planes, Apply, ReadLong;
    if m > 0 {
      LongReadsCycle(r, m - 1);
      LongReadIsOneRead(GetLongs(r, m - 1).0);
    }
  }

  /** A read leaves the write position at the start. */
  lemma ReadRewinds(r: Regs, h: seq<Access>)
    requires RegsOk(r) && AllInside(h) && h != [] && IsRead(h[|h| - 1])
    ensures Run(r, h).write == 0
  {
    hide Planes, PutByte;
    var t := Run(r, h[..|h| - 1]);
  }

  /** After any accesses at all, eight long writes and then long reads give the planes of the eight longs, as rotated by
      the write position; and after any accesses ending in a read, of the eight longs as they were written. */
  lemma PlanesComeBack(r: Regs, h: seq<Access>, ls: Eight, m: nat)
    requires RegsOk(r) && AllInside(h)
    ensures var w := Run(r, h).write;
            var seen := GetLongs(PutLongs(Run(r, h), ls), m).1;
            (h != [] && IsRead(h[|h| - 1]) ==> w == 0 && Rotate(ls, w) == ls) &&
            forall k :: 0 <= k < m ==> seen[k] == Planes(Rotate(ls, w))[k % 8]
  {
    hide Planes, Run, PutLongs, GetLongs;
    var t := Run(r, h);
    EightLongsFillTheBuffer(t, ls);
    LongReadsCycle(PutLongs(t, ls), m);
    if h != [] && IsRead(h[|h| - 1]) {
      ReadRewinds(r, h);
      assert Rotate(ls, 0) == ls;
    }
  }

  /** The same in terms of bits: the k-th long read shows bit k of every pixel written, the leftmost pixel, the most
      significant byte of the first long, on top.  The first long is the one that went to slot 0. */
  lemma PixelsComeBack(r: Regs, h: seq<Access>, ls: Eight, m: nat, k: nat, p: nat)
    requires RegsOk(r) && AllInside(h) && k < m && p < 32
    ensures var w := Run(r, h).write;
            (h != [] && IsRead(h[|h| - 1]) ==> w == 0) &&
            GetLongs(PutLongs(Run(r, h), ls), m).1[k][31 - p] == ls[(p / 4 + 8 - w) % 8][8 * (3 - p % 4) + k % 8]
  {
    hide Planes, Run, PutLongs, GetLongs, Pixel;
    PlanesComeBack(r, h, ls, m);
    PlanesHoldPixelBits(Rotate(ls, Run(r, h).write), p, k % 8);
  }

  /** One byte: offset 0 is the most significant.  A write to offset 3 clears the long first, one to offset 0 goes on to
      the next. */
  lemma ByteAccess(r: Regs, offset: nat, v: Octet, b: nat)
    requires RegsOk(r) && offset < 4 && b < 32
    ensures var s := PutByte(r, offset, v);
            s.read == -1 && s.result == r.result &&
            s.write == (if offset > 0 then r.write else if r.write == 7 then 0 else r.write + 1) &&
            (s.buffer[r.write][b] <==> (offset < 3 && r.buffer[r.write][b]) || (b / 8 == 3 - offset && v[b % 8])) &&
            forall i :: 0 <= i < 8 && i != r.write ==> s.buffer[i] == r.buffer[i]
    ensures r.read >= 0 ==> ReadByte(r, offset) == r.result[r.read][24 - 8 * offset..32 - 8 * offset]
  {
  }

  // ----- the program's form -----

  class Converter {
    const buffer: array<Long>
    const result: array<Long>
    const shift: array<Long>
    const bytenum: array2<nat>
    var readOffset: int
    var writeOffset: nat

    ghost predicate Shaped()
      reads this
    {
      buffer.Length == 8 && result.Length == 8 && shift.Length == 32 && bytenum.Length0 == 32 && bytenum.Length1 == 8 &&
      buffer != result && buffer != shift && result != shift && -1 <= readOffset < 8 && writeOffset < 8
    }

    ghost predicate TablesReady()
      reads this, shift, bytenum
      requires Shaped()
    {
      (forall i :: 0 <= i < 32 ==> shift[i] == Bit(i)) &&
      forall i, j :: 0 <= i < 32 && 0 <= j < 8 ==> bytenum[i, j] == i / 8 + (7 - j) * 4
    }

    ghost predicate Valid()
      reads this, shift, bytenum
    {
      Shaped() && TablesReady()
    }

    ghost function State(): (r: Regs)
      reads this, buffer, result
      requires Shaped()
      ensures RegsOk(r)
    {
      Regs(buffer[..], result[..], readOffset, writeOffset)
    }

    constructor ()
      ensures Valid() && fresh(buffer) && fresh(result) && fresh(shift) && fresh(bytenum)
    {
      buffer := new Long[8](_ => Zero());
      result := new Long[8](_ => Zero());
      shift := new Long[32](_ => Zero());
      bytenum := new nat[32, 8]((_, _) => 0);
      readOffset, writeOffset := 0, 0;
      new;
      Precalculate();
    }

    /** akiko_c2p_precalculate. */
    method Precalculate()
      requires Shaped()
      modifies shift, bytenum
      ensures Valid()
    {
      var i := 0;
      while i < 32
        invariant i <= 32
        invariant forall n :: 0 <= n < i ==> shift[n] == Bit(n)
        invariant forall n, j :: 0 <= n < i && 0 <= j < 8 ==> bytenum[n, j] == n / 8 + (7 - j) * 4
      {
        shift[i] := Bit(i);
        var j := 0;
        while j < 8
          invariant j <= 8
          invariant forall n :: 0 <= n <= i ==> shift[n] == Bit(n)
          invariant forall n, q :: (0 <= n < i && 0 <= q < 8) || (n == i && 0 <= q < j) ==>
                    bytenum[n, q] == n / 8 + (7 - q) * 4
        {
          bytenum[i, j] := i / 8 + (7 - j) * 4;
          j := j + 1;
        }
        i := i + 1;
      }
    }

    /** One term: does buffer long `j` have bit `n`, and where does it go? */
    function Term(n: nat, j: nat): Long
      reads this, buffer, shift, bytenum
      requires Shaped() && n < 32 && j < 8
    {
      Flag(And(buffer[j], shift[n]) != Zero(), bytenum[n, j])
    }

    /** The eight terms of one bit number. */
    function Row(n: nat): Long
      reads this, buffer, shift, bytenum
      requires Shaped() && n < 32
    {
      Or(Or(Or(Or(Or(Or(Or(Term(n, 0), Term(n, 1)), Term(n, 2)), Term(n, 3)), Term(n, 4)), Term(n, 5)), Term(n, 6)),
         Term(n, 7))
    }

    lemma TermBit(n: nat, j: nat, b: nat)
      requires Valid() && n < 32 && j < 8 && b < 32
      ensures Term(n, j)[b] == (b % 4 == n / 8 && j == 7 - b / 4 && buffer[j][n])
    {
      TestBit(buffer[j], n);
      assert bytenum[n, j] == n / 8 + (7 - j) * 4;
    }

    lemma RowBit(n: nat, b: nat)
      requires Valid() && n < 32 && b < 32
      ensures Row(n)[b] == (b % 4 == n / 8 && buffer[7 - b / 4][n])
    {
      hide Term, TablesReady;
      forall j | 0 <= j < 8
        ensures Term(n, j)[b] == (b % 4 == n / 8 && j == 7 - b / 4 && buffer[j][n])
      {
        TermBit(n, j, b);
      }
    }

    lemma RowsArePlane(k: nat)
      requires Valid() && k < 8
      ensures Or(Or(Or(Row(k), Row(k + 8)), Row(k + 16)), Row(k + 24)) == Plane(buffer[..], k)
    {
      hide Row, TablesReady;
      forall b | 0 <= b < 32
        ensures Or(Or(Or(Row(k), Row(k + 8)), Row(k + 16)), Row(k + 24))[b] == Plane(buffer[..], k)[b]
      {
        RowBit(k, b);
        RowBit(k + 8, b);
        RowBit(k + 16, b);
        RowBit(k + 24, b);
      }
    }

    /** akiko_c2p_do, optimised. */
    method Convert()
      requires Valid()
      modifies result
      ensures result[..] == Planes(buffer[..])
    {
      hide Row, Plane, TablesReady;
      var i := 0;
      while i < 8
        invariant i <= 8
        invariant forall k :: 0 <= k < i ==> result[k] == Plane(buffer[..], k)
      {
        RowsArePlane(i);
        result[i] := Or(Or(Or(Row(i), Row(i + 8)), Row(i + 16)), Row(i + 24));
        i := i + 1;
      }
    }

    /** akiko_c2p_do, the reference that is compiled out. */
    method ConvertNaively()
      requires Shaped()
      modifies result
      ensures result[..] == Planes(buffer[..])
    {
      var i := 0;
      while i < 8
        invariant i <= 8
        invariant forall k :: 0 <= k < i ==> result[k] == Zero()
      {
        result[i] := Zero();
        i := i + 1;
      }
      i := 0;
      while i < 256
        invariant i <= 256
        invariant forall k, b :: 0 <= k < 8 && 0 <= b < 32 ==>
                    result[k][b] == (8 * b + k < i && Plane(buffer[..], k)[b])
      {
        if buffer[7 - i / 32][i % 32] {
          result[i % 8] := Or(result[i % 8], Bit(i / 8));
        }
        i := i + 1;
      }
      assert forall k :: 0 <= k < 8 ==> result[k] == Plane(buffer[..], k);
    }

    /** akiko_c2p_write. */
    method Write(offset: nat, v: Octet)
      requires Valid() && offset < 4
      modifies this, buffer
      ensures Valid() && State() == PutByte(old(State()), offset, v)
    {
      if offset == 3 { buffer[writeOffset] := Zero(); }
      buffer[writeOffset] := Or(buffer[writeOffset], Widen(v, 8 * (3 - offset)));
      if offset == 0 { writeOffset := (writeOffset + 1) % 8; }
      readOffset := -1;
    }

    /** akiko_c2p_read. */
    method Read(offset: nat) returns (v: Octet)
      requires Valid() && offset < 4
      modifies this, result
      ensures Valid() && State() == AfterRead(old(State())) && v == ReadByte(old(State()), offset)
    {
      if readOffset < 0 {
        Convert();
        readOffset := 0;
      }
      writeOffset := 0;
      v := Part(result[readOffset], offset);
    }

    /** check_read_c2p, for an address among the four. */
    method CheckRead()
      requires Valid()
      modifies this
      ensures Valid() && State() == Advance(old(State()))
    {
      readOffset := (readOffset + 1) % 8;
    }

    /** akiko_lput. */
    method LongPut(l: Long)
      requires Valid()
      modifies this, buffer
      ensures Valid() && State() == Apply(old(State()), PutL(l))
    {
      hide PutByte;
      Write(3, Part(l, 3));
      Write(2, Part(l, 2));
      Write(1, Part(l, 1));
      Write(0, Part(l, 0));
    }

    /** akiko_lget. */
    method LongGet() returns (l: Long)
      requires Valid()
      modifies this, result
      ensures Valid() && State() == Apply(old(State()), GetL) && l == ReadLong(old(State()))
    {
      hide AfterRead, ReadByte, Part, TablesReady;
      var b3 := Read(3);
      var b2 := Read(2);
      var b1 := Read(1);
      var b0 := Read(0);
      var bits: seq<bool> := b3;
      l := bits + b2 + b1 + b0;
      CheckRead();
    }
  }
}
