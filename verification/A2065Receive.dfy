/**
 Receiving a frame into the descriptor ring (a2065.cpp:476-535), and the guard that looks ahead whether it
 will fit (a2065.cpp:569-616).

 `Deliver` is the receive loop.  The main theorem, `GuardMeansDelivery`, says that when the guard holds and the
 memory is laid out sanely the loop cannot run out of buffers, and describes everything it leaves behind.
 */
module A2065Receive {
  import opened A2065Ram
  import opened Numbers

  // ----- the receive loop -----

  datatype Outcome =
    | Delivered(ram: Ram, offset: nat)               // raises RINT
    | RanOut(ram: Ram, offset: nat, chained: bool)   // host-owned descriptor met: RINT if chained, else MISS

  function Min(a: int, b: int): int { if a <= b then a else b }

  /** Consecutive bytes of frame data go to consecutive chip addresses, give or take the byte swap. */
  function PutData(k: Ring, ram: Ram, address: nat, data: seq<Byte>): Ram
    decreases |data|
  {
    if data == [] then ram
    else PutData(k, PutByte(k.am79, ram, Flip(k.swap, address), data[0]), address + 1, data[1..])
  }

  /** The descriptor's status once it has been used: given back, and marked as the frame's first or last. */
  function Used(d: Desc, first: bool, last: bool, len: nat): Desc
    requires len < 65536
  {
    var d1 := Clear(d.d1, OWN);
    var d1 := if first then Set(d1, STP) else d1;
    Desc(d.d0, if last then Set(d1, ENP) else d1, d.d2, if last then len else d.d3)
  }

  /** How many of the remaining bytes the buffer at `pos` takes. */
  function Chunk(k: Ring, ram: Ram, pos: nat, data: seq<Byte>, done: nat): nat
    requires k.len > 0 && done <= |data|
  {
    Min(BufferSize(GetDesc(k, ram, pos)), |data| - done)
  }

  lemma ChunkIsPositive(k: Ring, ram: Ram, pos: nat, data: seq<Byte>, done: nat)
    requires k.len > 0 && done < |data|
    ensures Chunk(k, ram, pos, data, done) > 0
  {
  }

  /** Fill the buffer at `pos` and give its descriptor back. */
  function FillOne(k: Ring, ram: Ram, pos: nat, data: seq<Byte>, done: nat): Ram
    requires k.len > 0 && done < |data| < 65536
  {
    var d := GetDesc(k, ram, pos);
    var n := Chunk(k, ram, pos, data, done);
    var u := Used(d, done == 0, done + n >= |data|, |data|);
    PutStatus(k, PutData(k, ram, BufferAddress(d), data[done..done + n]), pos, u.d1, u.d3)
  }

  /** The loop, from ring position `pos`, with `done` bytes of `data` placed by earlier iterations. */
  function Deliver(k: Ring, ram: Ram, pos: nat, data: seq<Byte>, done: nat): Outcome
    requires k.len > 0 && done < |data| < 65536
    decreases |data| - done
  {
    if !Has(GetDesc(k, ram, pos).d1, OWN) then
      if done > 0 then RanOut(MarkError(k, ram, pos), pos % k.len, true) else RanOut(ram, pos % k.len, false)
    else
      var n, r := Chunk(k, ram, pos, data, done), FillOne(k, ram, pos, data, done);
      if done + n >= |data| then Delivered(r, pos % k.len + 1) else Deliver(k, r, pos + 1, data, done + n)
  }

  /** Data chaining hit a descriptor of the host's: the error goes into the one before it. */
  function MarkError(k: Ring, ram: Ram, pos: nat): Ram
    requires k.len > 0
  {
    var off := k.base + (pos + k.len - 1) % k.len * 8;
    PutWord(k.am79, ram, off + 2, Set(Set(Set(GetWord(k.am79, ram, off + 2), ERR), BUFF), OFLO))
  }

  // ----- the guard -----

  /** Are the descriptors at `pos`, `pos`+1, ... the chip's until their buffers add up to `needed`? */
  function Space(k: Ring, ram: Ram, pos: nat, needed: int, left: nat): bool
    requires k.len > 0
    decreases left
  {
    if left == 0 then false
    else
      var d := GetDesc(k, ram, pos);
      if !Has(d.d1, OWN) then false
      else needed - BufferSize(d) <= 0 || Space(k, ram, pos + 1, needed - BufferSize(d), left - 1)
  }

  // ----- what the loop uses -----

  /** How many descriptors from `pos` on it takes to hold `need` bytes. */
  function Run(k: Ring, ram: Ram, pos: nat, need: int): nat
    requires k.len > 0
    decreases need
  {
    if need <= 0 then 0 else 1 + Run(k, ram, pos + 1, need - BufferSize(GetDesc(k, ram, pos)))
  }

  function Capacity(k: Ring, ram: Ram, pos: nat, n: nat): nat
    requires k.len > 0
    decreases n
  {
    if n == 0 then 0 else BufferSize(GetDesc(k, ram, pos)) + Capacity(k, ram, pos + 1, n - 1)
  }

  /** That is the fewest whose buffers hold `need` bytes. */
  lemma {:induction false} RunIsShortest(k: Ring, ram: Ram, pos: nat, need: int, n: nat)
    requires k.len > 0
    ensures Capacity(k, ram, pos, n) >= need <==> n >= Run(k, ram, pos, need)
    decreases n
  {
    if n > 0 && need > 0 {
      RunIsShortest(k, ram, pos + 1, need - BufferSize(GetDesc(k, ram, pos)), n - 1);
    }
  }

  /** The chip address of each of `n` consecutive frame bytes. */
  function Addresses(k: Ring, address: nat, n: nat): (r: seq<nat>)
    ensures |r| == n
    decreases n
  {
    if n == 0 then [] else [Flip(k.swap, address)] + Addresses(k, address + 1, n - 1)
  }

  /** The chip address of every byte of a frame of `need` bytes, in the frame's order: the buffers, end to end. */
  function Scatter(k: Ring, ram: Ram, pos: nat, need: int): (r: seq<nat>)
    requires k.len > 0
    ensures |r| == if need < 0 then 0 else need
    decreases need
  {
    if need <= 0 then []
    else
      var d := GetDesc(k, ram, pos);
      var n := Min(BufferSize(d), need);
      Addresses(k, BufferAddress(d), n) + Scatter(k, ram, pos + 1, need - n)
  }

  /** None of the `n` descriptors from `pos` on lies at the place. */
  predicate Elsewhere(k: Ring, place: nat, pos: nat, n: nat)
    requires k.len > 0
    decreases n
  {
    n == 0 || (place != Place(k, pos) && Elsewhere(k, place, pos + 1, n - 1))
  }

  /** The cell belongs to none of them. */
  predicate Outside(k: Ring, cell: nat, pos: nat, n: nat)
    requires k.len > 0 && cell < RAM_SIZE
  {
    Elsewhere(k, PlaceOf(k, cell), pos, n)
  }

  /** No two of them lie at the same place. */
  predicate Distinct(k: Ring, pos: nat, n: nat)
    requires k.len > 0
    decreases n
  {
    n == 0 || (Elsewhere(k, Place(k, pos), pos + 1, n - 1) && Distinct(k, pos + 1, n - 1))
  }

  /** The chip reaches all buffer bytes used, no two share a RAM cell, and none lies in the descriptors used. */
  predicate Apart(k: Ring, at: seq<nat>, pos: nat, n: nat)
    requires k.len > 0
  {
    (forall i :: 0 <= i < |at| ==> ChipRamOk(k.am79, at[i])) &&
    (forall i, j :: 0 <= i < j < |at| ==> Cell(at[i]) != Cell(at[j])) &&
    (forall i :: 0 <= i < |at| ==> Outside(k, Cell(at[i]), pos, n))
  }

  predicate Owned(k: Ring, ram: Ram, pos: nat, n: nat)
    requires k.len > 0
    decreases n
  {
    n == 0 || (Has(GetDesc(k, ram, pos).d1, OWN) && Owned(k, ram, pos + 1, n - 1))
  }

  // ----- the guard implies a run of owned descriptors -----

  lemma {:induction false} SpaceMeansRun(k: Ring, ram: Ram, pos: nat, needed: int, left: nat)
    requires k.len > 0 && needed > 0 && Space(k, ram, pos, needed, left)
    ensures Run(k, ram, pos, needed) <= left && Owned(k, ram, pos, Run(k, ram, pos, needed))
    decreases left
  {
    hide GetDesc, Has;
    var rest := needed - BufferSize(GetDesc(k, ram, pos));
    if rest > 0 {
      SpaceMeansRun(k, ram, pos + 1, rest, left - 1);
    } else {
      assert Run(k, ram, pos + 1, rest) == 0 && Owned(k, ram, pos + 1, 0);
    }
  }

  lemma {:induction false} SmallerRun(k: Ring, ram: Ram, pos: nat, need: int, needed: int)
    requires k.len > 0 && need <= needed
    ensures Run(k, ram, pos, need) <= Run(k, ram, pos, needed)
    decreases needed
  {
    hide GetDesc;
    if need > 0 {
      SmallerRun(k, ram, pos + 1, need - BufferSize(GetDesc(k, ram, pos)), needed - BufferSize(GetDesc(k, ram, pos)));
    }
  }

  // ----- placing one buffer -----

  lemma {:induction false} PutDataEffect(k: Ring, ram: Ram, address: nat, data: seq<Byte>)
    requires var at := Addresses(k, address, |data|);
             (forall i :: 0 <= i < |at| ==> ChipRamOk(k.am79, at[i])) &&
             (forall i, j :: 0 <= i < j < |at| ==> Cell(at[i]) != Cell(at[j]))
    ensures var at, r := Addresses(k, address, |data|), PutData(k, ram, address, data);
            (forall i :: 0 <= i < |at| ==> r[Cell(at[i])] == data[i]) &&
            (forall c: nat :: c < RAM_SIZE && (forall i :: 0 <= i < |at| ==> Cell(at[i]) != c) ==> r[c] == ram[c])
    decreases |data|
  {
    hide ChipRamOk, Flip, Cell;
    if data != [] {
      var n := |data|;
      var at, rest := Addresses(k, address, n), Addresses(k, address + 1, n - 1);
      assert at == [at[0]] + rest;
      assert forall i {:trigger rest[i]} :: 0 <= i < n - 1 ==> rest[i] == at[i + 1];
      var ram1 := PutByte(k.am79, ram, at[0], data[0]);
      PutDataEffect(k, ram1, address + 1, data[1..]);
      var r := PutData(k, ram, address, data);
      assert r == PutData(k, ram1, address + 1, data[1..]);
      forall i | 0 <= i < n
        ensures r[Cell(at[i])] == data[i]
      {
        if i == 0 {
          assert r[Cell(at[0])] == ram1[Cell(at[0])];
        } else {
          assert at[i] == rest[i - 1] && data[i] == data[1..][i - 1];
        }
      }
    }
  }

  // ----- the loop -----

  /** The descriptors from `pos` on, given back: the first marked STP, the last ENP with the frame's length. */
  predicate GivenBack(k: Ring, ram: Ram, r: Ram, pos: nat, n: nat, first: bool, len: nat)
    requires k.len > 0 && len < 65536
    decreases n
  {
    n == 0 ||
    (GetDesc(k, r, pos) == Used(GetDesc(k, ram, pos), first, n == 1, len) &&
     GivenBack(k, ram, r, pos + 1, n - 1, false, len))
  }

  predicate Placed(at: seq<nat>, r: Ram, data: seq<Byte>) {
    |at| == |data| && forall i :: 0 <= i < |at| ==> r[Cell(at[i])] == data[i]
  }

  predicate Untouched(k: Ring, at: seq<nat>, ram: Ram, r: Ram, pos: nat, n: nat)
    requires k.len > 0
  {
    forall c: nat :: c < RAM_SIZE && Outside(k, c, pos, n) && (forall i :: 0 <= i < |at| ==> Cell(at[i]) != c) ==>
      r[c] == ram[c]
  }

  /** A ring of up to 4096 descriptors, the most that RAM has room for, does not meet itself within one turn. */
  lemma {:induction false} RingIsDistinct(k: Ring, pos: nat, n: nat)
    requires n <= k.len <= 4096 && k.len > 0
    ensures Distinct(k, pos, n)
    decreases n
  {
    hide Place;
    if n > 0 {
      PlacesDiffer(k, pos, 1, n - 1);
      RingIsDistinct(k, pos + 1, n - 1);
    }
  }

  lemma {:induction false} PlacesDiffer(k: Ring, pos: nat, t: nat, n: nat)
    requires 0 < k.len <= 4096 && t > 0 && t + n <= k.len
    ensures Elsewhere(k, Place(k, pos), pos + t, n)
    decreases n
  {
    if n > 0 {
      StepsDiffer(k.len, k.base / 8, pos, t);
      PlacesDiffer(k, pos, t + 1, n - 1);
    }
  }

  lemma StepsDiffer(len: nat, b: nat, pos: nat, t: nat)
    requires 0 < t < len <= 4096
    ensures (b + (pos + t) % len) % 4096 != (b + pos % len) % 4096
  {
    StepForward(len, pos, t);
    NearDiffer(b + (pos + t) % len, b + pos % len);
  }

  lemma StepForward(len: nat, pos: nat, t: nat)
    requires 0 < t < len
    ensures (pos + t) % len == if pos % len + t < len then pos % len + t else pos % len + t - len
  {
    assert pos == len * (pos / len) + pos % len;
    StepWithin(len, pos / len, pos % len, t);
  }

  lemma StepWithin(len: nat, q: nat, x: nat, t: nat)
    requires 0 < t < len && x < len
    ensures (len * q + x + t) % len == if x + t < len then x + t else x + t - len
  {
    if x + t < len {
      DivisionIsUnique(len, q, x + t);
    } else {
      Distribute(len, q, -1);
      DivisionIsUnique(len, q + 1, x + t - len);
    }
  }

  lemma NearDiffer(u: nat, v: nat)
    requires u != v && -4096 < u - v < 4096
    ensures u % 4096 != v % 4096
  {
  }

  lemma InsidePlace(k: Ring, r: Ram, s: Ram, pos: nat)
    requires RingOk(k)
    requires forall c: nat :: c < RAM_SIZE && PlaceOf(k, c) == Place(k, pos) ==> r[c] == s[c]
    ensures GetDesc(k, r, pos) == GetDesc(k, s, pos)
  {
    hide GetDesc, Place;
    SameDescriptor(k, r, s, pos);
  }

  /** Memories that agree on the descriptors of a run agree on the run. */
  lemma {:induction false} SameRun(k: Ring, r: Ram, s: Ram, pos: nat, need: int, n: nat)
    requires RingOk(k) && n >= Run(k, r, pos, need)
    requires forall c: nat :: c < RAM_SIZE && !Outside(k, c, pos, n) ==> r[c] == s[c]
    ensures Run(k, s, pos, need) == Run(k, r, pos, need) && Scatter(k, s, pos, need) == Scatter(k, r, pos, need)
    ensures forall m: nat :: m <= n && Owned(k, r, pos, m) ==> Owned(k, s, pos, m)
    decreases n
  {
    hide GetDesc, Place;
    if n > 0 {
      InsidePlace(k, r, s, pos);
      if need > 0 {
        SameRun(k, r, s, pos + 1, need - BufferSize(GetDesc(k, r, pos)), n - 1);
      } else {
        SameRun(k, r, s, pos + 1, 0, n - 1);
      }
    }
  }

  /** What one call of the loop's body leaves, for the descriptor at `pos`. */
  lemma OneBuffer(k: Ring, ram: Ram, pos: nat, data: seq<Byte>, d1: Half, d3: Half)
    requires RingOk(k) && Has(GetDesc(k, ram, pos).d1, OWN)
    requires Apart(k, Addresses(k, BufferAddress(GetDesc(k, ram, pos)), |data|), pos, 1)
    ensures var d := GetDesc(k, ram, pos);
            var at := Addresses(k, BufferAddress(d), |data|);
            var r := PutStatus(k, PutData(k, ram, BufferAddress(d), data), pos, d1, d3);
            Placed(at, r, data) && Untouched(k, at, ram, r, pos, 1) &&
            GetDesc(k, r, pos) == Desc(d.d0, d1, d.d2, d3)
  {
    hide GetDesc, PutStatus, PutData, Place, PlaceOf, WordIn, Cell, Reached, Addresses, BufferAddress, Has;
    var d := GetDesc(k, ram, pos);
    var at := Addresses(k, BufferAddress(d), |data|);
    PutDataEffect(k, ram, BufferAddress(d), data);
    var ram1 := PutData(k, ram, BufferAddress(d), data);
    assert forall i :: 0 <= i < |at| ==> Outside(k, Cell(at[i]), pos + 1, 0);
    InsidePlace(k, ram1, ram, pos);
    NoBits();
    GetDescAtPlace(k, ram, pos);
    PutStatusEffect(k, ram1, pos, d1, d3);
  }

  /** A delivered frame: where the ring stands, what became of the descriptors, the buffers and all other cells. */
  predicate Success(k: Ring, ram: Ram, pos: nat, data: seq<Byte>, done: nat, o: Outcome)
    requires k.len > 0 && done < |data| < 65536
  {
    var n, at := Run(k, ram, pos, |data| - done), Scatter(k, ram, pos, |data| - done);
    o.Delivered? && o.offset == (pos + n - 1) % k.len + 1 &&
    GivenBack(k, ram, o.ram, pos, n, done == 0, |data|) &&
    Placed(at, o.ram, data[done..]) &&
    Untouched(k, at, ram, o.ram, pos, n)
  }

  lemma {:induction false} SameGivenBack(k: Ring, ram: Ram, r1: Ram, r2: Ram, pos: nat, n: nat, first: bool, len: nat)
    requires RingOk(k) && len < 65536
    requires forall c: nat :: c < RAM_SIZE && !Outside(k, c, pos, n) ==> ram[c] == r1[c]
    requires GivenBack(k, r1, r2, pos, n, first, len)
    ensures GivenBack(k, ram, r2, pos, n, first, len)
    decreases n
  {
    hide GetDesc, Place, Used;
    if n > 0 {
      InsidePlace(k, ram, r1, pos);
      SameGivenBack(k, ram, r1, r2, pos + 1, n - 1, false, len);
    }
  }

  lemma SplitApart(k: Ring, pos: nat, a: seq<nat>, b: seq<nat>, n: nat)
    requires k.len > 0 && n > 0 && Apart(k, a + b, pos, n)
    ensures Apart(k, a, pos, 1) && Apart(k, b, pos + 1, n - 1)
    ensures forall i, j :: 0 <= i < |a| && 0 <= j < |b| ==> Cell(a[i]) != Cell(b[j])
    ensures forall i :: 0 <= i < |a| ==> Outside(k, Cell(a[i]), pos, n)
    ensures forall i :: 0 <= i < |b| ==> Outside(k, Cell(b[i]), pos, n)
  {
    hide Place, PlaceOf, Cell, ChipRamOk;
    var at := a + b;
    forall i | 0 <= i < |a| ensures at[i] == a[i] { }
    forall i | 0 <= i < |b| ensures at[|a| + i] == b[i] { }
  }

  /** The first descriptor's cells and buffer do not meet the later ones'. */
  lemma FirstApart(k: Ring, ram: Ram, r1: Ram, pos: nat, a: seq<nat>, b: seq<nat>, n: nat)
    requires RingOk(k) && n > 0 && Distinct(k, pos, n)
    requires Apart(k, a + b, pos, n) && Untouched(k, a, ram, r1, pos, 1)
    ensures Apart(k, a, pos, 1) && Apart(k, b, pos + 1, n - 1)
    ensures forall c: nat :: c < RAM_SIZE && !Outside(k, c, pos + 1, n - 1) ==> ram[c] == r1[c]
    ensures forall c: nat :: c < RAM_SIZE && PlaceOf(k, c) == Place(k, pos) ==>
              Outside(k, c, pos + 1, n - 1) && (forall i :: 0 <= i < |b| ==> Cell(b[i]) != c)
    ensures forall i, j :: 0 <= i < |a| && 0 <= j < |b| ==> Cell(a[i]) != Cell(b[j])
    ensures forall i :: 0 <= i < |a| ==> Outside(k, Cell(a[i]), pos + 1, n - 1)
  {
    hide Place, PlaceOf, Cell, ChipRamOk;
    SplitApart(k, pos, a, b, n);
    forall c: nat | c < RAM_SIZE && !Outside(k, c, pos + 1, n - 1)
      ensures ram[c] == r1[c]
    {
      assert Outside(k, c, pos + 1, 0);
    }
  }

  /** A first buffer and the rest of the run make a whole run. */
  lemma JoinRuns(k: Ring, ram: Ram, r1: Ram, r2: Ram, pos: nat, a: seq<nat>, b: seq<nat>, x: seq<Byte>, y: seq<Byte>,
                 n: nat, first: bool, len: nat)
    requires RingOk(k) && n > 1 && Distinct(k, pos, n) && len < 65536
    requires Apart(k, a + b, pos, n)
    requires Placed(a, r1, x) && Untouched(k, a, ram, r1, pos, 1)
    requires GetDesc(k, r1, pos) == Used(GetDesc(k, ram, pos), first, false, len)
    requires Placed(b, r2, y) && Untouched(k, b, r1, r2, pos + 1, n - 1)
    requires GivenBack(k, r1, r2, pos + 1, n - 1, false, len)
    ensures Placed(a + b, r2, x + y) && Untouched(k, a + b, ram, r2, pos, n)
    ensures GivenBack(k, ram, r2, pos, n, first, len)
  {
    hide Place, Cell, GetDesc, Used, Apart;
    FirstApart(k, ram, r1, pos, a, b, n);
    InsidePlace(k, r1, r2, pos);
    SameGivenBack(k, ram, r1, r2, pos + 1, n - 1, false, len);
    forall i | 0 <= i < |a + b|
      ensures r2[Cell((a + b)[i])] == (x + y)[i]
    {
      if i < |a| {
        assert (a + b)[i] == a[i] && (x + y)[i] == x[i];
      } else {
        assert (a + b)[i] == b[i - |a|] && (x + y)[i] == y[i - |a|];
      }
    }
    forall c: nat | c < RAM_SIZE && Outside(k, c, pos, n) && (forall i :: 0 <= i < |a + b| ==> Cell((a + b)[i]) != c)
      ensures r2[c] == ram[c]
    {
      forall i | 0 <= i < |a| ensures Cell(a[i]) != c { assert (a + b)[i] == a[i]; }
      forall i | 0 <= i < |b| ensures Cell(b[i]) != c { assert (a + b)[|a| + i] == b[i]; }
      assert Outside(k, c, pos + 1, 0);
    }
  }

  /** All that the later iterations need to know about the first, when it is not the last. */
  lemma FirstBuffer(k: Ring, ram: Ram, pos: nat, data: seq<Byte>, done: nat)
    requires RingOk(k) && done < |data| < 65536
    requires Chunk(k, ram, pos, data, done) < |data| - done
    requires var n := Run(k, ram, pos, |data| - done);
             Distinct(k, pos, n) && Owned(k, ram, pos, n) && Apart(k, Scatter(k, ram, pos, |data| - done), pos, n)
    ensures var m, n, d := Chunk(k, ram, pos, data, done), Run(k, ram, pos, |data| - done), GetDesc(k, ram, pos);
            var r := FillOne(k, ram, pos, data, done);
            var a, b := Addresses(k, BufferAddress(d), m), Scatter(k, ram, pos + 1, |data| - done - m);
            Placed(a, r, data[done..done + m]) && Untouched(k, a, ram, r, pos, 1) &&
            GetDesc(k, r, pos) == Used(d, done == 0, false, |data|) &&
            Apart(k, b, pos + 1, n - 1) && Owned(k, r, pos + 1, n - 1) && n > 1 &&
            Run(k, r, pos + 1, |data| - done - m) == n - 1 && Scatter(k, r, pos + 1, |data| - done - m) == b
  {
    hide GetDesc, Used, PutStatus, PutData, Place, Apart, Addresses, Cell, Placed, Untouched, BufferAddress, Run,
         Scatter;
    var need, d, m := |data| - done, GetDesc(k, ram, pos), Chunk(k, ram, pos, data, done);
    var n, r := Run(k, ram, pos, need), FillOne(k, ram, pos, data, done);
    var a, b := Addresses(k, BufferAddress(d), m), Scatter(k, ram, pos + 1, need - m);
    var u := Used(d, done == 0, false, |data|);
    RunHead(k, ram, pos, need);
    RunHead(k, ram, pos + 1, need - m);
    UsedKeeps(d, done == 0, false, |data|);
    UntouchedItself(k, a, ram, pos, 1);
    FirstApart(k, ram, ram, pos, a, b, n);
    OneBuffer(k, ram, pos, data[done..done + m], u.d1, u.d3);
    FirstApart(k, ram, r, pos, a, b, n);
    SameRun(k, ram, r, pos + 1, need - m, n - 1);
  }

  /** The loop, entered with `done` bytes placed, when the descriptors it needs are the chip's and different ones. */
  lemma {:induction false} DeliverDistinct(k: Ring, ram: Ram, pos: nat, data: seq<Byte>, done: nat)
    requires RingOk(k) && done < |data| < 65536
    requires var n := Run(k, ram, pos, |data| - done);
             Distinct(k, pos, n) && Owned(k, ram, pos, n) && Apart(k, Scatter(k, ram, pos, |data| - done), pos, n)
    ensures Success(k, ram, pos, data, done, Deliver(k, ram, pos, data, done))
    decreases |data| - done
  {
    hide GetDesc, Used, Place, Apart, Addresses, Placed, Untouched, GivenBack, BufferAddress, Run, Scatter, FillOne,
         Deliver;
    var need, m, n := |data| - done, Chunk(k, ram, pos, data, done), Run(k, ram, pos, |data| - done);
    RunHead(k, ram, pos, need);
    if m == need {
      LastBuffer(k, ram, pos, data, done);
    } else {
      var d, r1 := GetDesc(k, ram, pos), FillOne(k, ram, pos, data, done);
      var a, b := Addresses(k, BufferAddress(d), m), Scatter(k, ram, pos + 1, need - m);
      FirstBuffer(k, ram, pos, data, done);
      DeliverDistinct(k, r1, pos + 1, data, done + m);
      DeliverNext(k, ram, pos, data, done);
      var r2 := Deliver(k, r1, pos + 1, data, done + m).ram;
      JoinRuns(k, ram, r1, r2, pos, a, b, data[done..done + m], data[done + m..], n, done == 0, |data|);
      assert data[done..] == data[done..done + m] + data[done + m..];
    }
  }

  lemma DeliverNext(k: Ring, ram: Ram, pos: nat, data: seq<Byte>, done: nat)
    requires k.len > 0 && done < |data| < 65536 && Has(GetDesc(k, ram, pos).d1, OWN)
    requires Chunk(k, ram, pos, data, done) < |data| - done
    ensures Deliver(k, ram, pos, data, done) ==
            Deliver(k, FillOne(k, ram, pos, data, done), pos + 1, data, done + Chunk(k, ram, pos, data, done))
  {
    hide GetDesc, FillOne, Chunk;
  }

  lemma UntouchedItself(k: Ring, at: seq<nat>, ram: Ram, pos: nat, n: nat)
    requires k.len > 0
    ensures Untouched(k, at, ram, ram, pos, n)
  {
  }

  /** The first step of everything that is counted along the run. */
  lemma RunHead(k: Ring, ram: Ram, pos: nat, need: int)
    requires k.len > 0 && need > 0
    ensures var d := GetDesc(k, ram, pos);
            var m := Min(BufferSize(d), need);
            Run(k, ram, pos, need) == 1 + Run(k, ram, pos + 1, need - m) &&
            (m == need ==> Run(k, ram, pos, need) == 1) &&
            Scatter(k, ram, pos, need) == Addresses(k, BufferAddress(d), m) + Scatter(k, ram, pos + 1, need - m)
  {
    hide GetDesc, BufferAddress, Addresses;
  }

  lemma LastBuffer(k: Ring, ram: Ram, pos: nat, data: seq<Byte>, done: nat)
    requires RingOk(k) && done < |data| < 65536
    requires |data| - done <= BufferSize(GetDesc(k, ram, pos)) && Has(GetDesc(k, ram, pos).d1, OWN)
    requires Apart(k, Scatter(k, ram, pos, |data| - done), pos, 1)
    ensures Success(k, ram, pos, data, done, Deliver(k, ram, pos, data, done))
  {
    hide GetDesc, Used, PutStatus, PutData, Place, Apart, Addresses, Cell, Placed, Untouched, BufferAddress;
    var d := GetDesc(k, ram, pos);
    var x, a := data[done..], Addresses(k, BufferAddress(d), |data| - done);
    var u := Used(d, done == 0, true, |data|);
    assert Run(k, ram, pos + 1, |data| - done - BufferSize(d)) == 0;
    assert Scatter(k, ram, pos, |data| - done) == a by { assert Scatter(k, ram, pos + 1, 0) == []; assert a + [] == a; }
    assert data[done..done + |x|] == x;
    UsedKeeps(d, done == 0, true, |data|);
    OneBuffer(k, ram, pos, x, u.d1, u.d3);
    var r1 := PutStatus(k, PutData(k, ram, BufferAddress(d), x), pos, u.d1, u.d3);
    assert GivenBack(k, ram, r1, pos + 1, 0, false, |data|);
  }

  lemma UsedKeeps(d: Desc, first: bool, last: bool, len: nat)
    requires len < 65536
    ensures var u := Used(d, first, last, len); u == Desc(d.d0, u.d1, d.d2, u.d3)
  {
  }

  // ----- a run that keeps its buffers apart does not meet itself -----

  lemma {:induction false} ElsewhereEach(k: Ring, place: nat, pos: nat, n: nat, p: nat)
    requires k.len > 0 && Elsewhere(k, place, pos, n) && pos <= p < pos + n
    ensures place != Place(k, p)
    decreases n
  {
    hide Place;
    if pos < p { ElsewhereEach(k, place, pos + 1, n - 1, p); }
  }

  lemma {:induction false} SomewhereIn(k: Ring, place: nat, pos: nat, n: nat) returns (p: nat)
    requires k.len > 0 && !Elsewhere(k, place, pos, n)
    ensures pos <= p < pos + n && place == Place(k, p)
    decreases n
  {
    hide Place;
    p := pos;
    if place != Place(k, pos) { p := SomewhereIn(k, place, pos + 1, n - 1); }
  }

  lemma NoBits()
    ensures !Has(0, OWN)
  {
  }

  lemma OneIsDistinct(k: Ring, pos: nat)
    requires k.len > 0
    ensures Distinct(k, pos, 1)
  {
    assert Elsewhere(k, Place(k, pos), pos + 1, 0) && Distinct(k, pos + 1, 0);
  }

  /** The address of the first byte of a buffer of the run. */
  lemma {:induction false} ScatterHas(k: Ring, ram: Ram, pos: nat, need: int, p: nat) returns (i: nat)
    requires k.len > 0 && pos <= p < pos + Run(k, ram, pos, need)
    ensures i < |Scatter(k, ram, pos, need)|
    ensures Scatter(k, ram, pos, need)[i] == Flip(k.swap, BufferAddress(GetDesc(k, ram, p)))
    ensures i == 0 <==> p == pos
    decreases need
  {
    hide GetDesc, BufferAddress, Flip;
    RunHead(k, ram, pos, need);
    var d := GetDesc(k, ram, pos);
    var m := Min(BufferSize(d), need);
    i := 0;
    if p > pos {
      var t := ScatterHas(k, ram, pos + 1, need - m, p);
      i := m + t;
    }
  }

  /** A descriptor that the chip does not reach reads as zeros, and so has its buffer where the chip reaches nothing. */
  lemma Unreached(k: Ring, ram: Ram, pos: nat)
    requires RingOk(k) && ChipRamOk(k.am79, Flip(k.swap, BufferAddress(GetDesc(k, ram, pos))))
    ensures Reached(k, pos)
  {
    hide GetDesc, WordIn, Place, DescOffset;
    GetDescAtPlace(k, ram, pos);
    assert BufferAddress(Desc(0, 0, 0, 0)) == 0;
  }

  /** Positions of a ring that share a place share a buffer, unless the chip does not reach one of them. */
  lemma SameBuffer(k: Ring, ram: Ram, pos: nat, p: nat)
    requires RingOk(k) && Place(k, pos) == Place(k, p)
    requires ChipRamOk(k.am79, Flip(k.swap, BufferAddress(GetDesc(k, ram, pos))))
    requires ChipRamOk(k.am79, Flip(k.swap, BufferAddress(GetDesc(k, ram, p))))
    ensures BufferAddress(GetDesc(k, ram, pos)) == BufferAddress(GetDesc(k, ram, p))
  {
    hide GetDesc, WordIn, Place, Reached, BufferAddress, Flip, ChipRamOk;
    Unreached(k, ram, pos);
    Unreached(k, ram, p);
    GetDescAtPlace(k, ram, pos);
    GetDescAtPlace(k, ram, p);
  }

  /** Buffers that keep clear of each other belong to different descriptors, however long the ring. */
  lemma {:induction false} ApartIsDistinct(k: Ring, ram: Ram, pos: nat, need: int)
    requires RingOk(k) && Apart(k, Scatter(k, ram, pos, need), pos, Run(k, ram, pos, need))
    ensures Distinct(k, pos, Run(k, ram, pos, need))
    decreases need
  {
    hide GetDesc, Place, BufferAddress, Flip, Cell, Addresses, ChipRamOk, PlaceOf;
    if need > 0 {
      RunHead(k, ram, pos, need);
      var d, n := GetDesc(k, ram, pos), Run(k, ram, pos, need);
      var m := Min(BufferSize(d), need);
      SplitApart(k, pos, Addresses(k, BufferAddress(d), m), Scatter(k, ram, pos + 1, need - m), n);
      ApartIsDistinct(k, ram, pos + 1, need - m);
      if !Elsewhere(k, Place(k, pos), pos + 1, n - 1) {
        var p := SomewhereIn(k, Place(k, pos), pos + 1, n - 1);
        var i0 := ScatterHas(k, ram, pos, need, pos);
        var i1 := ScatterHas(k, ram, pos, need, p);
        SameBuffer(k, ram, pos, p);
        assert false;
      }
    }
  }

  /** The loop when the descriptors it needs are the chip's and the buffers are apart. */
  lemma DeliverRun(k: Ring, ram: Ram, pos: nat, data: seq<Byte>, done: nat)
    requires RingOk(k) && done < |data| < 65536
    requires var n := Run(k, ram, pos, |data| - done);
             Owned(k, ram, pos, n) && Apart(k, Scatter(k, ram, pos, |data| - done), pos, n)
    ensures Success(k, ram, pos, data, done, Deliver(k, ram, pos, data, done))
  {
    hide Owned, Apart, Scatter, Run, Distinct, Success, Deliver;
    ApartIsDistinct(k, ram, pos, |data| - done);
    DeliverDistinct(k, ram, pos, data, done);
  }

  // ----- the guard as a whole -----

  /** The receiver's settings: initialised, receiver on, automatic FCS stripping on. */
  datatype Mode = Mode(ready: bool, rxon: bool, strip: bool)

  /** Bytes a frame of `len` bytes is taken to need, padding and FCS included; -1 if it cannot be received at all. */
  function BufferNeed(o: Mode, len: int): int {
    if len <= 0 || len > MAX_PACKET_SIZE || (!o.strip && len > MAX_PACKET_SIZE - 4) then -1
    else (if len < 60 then 60 else len) + (if o.strip then 0 else 4)
  }

  predicate SpaceAvailable(k: Ring, o: Mode, ram: Ram, pos: nat, len: int) {
    BufferNeed(o, len) >= 0 && o.ready && o.rxon && k.len > 0 && Space(k, ram, pos, BufferNeed(o, len), k.len)
  }

  /** Could the ring hold `needed` bytes if the chip owned all of it? */
  predicate Fits(k: Ring, ram: Ram, pos: nat, needed: int, left: nat)
    requires k.len > 0
    decreases left
  {
    left > 0 &&
    (needed - BufferSize(GetDesc(k, ram, pos)) <= 0 ||
     Fits(k, ram, pos + 1, needed - BufferSize(GetDesc(k, ram, pos)), left - 1))
  }

  predicate CanFit(k: Ring, o: Mode, ram: Ram, pos: nat, len: int) {
    BufferNeed(o, len) >= 0 && o.ready && k.len > 0 && Fits(k, ram, pos, BufferNeed(o, len), k.len)
  }

  /** The two guards are consistent: only the chip's ownership and the receiver switch set them apart. */
  lemma {:induction false} SpaceFits(k: Ring, ram: Ram, pos: nat, needed: int, left: nat)
    requires k.len > 0
    ensures Space(k, ram, pos, needed, left) ==> Fits(k, ram, pos, needed, left)
    decreases left
  {
    hide GetDesc;
    if left > 0 { SpaceFits(k, ram, pos + 1, needed - BufferSize(GetDesc(k, ram, pos)), left - 1); }
  }

  lemma {:induction false} FitsIsCapacity(k: Ring, ram: Ram, pos: nat, needed: int, left: nat)
    requires k.len > 0 && needed > 0
    ensures Fits(k, ram, pos, needed, left) <==> Capacity(k, ram, pos, left) >= needed
    decreases left
  {
    hide GetDesc;
    if left > 0 {
      var rest := needed - BufferSize(GetDesc(k, ram, pos));
      if rest > 0 { FitsIsCapacity(k, ram, pos + 1, rest, left - 1); }
    }
  }

  /** When the guard admits a frame, the receive loop delivers it, into the fewest descriptors that hold it.  (A ring of
      the Am79C960 may be longer than the RAM and lie over itself: then the buffers of a run that meets a descriptor
      twice are not apart.) */
  lemma GuardMeansDelivery(k: Ring, o: Mode, ram: Ram, pos: nat, len: nat, data: seq<Byte>)
    requires RingOk(k) && SpaceAvailable(k, o, ram, pos, len)
    requires |data| == if o.strip then len else len + 4
    requires Apart(k, Scatter(k, ram, pos, |data|), pos, Run(k, ram, pos, |data|))
    ensures |data| < 65536 && Success(k, ram, pos, data, 0, Deliver(k, ram, pos, data, 0))
    ensures Run(k, ram, pos, |data|) <= k.len
    ensures forall n: nat :: Capacity(k, ram, pos, n) >= |data| <==> n >= Run(k, ram, pos, |data|)
  {
    hide GetDesc, Apart, Success, Deliver, Space, Scatter, Run, Capacity;
    var needed := BufferNeed(o, len);
    SpaceMeansRun(k, ram, pos, needed, k.len);
    SmallerRun(k, ram, pos, |data|, needed);
    OwnedPrefix(k, ram, pos, Run(k, ram, pos, |data|), Run(k, ram, pos, needed));
    DeliverRun(k, ram, pos, data, 0);
    forall n: nat ensures Capacity(k, ram, pos, n) >= |data| <==> n >= Run(k, ram, pos, |data|) {
      RunIsShortest(k, ram, pos, |data|, n);
    }
  }

  lemma {:induction false} OwnedPrefix(k: Ring, ram: Ram, pos: nat, m: nat, n: nat)
    requires k.len > 0 && m <= n && Owned(k, ram, pos, n)
    ensures Owned(k, ram, pos, m)
    decreases m
  {
    hide GetDesc;
    if m > 0 { OwnedPrefix(k, ram, pos + 1, m - 1, n - 1); }
  }

  // ----- the usual case: one buffer holds the frame -----

  lemma {:induction false} AddressAt(k: Ring, address: nat, n: nat, i: nat)
    requires i < n
    ensures Addresses(k, address, n)[i] == Flip(k.swap, address + i)
    decreases n
  {
    if i > 0 { AddressAt(k, address + 1, n - 1, i - 1); }
  }

  /** A buffer of `n` bytes on an even address, inside one turn of the RAM and behind a descriptor's place. */
  predicate Behind(k: Ring, address: nat, n: nat, place: nat) {
    var c := Cell(address);
    c % 2 == 0 && c + n < RAM_SIZE && c >= k.base % 8 + 8 * place + 8 && (k.am79 || address / RAM_SIZE % 2 == 1)
  }

  lemma CellBehind(k: Ring, address: nat, n: nat, i: nat)
    requires k.swap < 2 && i < n && Cell(address) % 2 == 0 && Cell(address) + n < RAM_SIZE
    ensures var a := Flip(k.swap, address + i);
            Cell(a) == Cell(address) + Flip(k.swap, i) && a / RAM_SIZE == address / RAM_SIZE
  {
    var q, c := address / RAM_SIZE, Cell(address);
    assert address == RAM_SIZE * q + c;
    DivisionIsUnique(RAM_SIZE, q, c + Flip(k.swap, i));
  }

  lemma BehindIsApart(k: Ring, address: nat, n: nat, pos: nat)
    requires RingOk(k) && Behind(k, address, n, Place(k, pos))
    ensures Apart(k, Addresses(k, address, n), pos, 1)
  {
    hide Place, Addresses, Cell, Outside;
    var at := Addresses(k, address, n);
    forall i | 0 <= i < n
      ensures Cell(at[i]) == Cell(address) + Flip(k.swap, i) && at[i] / RAM_SIZE == address / RAM_SIZE
      ensures Outside(k, Cell(at[i]), pos, 1)
    {
      AddressAt(k, address, n, i);
      CellBehind(k, address, n, i);
      NotInPlace(k, Cell(at[i]), pos);
    }
  }

  lemma NotInPlace(k: Ring, cell: nat, pos: nat)
    requires k.len > 0 && k.base % 8 + 8 * Place(k, pos) + 8 <= cell < RAM_SIZE
    ensures Outside(k, cell, pos, 1)
  {
    hide Place;
    assert Elsewhere(k, PlaceOf(k, cell), pos + 1, 0);
  }

  /** A frame that fits the buffer of the next descriptor is admitted if that descriptor is the chip's, and then
      nothing more is needed for its delivery: the promises above hold of every ordinary ring. */
  lemma OneBufferIsEnough(k: Ring, o: Mode, ram: Ram, pos: nat, len: nat)
    requires RingOk(k) && o == Mode(true, true, true) && 0 < len <= MAX_PACKET_SIZE
    requires var d := GetDesc(k, ram, pos);
             Has(d.d1, OWN) && BufferSize(d) >= 60 && BufferSize(d) >= len &&
             Behind(k, BufferAddress(d), len, Place(k, pos))
    ensures SpaceAvailable(k, o, ram, pos, len) && Run(k, ram, pos, len) == 1
    ensures Apart(k, Scatter(k, ram, pos, len), pos, Run(k, ram, pos, len))
  {
    hide GetDesc, Has, Place, Behind, Apart, BufferAddress;
    var d := GetDesc(k, ram, pos);
    BehindIsApart(k, BufferAddress(d), len, pos);
    assert Scatter(k, ram, pos, len) == Addresses(k, BufferAddress(d), len) + [];
    assert Addresses(k, BufferAddress(d), len) + [] == Addresses(k, BufferAddress(d), len);
  }
}
