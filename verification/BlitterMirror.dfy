/**
 A descending blit is an ascending blit seen in a mirror: addresses count down instead of up, and
 every word, mask word and memory word is read from its other end.  The shift count stays the same.
 (Each blitdofast_desc_* loop against its blitdofast_* twin, blitfunc.cpp:108-183 and so on.)
 */
module BlitterMirror {
  import opened Minterms
  import opened Blitter
  import opened Numbers

  function Reverse(w: seq<bool>): (r: seq<bool>)
    ensures |r| == |w|
  {
    seq(|w|, i requires 0 <= i < |w| => w[|w| - 1 - i])
  }

  function Flip(w: Word): Word { Reverse(w) }

  /** The other end of the address space; zero, the switched-off channel, stays zero. */
  function Across(p: Addr): Addr { (TWO32 - p) % TWO32 }

  /** Chip memory repeats through the address space a whole number of times. */
  predicate Tiles(m: Memory) { TWO32 % |m| == 0 }

  /** The slot at the mirrored address. */
  function Opposite(n: nat, k: nat): (r: nat)
    requires k < n
    ensures r < n
  {
    if k == 0 then 0 else n - k
  }

  function MirrorMemory(m: Memory): Memory {
    seq(|m|, k requires 0 <= k < |m| => Flip(m[Opposite(|m|, k)]))
  }

  function MirrorMask(ms: seq<Word>): seq<Word> { seq(|ms|, k requires 0 <= k < |ms| => Flip(ms[k])) }

  function MirrorJob(j: Job): Job {
    Job(j.mt, !j.down, j.ashift, j.bshift, j.amod, j.bmod, j.cmod, j.dmod, MirrorMask(j.mask), j.width, j.height)
  }

  function MirrorPtrs(p: Ptrs): Ptrs { Ptrs(Across(p.a), Across(p.b), Across(p.c), Across(p.d), Across(p.last)) }

  function Mirror(s: State): State {
    State(MirrorPtrs(s.p), Flip(s.adat), Flip(s.aold), Flip(s.ahold), Flip(s.bdat), Flip(s.bold), Flip(s.bhold),
          Flip(s.cdat), Flip(s.dstd), s.zero, MirrorMemory(s.mem))
  }

  // ----- each operation commutes with the mirror -----

  lemma FlipTwice(w: Word)
    ensures Flip(Flip(w)) == w
  {
  }

  lemma FlipAnd(x: Word, y: Word)
    ensures Flip(And(x, y)) == And(Flip(x), Flip(y))
  {
  }

  lemma FlipCombine(mt: Byte, a: Word, b: Word, c: Word)
    ensures Flip(Combine(mt, a, b, c)) == Combine(mt, Flip(a), Flip(b), Flip(c))
  {
  }

  lemma FlipZero(w: Word)
    ensures Flip(w) == ZERO <==> w == ZERO
  {
    assert Flip(ZERO) == ZERO;
    FlipTwice(w);
  }

  lemma BarrelBit(shift: nat, older: Word, newer: Word, i: nat)
    requires shift < 16 && i < 16
    ensures Barrel(false, shift, older, newer)[i] == if i < shift then older[16 - shift + i] else newer[i - shift]
    ensures Barrel(true, shift, older, newer)[i] == if i < 16 - shift then newer[shift + i] else older[i - (16 - shift)]
  {
  }

  lemma FlipBarrelBit(shift: nat, older: Word, newer: Word, i: nat)
    requires shift < 16 && i < 16
    ensures Barrel(true, shift, older, newer)[15 - i] == Barrel(false, shift, Flip(older), Flip(newer))[i]
  {
    hide Barrel;
    BarrelBit(shift, older, newer, 15 - i);
    BarrelBit(shift, Flip(older), Flip(newer), i);
  }

  /** The two barrel shifters are mirror images, bit for bit. */
  lemma FlipBarrel(down: bool, shift: nat, older: Word, newer: Word)
    requires shift < 16
    ensures Flip(Barrel(down, shift, older, newer)) == Barrel(!down, shift, Flip(older), Flip(newer))
  {
    hide Barrel;
    var x := Barrel(down, shift, older, newer);
    var y := Barrel(!down, shift, Flip(older), Flip(newer));
    FlipTwice(older);
    FlipTwice(newer);
    forall i | 0 <= i < 16
      ensures x[15 - i] == y[i]
    {
      if down {
        FlipBarrelBit(shift, older, newer, i);
      } else {
        FlipBarrelBit(shift, Flip(older), Flip(newer), 15 - i);
      }
    }
    assert |x| == 16 && |y| == 16;
  }

  /** Negation modulo the address space. */
  lemma NegateMod(y: int)
    ensures (TWO32 - y % TWO32) % TWO32 == (TWO32 - y) % TWO32
  {
    var q, r := y / TWO32, y % TWO32;
    if r == 0 {
      DivisionIsUnique(TWO32, 1 - q, 0);
      assert TWO32 - y == TWO32 * (1 - q) + 0;
    } else {
      DivisionIsUnique(TWO32, -q, TWO32 - r);
      assert TWO32 - y == TWO32 * -q + (TWO32 - r);
    }
  }

  lemma AcrossSkip(down: bool, p: Addr, modulo: int)
    ensures Across(Skip(down, p, modulo)) == Skip(!down, Across(p), modulo)
  {
    NegateMod(if down then p - modulo else p + modulo);
  }

  lemma AcrossNext(down: bool, p: Addr)
    ensures Across(Next(down, p)) == Next(!down, Across(p))
  {
    AcrossSkip(down, p, 2);
  }

  lemma AcrossSlot(m: Memory, p: Addr)
    requires Tiles(m)
    ensures Across(p) % |m| == Opposite(|m|, p % |m|)
  {
    if p == 0 {
      DivisionIsUnique(|m|, 0, 0);
    } else {
      OtherEnd(|m|, TWO32 / |m|, p / |m|, p % |m|);
    }
  }

  lemma OtherEnd(n: nat, c: int, q: int, r: nat)
    requires 0 <= r < n
    ensures (n * c - (n * q + r)) % n == Opposite(n, r)
  {
    Distribute(n, c, q);
    if r == 0 {
      DivisionIsUnique(n, c - q, 0);
    } else {
      Distribute(n, c - q, 1);
      DivisionIsUnique(n, c - q - 1, n - r);
    }
  }

  lemma MirrorGet(m: Memory, p: Addr)
    requires Tiles(m)
    ensures Get(MirrorMemory(m), Across(p)) == Flip(Get(m, p))
  {
    AcrossSlot(m, p);
  }

  lemma MirrorPut(m: Memory, p: Addr, w: Word)
    requires Tiles(m)
    ensures MirrorMemory(Put(m, p, w)) == Put(MirrorMemory(m), Across(p), Flip(w))
    ensures Tiles(Put(m, p, w))
  {
    AcrossSlot(m, p);
  }

  // ----- words, rows, blits -----

  lemma MirrorFetchA(j: Job, s: State, i: nat)
    requires JobOk(j) && i < j.width && Tiles(s.mem)
    ensures Mirror(FetchA(j, s, i)) == FetchA(MirrorJob(j), Mirror(s), i) && FetchA(j, s, i).mem == s.mem
  {
    var adat := if s.p.a != 0 then Get(s.mem, s.p.a) else s.adat;
    MirrorGet(s.mem, s.p.a);
    FlipAnd(adat, j.mask[i]);
    FlipBarrel(j.down, j.ashift, s.aold, And(adat, j.mask[i]));
    AcrossNext(j.down, s.p.a);
  }

  lemma MirrorFetchB(j: Job, s: State)
    requires JobOk(j) && Tiles(s.mem)
    ensures Mirror(FetchB(j, s)) == FetchB(MirrorJob(j), Mirror(s)) && FetchB(j, s).mem == s.mem
  {
    MirrorGet(s.mem, s.p.b);
    FlipBarrel(j.down, j.bshift, s.bold, Get(s.mem, s.p.b));
    AcrossNext(j.down, s.p.b);
  }

  lemma MirrorFetchC(j: Job, s: State)
    requires Tiles(s.mem)
    ensures Mirror(FetchC(j, s)) == FetchC(MirrorJob(j), Mirror(s)) && FetchC(j, s).mem == s.mem
  {
    MirrorGet(s.mem, s.p.c);
    AcrossNext(j.down, s.p.c);
  }

  lemma MirrorFetch(j: Job, late: bool, s: State, i: nat)
    requires JobOk(j) && i < j.width && Tiles(s.mem)
    ensures Mirror(Fetch(j, late, s, i)) == Fetch(MirrorJob(j), late, Mirror(s), i)
    ensures Fetch(j, late, s, i).mem == s.mem
  {
    hide FetchA, FetchB, FetchC, Mirror, Tiles, ReadsA, ReadsB, ReadsC;
    MirrorFetchC(j, s);
    var s1 := if late && !ReadsC(j.mt) then s else FetchC(j, s);
    MirrorFetchB(j, s1);
    var s2 := if late && !ReadsB(j.mt) then s1 else FetchB(j, s1);
    MirrorFetchA(j, s2, i);
  }

  lemma MirrorFlush(s: State)
    requires Tiles(s.mem)
    ensures Mirror(Flush(s)) == Flush(Mirror(s)) && Tiles(Flush(s).mem)
  {
    if s.p.last != 0 { MirrorPut(s.mem, s.p.last, s.dstd); }
  }

  lemma MirrorCompute(j: Job, s: State)
    ensures Mirror(Compute(j, s)) == Compute(MirrorJob(j), Mirror(s))
  {
    FlipCombine(j.mt, s.ahold, s.bhold, s.cdat);
    FlipZero(Combine(j.mt, s.ahold, s.bhold, s.cdat));
    AcrossNext(j.down, s.p.d);
  }

  lemma MirrorWord(j: Job, late: bool, s: State, i: nat)
    requires JobOk(j) && i < j.width && Tiles(s.mem)
    ensures Mirror(WordStep(j, late, s, i)) == WordStep(MirrorJob(j), late, Mirror(s), i)
    ensures Tiles(WordStep(j, late, s, i).mem)
  {
    MirrorFetch(j, late, s, i);
    var f := Fetch(j, late, s, i);
    if late {
      MirrorFlush(f);
      MirrorCompute(j, Flush(f));
    } else {
      MirrorCompute(j, f);
      MirrorFlush(Compute(j, f));
    }
  }

  lemma MirrorRowEnd(j: Job, late: bool, s: State)
    ensures Mirror(RowEnd(j, late, s)) == RowEnd(MirrorJob(j), late, Mirror(s))
  {
    AcrossSkip(j.down, s.p.a, j.amod);
    AcrossSkip(j.down, s.p.b, j.bmod);
    AcrossSkip(j.down, s.p.c, j.cmod);
    AcrossSkip(j.down, s.p.d, j.dmod);
  }

  lemma {:induction false} MirrorWords(j: Job, late: bool, s: State, i: nat)
    requires JobOk(j) && i <= j.width && Tiles(s.mem)
    ensures Mirror(Words(j, late, s, i)) == Words(MirrorJob(j), late, Mirror(s), i)
    ensures Tiles(Words(j, late, s, i).mem)
    decreases j.width - i
  {
    if i < j.width {
      MirrorWord(j, late, s, i);
      MirrorWords(j, late, WordStep(j, late, s, i), i + 1);
    }
  }

  lemma {:induction false} MirrorRows(j: Job, late: bool, s: State, row: nat)
    requires JobOk(j) && row <= j.height && Tiles(s.mem)
    ensures Mirror(Rows(j, late, s, row)) == Rows(MirrorJob(j), late, Mirror(s), row)
    ensures Tiles(Rows(j, late, s, row).mem)
    decreases j.height - row
  {
    if row < j.height {
      MirrorWords(j, late, s, 0);
      MirrorRowEnd(j, late, Words(j, late, s, 0));
      MirrorRows(j, late, RowEnd(j, late, Words(j, late, s, 0)), row + 1);
    }
  }

  /** A blit, looked at in the mirror, is the blit in the other direction of the mirrored registers and memory. */
  lemma MirrorBlit(j: Job, late: bool, s: State)
    requires JobOk(j) && Tiles(s.mem)
    ensures Mirror(Blit(j, late, s)) == Blit(MirrorJob(j), late, Mirror(s))
  {
    assert Mirror(Prepare(s)) == Prepare(Mirror(s)) by { FlipZero(ZERO); }
    MirrorRows(j, late, Prepare(s), 0);
    MirrorFlush(Rows(j, late, Prepare(s), 0));
  }

  lemma MirrorTwice(s: State)
    ensures Mirror(Mirror(s)) == s
  {
    forall w: Word ensures Flip(Flip(w)) == w { FlipTwice(w); }
    forall p: Addr ensures Across(Across(p)) == p { }
    assert MirrorMemory(MirrorMemory(s.mem)) == s.mem;
  }

  /** Descending is ascending conjugated by the mirror. */
  lemma DescendingIsMirroredAscending(j: Job, late: bool, s: State)
    requires JobOk(j) && j.down && Tiles(s.mem)
    ensures !MirrorJob(j).down && Blit(j, late, s) == Mirror(Blit(MirrorJob(j), late, Mirror(s)))
  {
    MirrorBlit(j, late, s);
    MirrorTwice(Blit(j, late, s));
  }
}
