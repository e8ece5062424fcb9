/**
 A blit told by addresses (blitfunc.cpp:108-183 and so on): which word of memory each channel finds in which row and
 column, and where each D word goes.

 The definitions of this module are a second account of a blit, in closed form: the address of a word is computed from
 its row and column, the shifter and the minterm are described bit by bit, and no pointer is carried along.
 `BlitByAddresses` ties the blit of module Blitter to it, and `LoopByAddresses` the program's loop, which writes late.
 */
module BlitterRaster {
  import opened Minterms
  import opened Blitter
  import opened Numbers

  /** Where a channel that starts at `base` finds its word of row `r` and column `i`: two bytes a word, and the modulo
      for every row.  A channel that starts at zero is off. */
  function Place(down: bool, base: Addr, modulo: int, width: nat, r: nat, i: nat): Addr {
    if base == 0 then 0
    else if down then (base - (2 * (r * width + i) + r * modulo)) % 0x1_0000_0000
    else (base + (2 * (r * width + i) + r * modulo)) % 0x1_0000_0000
  }

  /** The words are numbered along the rows. */
  function PlaceOf(j: Job, base: Addr, modulo: int, t: nat): Addr
    requires j.width > 0
  {
    Place(j.down, base, modulo, j.width, t / j.width, t % j.width)
  }

  /** Sixteen bits of two words, the leftmost `n` of them the last of the older word; counting down, the rightmost `n`
      the first of the older word. */
  function Shifted(down: bool, n: nat, older: Word, newer: Word): Word
    requires n < 16
  {
    seq(16, k requires 0 <= k < 16 =>
      if down then (if k < 16 - n then newer[k + n] else older[k + n - 16])
      else if k < n then older[16 - n + k]
      else newer[k - n])
  }

  /** The word A finds, and what its mask leaves of it. */
  function SourceA(j: Job, s: State, t: nat): Word
    requires JobOk(j) && j.width > 0
    decreases t, 1
  {
    if s.p.a == 0 then s.adat else Image(j, s, t)[PlaceOf(j, s.p.a, j.amod, t) % |s.mem|]
  }

  function MaskedA(j: Job, s: State, t: nat): Word
    requires JobOk(j) && j.width > 0
    decreases t, 2
  {
    seq(16, k requires 0 <= k < 16 => SourceA(j, s, t)[k] && j.mask[t % j.width][k])
  }

  function SourceB(j: Job, s: State, t: nat): Word
    requires JobOk(j) && j.width > 0
    decreases t, 1
  {
    Image(j, s, t)[PlaceOf(j, s.p.b, j.bmod, t) % |s.mem|]
  }

  /** The three operands of word `t`. */
  function OperandA(j: Job, s: State, t: nat): Word
    requires JobOk(j) && j.width > 0
    decreases t, 3
  {
    Shifted(j.down, j.ashift, if t == 0 then s.aold else MaskedA(j, s, t - 1), MaskedA(j, s, t))
  }

  function OperandB(j: Job, s: State, t: nat): Word
    requires JobOk(j) && j.width > 0
    decreases t, 3
  {
    if s.p.b == 0 then s.bhold
    else Shifted(j.down, j.bshift, if t == 0 then s.bold else SourceB(j, s, t - 1), SourceB(j, s, t))
  }

  function OperandC(j: Job, s: State, t: nat): Word
    requires JobOk(j) && j.width > 0
    decreases t, 3
  {
    if s.p.c == 0 then s.cdat else Image(j, s, t)[PlaceOf(j, s.p.c, j.cmod, t) % |s.mem|]
  }

  /** Bit 4A + 2B + C of the minterm byte. */
  predicate Selected(mt: Byte, a: bool, b: bool, c: bool) {
    mt / Pow2((if a then 4 else 0) + (if b then 2 else 0) + (if c then 1 else 0)) % 2 == 1
  }

  function Result(j: Job, s: State, t: nat): Word
    requires JobOk(j) && j.width > 0
    decreases t, 4
  {
    seq(16, k requires 0 <= k < 16 =>
      Selected(j.mt, OperandA(j, s, t)[k], OperandB(j, s, t)[k], OperandC(j, s, t)[k]))
  }

  /** The memory after `t` words. */
  function Image(j: Job, s: State, t: nat): (m: Memory)
    requires JobOk(j) && j.width > 0
    ensures |m| == |s.mem|
    decreases t, 0
  {
    if t == 0 then s.mem
    else if s.p.d == 0 then Image(j, s, t - 1)
    else Image(j, s, t - 1)[PlaceOf(j, s.p.d, j.dmod, t - 1) % |s.mem| := Result(j, s, t - 1)]
  }

  predicate AllZero(j: Job, s: State, t: nat)
    requires JobOk(j) && j.width > 0
  {
    forall u: nat :: u < t ==> Result(j, s, u) == ZERO
  }

  /** A channel that is on does not come by address zero on its way. */
  predicate StaysOn(j: Job, base: Addr, modulo: int) {
    base == 0 ||
    forall r: nat, i: nat :: r < j.height && i <= j.width ==> Place(j.down, base, modulo, j.width, r, i) != 0
  }

  predicate AllStayOn(j: Job, p: Ptrs) {
    StaysOn(j, p.a, j.amod) && StaysOn(j, p.b, j.bmod) && StaysOn(j, p.c, j.cmod) && StaysOn(j, p.d, j.dmod)
  }

  // ----- the pointers of the loop -----

  lemma PlaceNext(j: Job, base: Addr, modulo: int, r: nat, i: nat)
    requires StaysOn(j, base, modulo) && r < j.height && i < j.width
    ensures Next(j.down, Place(j.down, base, modulo, j.width, r, i)) ==
            Place(j.down, base, modulo, j.width, r, i + 1)
  {
    if base != 0 {
      var x, sign := 2 * (r * j.width + i) + r * modulo, if j.down then -1 else 1;
      ModAdd(0x1_0000_0000, if j.down then base - x else base + x, 2 * sign);
    }
  }

  lemma PlaceSkip(j: Job, base: Addr, modulo: int, r: nat)
    requires StaysOn(j, base, modulo) && r < j.height
    ensures Skip(j.down, Place(j.down, base, modulo, j.width, r, j.width), modulo) ==
            Place(j.down, base, modulo, j.width, r + 1, 0)
  {
    if base != 0 {
      var x := 2 * (r * j.width + j.width) + r * modulo;
      NextRowOffset(r, j.width, modulo);
      ModAdd(0x1_0000_0000, if j.down then base - x else base + x, if j.down then -modulo else modulo);
    }
  }

  lemma NextRowOffset(r: nat, width: nat, modulo: int)
    ensures 2 * (r * width + width) + r * modulo + modulo == 2 * ((r + 1) * width + 0) + (r + 1) * modulo
  {
  }

  // ----- bits -----

  lemma ShiftedIs(down: bool, n: nat, older: Word, newer: Word)
    requires n < 16
    ensures Barrel(down, n, older, newer) == Shifted(down, n, older, newer)
  {
  }

  lemma SelectedIs(mt: Byte, a: bool, b: bool, c: bool)
    ensures TruthTable(mt, a, b, c) == Selected(mt, a, b, c)
  {
    assert Pow2(0) == 1;
    assert Pow2(1) == 2;
    assert Pow2(2) == 4;
    assert Pow2(3) == 8;
    assert Pow2(4) == 16;
    assert Pow2(5) == 32;
    assert Pow2(6) == 64;
    assert Pow2(7) == 128;
  }

  // ----- the blit -----

  /** The loop stands before column `i` of row `r`. */
  predicate Stands(j: Job, s0: State, s: State, r: nat, i: nat)
    requires JobOk(j) && j.width > 0
  {
    var t := j.width * r + i;
    s.mem == Image(j, s0, t) && PointersAt(j, s0.p, s.p, r, i) && Written(s) && (s0.p.d == 0 ==> s.p.last == 0) &&
    s.aold == (if t == 0 then s0.aold else MaskedA(j, s0, t - 1)) && (s0.p.a == 0 ==> s.adat == s0.adat) &&
    (if s0.p.b == 0 then s.bhold == s0.bhold
     else s.bold == if t == 0 then s0.bold else SourceB(j, s0, t - 1)) &&
    (s0.p.c == 0 ==> s.cdat == s0.cdat) && (s.zero <==> AllZero(j, s0, t))
  }

  /** Nothing is pending. */
  predicate Written(s: State) { s.p.last == 0 || Get(s.mem, s.p.last) == s.dstd }

  predicate PointersAt(j: Job, p0: Ptrs, p: Ptrs, r: nat, i: nat) {
    p.a == Place(j.down, p0.a, j.amod, j.width, r, i) && p.b == Place(j.down, p0.b, j.bmod, j.width, r, i) &&
    p.c == Place(j.down, p0.c, j.cmod, j.width, r, i) && p.d == Place(j.down, p0.d, j.dmod, j.width, r, i)
  }

  lemma Numbered(j: Job, base: Addr, modulo: int, r: nat, i: nat)
    requires j.width > 0 && i < j.width
    ensures var t := j.width * r + i;
            t % j.width == i && PlaceOf(j, base, modulo, t) == Place(j.down, base, modulo, j.width, r, i)
  {
    DivisionIsUnique(j.width, r, i);
  }

  lemma FetchedA(j: Job, s0: State, s: State, r: nat, i: nat, t: nat)
    requires t == j.width * r + i
    requires JobOk(j) && i < j.width && r < j.height && Stands(j, s0, s, r, i) && AllStayOn(j, s0.p)
    ensures var f := FetchA(j, s, i);
            f.ahold == OperandA(j, s0, t) && f.aold == MaskedA(j, s0, t) && (s0.p.a == 0 ==> f.adat == s0.adat) &&
            f.p.a == Place(j.down, s0.p.a, j.amod, j.width, r, i + 1)
  {
    hide Shifted, Barrel, Image, PlaceOf, Place, Next, AllZero;
    Numbered(j, s0.p.a, j.amod, r, i);
    PlaceNext(j, s0.p.a, j.amod, r, i);
    PlaceOff(j, s0.p.a, j.amod, r, i);
    var w := if s.p.a != 0 then Get(s.mem, s.p.a) else s.adat;
    assert w == SourceA(j, s0, t);
    assert And(w, j.mask[i]) == MaskedA(j, s0, t);
    ShiftedIs(j.down, j.ashift, s.aold, MaskedA(j, s0, t));
  }

  lemma PlaceOff(j: Job, base: Addr, modulo: int, r: nat, i: nat)
    requires StaysOn(j, base, modulo) && r < j.height && i <= j.width
    ensures Place(j.down, base, modulo, j.width, r, i) == 0 <==> base == 0
  {
  }

  lemma FetchedB(j: Job, s0: State, s: State, r: nat, i: nat, t: nat)
    requires t == j.width * r + i
    requires JobOk(j) && i < j.width && r < j.height && Stands(j, s0, s, r, i) && AllStayOn(j, s0.p)
    ensures var f := FetchB(j, s);
            f.bhold == OperandB(j, s0, t) && (s0.p.b != 0 ==> f.bold == SourceB(j, s0, t)) &&
            f.p.b == Place(j.down, s0.p.b, j.bmod, j.width, r, i + 1)
  {
    hide Shifted, Barrel, Image, PlaceOf, Place, Next, AllZero, MaskedA;
    Numbered(j, s0.p.b, j.bmod, r, i);
    PlaceNext(j, s0.p.b, j.bmod, r, i);
    PlaceOff(j, s0.p.b, j.bmod, r, i);
    PlaceOff(j, s0.p.b, j.bmod, r, i + 1);
    if s0.p.b != 0 { ShiftedIs(j.down, j.bshift, s.bold, Get(s.mem, s.p.b)); }
  }

  lemma FetchedC(j: Job, s0: State, s: State, r: nat, i: nat, t: nat)
    requires t == j.width * r + i
    requires JobOk(j) && i < j.width && r < j.height && Stands(j, s0, s, r, i) && AllStayOn(j, s0.p)
    ensures var f := FetchC(j, s);
            f.cdat == OperandC(j, s0, t) && f.p.c == Place(j.down, s0.p.c, j.cmod, j.width, r, i + 1)
  {
    hide Image, PlaceOf, Place, Next, AllZero, MaskedA;
    Numbered(j, s0.p.c, j.cmod, r, i);
    PlaceNext(j, s0.p.c, j.cmod, r, i);
    PlaceOff(j, s0.p.c, j.cmod, r, i);
    PlaceOff(j, s0.p.c, j.cmod, r, i + 1);
  }

  /** The three fetches do not disturb each other. */
  lemma Fetched(j: Job, s: State, i: nat)
    requires JobOk(j) && i < j.width
    ensures var f := Fetch(j, false, s, i);
            SameA(FetchA(j, s, i), f) && SameB(FetchB(j, s), f) && SameC(FetchC(j, s), f) && SameElsewhere(s, f)
  {
    hide And, Barrel, Next, Get;
  }

  lemma CombinedIs(mt: Byte, a: Word, b: Word, c: Word)
    ensures Combine(mt, a, b, c) == seq(16, k requires 0 <= k < 16 => Selected(mt, a[k], b[k], c[k]))
  {
    hide Selected, TruthTable;
    forall k | 0 <= k < 16 ensures TruthTable(mt, a[k], b[k], c[k]) == Selected(mt, a[k], b[k], c[k]) {
      SelectedIs(mt, a[k], b[k], c[k]);
    }
  }

  lemma OutputStaysOn(j: Job, p: Ptrs)
    requires AllStayOn(j, p)
    ensures StaysOn(j, p.d, j.dmod)
  {
  }

  lemma OffOperands(j: Job, s: State, t: nat)
    requires JobOk(j) && j.width > 0
    ensures s.p.b == 0 ==> OperandB(j, s, t) == s.bhold
    ensures s.p.c == 0 ==> OperandC(j, s, t) == s.cdat
  {
  }

  lemma WordStands(j: Job, s0: State, s: State, r: nat, i: nat)
    requires JobOk(j) && i < j.width && r < j.height && Stands(j, s0, s, r, i) && AllStayOn(j, s0.p)
    ensures Stands(j, s0, WordStep(j, false, s, i), r, i + 1)
  {
    hide Fetch, FetchA, FetchB, FetchC, OperandA, OperandB, OperandC, MaskedA, SourceB, Place, PlaceOf, Next, Combine,
         Selected, AllStayOn, AllZero;
    OutputStaysOn(j, s0.p);
    var t := j.width * r + i;
    FetchedA(j, s0, s, r, i, t);
    FetchedB(j, s0, s, r, i, t);
    FetchedC(j, s0, s, r, i, t);
    Fetched(j, s, i);
    var f := Fetch(j, false, s, i);
    CombinedIs(j.mt, f.ahold, f.bhold, f.cdat);
    assert Combine(j.mt, f.ahold, f.bhold, f.cdat) == Result(j, s0, t);
    OneMoreZero(j, s0, t);
    Numbered(j, s0.p.d, j.dmod, r, i);
    PlaceNext(j, s0.p.d, j.dmod, r, i);
    PlaceOff(j, s0.p.d, j.dmod, r, i);
    PlaceOff(j, s0.p.d, j.dmod, r, i + 1);
    OffOperands(j, s0, t);
  }

  lemma OneMoreZero(j: Job, s: State, t: nat)
    requires JobOk(j) && j.width > 0
    ensures AllZero(j, s, t + 1) <==> AllZero(j, s, t) && Result(j, s, t) == ZERO
  {
    hide Result;
  }

  lemma {:induction false} WordsStand(j: Job, s0: State, s: State, r: nat, i: nat)
    requires JobOk(j) && i <= j.width && 0 < j.width && r < j.height && Stands(j, s0, s, r, i) && AllStayOn(j, s0.p)
    ensures Stands(j, s0, Words(j, false, s, i), r, j.width)
    decreases j.width - i
  {
    hide Stands, WordStep, AllStayOn;
    if i < j.width {
      WordStands(j, s0, s, r, i);
      WordsStand(j, s0, WordStep(j, false, s, i), r, i + 1);
    }
  }

  lemma RowStands(j: Job, s0: State, s: State, r: nat)
    requires JobOk(j) && 0 < j.width && r < j.height && Stands(j, s0, s, r, j.width) && AllStayOn(j, s0.p)
    ensures Stands(j, s0, RowEnd(j, false, s), r + 1, 0)
  {
    hide Place, Skip, AllZero, Image, MaskedA, SourceB;
    PlaceSkip(j, s0.p.a, j.amod, r);
    PlaceSkip(j, s0.p.b, j.bmod, r);
    PlaceSkip(j, s0.p.c, j.cmod, r);
    PlaceSkip(j, s0.p.d, j.dmod, r);
    assert j.width * r + j.width == j.width * (r + 1) + 0;
  }

  lemma {:induction false} RowsStand(j: Job, s0: State, s: State, r: nat)
    requires JobOk(j) && 0 < j.width && r <= j.height && Stands(j, s0, s, r, 0) && AllStayOn(j, s0.p)
    ensures Stands(j, s0, Rows(j, false, s, r), j.height, 0)
    decreases j.height - r
  {
    hide Stands, Words, RowEnd, AllStayOn;
    if r < j.height {
      WordsStand(j, s0, s, r, 0);
      RowStands(j, s0, Words(j, false, s, 0), r);
      RowsStand(j, s0, RowEnd(j, false, Words(j, false, s, 0)), r + 1);
    }
  }

  lemma {:induction false} EmptyRows(j: Job, s: State, row: nat)
    requires JobOk(j) && j.width == 0 && row <= j.height
    ensures var t := Rows(j, false, s, row); t.mem == s.mem && t.zero == s.zero && t.p.last == s.p.last
    decreases j.height - row
  {
    hide Skip;
    if row < j.height { EmptyRows(j, RowEnd(j, false, Words(j, false, s, 0)), row + 1); }
  }

  lemma StandsFirst(j: Job, s: State)
    requires JobOk(j) && j.width > 0
    ensures Stands(j, s, Prepare(s), 0, 0)
  {
    PlaceFirst(j.down, s.p.a, j.amod, j.width);
    PlaceFirst(j.down, s.p.b, j.bmod, j.width);
    PlaceFirst(j.down, s.p.c, j.cmod, j.width);
    PlaceFirst(j.down, s.p.d, j.dmod, j.width);
  }

  lemma PlaceFirst(down: bool, base: Addr, modulo: int, width: nat)
    ensures Place(down, base, modulo, width, 0, 0) == base
  {
  }

  lemma FlushWritten(s: State)
    requires Written(s)
    ensures Flush(s).mem == s.mem && Flush(s).zero == s.zero
  {
  }

  /** The blit that writes each word at once. */
  lemma BlitByAddresses(j: Job, s: State)
    requires JobOk(j) && AllStayOn(j, s.p)
    ensures var b := Blit(j, false, s);
            if j.width == 0 then b.mem == s.mem && b.zero
            else b.mem == Image(j, s, j.width * j.height) && (b.zero <==> AllZero(j, s, j.width * j.height))
  {
    hide Rows, AllStayOn;
    if j.width == 0 {
      EmptyRows(j, Prepare(s), 0);
    } else {
      hide Stands, Place;
      StandsFirst(j, s);
      RowsStand(j, s, Prepare(s), 0);
      var t := Rows(j, false, Prepare(s), 0);
      StandsLast(j, s, t);
      FlushWritten(t);
    }
  }

  lemma StandsLast(j: Job, s0: State, t: State)
    requires JobOk(j) && j.width > 0 && Stands(j, s0, t, j.height, 0)
    ensures Written(t) && t.mem == Image(j, s0, j.width * j.height)
    ensures t.zero <==> AllZero(j, s0, j.width * j.height)
  {
  }

  // ----- the loop that writes late -----

  /** Word `t` is not fetched from where word `t` - 1 goes, in a memory of `n` words. */
  predicate Misses(j: Job, n: nat, d: Addr, base: Addr, modulo: int, t: nat)
    requires j.width > 0 && n > 0
  {
    base == 0 || d == 0 || t == 0 || PlaceOf(j, base, modulo, t) % n != PlaceOf(j, d, j.dmod, t - 1) % n
  }

  /** No channel that the minterm needs fetches from the address of the D word just computed. */
  predicate NoneMeets(j: Job, n: nat, p: Ptrs)
    requires j.width > 0 && n > 0
  {
    forall t: nat :: t < j.width * j.height ==>
      (ReadsA(j.mt) ==> Misses(j, n, p.d, p.a, j.amod, t)) && (ReadsB(j.mt) ==> Misses(j, n, p.d, p.b, j.bmod, t)) &&
      (ReadsC(j.mt) ==> Misses(j, n, p.d, p.c, j.cmod, t))
  }

  /** The pointers before column `i` of row `r`. */
  predicate Visits(j: Job, p0: Ptrs, p: Ptrs, r: nat, i: nat)
    requires j.width > 0
  {
    var t := j.width * r + i;
    PointersAt(j, p0, p, r, i) && p.last == if t == 0 then 0 else PlaceOf(j, p0.d, j.dmod, t - 1)
  }

  lemma VisitsNext(j: Job, p0: Ptrs, p: Ptrs, r: nat, i: nat)
    requires i < j.width && r < j.height && Visits(j, p0, p, r, i) && AllStayOn(j, p0)
    ensures Visits(j, p0, PtrsAfterWord(j, p), r, i + 1)
  {
    hide Place, PlaceOf, Next, StaysOn;
    PlaceNext(j, p0.a, j.amod, r, i);
    PlaceNext(j, p0.b, j.bmod, r, i);
    PlaceNext(j, p0.c, j.cmod, r, i);
    PlaceNext(j, p0.d, j.dmod, r, i);
    PlaceOff(j, p0.d, j.dmod, r, i);
    Numbered(j, p0.d, j.dmod, r, i);
    if p0.d == 0 { OffIsZero(j, j.dmod, j.width * r + i - 1); }
  }

  lemma OffIsZero(j: Job, modulo: int, t: int)
    requires j.width > 0
    ensures t >= 0 ==> PlaceOf(j, 0, modulo, t) == 0
  {
  }

  lemma VisitsRow(j: Job, p0: Ptrs, p: Ptrs, r: nat)
    requires j.width > 0 && r < j.height && Visits(j, p0, p, r, j.width) && AllStayOn(j, p0)
    ensures Visits(j, p0, PtrsAfterRow(j, p), r + 1, 0)
  {
    hide Place, PlaceOf, Skip, StaysOn;
    PlaceSkip(j, p0.a, j.amod, r);
    PlaceSkip(j, p0.b, j.bmod, r);
    PlaceSkip(j, p0.c, j.cmod, r);
    PlaceSkip(j, p0.d, j.dmod, r);
    assert j.width * r + j.width == j.width * (r + 1) + 0;
  }

  lemma ApartHere(j: Job, n: nat, p0: Ptrs, p: Ptrs, r: nat, i: nat)
    requires i < j.width && r < j.height && n > 0 && Visits(j, p0, p, r, i) && AllStayOn(j, p0) && NoneMeets(j, n, p0)
    ensures Clear(Read(j.mt), n, p)
  {
    hide Place, PlaceOf, StaysOn, ReadsA, ReadsB, ReadsC;
    Below(j.height, j.width, r, i);
    Numbered(j, p0.a, j.amod, r, i);
    Numbered(j, p0.b, j.bmod, r, i);
    Numbered(j, p0.c, j.cmod, r, i);
    PlaceOff(j, p0.a, j.amod, r, i);
    PlaceOff(j, p0.b, j.bmod, r, i);
    PlaceOff(j, p0.c, j.cmod, r, i);
    if p0.d == 0 { OffIsZero(j, j.dmod, j.width * r + i - 1); }
    var t := j.width * r + i;
    assert t < j.width * j.height;
    assert ReadsA(j.mt) ==> Misses(j, n, p0.d, p0.a, j.amod, t);
    assert ReadsB(j.mt) ==> Misses(j, n, p0.d, p0.b, j.bmod, t);
    assert ReadsC(j.mt) ==> Misses(j, n, p0.d, p0.c, j.cmod, t);
  }

  lemma {:induction false} WordsClear(j: Job, n: nat, p0: Ptrs, p: Ptrs, r: nat, i: nat)
    requires 0 < j.width && i <= j.width && r < j.height && n > 0 && Visits(j, p0, p, r, i) && AllStayOn(j, p0)
    requires NoneMeets(j, n, p0)
    ensures ClearWords(Read(j.mt), j, n, p, i) && Visits(j, p0, PtrsAfterWords(j, p, i), r, j.width)
    decreases j.width - i
  {
    hide Visits, AllStayOn, NoneMeets, Clear, PtrsAfterWord;
    if i < j.width {
      ApartHere(j, n, p0, p, r, i);
      VisitsNext(j, p0, p, r, i);
      WordsClear(j, n, p0, PtrsAfterWord(j, p), r, i + 1);
    }
  }

  lemma {:induction false} RowsClear(j: Job, n: nat, p0: Ptrs, p: Ptrs, r: nat)
    requires 0 < j.width && r <= j.height && n > 0 && Visits(j, p0, p, r, 0) && AllStayOn(j, p0) && NoneMeets(j, n, p0)
    ensures ClearRows(Read(j.mt), j, n, p, r)
    decreases j.height - r
  {
    hide Visits, AllStayOn, NoneMeets, ClearWords, PtrsAfterWords, PtrsAfterRow;
    if r < j.height {
      WordsClear(j, n, p0, p, r, 0);
      VisitsRow(j, p0, PtrsAfterWords(j, p, 0), r);
      RowsClear(j, n, p0, PtrsAfterRow(j, PtrsAfterWords(j, p, 0)), r + 1);
    }
  }

  lemma VisitsFirst(j: Job, p: Ptrs)
    requires j.width > 0
    ensures Visits(j, p, p.(last := 0), 0, 0)
  {
    PlaceFirst(j.down, p.a, j.amod, j.width);
    PlaceFirst(j.down, p.b, j.bmod, j.width);
    PlaceFirst(j.down, p.c, j.cmod, j.width);
    PlaceFirst(j.down, p.d, j.dmod, j.width);
  }

  /** The program's loop, which writes one word late, when no fetch meets the word that is pending. */
  lemma LoopByAddresses(j: Job, s: State)
    requires JobOk(j) && IsFast(j.mt) && j.width > 0 && AllStayOn(j, s.p) && NoneMeets(j, |s.mem|, s.p)
    ensures var b := Blit(j, true, s);
            b.mem == Image(j, s, j.width * j.height) && (b.zero <==> AllZero(j, s, j.width * j.height))
  {
    hide IsFast, AllStayOn, NoneMeets, Visits, Blit, ClearRows, Image, AllZero;
    VisitsFirst(j, s.p);
    RowsClear(j, |s.mem|, s.p, s.p.(last := 0), 0);
    LateIsImmediate(j, s);
    BlitByAddresses(j, s);
  }

  /** What is known of memory and zero flag in closed form; the flag was `was` before. */
  predicate ByAddresses(j: Job, s: State, mem: Memory, was: bool, zero: bool)
    requires JobOk(j)
  {
    j.width > 0 && AllStayOn(j, s.p) && NoneMeets(j, |s.mem|, s.p) ==>
      mem == Image(j, s, j.width * j.height) && (zero <==> was && AllZero(j, s, j.width * j.height))
  }

  lemma LoopIsByAddresses(j: Job, s: State, was: bool)
    requires JobOk(j) && IsFast(j.mt)
    ensures ByAddresses(j, s, Blit(j, true, s).mem, was, was && Blit(j, true, s).zero)
  {
    hide IsFast, AllStayOn, NoneMeets, Image, AllZero, Blit;
    if j.width > 0 && AllStayOn(j, s.p) && NoneMeets(j, |s.mem|, s.p) { LoopByAddresses(j, s); }
  }
}
