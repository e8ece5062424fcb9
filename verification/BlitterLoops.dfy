/**
 The loops of blitfunc.cpp in their own form: locals and the fields of `struct bltinfo` updated word by word.
 The minterm's expression and the operands it reads are looked up instead of being written into 22 copies.
 */
module BlitterLoops {
  import opened Minterms
  import opened Blitter
  import opened Numbers
  import Raster = BlitterRaster

  lemma OrIsZero(x: Word, y: Word)
    ensures Or(x, y) == ZERO <==> x == ZERO && y == ZERO
  {
    if Or(x, y) == ZERO {
      forall i | 0 <= i < 16
        ensures !x[i] && !y[i]
      {
        assert !Or(x, y)[i];
      }
    }
  }

  class BlitterUnit {
    var chip: Memory
    var bltadat: Word
    var bltaold: Word
    var bltbdat: Word
    var bltbold: Word
    var bltbhold: Word
    var bltcdat: Word
    var blitzero: bool
    var vblitsize: nat
    var hblitsize: nat
    var bltamod: int
    var bltbmod: int
    var bltcmod: int
    var bltdmod: int
    var bltcon0: int
    var bltcon1: int
    var masktable: seq<Word>

    ghost predicate Ready()
      reads this
    {
      0 <= bltcon0 < 65536 && 0 <= bltcon1 < 65536 && hblitsize <= |masktable|
    }

    ghost function JobOf(mt: Byte, down: bool): (j: Job)
      reads this
      requires Ready()
      ensures JobOk(j)
    {
      Job(mt, down, bltcon0 / 4096, bltcon1 / 4096, bltamod, bltbmod, bltcmod, bltdmod, masktable, hblitsize, vblitsize)
    }

    ghost function Latches(pta: Addr, ptb: Addr, ptc: Addr, ptd: Addr): State
      reads this
    {
      State(Ptrs(pta, ptb, ptc, ptd, 0), bltadat, bltaold, ZERO, bltbdat, bltbold, bltbhold, bltcdat, ZERO, true, chip)
    }

    /** The locals and fields of a loop are the state `s`. */
    ghost predicate Tracks(s: State, p: Ptrs, srca: Word, srcb: Word, srcc: Word, dstd: Word, zero: bool)
      reads this
    {
      s == State(p, bltadat, bltaold, srca, bltbdat, bltbold, srcb, srcc, dstd, zero, chip)
    }

    /** The fields hold the result `s` of a blit. */
    ghost predicate Finished(s: State, wasZero: bool)
      reads this
    {
      chip == s.mem && bltadat == s.adat && bltaold == s.aold && bltbdat == s.bdat && bltbold == s.bold &&
      bltbhold == s.bhold && bltcdat == s.cdat && blitzero == (wasZero && s.zero)
    }

    /** Fetch a C word, if the channel is on. */
    method ReadC(down: bool, srcc0: Word, ptc0: Addr) returns (srcc: Word, ptc: Addr)
      ensures ptc == Next(down, ptc0)
      ensures srcc == if ptc0 == 0 then srcc0 else Get(chip, ptc0)
    {
      srcc, ptc := srcc0, ptc0;
      if ptc != 0 {
        srcc := Get(chip, ptc);
        ptc := (if down then ptc - 2 else ptc + 2) % TWO32;
      }
    }

    /** Fetch and shift a B word, if the channel is on. */
    method ReadB(down: bool, bshift: nat, srcb0: Word, ptb0: Addr) returns (srcb: Word, ptb: Addr)
      requires bshift < 16
      modifies `bltbdat, `bltbold
      ensures ptb == Next(down, ptb0)
      ensures if ptb0 == 0 then srcb == srcb0 && bltbdat == old(bltbdat) && bltbold == old(bltbold)
              else srcb == Barrel(down, bshift, old(bltbold), Get(chip, ptb0)) && bltbdat == bltbold == Get(chip, ptb0)
    {
      srcb, ptb := srcb0, ptb0;
      if ptb != 0 {
        bltbdat := Get(chip, ptb);
        ptb := (if down then ptb - 2 else ptb + 2) % TWO32;
        srcb := if down then LowWord(Shr(bltbdat + bltbold, 16 - bshift)) else LowWord(Shr(bltbold + bltbdat, bshift));
        bltbold := bltbdat;
      }
    }

    /** Fetch an A word if the channel is on; mask and shift whatever is in the data register. */
    method ReadA(down: bool, ashift: nat, mask: Word, pta0: Addr) returns (srca: Word, pta: Addr)
      requires ashift < 16
      modifies `bltadat, `bltaold
      ensures pta == Next(down, pta0)
      ensures bltadat == if pta0 == 0 then old(bltadat) else Get(chip, pta0)
      ensures bltaold == And(bltadat, mask)
      ensures srca == Barrel(down, ashift, old(bltaold), And(bltadat, mask))
    {
      pta := pta0;
      if pta != 0 {
        bltadat := Get(chip, pta);
        pta := (if down then pta - 2 else pta + 2) % TWO32;
      }
      var masked := And(bltadat, mask);
      srca := if down then LowWord(Shr(masked + bltaold, 16 - ashift)) else LowWord(Shr(bltaold + masked, ashift));
      bltaold := masked;
    }

    /** The first half of the inner loop's body: fetch what the minterm needs.  `s` is the state that the locals
        and fields stand for. */
    method FetchWord(ghost s: State, mt: Byte, down: bool, i: nat, p0: Ptrs, srca0: Word, srcb0: Word, srcc0: Word)
      returns (p: Ptrs, srca: Word, srcb: Word, srcc: Word)
      requires Ready() && i < hblitsize
      requires Tracks(s, p0, srca0, srcb0, srcc0, s.dstd, s.zero)
      modifies `bltadat, `bltaold, `bltbdat, `bltbold
      ensures Tracks(Fetch(old(JobOf(mt, down)), true, s, i), p, srca, srcb, srcc, s.dstd, s.zero)
    {
      hide And, Barrel, ReadsA, ReadsB, ReadsC;
      ghost var j := JobOf(mt, down);
      p, srca, srcb, srcc := p0, srca0, srcb0, srcc0;
      var ptr: Addr;
      if ReadsC(mt) {
        srcc, ptr := ReadC(down, srcc, p.c);
        p := p.(c := ptr);
      }
      ghost var s1 := if ReadsC(mt) then FetchC(j, s) else s;
      assert Tracks(s1, p, srca, srcb, srcc, s.dstd, s.zero);
      if ReadsB(mt) {
        srcb, ptr := ReadB(down, bltcon1 / 4096, srcb, p.b);
        p := p.(b := ptr);
      }
      ghost var s2 := if ReadsB(mt) then FetchB(j, s1) else s1;
      assert Tracks(s2, p, srca, srcb, srcc, s.dstd, s.zero);
      if ReadsA(mt) {
        srca, ptr := ReadA(down, bltcon0 / 4096, masktable[i], p.a);
        p := p.(a := ptr);
      }
    }

    /** The second half: write the pending word, then compute the new one. */
    method StoreWord(ghost s: State, mt: Byte, down: bool,
                     p0: Ptrs, srca: Word, srcb: Word, srcc: Word, dstd0: Word, totald0: Word)
      returns (p: Ptrs, dstd: Word, totald: Word)
      requires IsFast(mt) && Ready()
      requires Tracks(s, p0, srca, srcb, srcc, dstd0, totald0 == ZERO)
      modifies `chip
      ensures Tracks(Compute(old(JobOf(mt, down)), Flush(s)), p, srca, srcb, srcc, dstd, totald == ZERO)
    {
      hide Combine, FastCombine, Or, IsFast;
      p := p0;
      if p.last != 0 { chip := Put(chip, p.last, dstd0); }
      dstd := FastCombine(mt, srca, srcb, srcc);
      FastCombineIsCombine(mt, srca, srcb, srcc);
      totald := Or(totald0, dstd);
      OrIsZero(totald0, dstd);
      if p.d != 0 {
        p := p.(last := p.d, d := (if down then p.d - 2 else p.d + 2) % TWO32);
      }
    }

    /** The inner loop. */
    method FastRow(ghost s0: State, mt: Byte, down: bool,
                   p0: Ptrs, srca0: Word, srcb0: Word, srcc0: Word, dstd0: Word, totald0: Word)
      returns (p: Ptrs, srca: Word, srcb: Word, srcc: Word, dstd: Word, totald: Word)
      requires IsFast(mt) && Ready()
      requires Tracks(s0, p0, srca0, srcb0, srcc0, dstd0, totald0 == ZERO)
      modifies `chip, `bltadat, `bltaold, `bltbdat, `bltbold
      ensures Tracks(Words(old(JobOf(mt, down)), true, s0, 0), p, srca, srcb, srcc, dstd, totald == ZERO)
    {
      hide Fetch, Compute, Flush, And, Barrel;
      ghost var j := JobOf(mt, down);
      ghost var s := s0;
      p, srca, srcb, srcc, dstd, totald := p0, srca0, srcb0, srcc0, dstd0, totald0;
      var i := 0;
      while i < hblitsize
        invariant i <= hblitsize
        invariant Tracks(s, p, srca, srcb, srcc, dstd, totald == ZERO)
        invariant Words(j, true, s0, 0) == Words(j, true, s, i)
      {
        p, srca, srcb, srcc := FetchWord(s, mt, down, i, p, srca, srcb, srcc);
        p, dstd, totald := StoreWord(Fetch(j, true, s, i), mt, down, p, srca, srcb, srcc, dstd, totald);
        s := WordStep(j, true, s, i);
        i := i + 1;
      }
    }

    /** The outer loop. */
    method FastRows(ghost s0: State, mt: Byte, down: bool,
                    p0: Ptrs, srca0: Word, srcb0: Word, srcc0: Word, dstd0: Word, totald0: Word)
      returns (p: Ptrs, srca: Word, srcb: Word, srcc: Word, dstd: Word, totald: Word)
      requires IsFast(mt) && Ready()
      requires Tracks(s0, p0, srca0, srcb0, srcc0, dstd0, totald0 == ZERO)
      modifies `chip, `bltadat, `bltaold, `bltbdat, `bltbold
      ensures Tracks(Rows(old(JobOf(mt, down)), true, s0, 0), p, srca, srcb, srcc, dstd, totald == ZERO)
    {
      hide Words, WordStep, RowEnd, IsFast;
      ghost var j := JobOf(mt, down);
      ghost var s := s0;
      p, srca, srcb, srcc, dstd, totald := p0, srca0, srcb0, srcc0, dstd0, totald0;
      var row := 0;
      while row < vblitsize
        invariant row <= vblitsize
        invariant Tracks(s, p, srca, srcb, srcc, dstd, totald == ZERO)
        invariant Rows(j, true, s0, 0) == Rows(j, true, s, row)
      {
        p, srca, srcb, srcc, dstd, totald := FastRow(s, mt, down, p, srca, srcb, srcc, dstd, totald);
        p := NextRow(Words(j, true, s, 0), mt, down, p);
        s := RowEnd(j, true, Words(j, true, s, 0));
        row := row + 1;
      }
    }

    /** blitdofast_* and, counting down, blitdofast_desc_*. */
    method FastBlit(mt: Byte, down: bool, pta: Addr, ptb: Addr, ptc: Addr, ptd: Addr)
      requires IsFast(mt) && Ready()
      modifies `chip, `bltadat, `bltaold, `bltbdat, `bltbold, `bltbhold, `bltcdat, `blitzero
      ensures Finished(Blit(old(JobOf(mt, down)), true, old(Latches(pta, ptb, ptc, ptd))), old(blitzero))
      ensures Raster.ByAddresses(
                Job(mt, down, bltcon0 / 4096, bltcon1 / 4096, bltamod, bltbmod, bltcmod, bltdmod, masktable, hblitsize,
                    vblitsize),
                old(Latches(pta, ptb, ptc, ptd)), chip, old(blitzero), blitzero)
    {
      hide Rows, IsFast, Slot, Raster.ByAddresses;
      ghost var start := Prepare(Latches(pta, ptb, ptc, ptd));
      Raster.LoopIsByAddresses(JobOf(mt, down), Latches(pta, ptb, ptc, ptd), blitzero);
      var p := Ptrs(pta, ptb, ptc, ptd, 0);
      var srca, srcb, srcc, dstd, totald;
      p, srca, srcb, srcc, dstd, totald := FastRows(start, mt, down, p, ZERO, bltbhold, bltcdat, ZERO, ZERO);
      bltbhold := srcb;
      bltcdat := srcc;
      if p.last != 0 { chip := Put(chip, p.last, dstd); }
      if totald != ZERO { blitzero := false; }
    }

    /** Add the modulos at the end of a row, to the channels that are on and in use. */
    method NextRow(ghost s: State, mt: Byte, down: bool, p0: Ptrs) returns (p: Ptrs)
      requires Ready() && s.p == p0
      ensures RowEnd(JobOf(mt, down), true, s) == s.(p := p)
    {
      var Ptrs(pta, ptb, ptc, ptd, dstp) := p0;
      var sign := if down then -1 else 1;
      if ReadsA(mt) && pta != 0 { pta := (pta + sign * bltamod) % TWO32; }
      if ReadsB(mt) && ptb != 0 { ptb := (ptb + sign * bltbmod) % TWO32; }
      if ReadsC(mt) && ptc != 0 { ptc := (ptc + sign * bltcmod) % TWO32; }
      if ptd != 0 { ptd := (ptd + sign * bltdmod) % TWO32; }
      p := Ptrs(pta, ptb, ptc, ptd, dstp);
    }
  }
}
