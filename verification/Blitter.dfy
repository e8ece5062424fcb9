/**
 The blitter's fast loops (blitfunc.cpp), as one ascending and one descending loop over a minterm byte.

 A blit reads up to three word streams, masks A, shifts A and B across word and row boundaries, combines
 them with a boolean function and writes D.  The loops write each D word only after the next word's
 fetches.  `Blit` describes both orders: `late` is the program's order; otherwise every channel
 is fetched, whether the minterm needs it or not, and each D word is written at once.  `LateIsImmediate`
 says when the two agree.
 */
module Blitter {
  import opened Minterms
  import opened Numbers

  type Word = w: seq<bool> | |w| == 16 witness seq(16, _ => false)  // bit 15 first

  type Addr = n: int | 0 <= n < TWO32

  const ZERO: Word := [false, false, false, false, false, false, false, false,
                       false, false, false, false, false, false, false, false]

  // ----- words -----

  function And(x: Word, y: Word): Word { seq(16, i requires 0 <= i < 16 => x[i] && y[i]) }

  function Or(x: Word, y: Word): Word { seq(16, i requires 0 <= i < 16 => x[i] || y[i]) }

  function Shr(x: seq<bool>, n: nat): (r: seq<bool>)
    requires n <= |x|
    ensures |r| == |x|
  {
    seq(n, _ => false) + x[..|x| - n]
  }

  function LowWord(x: seq<bool>): Word
    requires |x| == 32
  {
    x[16..]
  }

  /** The barrel shifter: 32 bits made of the previous and the current word, shifted right. */
  function Barrel(down: bool, shift: nat, older: Word, newer: Word): Word
    requires shift < 16
  {
    if down then LowWord(Shr(newer + older, 16 - shift)) else LowWord(Shr(older + newer, shift))
  }

  /** The D word: the truth table applied at every bit position. */
  function Combine(mt: Byte, a: Word, b: Word, c: Word): Word {
    seq(16, i requires 0 <= i < 16 => TruthTable(mt, a[i], b[i], c[i]))
  }

  function FastCombine(mt: Byte, a: Word, b: Word, c: Word): Word
    requires IsFast(mt)
  {
    seq(16, i requires 0 <= i < 16 => FastTerm(a[i], b[i], c[i], mt))
  }

  lemma FastCombineIsCombine(mt: Byte, a: Word, b: Word, c: Word)
    requires IsFast(mt)
    ensures FastCombine(mt, a, b, c) == Combine(mt, a, b, c)
  {
    forall i | 0 <= i < 16
      ensures FastTerm(a[i], b[i], c[i], mt) == TruthTable(mt, a[i], b[i], c[i])
    {
      FastTermIsTruthTable(a[i], b[i], c[i], mt);
    }
  }

  // ----- addresses and memory: slot k holds the word at chip address k -----

  type Memory = m: seq<Word> | |m| > 0 witness [ZERO]

  function Slot(m: Memory, p: Addr): nat { p % |m| }

  function Get(m: Memory, p: Addr): Word { m[Slot(m, p)] }

  function Put(m: Memory, p: Addr, w: Word): Memory { m[Slot(m, p) := w] }

  /** A pointer of zero is a channel switched off. */
  function Next(down: bool, p: Addr): Addr {
    if p == 0 then 0 else (if down then p - 2 else p + 2) % TWO32
  }

  function Skip(down: bool, p: Addr, modulo: int): Addr {
    if p == 0 then 0 else (if down then p - modulo else p + modulo) % TWO32
  }

  // ----- one blit -----

  /** The fixed part: registers and the first `width` entries of the mask table. */
  datatype Job = Job(mt: Byte, down: bool, ashift: nat, bshift: nat, amod: int, bmod: int, cmod: int, dmod: int,
                     mask: seq<Word>, width: nat, height: nat)

  predicate JobOk(j: Job) { j.ashift < 16 && j.bshift < 16 && |j.mask| >= j.width }

  /** Channel pointers, and the address the latest D word belongs to. */
  datatype Ptrs = Ptrs(a: Addr, b: Addr, c: Addr, d: Addr, last: Addr)

  datatype State = State(p: Ptrs, adat: Word, aold: Word, ahold: Word, bdat: Word, bold: Word, bhold: Word,
                         cdat: Word, dstd: Word, zero: bool, mem: Memory)

  function FetchA(j: Job, s: State, i: nat): State
    requires JobOk(j) && i < j.width
  {
    var adat := if s.p.a != 0 then Get(s.mem, s.p.a) else s.adat;
    var masked := And(adat, j.mask[i]);
    var p := s.p.(a := Next(j.down, s.p.a));
    s.(p := p, adat := adat, ahold := Barrel(j.down, j.ashift, s.aold, masked), aold := masked)
  }

  function FetchB(j: Job, s: State): State
    requires JobOk(j)
  {
    if s.p.b == 0 then s
    else
      var bdat := Get(s.mem, s.p.b);
      var p := s.p.(b := Next(j.down, s.p.b));
      s.(p := p, bdat := bdat, bhold := Barrel(j.down, j.bshift, s.bold, bdat), bold := bdat)
  }

  function FetchC(j: Job, s: State): State {
    if s.p.c == 0 then s
    else
      var p := s.p.(c := Next(j.down, s.p.c));
      s.(p := p, cdat := Get(s.mem, s.p.c))
  }

  function Fetch(j: Job, late: bool, s: State, i: nat): State
    requires JobOk(j) && i < j.width
  {
    var s1 := if late && !ReadsC(j.mt) then s else FetchC(j, s);
    var s2 := if late && !ReadsB(j.mt) then s1 else FetchB(j, s1);
    if late && !ReadsA(j.mt) then s2 else FetchA(j, s2, i)
  }

  /** Write the latest D word to its address. */
  function Flush(s: State): State {
    if s.p.last == 0 then s else s.(mem := Put(s.mem, s.p.last, s.dstd))
  }

  /** The D pointer becomes the address of the word just computed, and moves on. */
  function Launch(down: bool, p: Ptrs): Ptrs {
    if p.d == 0 then p else Ptrs(p.a, p.b, p.c, Next(down, p.d), p.d)
  }

  function Compute(j: Job, s: State): State {
    var word := Combine(j.mt, s.ahold, s.bhold, s.cdat);
    s.(p := Launch(j.down, s.p), dstd := word, zero := s.zero && word == ZERO)
  }

  /** One word: the pending D word is written before the new one is computed, or each at once. */
  function WordStep(j: Job, late: bool, s: State, i: nat): State
    requires JobOk(j) && i < j.width
  {
    var f := Fetch(j, late, s, i);
    if late then Compute(j, Flush(f)) else Flush(Compute(j, f))
  }

  function RowEnd(j: Job, late: bool, s: State): State {
    var p := s.p.(
      a := if late && !ReadsA(j.mt) then s.p.a else Skip(j.down, s.p.a, j.amod),
      b := if late && !ReadsB(j.mt) then s.p.b else Skip(j.down, s.p.b, j.bmod),
      c := if late && !ReadsC(j.mt) then s.p.c else Skip(j.down, s.p.c, j.cmod),
      d := Skip(j.down, s.p.d, j.dmod));
    s.(p := p)
  }

  /** The words from column `i` to the end of the row. */
  function Words(j: Job, late: bool, s: State, i: nat): State
    requires JobOk(j) && i <= j.width
    decreases j.width - i
  {
    if i == j.width then s else Words(j, late, WordStep(j, late, s, i), i + 1)
  }

  /** The rows from `row` to the end of the blit. */
  function Rows(j: Job, late: bool, s: State, row: nat): State
    requires JobOk(j) && row <= j.height
    decreases j.height - row
  {
    if row == j.height then s else Rows(j, late, RowEnd(j, late, Words(j, late, s, 0)), row + 1)
  }

  /** A whole blit: nothing is pending before the first word, and nothing after the last. */
  function Blit(j: Job, late: bool, s: State): State
    requires JobOk(j)
  {
    Flush(Rows(j, late, Prepare(s), 0))
  }

  function Prepare(s: State): State {
    var p := s.p.(last := 0);
    s.(p := p, ahold := ZERO, dstd := ZERO, zero := true)
  }

  // ----- writing late -----

  /** A fetch through `p` does not touch the word at `last`, whose write is still pending. */
  predicate Apart(n: nat, p: Addr, last: Addr)
    requires n > 0
  {
    last == 0 || p == 0 || p % n != last % n
  }

  /** The source channels under watch. */
  datatype Watch = Watch(a: bool, b: bool, c: bool)

  function Read(mt: Byte): Watch { Watch(ReadsA(mt), ReadsB(mt), ReadsC(mt)) }

  predicate Clear(w: Watch, n: nat, p: Ptrs)
    requires n > 0
  {
    (w.a ==> Apart(n, p.a, p.last)) && (w.b ==> Apart(n, p.b, p.last)) && (w.c ==> Apart(n, p.c, p.last))
  }

  function PtrsAfterWord(j: Job, p: Ptrs): Ptrs {
    Ptrs(Next(j.down, p.a), Next(j.down, p.b), Next(j.down, p.c), Next(j.down, p.d), if p.d == 0 then p.last else p.d)
  }

  function PtrsAfterRow(j: Job, p: Ptrs): Ptrs {
    Ptrs(Skip(j.down, p.a, j.amod), Skip(j.down, p.b, j.bmod), Skip(j.down, p.c, j.cmod), Skip(j.down, p.d, j.dmod),
         p.last)
  }

  function PtrsAfterWords(j: Job, p: Ptrs, i: nat): Ptrs
    requires i <= j.width
    decreases j.width - i
  {
    if i == j.width then p else PtrsAfterWords(j, PtrsAfterWord(j, p), i + 1)
  }

  /** `Clear` at every word of the rest of the row.  Only the pointers matter, so this can be known before the blit. */
  predicate ClearWords(w: Watch, j: Job, n: nat, p: Ptrs, i: nat)
    requires n > 0 && i <= j.width
    decreases j.width - i
  {
    i == j.width || (Clear(w, n, p) && ClearWords(w, j, n, PtrsAfterWord(j, p), i + 1))
  }

  predicate ClearRows(w: Watch, j: Job, n: nat, p: Ptrs, row: nat)
    requires n > 0 && row <= j.height
    decreases j.height - row
  {
    row == j.height ||
    (ClearWords(w, j, n, p, 0) && ClearRows(w, j, n, PtrsAfterRow(j, PtrsAfterWords(j, p, 0)), row + 1))
  }

  /** Same latches on every channel the minterm needs, same pending word, same memory once it is written. */
  predicate Agree(j: Job, s: State, t: State) {
    t.mem == Flush(s).mem && t.dstd == s.dstd && t.zero == s.zero && t.p.d == s.p.d && t.p.last == s.p.last &&
    AgreeOnLatches(j, s, t)
  }

  predicate AgreeOnLatches(j: Job, s: State, t: State) {
    AgreeOnA(j, s, t) && AgreeOnB(j, s, t) && AgreeOnC(j, s, t)
  }

  /** A fetch through `p` finds what the immediate blit would find: it is apart from the pending word, or that word is
      already there. */
  predicate Sees(s: State, p: Addr) { Apart(|s.mem|, p, s.p.last) || Get(s.mem, p) == s.dstd }

  /** So does every fetch the loop is about to make. */
  predicate Harmless(j: Job, s: State) {
    (ReadsA(j.mt) ==> Sees(s, s.p.a)) && (ReadsB(j.mt) ==> Sees(s, s.p.b)) && (ReadsC(j.mt) ==> Sees(s, s.p.c))
  }

  lemma GetBehindPending(s: State, p: Addr)
    requires p != 0
    ensures Get(Flush(s).mem, p) == Get(s.mem, p) <==> Sees(s, p)
  {
  }

  predicate AgreeOnA(j: Job, s: State, t: State) {
    ReadsA(j.mt) ==> t.p.a == s.p.a && t.adat == s.adat && t.aold == s.aold && t.ahold == s.ahold
  }

  predicate AgreeOnB(j: Job, s: State, t: State) {
    ReadsB(j.mt) ==> t.p.b == s.p.b && t.bdat == s.bdat && t.bold == s.bold && t.bhold == s.bhold
  }

  predicate AgreeOnC(j: Job, s: State, t: State) { ReadsC(j.mt) ==> t.p.c == s.p.c && t.cdat == s.cdat }

  lemma FetchAAgrees(j: Job, s: State, t: State, i: nat)
    requires JobOk(j) && i < j.width && t.mem == Flush(s).mem && AgreeOnA(j, s, t)
    ensures AgreeOnA(j, if ReadsA(j.mt) then FetchA(j, s, i) else s, FetchA(j, t, i)) <==>
            (ReadsA(j.mt) ==> Sees(s, s.p.a))
  {
    hide And, Barrel, Sees, Get, Flush;
    if ReadsA(j.mt) {
      if s.p.a != 0 { GetBehindPending(s, s.p.a); } else { assert Sees(s, s.p.a) by { SeesNothing(s); } }
    }
  }

  lemma SeesNothing(s: State)
    ensures Sees(s, 0)
  {
  }

  lemma FetchBAgrees(j: Job, s: State, t: State)
    requires JobOk(j) && t.mem == Flush(s).mem && AgreeOnB(j, s, t)
    ensures AgreeOnB(j, if ReadsB(j.mt) then FetchB(j, s) else s, FetchB(j, t)) <==>
            (ReadsB(j.mt) ==> Sees(s, s.p.b))
  {
    hide Barrel, Sees, Get, Flush;
    if ReadsB(j.mt) {
      if s.p.b != 0 { GetBehindPending(s, s.p.b); } else { SeesNothing(s); }
    }
  }

  lemma FetchCAgrees(j: Job, s: State, t: State)
    requires t.mem == Flush(s).mem && AgreeOnC(j, s, t)
    ensures AgreeOnC(j, if ReadsC(j.mt) then FetchC(j, s) else s, FetchC(j, t)) <==>
            (ReadsC(j.mt) ==> Sees(s, s.p.c))
  {
    hide Sees, Get, Flush;
    if ReadsC(j.mt) {
      if s.p.c != 0 { GetBehindPending(s, s.p.c); } else { SeesNothing(s); }
    }
  }

  /** What a fetch leaves alone. */
  predicate SameElsewhere(s: State, f: State) {
    f.mem == s.mem && f.dstd == s.dstd && f.zero == s.zero && f.p.d == s.p.d && f.p.last == s.p.last
  }

  lemma FetchKeeps(j: Job, late: bool, s: State, i: nat)
    requires JobOk(j) && i < j.width
    ensures SameElsewhere(s, Fetch(j, late, s, i))
  {
  }

  predicate SameA(s: State, f: State) {
    f.p.a == s.p.a && f.adat == s.adat && f.aold == s.aold && f.ahold == s.ahold
  }

  predicate SameB(s: State, f: State) {
    f.p.b == s.p.b && f.bdat == s.bdat && f.bold == s.bold && f.bhold == s.bhold
  }

  predicate SameC(s: State, f: State) { f.p.c == s.p.c && f.cdat == s.cdat }

  lemma FetchAKeeps(j: Job, s: State, i: nat)
    requires JobOk(j) && i < j.width
    ensures var f := FetchA(j, s, i); SameElsewhere(s, f) && SameB(s, f) && SameC(s, f)
  {
  }

  lemma FetchBKeeps(j: Job, s: State)
    requires JobOk(j)
    ensures var f := FetchB(j, s); SameElsewhere(s, f) && SameA(s, f) && SameC(s, f)
  {
  }

  lemma FetchCKeeps(j: Job, s: State)
    ensures var f := FetchC(j, s); SameElsewhere(s, f) && SameA(s, f) && SameB(s, f)
  {
  }

  lemma FetchedLatches(j: Job, s: State, t: State, i: nat)
    requires JobOk(j) && i < j.width && Agree(j, s, t)
    ensures AgreeOnLatches(j, Fetch(j, true, s, i), Fetch(j, false, t, i)) <==> Harmless(j, s)
  {
    hide Sees, Flush, ReadsA, ReadsB, ReadsC, FetchA, FetchB, FetchC;
    FetchCAgrees(j, s, t);
    FetchCKeeps(j, s);
    FetchCKeeps(j, t);
    var s1, t1 := if ReadsC(j.mt) then FetchC(j, s) else s, FetchC(j, t);
    FetchBAgrees(j, s1, t1) by { SameFlush(s, s1); }
    var s2, t2 := if ReadsB(j.mt) then FetchB(j, s1) else s1, FetchB(j, t1);
    FetchBKeeps(j, s1);
    FetchBKeeps(j, t1);
    FetchAAgrees(j, s2, t2, i) by { SameFlush(s, s2); }
    FetchAKeeps(j, s2, i);
    FetchAKeeps(j, t2, i);
    SameSees(s, s1, s.p.b);
    SameSees(s, s2, s.p.a);
  }

  /** The fetches of one word: same latches exactly if no fetch meets a pending word that differs from what is in
      memory. */
  lemma FetchAgrees(j: Job, s: State, t: State, i: nat)
    requires JobOk(j) && i < j.width && Agree(j, s, t)
    ensures AgreeOnLatches(j, Fetch(j, true, s, i), Fetch(j, false, t, i)) <==> Harmless(j, s)
    ensures Harmless(j, s) ==> Agree(j, Fetch(j, true, s, i), Fetch(j, false, t, i))
  {
    hide Harmless, Fetch, Flush, AgreeOnLatches;
    FetchedLatches(j, s, t, i);
    FetchKeeps(j, true, s, i);
    FetchKeeps(j, false, t, i);
    SameFlush(s, Fetch(j, true, s, i));
  }

  lemma SameFlush(s: State, f: State)
    requires SameElsewhere(s, f)
    ensures Flush(f).mem == Flush(s).mem
  {
  }

  lemma SameSees(s: State, f: State, p: Addr)
    requires SameElsewhere(s, f)
    ensures Sees(f, p) == Sees(s, p)
  {
  }

  /** D does not depend on the latches that may differ. */
  lemma CombineIgnoresUnread(j: Job, s: State, t: State)
    requires IsFast(j.mt) && AgreeOnLatches(j, s, t)
    ensures Combine(j.mt, s.ahold, s.bhold, s.cdat) == Combine(j.mt, t.ahold, t.bhold, t.cdat)
  {
    forall i | 0 <= i < 16
      ensures TruthTable(j.mt, s.ahold[i], s.bhold[i], s.cdat[i]) == TruthTable(j.mt, t.ahold[i], t.bhold[i], t.cdat[i])
    {
      BitIgnoresUnread(j.mt, s.ahold[i], s.bhold[i], s.cdat[i], t.ahold[i], t.bhold[i], t.cdat[i]);
    }
  }

  lemma BitIgnoresUnread(mt: Byte, a: bool, b: bool, c: bool, a2: bool, b2: bool, c2: bool)
    requires IsFast(mt)
    requires (ReadsA(mt) ==> a == a2) && (ReadsB(mt) ==> b == b2) && (ReadsC(mt) ==> c == c2)
    ensures TruthTable(mt, a, b, c) == TruthTable(mt, a2, b2, c2)
  {
    hide TruthTable, ReadsA, ReadsB, ReadsC, IsFast;
    UnreadIsIrrelevant(mt);
    assert !ReadsA(mt) ==> SameForA(mt, b, c);
    assert !ReadsB(mt) ==> SameForB(mt, a2, c);
    assert !ReadsC(mt) ==> SameForC(mt, a2, b2);
  }

  lemma ComputeAgrees(j: Job, s: State, t: State)
    requires IsFast(j.mt) && Agree(j, s, t)
    ensures Agree(j, Compute(j, Flush(s)), Flush(Compute(j, t)))
  {
    CombineIgnoresUnread(j, s, t);
  }

  lemma WordAgrees(j: Job, s: State, t: State, i: nat)
    requires JobOk(j) && IsFast(j.mt) && i < j.width && Agree(j, s, t)
    ensures AgreeOnLatches(j, Fetch(j, true, s, i), Fetch(j, false, t, i)) <==> Harmless(j, s)
    ensures Harmless(j, s) ==> Agree(j, WordStep(j, true, s, i), WordStep(j, false, t, i))
  {
    hide Agree, AgreeOnLatches, Harmless, Fetch, Compute, Flush, IsFast;
    FetchAgrees(j, s, t, i);
    if Harmless(j, s) { ComputeAgrees(j, Fetch(j, true, s, i), Fetch(j, false, t, i)); }
  }

  /** Over the rest of a row, the program's loop from `s` and the immediate one from `t` fetch the same words. */
  predicate SameWords(j: Job, s: State, t: State, i: nat)
    requires JobOk(j) && i <= j.width
    decreases j.width - i
  {
    i == j.width ||
    (AgreeOnLatches(j, Fetch(j, true, s, i), Fetch(j, false, t, i)) &&
     SameWords(j, WordStep(j, true, s, i), WordStep(j, false, t, i), i + 1))
  }

  predicate SameRows(j: Job, s: State, t: State, row: nat)
    requires JobOk(j) && row <= j.height
    decreases j.height - row
  {
    row == j.height ||
    (SameWords(j, s, t, 0) &&
     SameRows(j, RowEnd(j, true, Words(j, true, s, 0)), RowEnd(j, false, Words(j, false, t, 0)), row + 1))
  }

  /** No fetch of the rest of a row, of the rest of a blit, by the program's loop meets a pending word that differs from
      what is in memory. */
  predicate HarmlessWords(j: Job, s: State, i: nat)
    requires JobOk(j) && i <= j.width
    decreases j.width - i
  {
    i == j.width || (Harmless(j, s) && HarmlessWords(j, WordStep(j, true, s, i), i + 1))
  }

  predicate HarmlessRows(j: Job, s: State, row: nat)
    requires JobOk(j) && row <= j.height
    decreases j.height - row
  {
    row == j.height || (HarmlessWords(j, s, 0) && HarmlessRows(j, RowEnd(j, true, Words(j, true, s, 0)), row + 1))
  }

  lemma {:induction false} WordsAgree(j: Job, s: State, t: State, i: nat)
    requires JobOk(j) && IsFast(j.mt) && i <= j.width && Agree(j, s, t)
    ensures SameWords(j, s, t, i) <==> HarmlessWords(j, s, i)
    ensures HarmlessWords(j, s, i) ==> Agree(j, Words(j, true, s, i), Words(j, false, t, i))
    decreases j.width - i
  {
    hide Agree, AgreeOnLatches, Harmless, Fetch, WordStep, IsFast;
    if i < j.width {
      WordAgrees(j, s, t, i);
      if Harmless(j, s) { WordsAgree(j, WordStep(j, true, s, i), WordStep(j, false, t, i), i + 1); }
    }
  }

  lemma RowEndAgrees(j: Job, s: State, t: State)
    requires Agree(j, s, t)
    ensures Agree(j, RowEnd(j, true, s), RowEnd(j, false, t))
  {
    hide Skip;
  }

  lemma {:induction false} RowsAgree(j: Job, s: State, t: State, row: nat)
    requires JobOk(j) && IsFast(j.mt) && row <= j.height && Agree(j, s, t)
    ensures SameRows(j, s, t, row) <==> HarmlessRows(j, s, row)
    ensures HarmlessRows(j, s, row) ==> Agree(j, Rows(j, true, s, row), Rows(j, false, t, row))
    decreases j.height - row
  {
    hide Agree, Words, RowEnd, SameWords, HarmlessWords, IsFast;
    if row < j.height {
      WordsAgree(j, s, t, 0);
      if HarmlessWords(j, s, 0) {
        var s1, t1 := Words(j, true, s, 0), Words(j, false, t, 0);
        RowEndAgrees(j, s1, t1);
        RowsAgree(j, RowEnd(j, true, s1), RowEnd(j, false, t1), row + 1);
      }
    }
  }

  /** Both orders have the same result. */
  predicate SameBlit(j: Job, s: State)
    requires JobOk(j)
  {
    Blit(j, true, s).mem == Blit(j, false, s).mem && Blit(j, true, s).zero == Blit(j, false, s).zero &&
    AgreeOnLatches(j, Blit(j, true, s), Blit(j, false, s))
  }

  /** The exact condition: both orders fetch the same words throughout if and only if no fetch of the program's loop
      meets a pending word that differs from what is in memory.  Then they have the same result. */
  lemma LateFetchesTheSame(j: Job, s: State)
    requires JobOk(j) && IsFast(j.mt)
    ensures SameRows(j, Prepare(s), Prepare(s), 0) <==> HarmlessRows(j, Prepare(s), 0)
    ensures HarmlessRows(j, Prepare(s), 0) ==> SameBlit(j, s)
  {
    hide Rows, IsFast, SameRows, HarmlessRows;
    RowsAgree(j, Prepare(s), Prepare(s), 0);
    if HarmlessRows(j, Prepare(s), 0) {
      var s1, t1 := Rows(j, true, Prepare(s), 0), Rows(j, false, Prepare(s), 0);
      assert Flush(t1).mem == t1.mem by {
        if t1.p.last != 0 { assert t1.mem == Put(s1.mem, s1.p.last, s1.dstd); }
      }
    }
  }

  // ----- a condition on the pointers alone, to be checked before the blit -----

  /** `p` has the pointers of `s` as far as the loop moves them. */
  predicate Follows(j: Job, s: State, n: nat, p: Ptrs) {
    n == |s.mem| && s.p.d == p.d && s.p.last == p.last && (ReadsA(j.mt) ==> s.p.a == p.a) &&
    (ReadsB(j.mt) ==> s.p.b == p.b) && (ReadsC(j.mt) ==> s.p.c == p.c)
  }

  lemma FollowsWord(j: Job, s: State, n: nat, p: Ptrs, i: nat)
    requires JobOk(j) && i < j.width && Follows(j, s, n, p)
    ensures Follows(j, WordStep(j, true, s, i), n, PtrsAfterWord(j, p))
  {
    hide ReadsA, ReadsB, ReadsC, Get, And, Barrel, Combine;
  }

  lemma {:induction false} ClearIsHarmlessWords(j: Job, s: State, n: nat, p: Ptrs, i: nat)
    requires JobOk(j) && i <= j.width && n > 0 && Follows(j, s, n, p) && ClearWords(Read(j.mt), j, n, p, i)
    ensures HarmlessWords(j, s, i) && Follows(j, Words(j, true, s, i), n, PtrsAfterWords(j, p, i))
    decreases j.width - i
  {
    hide ReadsA, ReadsB, ReadsC, WordStep, PtrsAfterWord, Get;
    if i < j.width {
      FollowsWord(j, s, n, p, i);
      ClearIsHarmlessWords(j, WordStep(j, true, s, i), n, PtrsAfterWord(j, p), i + 1);
    }
  }

  lemma {:induction false} ClearIsHarmless(j: Job, s: State, n: nat, p: Ptrs, row: nat)
    requires JobOk(j) && row <= j.height && n > 0 && Follows(j, s, n, p) && ClearRows(Read(j.mt), j, n, p, row)
    ensures HarmlessRows(j, s, row)
    decreases j.height - row
  {
    hide ReadsA, ReadsB, ReadsC, Words, PtrsAfterWords, Skip, HarmlessWords, ClearWords;
    if row < j.height {
      ClearIsHarmlessWords(j, s, n, p, 0);
      ClearIsHarmless(j, RowEnd(j, true, Words(j, true, s, 0)), n, PtrsAfterRow(j, PtrsAfterWords(j, p, 0)), row + 1);
    }
  }

  /** The program's loop, which writes one word late, leaves the memory, the zero flag and the latches of the
      channels in use as the blit that writes every truth-table word at once, if no fetch goes to the address written
      one step before. */
  lemma LateIsImmediate(j: Job, s: State)
    requires JobOk(j) && IsFast(j.mt)
    requires ClearRows(Read(j.mt), j, |s.mem|, s.p.(last := 0), 0)
    ensures SameBlit(j, s)
  {
    hide ClearRows, IsFast, SameBlit, SameRows, HarmlessRows;
    ClearIsHarmless(j, Prepare(s), |s.mem|, s.p.(last := 0), 0);
    LateFetchesTheSame(j, s);
  }

  // ----- when the condition holds, and that it is needed -----

  /** One step of a pointer never comes back to the same slot. */
  predicate Moves(n: nat, down: bool, modulo: int)
    requires n > 0
  {
    forall p: Addr {:trigger Next(down, p)} :: p != 0 ==>
      Next(down, p) % n != p % n && Skip(down, Next(down, p), modulo) % n != p % n
  }

  /** C and D walk through the same words, and C has moved past the word that is pending. */
  predicate InStep(n: nat, p: Ptrs)
    requires n > 0
  {
    p.c == p.d && Apart(n, p.c, p.last)
  }

  lemma {:induction false} InStepWords(w: Watch, j: Job, n: nat, p: Ptrs, i: nat)
    requires n > 0 && i <= j.width && Moves(n, j.down, j.dmod)
    requires InStep(n, p) && ClearWords(w.(c := false), j, n, p, i)
    ensures ClearWords(w, j, n, p, i)
    ensures var q := PtrsAfterWords(j, p, i);
            InStep(n, q) &&
            (i < j.width ==> InStep(n, q.(c := Skip(j.down, q.c, j.dmod), d := Skip(j.down, q.d, j.dmod))))
    decreases j.width - i
  {
    if i < j.width { InStepWords(w, j, n, PtrsAfterWord(j, p), i + 1); }
  }

  lemma {:induction false} InStepRows(w: Watch, j: Job, n: nat, p: Ptrs, row: nat)
    requires n > 0 && row <= j.height && j.width > 0 && Moves(n, j.down, j.dmod) && j.cmod == j.dmod
    requires InStep(n, p) && ClearRows(w.(c := false), j, n, p, row)
    ensures ClearRows(w, j, n, p, row)
    decreases j.height - row
  {
    if row < j.height {
      InStepWords(w, j, n, p, 0);
      InStepRows(w, j, n, PtrsAfterRow(j, PtrsAfterWords(j, p, 0)), row + 1);
    }
  }

  lemma ModTwice(t: nat, n: nat, x: int)
    requires n > 0 && t > 0 && t % n == 0
    ensures x % t % n == x % n
  {
    var q := t / n;
    assert x == t * (x / t) + x % t;
    var r := x % t;
    assert t * (x / t) == n * (q * (x / t));
    DivisionIsUnique(n, q * (x / t) + r / n, r % n);
    assert n * (q * (x / t) + r / n) == n * (q * (x / t)) + n * (r / n);
  }

  lemma ShiftedSlot(n: nat, p: int, d: int)
    requires n > 0 && d % n != 0
    ensures (p + d) % n != p % n
  {
    if (p + d) % n == p % n {
      var k := (p + d) / n - p / n;
      assert d == n * k by { Distribute(n, (p + d) / n, p / n); }
      DivisionIsUnique(n, k, 0);
    }
  }

  lemma StridesMove(n: nat, down: bool, modulo: int)
    requires n > 2 && TWO32 % n == 0 && (2 + modulo) % n != 0 && (-2 - modulo) % n != 0
    ensures Moves(n, down, modulo)
  {
    forall p: Addr | p != 0
      ensures Next(down, p) % n != p % n && Skip(down, Next(down, p), modulo) % n != p % n
    {
      var sign := if down then -1 else 1;
      assert (-2) % n == n - 2 by { DivisionIsUnique(n, -1, n - 2); }
      assert 2 % n == 2 by { DivisionIsUnique(n, 0, 2); }
      ShiftedSlot(n, p, 2 * sign);
      ModTwice(TWO32, n, p + 2 * sign);
      if Next(down, p) != 0 {
        var q := Next(down, p);
        ModTwice(TWO32, n, q + sign * modulo);
        var x, m := p + 2 * sign, sign * modulo;
        assert (x % TWO32 + m) % n == (x + m) % n by {
          ModTwice(TWO32, n, x + m);
          ModTwice(TWO32, n, x % TWO32 + m);
          ModAdd(TWO32, x, m);
        }
        ShiftedSlot(n, p, 2 * sign + sign * modulo);
      }
    }
  }

  /** A cookie-cut blit, whose C channel reads the words that D replaces, is as safe as its other channels are. */
  lemma CookieCutIsClear(j: Job, n: nat, p: Ptrs)
    requires j.width > 0 && p.c == p.d && p.last == 0 && j.cmod == j.dmod
    requires n > 2 && TWO32 % n == 0 && (2 + j.dmod) % n != 0 && (-2 - j.dmod) % n != 0
    requires ClearRows(Read(j.mt).(c := false), j, n, p, 0)
    ensures ClearRows(Read(j.mt), j, n, p, 0)
  {
    StridesMove(n, j.down, j.dmod);
    InStepRows(Read(j.mt), j, n, p, 0);
  }

  const ONES: Word := [true, true, true, true, true, true, true, true,
                       true, true, true, true, true, true, true, true]

  /** Copy two words: D = A, no shift, no mask. */
  function CopyTwo(): Job { Job(0xf0, false, 0, 0, 0, 0, 0, 0, [ONES, ONES], 2, 1) }

  lemma CopyOneWord(late: bool, s: State, i: nat)
    requires i < 2 && s.p.a != 0 && s.p.d != 0 && s.p.b == 0 && s.p.c == 0
    ensures var t, w := WordStep(CopyTwo(), late, s, i), Get(s.mem, s.p.a);
            t.p == PtrsAfterWord(CopyTwo(), s.p) && t.dstd == w &&
            t.mem == if !late then Put(s.mem, s.p.d, w)
                     else if s.p.last == 0 then s.mem else Put(s.mem, s.p.last, s.dstd)
  {
    var w := Get(s.mem, s.p.a);
    assert And(w, ONES) == w;
    assert Barrel(false, 0, s.aold, w) == w;
    assert Combine(0xf0, w, s.bhold, s.cdat) == w;
  }

  /** Copying two words one word further along: the late loop reads the second word before the first has been written
      to it, and the results differ exactly if that makes a difference to the words. */
  lemma LateCanDiffer(s: State)
    requires |s.mem| >= 8 && s.p == Ptrs(2, 0, 0, 4, 0)
    ensures Blit(CopyTwo(), true, s).mem == Blit(CopyTwo(), false, s).mem <==> s.mem[2] == s.mem[4]
  {
    hide Blit;
    CopyTwoWords(true, s);
    CopyTwoWords(false, s);
    assert s.mem[4 := s.mem[2]][6 := s.mem[4]][6] == s.mem[4];
    assert s.mem[4 := s.mem[2]][6 := s.mem[2]][6] == s.mem[2];
  }

  lemma FewSlots(m: Memory)
    requires |m| >= 8
    ensures Slot(m, 2) == 2 && Slot(m, 4) == 4 && Slot(m, 6) == 6
  {
    DivisionIsUnique(|m|, 0, 2);
    DivisionIsUnique(|m|, 0, 4);
    DivisionIsUnique(|m|, 0, 6);
  }

  lemma CopyTwoWords(late: bool, s: State)
    requires |s.mem| >= 8 && s.p == Ptrs(2, 0, 0, 4, 0)
    ensures Blit(CopyTwo(), late, s).mem == s.mem[4 := s.mem[2]][6 := s.mem[if late then 4 else 2]]
  {
    hide WordStep, Words, Rows, Blit, Slot;
    UnrollTwo(late, s);
    FewSlots(s.mem);
    var s0 := Prepare(s);
    CopyOneWord(late, s0, 0);
    var s1 := WordStep(CopyTwo(), late, s0, 0);
    FewSlots(s1.mem);
    assert s1.p == Ptrs(4, 0, 0, 6, 4) && s1.dstd == s.mem[2];
    CopyOneWord(late, s1, 1);
    var s2 := WordStep(CopyTwo(), late, s1, 1);
    FewSlots(s2.mem);
    assert s2.p == Ptrs(6, 0, 0, 8, 6);
    assert RowEnd(CopyTwo(), late, s2).p == s2.p;
  }

  lemma UnrollTwo(late: bool, s: State)
    ensures var s1 := WordStep(CopyTwo(), late, Prepare(s), 0);
            Blit(CopyTwo(), late, s) == Flush(RowEnd(CopyTwo(), late, WordStep(CopyTwo(), late, s1, 1)))
  {
    hide WordStep, Flush, RowEnd;
    var s1 := WordStep(CopyTwo(), late, Prepare(s), 0);
    var s2 := WordStep(CopyTwo(), late, s1, 1);
    assert Words(CopyTwo(), late, s1, 1) == Words(CopyTwo(), late, s2, 2) == s2;
    assert Rows(CopyTwo(), late, RowEnd(CopyTwo(), late, s2), 1) == RowEnd(CopyTwo(), late, s2);
  }
}
