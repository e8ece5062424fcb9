/**
 The barrel shifter over a whole blit (blitfunc.cpp:121-130 and 159-168): across word and row boundaries alike,
 the shifted words are one long number shifted right, or left in a descending blit.
 */
module BlitterStream {
  import opened Minterms
  import opened Blitter
  import Raster = BlitterRaster
  import opened Numbers

  function Flat(ws: seq<Word>): (r: seq<bool>)
    ensures |r| == 16 * |ws|
  {
    if ws == [] then [] else ws[0] + Flat(ws[1..])
  }

  /** A row of bits read as a number. */
  function Value(bits: seq<bool>): nat {
    if bits == [] then 0
    else 2 * Value(bits[..|bits| - 1]) + if bits[|bits| - 1] then 1 else 0
  }

  // ----- what goes into the shifter and what comes out, word by word -----

  datatype Channel = A | B

  /** A's input words are already masked. */
  datatype Shot = Shot(input: Word, output: Word)

  function Latest(ch: Channel, s: State): Shot {
    match ch
    case A => Shot(s.aold, s.ahold)
    case B => Shot(s.bold, s.bhold)
  }

  function ShiftOf(ch: Channel, j: Job): nat { if ch == A then j.ashift else j.bshift }

  function RowShots(ch: Channel, j: Job, late: bool, s: State, i: nat): (r: seq<Shot>)
    requires JobOk(j) && i <= j.width
    ensures |r| == j.width - i
    decreases j.width - i
  {
    if i == j.width then []
    else
      var t := WordStep(j, late, s, i);
      [Latest(ch, t)] + RowShots(ch, j, late, t, i + 1)
  }

  function Shots(ch: Channel, j: Job, late: bool, s: State, row: nat): seq<Shot>
    requires JobOk(j) && row <= j.height
    decreases j.height - row
  {
    if row == j.height then []
    else RowShots(ch, j, late, s, 0) + Shots(ch, j, late, RowEnd(j, late, Words(j, late, s, 0)), row + 1)
  }

  function Inputs(tr: seq<Shot>): (r: seq<Word>)
    ensures |r| == |tr|
  {
    if tr == [] then [] else [tr[0].input] + Inputs(tr[1..])
  }

  function Outputs(tr: seq<Shot>): (r: seq<Word>)
    ensures |r| == |tr|
  {
    if tr == [] then [] else [tr[0].output] + Outputs(tr[1..])
  }

  /** Each word shifted together with the one before it. */
  function Barrels(down: bool, shift: nat, older: Word, ws: seq<Word>): (r: seq<Word>)
    requires shift < 16
    ensures |r| == |ws|
    decreases |ws|
  {
    if ws == [] then [] else [Barrel(down, shift, older, ws[0])] + Barrels(down, shift, ws[0], ws[1..])
  }

  // ----- shifting word by word is shifting the whole -----

  function LastOr(older: Word, ws: seq<Word>): Word { if ws == [] then older else ws[|ws| - 1] }

  function Backwards(ws: seq<Word>): (r: seq<Word>)
    ensures |r| == |ws|
  {
    if ws == [] then [] else Backwards(ws[1..]) + [ws[0]]
  }

  lemma BarrelIsWindow(shift: nat, older: Word, newer: Word)
    requires shift < 16
    ensures Barrel(false, shift, older, newer) == older[16 - shift..] + newer[..16 - shift]
    ensures Barrel(true, shift, older, newer) == newer[shift..] + older[..shift]
  {
  }

  lemma FlatNothing()
    ensures Flat([]) == []
  {
  }

  lemma FlatHead(ws: seq<Word>)
    requires ws != []
    ensures Flat(ws) == ws[0] + Flat(ws[1..])
  {
  }

  lemma {:induction false} BarrelsAreWindow(shift: nat, older: Word, ws: seq<Word>)
    requires shift < 16
    ensures Flat(Barrels(false, shift, older, ws)) + LastOr(older, ws)[16 - shift..] == older[16 - shift..] + Flat(ws)
    decreases |ws|
  {
    hide Barrel, Flat;
    var k := 16 - shift;
    assert Flat([]) == [] by { FlatNothing(); }
    if ws == [] {
      assert [] + older[k..] == older[k..] + [];
    } else {
      var w, b := ws[0], Barrel(false, shift, older, ws[0]);
      var outs := Barrels(false, shift, w, ws[1..]);
      BarrelIsWindow(shift, older, w);
      BarrelsAreWindow(shift, w, ws[1..]);
      assert Barrels(false, shift, older, ws)[1..] == outs;
      FlatHead(Barrels(false, shift, older, ws));
      FlatHead(ws);
      calc {
        (b + Flat(outs)) + LastOr(w, ws[1..])[k..];
        (older[k..] + w[..k]) + (Flat(outs) + LastOr(w, ws[1..])[k..]);
        (older[k..] + w[..k]) + (w[k..] + Flat(ws[1..]));
        older[k..] + ((w[..k] + w[k..]) + Flat(ws[1..]));
        { assert w[..k] + w[k..] == w; }
        older[k..] + (w + Flat(ws[1..]));
      }
    }
  }

  lemma {:induction false} FlatSnoc(ws: seq<Word>, w: Word)
    ensures Flat(ws + [w]) == Flat(ws) + w
  {
    if ws == [] {
      assert ws + [w] == [w] && [w][1..] == [];
      assert [] + w == w + Flat([]);
    } else {
      assert (ws + [w])[1..] == ws[1..] + [w];
      FlatSnoc(ws[1..], w);
      assert ws[0] + (Flat(ws[1..]) + w) == (ws[0] + Flat(ws[1..])) + w;
    }
  }

  /** Counting down, later words belong in front of earlier ones. */
  lemma {:induction false} BarrelsAreWindowDown(shift: nat, older: Word, ws: seq<Word>)
    requires shift < 16
    ensures LastOr(older, ws)[..shift] + Flat(Backwards(Barrels(true, shift, older, ws))) ==
            Flat(Backwards(ws)) + older[..shift]
    decreases |ws|
  {
    hide Barrel, Flat;
    assert Flat([]) == [] by { FlatNothing(); }
    if ws == [] {
      assert older[..shift] + [] == [] + older[..shift];
    } else {
      var w, b := ws[0], Barrel(true, shift, older, ws[0]);
      var outs := Barrels(true, shift, w, ws[1..]);
      BarrelIsWindow(shift, older, w);
      BarrelsAreWindowDown(shift, w, ws[1..]);
      assert Barrels(true, shift, older, ws)[1..] == outs;
      FlatSnoc(Backwards(outs), b);
      FlatSnoc(Backwards(ws[1..]), w);
      calc {
        LastOr(w, ws[1..])[..shift] + (Flat(Backwards(outs)) + b);
        (LastOr(w, ws[1..])[..shift] + Flat(Backwards(outs))) + (w[shift..] + older[..shift]);
        (Flat(Backwards(ws[1..])) + w[..shift]) + (w[shift..] + older[..shift]);
        (Flat(Backwards(ws[1..])) + (w[..shift] + w[shift..])) + older[..shift];
        { assert w[..shift] + w[shift..] == w; }
        (Flat(Backwards(ws[1..])) + w) + older[..shift];
      }
    }
  }

  lemma {:induction false} ValueConcat(x: seq<bool>, y: seq<bool>)
    ensures Value(x + y) == Pow2(|y|) * Value(x) + Value(y)
    decreases |y|
  {
    if y == [] {
      assert x + y == x;
    } else {
      var n := |y| - 1;
      assert (x + y)[..|x + y| - 1] == x + y[..n];
      ValueConcat(x, y[..n]);
      Double(Pow2(n), Value(x));
    }
  }

  lemma Double(n: nat, v: nat)
    ensures (2 * n) * v == 2 * (n * v)
  {
  }

  lemma {:induction false} ValueBound(x: seq<bool>)
    ensures Value(x) < Pow2(|x|)
    decreases |x|
  {
    if x != [] { ValueBound(x[..|x| - 1]); }
  }

  /** Cutting some bits off both ends of a number. */
  lemma ValueOfMiddle(top: seq<bool>, kept: seq<bool>, lost: seq<bool>)
    ensures Value(kept) == Value((top + kept) + lost) / Pow2(|lost|) % Pow2(|kept|)
  {
    hide Value;
    ValueConcat(top + kept, lost);
    ValueConcat(top, kept);
    ValueBound(kept);
    ValueBound(lost);
    DivisionIsUnique(Pow2(|lost|), Value(top + kept), Value(lost));
    DivisionIsUnique(Pow2(|kept|), Value(top), Value(kept));
  }

  /** Word by word, the shifter divides the number made of the previous word and all the words by 2^shift. */
  lemma BarrelsDivide(shift: nat, older: Word, ws: seq<Word>)
    requires shift < 16
    ensures Value(Flat(Barrels(false, shift, older, ws))) ==
            Value(older + Flat(ws)) / Pow2(shift) % Pow2(16 * |ws|)
  {
    hide Value, Barrels, Flat;
    var k := 16 - shift;
    var top, kept, lost := older[..k], Flat(Barrels(false, shift, older, ws)), LastOr(older, ws)[k..];
    BarrelsAreWindow(shift, older, ws);
    assert older + Flat(ws) == (top + kept) + lost by {
      assert older == older[..k] + older[k..];
      assert (top + kept) + lost == top + (kept + lost);
      assert (top + older[k..]) + Flat(ws) == top + (older[k..] + Flat(ws));
    }
    ValueOfMiddle(top, kept, lost);
  }

  /** Counting down, it divides the number made of all the words, the last one in front, and the previous word behind
      them by 2^(16 - shift): all the words move left by the shift, and the previous word fills the gap. */
  lemma BarrelsDivideDown(shift: nat, older: Word, ws: seq<Word>)
    requires shift < 16
    ensures Value(Flat(Backwards(Barrels(true, shift, older, ws)))) ==
            Value(Flat(Backwards(ws)) + older) / Pow2(16 - shift) % Pow2(16 * |ws|)
  {
    hide Value, Barrels, Flat, Backwards;
    var top, lost := LastOr(older, ws)[..shift], older[shift..];
    var kept := Flat(Backwards(Barrels(true, shift, older, ws)));
    BarrelsAreWindowDown(shift, older, ws);
    assert Flat(Backwards(ws)) + older == (top + kept) + lost by {
      assert older == older[..shift] + older[shift..];
      assert Flat(Backwards(ws)) + (older[..shift] + lost) == (Flat(Backwards(ws)) + older[..shift]) + lost;
    }
    ValueOfMiddle(top, kept, lost);
  }

  // ----- the blit does shift word by word -----

  /** The loop reads the channel; and B, which keeps its operand while switched off, stays switched on: its
      pointer does not wrap round to zero. */
  predicate Reads(ch: Channel, j: Job, late: bool) {
    late ==> if ch == A then ReadsA(j.mt) else ReadsB(j.mt)
  }

  predicate LiveRow(ch: Channel, j: Job, p: Ptrs, i: nat)
    requires i <= j.width
    decreases j.width - i
  {
    i == j.width || ((ch == B ==> p.b != 0) && LiveRow(ch, j, PtrsAfterWord(j, p), i + 1))
  }

  predicate Live(ch: Channel, j: Job, p: Ptrs, row: nat)
    requires row <= j.height
    decreases j.height - row
  {
    row == j.height || (LiveRow(ch, j, p, 0) && Live(ch, j, PtrsAfterRow(j, PtrsAfterWords(j, p, 0)), row + 1))
  }

  lemma WordShifts(ch: Channel, j: Job, late: bool, s: State, i: nat)
    requires JobOk(j) && i < j.width && Reads(ch, j, late)
    requires ch == B ==> s.p.b != 0
    ensures var t := WordStep(j, late, s, i);
            Latest(ch, t).output == Barrel(j.down, ShiftOf(ch, j), Latest(ch, s).input, Latest(ch, t).input) &&
            (ch == B ==> t.p.b == Next(j.down, s.p.b))
  {
    hide Barrel, And, Combine, Get, Put;
  }

  lemma {:induction false} RowKeepsPointerB(j: Job, late: bool, s: State, p: Ptrs, i: nat)
    requires JobOk(j) && i <= j.width && Reads(B, j, late)
    requires s.p.b == p.b && LiveRow(B, j, p, i)
    ensures Words(j, late, s, i).p.b == PtrsAfterWords(j, p, i).b
    decreases j.width - i
  {
    if i < j.width {
      WordShifts(B, j, late, s, i);
      RowKeepsPointerB(j, late, WordStep(j, late, s, i), PtrsAfterWord(j, p), i + 1);
    }
  }

  /** `tr` is what channel `ch` of a row leaves behind: its shots, shifted one by one, and the last input. */
  predicate Shifted(ch: Channel, j: Job, older: Word, tr: seq<Shot>, last: Word)
    requires JobOk(j)
  {
    Outputs(tr) == Barrels(j.down, ShiftOf(ch, j), older, Inputs(tr)) && last == LastOr(older, Inputs(tr))
  }

  lemma ShiftedHead(ch: Channel, j: Job, older: Word, x: Shot, rest: seq<Shot>, last: Word)
    requires JobOk(j) && Shifted(ch, j, x.input, rest, last)
    requires x.output == Barrel(j.down, ShiftOf(ch, j), older, x.input)
    ensures Shifted(ch, j, older, [x] + rest, last)
  {
    ShotHead(x, rest);
    BarrelsHead(j.down, ShiftOf(ch, j), older, x.input, Inputs(rest));
  }

  lemma {:induction false} RowShifts(ch: Channel, j: Job, late: bool, s: State, p: Ptrs, i: nat)
    requires JobOk(j) && i <= j.width && Reads(ch, j, late)
    requires (ch == B ==> s.p.b == p.b) && LiveRow(ch, j, p, i)
    ensures Shifted(ch, j, Latest(ch, s).input, RowShots(ch, j, late, s, i), Latest(ch, Words(j, late, s, i)).input)
    decreases j.width - i
  {
    hide WordStep, Outputs, Inputs;
    if i < j.width {
      var t := WordStep(j, late, s, i);
      WordShifts(ch, j, late, s, i);
      RowShifts(ch, j, late, t, PtrsAfterWord(j, p), i + 1);
      ShiftedHead(ch, j, Latest(ch, s).input, Latest(ch, t), RowShots(ch, j, late, t, i + 1),
                  Latest(ch, Words(j, late, t, i + 1)).input);
    }
  }

  lemma ShotHead(x: Shot, rest: seq<Shot>)
    ensures Inputs([x] + rest) == [x.input] + Inputs(rest)
    ensures Outputs([x] + rest) == [x.output] + Outputs(rest)
  {
    assert ([x] + rest)[1..] == rest;
  }

  lemma BarrelsHead(down: bool, shift: nat, older: Word, w: Word, ws: seq<Word>)
    requires shift < 16
    ensures Barrels(down, shift, older, [w] + ws) == [Barrel(down, shift, older, w)] + Barrels(down, shift, w, ws)
    ensures LastOr(older, [w] + ws) == LastOr(w, ws)
  {
    assert ([w] + ws)[1..] == ws;
  }

  lemma {:induction false} BarrelsConcat(down: bool, shift: nat, older: Word, xs: seq<Word>, ys: seq<Word>)
    requires shift < 16
    ensures Barrels(down, shift, older, xs + ys) ==
            Barrels(down, shift, older, xs) + Barrels(down, shift, LastOr(older, xs), ys)
    decreases |xs|
  {
    hide Barrel;
    if xs == [] {
      assert xs + ys == ys;
    } else {
      assert xs + ys == [xs[0]] + (xs[1..] + ys);
      BarrelsHead(down, shift, older, xs[0], xs[1..] + ys);
      BarrelsConcat(down, shift, xs[0], xs[1..], ys);
    }
  }

  lemma {:induction false} InputsConcat(x: seq<Shot>, y: seq<Shot>)
    ensures Inputs(x + y) == Inputs(x) + Inputs(y)
  {
    if x == [] {
      assert x + y == y;
    } else {
      assert (x + y)[1..] == x[1..] + y;
      InputsConcat(x[1..], y);
      assert [x[0].input] + (Inputs(x[1..]) + Inputs(y)) == ([x[0].input] + Inputs(x[1..])) + Inputs(y);
    }
  }

  lemma {:induction false} OutputsConcat(x: seq<Shot>, y: seq<Shot>)
    ensures Outputs(x + y) == Outputs(x) + Outputs(y)
  {
    if x == [] {
      assert x + y == y;
    } else {
      assert (x + y)[1..] == x[1..] + y;
      OutputsConcat(x[1..], y);
      assert [x[0].output] + (Outputs(x[1..]) + Outputs(y)) == ([x[0].output] + Outputs(x[1..])) + Outputs(y);
    }
  }

  lemma {:induction false} RowsShift(ch: Channel, j: Job, late: bool, s: State, p: Ptrs, row: nat)
    requires JobOk(j) && row <= j.height && Reads(ch, j, late)
    requires (ch == B ==> s.p.b == p.b) && Live(ch, j, p, row)
    ensures var tr := Shots(ch, j, late, s, row);
            Outputs(tr) == Barrels(j.down, ShiftOf(ch, j), Latest(ch, s).input, Inputs(tr))
    decreases j.height - row
  {
    if row < j.height {
      var w := Words(j, late, s, 0);
      var s' := RowEnd(j, late, w);
      var x, y := RowShots(ch, j, late, s, 0), Shots(ch, j, late, s', row + 1);
      RowShifts(ch, j, late, s, p, 0);
      if ch == B { RowKeepsPointerB(j, late, s, p, 0); }
      RowsShift(ch, j, late, s', PtrsAfterRow(j, PtrsAfterWords(j, p, 0)), row + 1);
      assert Latest(ch, s').input == Latest(ch, w).input;
      InputsConcat(x, y);
      OutputsConcat(x, y);
      BarrelsConcat(j.down, ShiftOf(ch, j), Latest(ch, s).input, Inputs(x), Inputs(y));
    }
  }

  // ----- what the shifter is fed with -----

  /** The word a step finds in the channel: in memory, or in A's data register while A is switched off. */
  function Source(ch: Channel, s: State): Word {
    if ch == A then (if s.p.a != 0 then Get(s.mem, s.p.a) else s.adat) else Get(s.mem, s.p.b)
  }

  function RowSources(ch: Channel, j: Job, late: bool, s: State, i: nat): (r: seq<Word>)
    requires JobOk(j) && i <= j.width
    ensures |r| == j.width - i
    decreases j.width - i
  {
    if i == j.width then [] else [Source(ch, s)] + RowSources(ch, j, late, WordStep(j, late, s, i), i + 1)
  }

  function Sources(ch: Channel, j: Job, late: bool, s: State, row: nat): seq<Word>
    requires JobOk(j) && row <= j.height
    decreases j.height - row
  {
    if row == j.height then []
    else RowSources(ch, j, late, s, 0) + Sources(ch, j, late, RowEnd(j, late, Words(j, late, s, 0)), row + 1)
  }

  /** A's word goes through the mask of its column. */
  function Masked(ch: Channel, j: Job, i: nat, w: Word): Word
    requires JobOk(j) && i < j.width
  {
    if ch == A then And(w, j.mask[i]) else w
  }

  function Column(j: Job, n: nat): (i: nat)
    requires j.width > 0
    ensures i < j.width
  {
    n % j.width
  }

  /** Columns start again with every row. */
  lemma ColumnsRepeat(j: Job, n: nat)
    requires j.width > 0
    ensures n < j.width ==> Column(j, n) == n
    ensures Column(j, j.width + n) == Column(j, n)
  {
    if n < j.width { DivisionIsUnique(j.width, 0, n); }
    DivisionBounds(n, j.width);
    Distribute(j.width, n / j.width, -1);
    DivisionIsUnique(j.width, n / j.width + 1, n % j.width);
  }

  /** Word `n` of the words of whole rows stands in column n mod width. */
  function AllMasked(ch: Channel, j: Job, ws: seq<Word>): (r: seq<Word>)
    requires JobOk(j) && (ws == [] || j.width > 0)
    ensures |r| == |ws|
  {
    seq(|ws|, n requires 0 <= n < |ws| => Masked(ch, j, Column(j, n), ws[n]))
  }

  lemma WordIsFed(ch: Channel, j: Job, late: bool, s: State, i: nat)
    requires JobOk(j) && i < j.width && Reads(ch, j, late)
    requires ch == B ==> s.p.b != 0
    ensures Latest(ch, WordStep(j, late, s, i)).input == Masked(ch, j, i, Source(ch, s))
    ensures ch == B ==> WordStep(j, late, s, i).p.b == Next(j.down, s.p.b)
  {
    hide Barrel, And, Combine, Get, Put;
  }

  lemma {:induction false} RowIsFed(ch: Channel, j: Job, late: bool, s: State, p: Ptrs, i: nat, n: nat)
    requires JobOk(j) && i <= j.width && Reads(ch, j, late)
    requires (ch == B ==> s.p.b == p.b) && LiveRow(ch, j, p, i) && i <= n < j.width
    ensures Inputs(RowShots(ch, j, late, s, i))[n - i] == Masked(ch, j, n, RowSources(ch, j, late, s, i)[n - i])
    decreases j.width - i
  {
    hide WordStep, Masked, Source, Latest;
    WordIsFed(ch, j, late, s, i);
    if i < n { RowIsFed(ch, j, late, WordStep(j, late, s, i), PtrsAfterWord(j, p), i + 1, n); }
  }

  lemma WholeRowIsFed(ch: Channel, j: Job, late: bool, s: State, p: Ptrs)
    requires JobOk(j) && Reads(ch, j, late)
    requires (ch == B ==> s.p.b == p.b) && LiveRow(ch, j, p, 0)
    ensures Inputs(RowShots(ch, j, late, s, 0)) == AllMasked(ch, j, RowSources(ch, j, late, s, 0))
  {
    hide RowShots, RowSources, Masked, Inputs, Column, LiveRow;
    forall n | 0 <= n < j.width
      ensures Inputs(RowShots(ch, j, late, s, 0))[n] == Masked(ch, j, Column(j, n), RowSources(ch, j, late, s, 0)[n])
    {
      RowIsFed(ch, j, late, s, p, 0, n);
      ColumnsRepeat(j, n);
    }
  }

  lemma MaskedConcat(ch: Channel, j: Job, x: seq<Word>, y: seq<Word>)
    requires JobOk(j) && |x| == j.width && (x == [] ==> y == [])
    ensures AllMasked(ch, j, x + y) == AllMasked(ch, j, x) + AllMasked(ch, j, y)
  {
    hide Masked, Column;
    forall n | 0 <= n < |y|
      ensures Column(j, |x| + n) == Column(j, n)
    {
      ColumnsRepeat(j, n);
    }
  }

  lemma {:induction false} RowsAreFed(ch: Channel, j: Job, late: bool, s: State, p: Ptrs, row: nat)
    requires JobOk(j) && row <= j.height && Reads(ch, j, late)
    requires (ch == B ==> s.p.b == p.b) && Live(ch, j, p, row)
    ensures var ws := Sources(ch, j, late, s, row);
            (ws == [] || j.width > 0) && Inputs(Shots(ch, j, late, s, row)) == AllMasked(ch, j, ws)
    decreases j.height - row
  {
    hide AllMasked, RowShots, RowSources, Words, LiveRow;
    if row < j.height {
      var s' := RowEnd(j, late, Words(j, late, s, 0));
      var q := PtrsAfterRow(j, PtrsAfterWords(j, p, 0));
      WholeRowIsFed(ch, j, late, s, p);
      if ch == B { RowKeepsPointerB(j, late, s, p, 0); }
      RowsAreFed(ch, j, late, s', q, row + 1);
      InputsConcat(RowShots(ch, j, late, s, 0), Shots(ch, j, late, s', row + 1));
      MaskedConcat(ch, j, RowSources(ch, j, late, s, 0), Sources(ch, j, late, s', row + 1));
    }
  }

  /** Over a whole blit, the channel's operand words are its source words under the mask of their columns, with the word
      left over from before in front of them, shifted right as one integer.  In a descending blit the later words are
      the higher ones, the word left over stands behind them all, and the integer is shifted left. */
  lemma StreamIsOneNumber(ch: Channel, j: Job, late: bool, s: State)
    requires JobOk(j) && Reads(ch, j, late) && Live(ch, j, s.p, 0)
    ensures var ws, out := Sources(ch, j, late, Prepare(s), 0), Outputs(Shots(ch, j, late, Prepare(s), 0));
            (ws == [] || j.width > 0) &&
            var left, ins, shift := Latest(ch, s).input, AllMasked(ch, j, ws), ShiftOf(ch, j);
            if j.down then
              Value(Flat(Backwards(out))) ==
              Value(Flat(Backwards(ins)) + left) / Pow2(16 - shift) % Pow2(16 * |ws|)
            else
              Value(Flat(out)) == Value(left + Flat(ins)) / Pow2(shift) % Pow2(16 * |ws|)
  {
    hide AllMasked, Shots, Sources, Live, Flat, Backwards, Value;
    RowsAreFed(ch, j, late, Prepare(s), s.p, 0);
    RowsShift(ch, j, late, Prepare(s), s.p, 0);
    var ins := AllMasked(ch, j, Sources(ch, j, late, Prepare(s), 0));
    if j.down {
      BarrelsDivideDown(ShiftOf(ch, j), Latest(ch, s).input, ins);
    } else {
      BarrelsDivide(ShiftOf(ch, j), Latest(ch, s).input, ins);
    }
  }

  // ----- where the source words come from -----

  /** The word that the channel finds at its address for word `t`, in the memory as it then is. */
  function SourceAt(ch: Channel, j: Job, s: State, t: nat): Word
    requires JobOk(j) && j.width > 0
  {
    if ch == A then Raster.SourceA(j, s, t) else Raster.SourceB(j, s, t)
  }

  lemma SourceStands(ch: Channel, j: Job, s0: State, s: State, r: nat, i: nat, t: nat)
    requires t == j.width * r + i
    requires JobOk(j) && i < j.width && r < j.height && Raster.Stands(j, s0, s, r, i) && Raster.AllStayOn(j, s0.p)
    requires ch == B ==> s0.p.b != 0
    ensures Source(ch, s) == SourceAt(ch, j, s0, t)
  {
    hide Raster.Image, Raster.Place, Raster.PlaceOf, Raster.AllZero, Raster.MaskedA;
    Raster.Numbered(j, s0.p.a, j.amod, r, i);
    Raster.Numbered(j, s0.p.b, j.bmod, r, i);
    Raster.PlaceOff(j, s0.p.a, j.amod, r, i);
  }

  /** `n` of these words, from word `k` on. */
  function SourcesFrom(ch: Channel, j: Job, s: State, k: nat, n: nat): (r: seq<Word>)
    requires JobOk(j) && j.width > 0
    ensures |r| == n
    decreases n
  {
    if n == 0 then [] else [SourceAt(ch, j, s, k)] + SourcesFrom(ch, j, s, k + 1, n - 1)
  }

  lemma {:induction false} SourcesFromAt(ch: Channel, j: Job, s: State, k: nat, n: nat, t: nat)
    requires JobOk(j) && j.width > 0 && t < n
    ensures SourcesFrom(ch, j, s, k, n)[t] == SourceAt(ch, j, s, k + t)
    decreases n
  {
    hide SourceAt;
    if t > 0 { SourcesFromAt(ch, j, s, k + 1, n - 1, t - 1); }
  }

  lemma {:induction false} SourcesJoin(ch: Channel, j: Job, s: State, k: nat, n: nat, m: nat)
    requires JobOk(j) && j.width > 0
    ensures SourcesFrom(ch, j, s, k, n) + SourcesFrom(ch, j, s, k + n, m) == SourcesFrom(ch, j, s, k, n + m)
    decreases n
  {
    hide SourceAt;
    if n > 0 {
      SourcesJoin(ch, j, s, k + 1, n - 1, m);
      assert SourcesFrom(ch, j, s, k, n + m)[1..] == SourcesFrom(ch, j, s, k + 1, n + m - 1);
    }
  }

  lemma {:induction false} RowSourcesAre(ch: Channel, j: Job, s0: State, s: State, r: nat, i: nat)
    requires JobOk(j) && i <= j.width && 0 < j.width && r < j.height && Raster.Stands(j, s0, s, r, i)
    requires Raster.AllStayOn(j, s0.p) && (ch == B ==> s0.p.b != 0)
    ensures RowSources(ch, j, false, s, i) == SourcesFrom(ch, j, s0, j.width * r + i, j.width - i)
    decreases j.width - i
  {
    hide Raster.Stands, Raster.AllStayOn, WordStep, Source, SourceAt;
    var k := j.width * r + i;
    if i < j.width {
      SourceStands(ch, j, s0, s, r, i, k);
      Raster.WordStands(j, s0, s, r, i);
      RowSourcesAre(ch, j, s0, WordStep(j, false, s, i), r, i + 1);
    }
  }

  lemma {:induction false} SourcesAre(ch: Channel, j: Job, s0: State, s: State, r: nat, left: nat)
    requires JobOk(j) && 0 < j.width && r <= j.height && Raster.Stands(j, s0, s, r, 0) &&
             left == j.width * (j.height - r)
    requires Raster.AllStayOn(j, s0.p) && (ch == B ==> s0.p.b != 0)
    ensures Sources(ch, j, false, s, r) == SourcesFrom(ch, j, s0, j.width * r, left)
    decreases j.height - r
  {
    hide Raster.Stands, Raster.AllStayOn, RowSources, Words, RowEnd, SourcesFrom;
    if r < j.height {
      var w := Words(j, false, s, 0);
      RowSourcesAre(ch, j, s0, s, r, 0);
      Raster.WordsStand(j, s0, s, r, 0);
      Raster.RowStands(j, s0, w, r);
      OneRowLess(j.width, j.height, r);
      SourcesAre(ch, j, s0, RowEnd(j, false, w), r + 1, left - j.width);
      SourcesJoin(ch, j, s0, j.width * r, j.width, left - j.width);
    }
  }

  lemma OneRowLess(width: nat, height: nat, r: nat)
    requires r < height
    ensures width * (height - r) - width == width * (height - (r + 1)) >= 0
    ensures width * (r + 1) == width * r + width
  {
  }

  /** The program's loop finds the same word in the channel, if it meets no pending word. */
  lemma SameSource(ch: Channel, j: Job, s0: State, s: State, t: State, r: nat, i: nat)
    requires JobOk(j) && i < j.width && r < j.height && Raster.Stands(j, s0, t, r, i) && Raster.AllStayOn(j, s0.p)
    requires Agree(j, s, t) && Harmless(j, s) && Reads(ch, j, true) && (ch == B ==> s0.p.b != 0)
    ensures Source(ch, s) == Source(ch, t)
  {
    hide Raster.Image, Raster.Place, Raster.AllZero, Raster.MaskedA, Raster.SourceB, Sees, Flush, ReadsA, ReadsB, Get;
    Raster.PlaceOff(j, s0.p.b, j.bmod, r, i);
    if ch == B { GetBehindPending(s, s.p.b); } else if s.p.a != 0 { GetBehindPending(s, s.p.a); }
  }

  lemma {:induction false} SameRowSources(ch: Channel, j: Job, s0: State, s: State, t: State, r: nat, i: nat)
    requires JobOk(j) && IsFast(j.mt) && i <= j.width && 0 < j.width && r < j.height && Raster.Stands(j, s0, t, r, i)
    requires Raster.AllStayOn(j, s0.p) && Agree(j, s, t) && HarmlessWords(j, s, i) && Reads(ch, j, true)
    requires ch == B ==> s0.p.b != 0
    ensures RowSources(ch, j, true, s, i) == RowSources(ch, j, false, t, i)
    decreases j.width - i
  {
    hide Raster.Stands, Raster.AllStayOn, WordStep, Source, Agree, Harmless, IsFast, Reads;
    if i < j.width {
      SameSource(ch, j, s0, s, t, r, i);
      WordAgrees(j, s, t, i);
      Raster.WordStands(j, s0, t, r, i);
      SameRowSources(ch, j, s0, WordStep(j, true, s, i), WordStep(j, false, t, i), r, i + 1);
    }
  }

  lemma {:induction false} SameSources(ch: Channel, j: Job, s0: State, s: State, t: State, r: nat)
    requires JobOk(j) && IsFast(j.mt) && 0 < j.width && r <= j.height && Raster.Stands(j, s0, t, r, 0)
    requires Raster.AllStayOn(j, s0.p) && Agree(j, s, t) && HarmlessRows(j, s, r) && Reads(ch, j, true)
    requires ch == B ==> s0.p.b != 0
    ensures Sources(ch, j, true, s, r) == Sources(ch, j, false, t, r)
    decreases j.height - r
  {
    hide Raster.Stands, Raster.AllStayOn, Words, RowEnd, RowSources, Agree, HarmlessWords, IsFast, Reads;
    if r < j.height {
      var s1, t1 := Words(j, true, s, 0), Words(j, false, t, 0);
      SameRowSources(ch, j, s0, s, t, r, 0);
      WordsAgree(j, s, t, 0);
      RowEndAgrees(j, s1, t1);
      Raster.WordsStand(j, s0, t, r, 0);
      Raster.RowStands(j, s0, t1, r);
      SameSources(ch, j, s0, RowEnd(j, true, s1), RowEnd(j, false, t1), r + 1);
    }
  }

  /** The source words of the stream are the words at the addresses of its rows and columns: in the blit that writes at
      once, and in the program's loop when no fetch meets the word that is pending. */
  lemma StreamByAddresses(ch: Channel, j: Job, late: bool, s: State)
    requires JobOk(j) && j.width > 0 && Raster.AllStayOn(j, s.p) && (ch == B ==> s.p.b != 0)
    requires late ==> IsFast(j.mt) && Reads(ch, j, true) && Raster.NoneMeets(j, |s.mem|, s.p)
    ensures var ws := Sources(ch, j, late, Prepare(s), 0);
            |ws| == j.width * j.height && forall t: nat :: t < |ws| ==> ws[t] == SourceAt(ch, j, s, t)
  {
    hide Raster.Stands, Raster.AllStayOn, Raster.NoneMeets, Raster.Visits, ClearRows, Sources, SourceAt, SourcesFrom,
         HarmlessRows, IsFast, Reads;
    Raster.StandsFirst(j, s);
    var n := j.width * j.height;
    SourcesAre(ch, j, s, Prepare(s), 0, n);
    if late {
      Raster.VisitsFirst(j, s.p);
      Raster.RowsClear(j, |s.mem|, s.p, s.p.(last := 0), 0);
      ClearIsHarmless(j, Prepare(s), |s.mem|, s.p.(last := 0), 0);
      SameSources(ch, j, s, Prepare(s), Prepare(s), 0);
    }
    forall t: nat | t < n ensures SourcesFrom(ch, j, s, 0, n)[t] == SourceAt(ch, j, s, t) {
      SourcesFromAt(ch, j, s, 0, n, t);
    }
  }
}
