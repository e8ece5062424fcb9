/**
 One Paula audio channel with its DMA held on and no attachment (audio.cpp:1557-1572, 1616-1703, 1818-2035,
 2542-2647), fed by the immediate audio DMA of custom.cpp:11152-11172.

 `Chan` is the channel, `Tape` what has gone through it.  Words are counted from the one that arrives in state 5, the
 first that is heard.
 */
module Paula {
  import opened Numbers

  type Word = n: int | 0 <= n < 65536

  /** struct audio_channel_data, as far as DMA playback goes; states are 0, 1, 5, 2 and 3. */
  datatype Chan = Chan(state: nat, dat: Word, dat2: Word, len: Word, wlen: Word, pbufldl: bool, written: bool,
                       dr: bool, dsr: bool, intreq2: bool, pt: nat, lc: nat)

  /** Samples put out, words latched for output, words arrived, whether each arrival reloaded the counter,
      interrupts. */
  datatype Tape = Tape(out: seq<Byte>, latched: seq<Word>, arrived: seq<Word>, reloads: seq<bool>, irqs: nat)

  datatype Audio = Audio(c: Chan, t: Tape)

  function Hi(w: Word): Byte { w / 256 }

  function Lo(w: Word): Byte { w % 256 }

  /** Words in a loop: a length of 0 means 65536. */
  function LoopWords(len: Word): (n: nat)
    ensures 1 <= n <= 65536
  {
    if len == 0 then 65536 else len
  }

  // ----- the state machine -----

  /** setdr: ask for a word; for the last one of a loop, ask for the pointer to be reloaded after it. */
  function Request(c: Chan): Chan { if c.wlen == 1 then c.(dsr := true) else c.(dr := true) }

  function Raise(t: Tape): Tape { t.(irqs := t.irqs + 1) }

  /** newsample. */
  function Emit(t: Tape, b: Byte): Tape { t.(out := t.out + [b]) }

  /** State 2 or 3 entered with a new sample to play. */
  function PlayHigh(a: Audio): Audio { Audio(a.c.(state := 2, pbufldl := false), Emit(a.t, Hi(a.c.dat2))) }

  function PlayLow(a: Audio): Audio { Audio(a.c.(state := 3, pbufldl := false), Emit(a.t, Lo(a.c.dat2))) }

  /** loaddat and setdr: the last word that has arrived goes to the output. */
  function Latch(a: Audio): Audio { Audio(Request(a.c.(dat2 := a.c.dat)), a.t.(latched := a.t.latched + [a.c.dat])) }

  /** The loop interrupt, if the counter was reloaded. */
  function LoopInterrupt(a: Audio): Audio { if a.c.intreq2 then Audio(a.c.(intreq2 := false), Raise(a.t)) else a }

  function Decremented(wlen: Word): Word { (wlen - 1) % 65536 }

  /** State 0: DMA comes on. */
  function Enabled(a: Audio): Audio {
    LoopInterrupt(Audio(a.c.(state := 1, dr := true, dsr := true, wlen := a.c.len), a.t))
  }

  /** audio_state_channel2 with the channel enabled; `perfin` is the end of a period. */
  function Channel(a: Audio, perfin: bool): Audio {
    if a.c.state == 0 then Enabled(a)
    else if a.c.state == 1 then
      if !a.c.written then a
      else
        var c := Request(a.c);
        Audio(c.(state := 5, wlen := if c.wlen == 1 then 1 else Decremented(c.wlen)), Raise(a.t))
    else if a.c.state == 5 then
      if !a.c.written then a else PlayHigh(Latch(a))
    else if a.c.state == 2 then
      var b := if a.c.pbufldl then PlayHigh(a) else a;
      if !perfin then b else PlayLow(b)
    else if a.c.state == 3 then
      var b := if a.c.pbufldl then PlayLow(a) else a;
      if !perfin then b else PlayHigh(LoopInterrupt(Latch(b)))
    else a
  }

  /** A word for AUDxDAT while DMA is on: in states 2 and 3 it counts, elsewhere it moves the state machine. */
  function Arrive(a: Audio, v: Word): Audio {
    var c := a.c.(dat := v);
    if c.state == 2 || c.state == 3 then
      var loop := c.wlen == 1;
      Audio(c.(wlen := if loop then c.len else Decremented(c.wlen), intreq2 := c.intreq2 || loop, written := false),
            a.t.(arrived := a.t.arrived + [v], reloads := a.t.reloads + [loop]))
    else
      var t := if c.state == 5 then a.t.(arrived := a.t.arrived + [v], reloads := a.t.reloads + [false]) else a.t;
      var b := Channel(Audio(c.(written := true), t), false);
      Audio(b.c.(written := false), b.t)
  }

  /** One DMA slot: the word at the pointer is fetched if it was asked for. */
  function Fetch(a: Audio, mem: nat -> Word): Audio {
    if !a.c.dr && !a.c.dsr then a
    else
      var b := Arrive(Audio(a.c.(dr := false, dsr := false), a.t), mem(a.c.pt));
      Audio(b.c.(pt := if a.c.dsr then a.c.lc else (a.c.pt + 2) % TWO32), b.t)
  }

  datatype Event = Dma | Period | Touch

  function Step(a: Audio, e: Event, mem: nat -> Word): Audio {
    match e
    case Dma => Fetch(a, mem)
    case Period => Channel(a, true)
    case Touch => Channel(a, false)
  }

  function Run(a: Audio, es: seq<Event>, mem: nat -> Word): Audio
    decreases |es|
  {
    if es == [] then a else Step(Run(a, es[..|es| - 1], mem), es[|es| - 1], mem)
  }

  /** The DMA answers every request before the word is due. */
  predicate Punctual(a: Audio, es: seq<Event>, mem: nat -> Word)
    decreases |es|
  {
    es == [] ||
    var b := Run(a, es[..|es| - 1], mem);
    Punctual(a, es[..|es| - 1], mem) && (es[|es| - 1].Period? && b.c.state == 3 ==> !b.c.dr && !b.c.dsr)
  }

  /** A channel that has just been enabled, with an even pointer. */
  predicate Started(a: Audio) {
    a.c.state == 1 && a.c.dr && a.c.dsr && a.c.wlen == a.c.len && !a.c.written && !a.c.intreq2 && a.c.lc < TWO32 &&
    a.t == Tape([], [], [], [], 0)
  }

  /** Enabling an idle channel that owes no interrupt starts it. */
  lemma EnablingStarts(c: Chan, perfin: bool)
    requires c.state == 0 && !c.written && !c.intreq2 && c.lc < 0x1_0000_0000
    ensures var b := Channel(Audio(c, Tape([], [], [], [], 0)), perfin);
            Started(b) && b.c.len == c.len && b.c.lc == c.lc && b.c.pbufldl == c.pbufldl
  {
  }

  // ----- samples are the bytes of the latched words -----

  function Bytes(ws: seq<Word>): (bs: seq<Byte>)
    ensures |bs| == 2 * |ws|
    decreases |ws|
  {
    if ws == [] then [] else Bytes(ws[..|ws| - 1]) + [Hi(ws[|ws| - 1]), Lo(ws[|ws| - 1])]
  }

  /** Counter and counts of words. */
  predicate Counting(a: Audio) {
    var k, l := |a.t.arrived|, LoopWords(a.c.len);
    |a.t.reloads| == k && !a.c.pbufldl && !a.c.written && a.c.lc < TWO32 &&
    if a.c.state == 1 then k == 0 && a.c.wlen == a.c.len
    else if a.c.state == 5 then k == 0 && a.c.wlen == Left(l, 1)
    else (a.c.state == 2 || a.c.state == 3) && k >= 1 && a.c.wlen == Left(l, k)
  }

  /** What the counter shows after `k` words of loops of `l`. */
  function Left(l: nat, k: nat): Word
    requires 1 <= l <= 65536
  {
    (l - k % l) % 65536
  }

  /** One more word: from 1 to a whole loop, otherwise one less. */
  lemma LeftFalls(len: Word, k: nat)
    ensures var l := LoopWords(len);
            (Left(l, k) == 1 <==> (k + 1) % l == 0) &&
            Left(l, k + 1) == if Left(l, k) == 1 then len else Decremented(Left(l, k))
  {
    var l := LoopWords(len);
    NextRemainder(k, l);
  }

  lemma NextRemainder(k: nat, l: nat)
    requires l > 0
    ensures k % l < l && (k + 1) % l == if k % l + 1 == l then 0 else k % l + 1
  {
    Numbers.DivisionBounds(k, l);
    if k % l + 1 == l {
      Numbers.DivisionIsUnique(l, k / l + 1, 0);
    } else {
      Numbers.DivisionIsUnique(l, k / l, k % l + 1);
    }
  }

  /** The samples put out are the high and low bytes of the latched words; in state 2 the last low byte is still to
      come. */
  predicate SamplesOk(a: Audio) {
    var ws := a.t.latched;
    if a.c.state == 1 || a.c.state == 5 then ws == [] && a.t.out == []
    else
      ws != [] && a.c.dat2 == ws[|ws| - 1] && (a.c.state == 2 || a.c.state == 3) &&
      if a.c.state == 2 then a.t.out + [Lo(a.c.dat2)] == Bytes(ws) else a.t.out == Bytes(ws)
  }

  /** The counter is reloaded on the words l, 2l, 3l, ...; but never on the first word, even if l is 1. */
  predicate ReloadsOk(a: Audio) {
    forall j :: 0 <= j < |a.t.reloads| ==> (a.t.reloads[j] <==> (j + 1) % LoopWords(a.c.len) == 0 && j > 0)
  }

  lemma BytesNext(ws: seq<Word>, w: Word)
    ensures Bytes(ws + [w]) == Bytes(ws) + [Hi(w), Lo(w)]
  {
    assert (ws + [w])[..|ws|] == ws;
  }

  lemma ChannelKeepsSamples(a: Audio, perfin: bool)
    requires SamplesOk(a) && !a.c.pbufldl
    ensures SamplesOk(Channel(a, perfin)) && !Channel(a, perfin).c.pbufldl && Channel(a, perfin).c.len == a.c.len
  {
    hide Bytes, Hi, Lo, Decremented, Request, LoopInterrupt;
    BytesNext(a.t.latched, a.c.dat);
    RequestKeeps(a.c.(dat2 := a.c.dat));
    RequestKeeps(a.c);
    InterruptKeeps(Latch(a));
  }

  lemma RequestKeeps(c: Chan)
    ensures Request(c) == c.(dr := Request(c).dr, dsr := Request(c).dsr)
  {
  }

  lemma InterruptKeeps(a: Audio)
    ensures var b := LoopInterrupt(a);
            b.c == a.c.(intreq2 := false) && b.t == a.t.(irqs := b.t.irqs)
  {
  }

  lemma StepKeepsSamples(a: Audio, e: Event, mem: nat -> Word)
    requires SamplesOk(a) && !a.c.pbufldl
    ensures SamplesOk(Step(a, e, mem)) && !Step(a, e, mem).c.pbufldl
  {
    hide Bytes, Hi, Lo, Decremented, Channel;
    if e.Dma? {
      if a.c.dr || a.c.dsr {
        ArriveKeepsSamples(Audio(a.c.(dr := false, dsr := false), a.t), mem(a.c.pt));
      }
    } else {
      ChannelKeepsSamples(a, e.Period?);
    }
  }

  lemma ArriveKeepsSamples(a: Audio, v: Word)
    requires SamplesOk(a) && !a.c.pbufldl
    ensures SamplesOk(Arrive(a, v)) && !Arrive(a, v).c.pbufldl
  {
    hide Bytes, Hi, Lo, Decremented, Channel;
    if a.c.state == 1 || a.c.state == 5 {
      var t := if a.c.state == 5 then a.t.(arrived := a.t.arrived + [v], reloads := a.t.reloads + [false]) else a.t;
      ChannelKeepsSamples(Audio(a.c.(dat := v, written := true), t), false);
    }
  }

  lemma {:induction false} RunKeepsSamples(a: Audio, es: seq<Event>, mem: nat -> Word)
    requires Started(a) && !a.c.pbufldl
    ensures SamplesOk(Run(a, es, mem)) && !Run(a, es, mem).c.pbufldl
    decreases |es|
  {
    hide Step, Bytes;
    if es != [] {
      RunKeepsSamples(a, es[..|es| - 1], mem);
      StepKeepsSamples(Run(a, es[..|es| - 1], mem), es[|es| - 1], mem);
    }
  }

  lemma {:induction false} ByteOf(ws: seq<Word>, i: nat)
    requires i < 2 * |ws|
    ensures Bytes(ws)[i] == if i % 2 == 0 then ws[i / 2] / 256 else ws[i / 2] % 256
    decreases |ws|
  {
    if i < 2 * (|ws| - 1) { ByteOf(ws[..|ws| - 1], i); }
  }

  /** In every interleaving of DMA slots, ends of periods and other wake-ups, punctual or not, what is put out is the
      high byte and then the low byte of each word that is latched; at most the last low byte is still to come. */
  lemma SamplesAreLatchedBytes(a: Audio, es: seq<Event>, mem: nat -> Word)
    requires Started(a) && !a.c.pbufldl
    ensures var t := Run(a, es, mem).t;
            (|t.out| == 2 * |t.latched| || |t.out| == 2 * |t.latched| - 1) &&
            forall i :: 0 <= i < |t.out| ==>
              t.out[i] == if i % 2 == 0 then t.latched[i / 2] / 256 else t.latched[i / 2] % 256
  {
    hide Run, Bytes;
    RunKeepsSamples(a, es, mem);
    var b := Run(a, es, mem);
    forall i: nat | i < |b.t.out|
      ensures b.t.out[i] == if i % 2 == 0 then b.t.latched[i / 2] / 256 else b.t.latched[i / 2] % 256
    {
      ByteOf(b.t.latched, i);
      if b.c.state == 2 { assert (b.t.out + [Lo(b.c.dat2)])[i] == b.t.out[i]; }
    }
  }

  // ----- the counter -----

  predicate CountOk(a: Audio) { Counting(a) && ReloadsOk(a) }

  lemma ArriveKeepsCount(a: Audio, v: Word)
    requires CountOk(a)
    ensures CountOk(Arrive(a, v)) && Arrive(a, v).c.len == a.c.len
  {
    hide Decremented, Left, Hi, Lo;
    LeftFalls(a.c.len, |a.t.arrived|);
    FirstCount(a.c.len);
  }

  lemma FirstCount(len: Word)
    ensures Left(LoopWords(len), 1) == if len == 1 then 1 else Decremented(len)
  {
    if len != 1 { Numbers.DivisionIsUnique(LoopWords(len), 0, 1); }
  }

  lemma ChannelKeepsCount(a: Audio, perfin: bool)
    requires CountOk(a)
    ensures CountOk(Channel(a, perfin)) && Channel(a, perfin).c.len == a.c.len
  {
    hide Decremented, Left, Hi, Lo, ReloadsOk;
    SameReloads(a, Channel(a, perfin));
  }

  lemma StepKeepsCount(a: Audio, e: Event, mem: nat -> Word)
    requires CountOk(a)
    ensures CountOk(Step(a, e, mem)) && Step(a, e, mem).c.len == a.c.len
  {
    hide Left, ReloadsOk, Arrive, Channel;
    if e.Dma? {
      if a.c.dr || a.c.dsr {
        SameReloads(a, Audio(a.c.(dr := false, dsr := false), a.t));
        ArriveKeepsCount(Audio(a.c.(dr := false, dsr := false), a.t), mem(a.c.pt));
        var b := Arrive(Audio(a.c.(dr := false, dsr := false), a.t), mem(a.c.pt));
        SameReloads(b, Fetch(a, mem));
      }
    } else {
      ChannelKeepsCount(a, e.Period?);
    }
  }

  lemma SameReloads(a: Audio, b: Audio)
    requires ReloadsOk(a) && b.c.len == a.c.len && b.t.reloads == a.t.reloads
    ensures ReloadsOk(b)
  {
  }

  lemma {:induction false} CounterFollowsTheLoop(a: Audio, es: seq<Event>, mem: nat -> Word)
    requires Started(a) && !a.c.pbufldl
    ensures CountOk(Run(a, es, mem)) && Run(a, es, mem).c.len == a.c.len
    decreases |es|
  {
    hide Step, Left;
    if es != [] {
      CounterFollowsTheLoop(a, es[..|es| - 1], mem);
      StepKeepsCount(Run(a, es[..|es| - 1], mem), es[|es| - 1], mem);
    }
  }

  /** In every interleaving: word number w reloads the counter exactly if w is a multiple of the loop's length and not
      the first word; for every length but 1 that is l, 2l, 3l and so on. */
  lemma ReloadsOnMultiples(a: Audio, es: seq<Event>, mem: nat -> Word, w: nat)
    requires Started(a) && !a.c.pbufldl && 1 <= w <= |Run(a, es, mem).t.reloads|
    ensures var l := if a.c.len == 0 then 65536 else a.c.len;
            (Run(a, es, mem).t.reloads[w - 1] <==> w % l == 0 && w > 1) &&
            (l != 1 ==> (Run(a, es, mem).t.reloads[w - 1] <==> w % l == 0))
  {
    hide Run, Left;
    CounterFollowsTheLoop(a, es, mem);
    if a.c.len != 1 { Numbers.DivisionIsUnique(LoopWords(a.c.len), 0, 1); }
  }

  // ----- playback of a buffer in a loop -----

  /** Address of word `j` of the buffer at `lc`. */
  function At(lc: nat, j: nat): (p: nat)
    ensures p < TWO32
  {
    (lc + 2 * j) % TWO32
  }

  lemma AtNext(lc: nat, j: nat)
    ensures (At(lc, j) + 2) % TWO32 == At(lc, j + 1)
  {
    Numbers.ModAdd(TWO32, lc + 2 * j, 2);
  }

  lemma AtStart(lc: nat)
    requires lc < TWO32
    ensures At(lc, 0) == lc
  {
  }

  /** Loops that `n` latched words have finished. */
  function LoopsDone(l: nat, n: nat): nat
    requires l > 0
  {
    if n <= 1 then 0 else LoopsDone(l, n - 1) + if n % l == 0 then 1 else 0
  }

  /** The word asked for, or the one that has come and waits for the output. */
  predicate Asking(c: Chan) { c.dr || c.dsr }

  /** The words that have come are the buffer's, round and round. */
  predicate FromBuffer(a: Audio, mem: nat -> Word) {
    forall j :: 0 <= j < |a.t.arrived| ==> a.t.arrived[j] == mem(At(a.c.lc, j % LoopWords(a.c.len)))
  }

  predicate Steady(a: Audio, mem: nat -> Word) {
    CountOk(a) && SamplesOk(a) && FromBuffer(a, mem) && Pace(a)
  }

  /** Requests, pointer and interrupts keep step with the words. */
  predicate Pace(a: Audio) {
    var k, n, l := |a.t.arrived|, |a.t.latched|, LoopWords(a.c.len);
    n <= k && a.t.latched == a.t.arrived[..n] &&
    if a.c.state == 1 then a.c.dsr && !a.c.intreq2 && a.t.irqs == 0
    else if a.c.state == 5 then
      n == 0 && Asking(a.c) && a.c.dsr == (1 % l == 0) && a.c.pt == At(a.c.lc, 0) && !a.c.intreq2 && a.t.irqs == 1
    else
      n >= 1 && a.t.irqs == 1 + LoopsDone(l, n) && a.c.pt == At(a.c.lc, k % l) &&
      if Asking(a.c) then k == n && a.c.dsr == ((k + 1) % l == 0) && !a.c.intreq2
      else k == n + 1 && a.c.dat == a.t.arrived[n] && a.c.intreq2 == (k % l == 0)
  }

  /** The dropped word of state 1. */
  lemma FirstFetchKeepsPace(a: Audio, mem: nat -> Word)
    requires Counting(a) && Pace(a) && a.c.state == 1
    ensures Pace(Fetch(a, mem)) && Fetch(a, mem).t.arrived == a.t.arrived && Fetch(a, mem).c.lc == a.c.lc
  {
    AtStart(a.c.lc);
    if a.c.len != 1 { Numbers.DivisionIsUnique(LoopWords(a.c.len), 0, 1); }
  }

  /** The first word that is heard. */
  lemma SecondFetchKeepsPace(a: Audio, mem: nat -> Word)
    requires Counting(a) && Pace(a) && a.c.state == 5
    ensures Pace(Fetch(a, mem)) && Fetch(a, mem).t.arrived == [mem(At(a.c.lc, 0))] && Fetch(a, mem).c.lc == a.c.lc
  {
    hide At, Decremented, Left, Hi, Lo;
    var l := LoopWords(a.c.len);
    AtStart(a.c.lc);
    AtNext(a.c.lc, 0);
    LeftFalls(a.c.len, 1);
    if a.c.len != 1 { Numbers.DivisionIsUnique(l, 0, 1); } else { Numbers.DivisionIsUnique(1, 1, 0); }
  }

  /** Every later word. */
  lemma LaterFetchKeepsPace(a: Audio, mem: nat -> Word)
    requires Counting(a) && Pace(a) && (a.c.state == 2 || a.c.state == 3) && Asking(a.c)
    ensures Pace(Fetch(a, mem)) && Fetch(a, mem).c.lc == a.c.lc
    ensures Fetch(a, mem).t.arrived == a.t.arrived + [mem(At(a.c.lc, |a.t.arrived| % LoopWords(a.c.len)))]
  {
    hide At, Decremented, Left, Hi, Lo, LoopsDone;
    var k, l := |a.t.arrived|, LoopWords(a.c.len);
    AtStart(a.c.lc);
    AtNext(a.c.lc, k % l);
    LeftFalls(a.c.len, k);
    NextRemainder(k, l);
  }

  /** An end of a period, when the word that is due has come. */
  lemma PeriodKeepsPace(a: Audio)
    requires Counting(a) && Pace(a) && (a.c.state == 3 ==> !Asking(a.c))
    ensures Pace(Channel(a, true)) && Channel(a, true).t.arrived == a.t.arrived && Channel(a, true).c.lc == a.c.lc
  {
    hide At, Decremented, Left, Hi, Lo;
    LeftFalls(a.c.len, |a.t.arrived|);
  }

  lemma TouchChangesNothing(a: Audio)
    requires Counting(a)
    ensures Channel(a, false) == a
  {
  }

  lemma FetchKeepsSteady(a: Audio, mem: nat -> Word)
    requires Steady(a, mem)
    ensures FromBuffer(Fetch(a, mem), mem) && Pace(Fetch(a, mem))
  {
    hide At, Pace, Fetch, SamplesOk, ReloadsOk;
    StepKeepsCount(a, Dma, mem);
    if a.c.state == 1 {
      FirstFetchKeepsPace(a, mem);
    } else if a.c.state == 5 {
      SecondFetchKeepsPace(a, mem);
    } else if Asking(a.c) {
      LaterFetchKeepsPace(a, mem);
    } else {
      NothingFetched(a, mem);
    }
  }

  lemma NothingFetched(a: Audio, mem: nat -> Word)
    requires !Asking(a.c)
    ensures Fetch(a, mem) == a
  {
  }

  lemma StepKeepsSteady(a: Audio, e: Event, mem: nat -> Word)
    requires Steady(a, mem) && (e.Period? && a.c.state == 3 ==> !Asking(a.c))
    ensures Steady(Step(a, e, mem), mem)
  {
    hide At, Pace, Fetch, Channel, SamplesOk, ReloadsOk, FromBuffer;
    StepKeepsCount(a, e, mem);
    StepKeepsSamples(a, e, mem);
    match e
    case Dma => FetchKeepsSteady(a, mem);
    case Period => PeriodKeepsPace(a); BufferStays(a, Channel(a, true), mem);
    case Touch => TouchChangesNothing(a);
  }

  lemma BufferStays(a: Audio, b: Audio, mem: nat -> Word)
    requires FromBuffer(a, mem) && b.t.arrived == a.t.arrived && b.c.lc == a.c.lc && b.c.len == a.c.len
    ensures FromBuffer(b, mem)
  {
  }

  lemma {:induction false} PunctualRunIsSteady(a: Audio, es: seq<Event>, mem: nat -> Word)
    requires Started(a) && !a.c.pbufldl && Punctual(a, es, mem)
    ensures Steady(Run(a, es, mem), mem)
    decreases |es|
  {
    hide Step, Counting, SamplesOk, ReloadsOk;
    if es == [] {
      StartIsSteady(a, mem);
    } else {
      PunctualRunIsSteady(a, es[..|es| - 1], mem);
      StepKeepsSteady(Run(a, es[..|es| - 1], mem), es[|es| - 1], mem);
    }
  }

  lemma StartIsSteady(a: Audio, mem: nat -> Word)
    requires Started(a) && !a.c.pbufldl
    ensures Steady(a, mem)
  {
  }

  predicate SameRegisters(a: Chan, b: Chan) { b.lc == a.lc && b.len == a.len && b.pt == a.pt }

  lemma PartsKeepRegisters(a: Audio)
    ensures SameRegisters(a.c, PlayHigh(a).c) && SameRegisters(a.c, PlayLow(a).c) && SameRegisters(a.c, Request(a.c))
    ensures SameRegisters(a.c, Latch(a).c) && SameRegisters(a.c, LoopInterrupt(a).c) && SameRegisters(a.c, Enabled(a).c)
  {
  }

  lemma ChannelKeepsRegisters(a: Audio, perfin: bool)
    ensures var b := Channel(a, perfin); b.c.lc == a.c.lc && b.c.len == a.c.len && b.c.pt == a.c.pt
  {
    hide Decremented, PlayHigh, PlayLow, Latch, LoopInterrupt, Enabled, Request;
    PartsKeepRegisters(a);
    PartsKeepRegisters(Latch(a));
    PartsKeepRegisters(PlayHigh(a));
    var b := if a.c.pbufldl then PlayLow(a) else a;
    PartsKeepRegisters(b);
    PartsKeepRegisters(Latch(b));
    PartsKeepRegisters(LoopInterrupt(Latch(b)));
  }

  lemma ArriveKeepsRegisters(a: Audio, v: Word)
    ensures var b := Arrive(a, v); b.c.lc == a.c.lc && b.c.len == a.c.len && b.c.pt == a.c.pt
  {
    hide Decremented, Channel;
    var t := if a.c.state == 5 then a.t.(arrived := a.t.arrived + [v], reloads := a.t.reloads + [false]) else a.t;
    ChannelKeepsRegisters(Audio(a.c.(dat := v, written := true), t), false);
  }

  lemma StepKeepsRegisters(a: Audio, e: Event, mem: nat -> Word)
    ensures Step(a, e, mem).c.lc == a.c.lc && Step(a, e, mem).c.len == a.c.len
  {
    hide Channel, Arrive;
    ChannelKeepsRegisters(a, e.Period?);
    ArriveKeepsRegisters(Audio(a.c.(dr := false, dsr := false), a.t), mem(a.c.pt));
  }

  lemma {:induction false} RunKeepsRegisters(a: Audio, es: seq<Event>, mem: nat -> Word)
    ensures Run(a, es, mem).c.lc == a.c.lc && Run(a, es, mem).c.len == a.c.len
    decreases |es|
  {
    hide Step;
    if es != [] {
      RunKeepsRegisters(a, es[..|es| - 1], mem);
      StepKeepsRegisters(Run(a, es[..|es| - 1], mem), es[|es| - 1], mem);
    }
  }

  /** A punctual channel plays the `l` words at its location in a loop, l being its length or, if that is 0, 65536:
      sample number i is byte i mod 2 of word (i / 2) mod l, high byte first.  It has raised one interrupt for the
      start and one for every l words that it has taken up; but with a length of 1, one for every word but the first. */
  lemma PlaysTheLoop(a: Audio, es: seq<Event>, mem: nat -> Word, i: nat)
    requires Started(a) && !a.c.pbufldl && Punctual(a, es, mem) && i < |Run(a, es, mem).t.out|
    ensures var t, l := Run(a, es, mem).t, if a.c.len == 0 then 65536 else a.c.len;
            var w := mem((a.c.lc + 2 * (i / 2 % l)) % 0x1_0000_0000);
            t.out[i] == (if i % 2 == 0 then w / 256 else w % 256) &&
            t.irqs == 1 + if l == 1 then |t.latched| - 1 else |t.latched| / l
  {
    hide Run, Hi, Lo, Bytes, Counting, ReloadsOk, Punctual;
    PunctualRunIsSteady(a, es, mem);
    RunKeepsRegisters(a, es, mem);
    var b := Run(a, es, mem);
    assert b.c.state != 1 && b.c.state != 5;
    SamplesAreLatchedBytes(a, es, mem);
    LoopsDoneIs(LoopWords(a.c.len), |b.t.latched|);
  }

  /** The number of loops: every l words, but every word after the first if l is 1. */
  lemma {:induction false} LoopsDoneIs(l: nat, n: nat)
    requires l > 0 && n > 0
    ensures LoopsDone(l, n) == if l == 1 then n - 1 else n / l
    decreases n
  {
    if n == 1 {
      if l > 1 { Numbers.DivisionIsUnique(l, 0, 1); }
    } else {
      LoopsDoneIs(l, n - 1);
      NextRemainder(n - 1, l);
      NextQuotient(n - 1, l);
    }
  }

  lemma NextQuotient(k: nat, l: nat)
    requires l > 0
    ensures (k + 1) / l == k / l + if (k + 1) % l == 0 then 1 else 0
  {
    Numbers.DivisionBounds(k, l);
    if k % l + 1 == l {
      Numbers.DivisionIsUnique(l, k / l + 1, 0);
    } else {
      Numbers.DivisionIsUnique(l, k / l, k % l + 1);
    }
  }
}
