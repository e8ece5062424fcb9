/**
 The ATonce board's handshake (atonce.cpp:423-434, 736-759, 775-928, 1090-1163): the 286's I/O instructions freeze it,
 the 68k polls and resumes it through two ports, and a timer owes the driver synthetic video refreshes.

 `Board` is the state with a history; `Step` is one access of either side.  The 286 is not modelled: a run of it is
 the list of I/O instructions it would execute, cut short by the first that traps.
 */
module Atonce {
  import Numbers

  /** A trap as it was latched, and how things stood: was one pending, had the 286 programmed video since its last
      reset, had it run since the last synthetic refresh. */
  datatype Trap = Trap(port: nat, input: bool, synthetic: bool, overwrote: bool, programmed: bool, starved: bool)

  /** The refresh timer: frame divider, hash of the text last shown, frames without a refresh. */
  datatype Clock = Clock(div: nat, hash: nat, beat: nat)

  /** History: video programmed since the last reset of the 286; a synthetic refresh came last and the 286 has not run
      since; it only ever ran free; the traps latched; how many of them were resumed or wiped by a reset. */
  datatype Past = Past(programmed: bool, starved: bool, ranFree: bool, log: seq<Trap>, done: nat)

  /** struct atonce_s, as far as the handshake goes. */
  datatype Lines = Lines(
    configured: bool, din: bool, setup: bool, frozen: bool, stopped: bool, inReset: bool, pending: bool, port: nat,
    input: bool, due: bool, fake: bool, videoSet: bool, clock: Clock)

  datatype Board = Board(xb: Lines, past: Past)

  /** One I/O instruction; `served` says that the disk service would handle it without a trap. */
  datatype Io = Io(port: nat, input: bool, served: bool)

  // ----- ports -----

  predicate CoprocessorPort(p: nat) { p / 8 == 31 }

  predicate VideoPort(p: nat) {
    p == 0x3b4 || p == 0x3b5 || p == 0x3b8 || p == 0x3d4 || p == 0x3d5 || p == 0x3d8 || p == 0x0be
  }

  predicate RefreshSafePort(p: nat) {
    !(0x0b0 <= p <= 0x0bf) && !(0x3f0 <= p <= 0x3ff) && !(0x1f0 <= p <= 0x1f7) &&
    p != 0x3d4 && p != 0x3d5 && p != 0x3b4 && p != 0x3b5
  }

  // ----- the 286 -----

  /** A trap enters the history. */
  function Logged(p: Past, port: nat, input: bool, synthetic: bool, pending: bool): Past {
    p.(log := p.log + [Trap(port, input, synthetic, pending, p.programmed, p.starved)],
       starved := p.starved || synthetic)
  }

  /** What every trap does to the lines. */
  function Latched(x: Lines, port: nat, input: bool): Lines {
    x.(pending := true, frozen := true, port := port, input := input)
  }

  /** atonce_trap. */
  function TrapNow(s: Board, port: nat, input: bool): Board {
    Board(Latched(s.xb, port, input), Logged(s.past, port, input, false, s.xb.pending))
  }

  /** Instructions that go through without a trap. */
  predicate PassesBy(io: Io) {
    CoprocessorPort(io.port) || (!io.input && (io.port == 0xb0 || io.port == 0xb9) && io.served)
  }

  predicate SetsVideo(io: Io) { !io.input && VideoPort(io.port % 1024) }

  function SawVideo(s: Board, video: bool): Board {
    Board(s.xb.(videoSet := s.xb.videoSet || video), s.past.(programmed := s.past.programmed || video))
  }

  /** atonce_x86_io. */
  function X86Io(s: Board, io: Io): Board {
    if PassesBy(io) then s else TrapNow(SawVideo(s, SetsVideo(io)), io.port % 1024, io.input)
  }

  predicate Free(x: Lines) { x.configured && !x.frozen && !x.pending && !x.inReset }

  function Running(s: Board): Board {
    Board(s.xb, s.past.(starved := false, ranFree := s.past.ranFree && Free(s.xb)))
  }

  /** atonce_run: up to the first trap. */
  function Run286(s: Board, ios: seq<Io>): Board
    decreases |ios|
  {
    if ios == [] then Running(s)
    else if PassesBy(ios[0]) then Run286(Running(s), ios[1..])
    else X86Io(Running(s), ios[0])
  }

  // ----- the 68k -----

  predicate DinBit(v: nat) { v % 2 == 1 }

  predicate SetupBit(v: nat) { v / 2 % 2 == 1 }

  /** atonce_porta_read: bit 1 is a pending trap; bit 0 its direction once the 286 is stopped.  Before that it is the
      287's error line, which nothing ever raises. */
  function PortARead(x: Lines): nat {
    (if x.pending then 2 else 0) + if x.stopped && x.input then 1 else 0
  }

  /** A rising edge of D0 resets the 286 of a configured board. */
  predicate ResetEdge(x: Lines, v: nat) { x.configured && DinBit(v) && !x.din }

  function ModeLines(x: Lines, v: nat): Lines {
    var t := x.(din := DinBit(v), setup := SetupBit(v));
    if ResetEdge(x, v) then t.(inReset := true, videoSet := false, due := false) else t
  }

  /** atonce_porta_write. */
  function PortAWrite(s: Board, v: nat): Board {
    Board(ModeLines(s.xb, v), s.past.(programmed := s.past.programmed && !ResetEdge(s.xb, v)))
  }

  /** What a read of PORT_B returns. */
  function Readback(port: nat): nat { port % 256 * 256 + port / 256 % 4 }

  /** atonce_portb_read. */
  function PortBRead(s: Board): Board { s.(xb := s.xb.(frozen := true, stopped := true)) }

  /** atonce_fire_refresh, which needs enough chip RAM. */
  function FireRefresh(s: Board, chip: bool): Board {
    if !chip then s
    else Board(Latched(s.xb, 0x3d5, false).(due := false, fake := true),
      Logged(s.past, 0x3d5, false, true, s.xb.pending))
  }

  /** A pending trap is dealt with; with a reset of the 286, its video set-up is forgotten. */
  function Settled(p: Past, pending: bool, reset: bool): Past {
    p.(done := p.done + (if pending then 1 else 0), programmed := p.programmed && !reset)
  }

  function ResumeLines(x: Lines): Lines {
    var t := x.(fake := false, frozen := false, stopped := false, pending := false, inReset := false);
    if x.configured then t else t.(configured := true, videoSet := false, due := false)
  }

  /** A resume clears the trap and, the first time, brings the board up. */
  function Resume(s: Board): Board { Board(ResumeLines(s.xb), Settled(s.past, s.xb.pending, !s.xb.configured)) }

  /** atonce_portb_write. */
  function PortBWrite(s: Board, chip: bool, ios: seq<Io>): Board {
    if s.xb.setup then s.(xb := s.xb.(inReset := false))
    else
      var t := Resume(s);
      if t.xb.due && !s.xb.fake && RefreshSafePort(t.xb.port) then FireRefresh(t, chip) else Run286(t, ios)
  }

  // ----- the timer and the board's reset -----

  /** Does this line complete a frame in which the text has changed, or a 25th frame? */
  predicate Owed(c: Clock, lines: nat, hash: nat) { c.div + 1 >= lines && (hash != c.hash || c.beat + 1 >= 25) }

  function Ticked(c: Clock, lines: nat, hash: nat): Clock {
    if c.div + 1 < lines then c.(div := c.div + 1)
    else if Owed(c, lines, hash) then Clock(0, hash, 0)
    else Clock(0, c.hash, c.beat + 1)
  }

  /** Nothing is owed before video is programmed. */
  function OweLines(x: Lines, lines: nat, hash: nat): Lines {
    if !x.videoSet then x else x.(clock := Ticked(x.clock, lines, hash), due := x.due || Owed(x.clock, lines, hash))
  }

  /** atonce_hsync; `slice` is whether a whole cycle has come together. */
  function Hsync(s: Board, lines: nat, hash: nat, chip: bool, slice: bool, ios: seq<Io>): Board {
    if !s.xb.configured || s.xb.inReset then s
    else
      var t := s.(xb := OweLines(s.xb, lines, hash));
      if t.xb.due && !t.xb.frozen && !t.xb.pending then FireRefresh(t, chip)
      else if t.xb.frozen || !slice then t
      else Run286(t, ios)
  }

  function ResetLines(x: Lines): Lines {
    x.(configured := false, frozen := false, stopped := false, pending := false, inReset := true, setup := false)
  }

  /** atonce_reset. */
  function Reset(s: Board): Board { Board(ResetLines(s.xb), Settled(s.past, s.xb.pending, true)) }

  // ----- every interleaving -----

  datatype Event =
    | ReadA | WriteA(v: nat) | ReadB | WriteB(chip: bool, ios: seq<Io>)
    | Tick(lines: nat, hash: nat, chip: bool, slice: bool, ios: seq<Io>)
    | ResetAll

  function Step(s: Board, e: Event): Board {
    match e
    case ReadA => s
    case WriteA(v) => PortAWrite(s, v)
    case ReadB => PortBRead(s)
    case WriteB(chip, ios) => PortBWrite(s, chip, ios)
    case Tick(lines, hash, chip, slice, ios) => Hsync(s, lines, hash, chip, slice, ios)
    case ResetAll => Reset(s)
  }

  function Run(s: Board, es: seq<Event>): Board
    decreases |es|
  {
    if es == [] then s else Step(Run(s, es[..|es| - 1]), es[|es| - 1])
  }

  predicate TrapOk(t: Trap) { !t.overwrote && (t.synthetic ==> t.programmed && !t.starved) }

  predicate LogOk(log: seq<Trap>) { forall i :: 0 <= i < |log| ==> TrapOk(log[i]) }

  /** A pending trap is the last one latched, and what the ports show of it is what was latched. */
  predicate Shows(s: Board) {
    |s.past.log| == s.past.done + (if s.xb.pending then 1 else 0) &&
    (s.xb.pending ==>
       var t := s.past.log[|s.past.log| - 1];
       t.port == s.xb.port && t.input == s.xb.input && (s.xb.configured ==> t.synthetic == s.xb.fake))
  }

  predicate Sound(s: Board) {
    (s.xb.pending ==> s.xb.frozen) && (s.xb.stopped ==> s.xb.frozen) && s.past.ranFree &&
    (s.xb.configured && (s.xb.videoSet || s.xb.due) ==> s.past.programmed) && (s.past.starved ==> s.xb.fake) &&
    (s.xb.configured && s.xb.fake ==> s.xb.pending)
  }

  predicate Inv(s: Board) { Sound(s) && Shows(s) && LogOk(s.past.log) }

  lemma LoggedIsOk(p: Past, port: nat, input: bool, synthetic: bool)
    requires LogOk(p.log) && (synthetic ==> p.programmed && !p.starved)
    ensures LogOk(Logged(p, port, input, synthetic, false).log)
  {
  }

  lemma X86IoKeepsInv(s: Board, io: Io)
    requires Inv(s) && Free(s.xb) && !s.xb.fake && !PassesBy(io)
    ensures Inv(X86Io(s, io))
  {
    hide LogOk, SetsVideo, PassesBy;
    LoggedIsOk(SawVideo(s, SetsVideo(io)).past, io.port % 1024, io.input, false);
  }

  /** A trap ends the run: the 286 is free at every instruction it executes. */
  lemma {:induction false} Run286KeepsInv(s: Board, ios: seq<Io>)
    requires Inv(Running(s)) && Free(s.xb) && !s.xb.fake
    ensures Inv(Run286(s, ios))
    decreases |ios|
  {
    hide LogOk, Shows, Sound, PassesBy, X86Io;
    if ios != [] {
      if PassesBy(ios[0]) {
        Run286KeepsInv(Running(s), ios[1..]);
      } else {
        X86IoKeepsInv(Running(s), ios[0]);
      }
    }
  }

  lemma FireKeepsInv(s: Board, chip: bool)
    requires Inv(s) && s.xb.configured && !s.xb.pending && s.past.programmed && !s.past.starved
    ensures Inv(FireRefresh(s, chip))
  {
    hide LogOk;
    LoggedIsOk(s.past, 0x3d5, false, true);
  }

  lemma ResumeKeepsInv(s: Board)
    requires Inv(s)
    ensures Inv(Running(Resume(s))) && Free(Resume(s).xb) && !Resume(s).xb.fake
    ensures !s.xb.fake ==> Inv(Resume(s))
  {
    hide LogOk;
  }

  lemma WriteBKeepsInv(s: Board, chip: bool, ios: seq<Io>)
    requires Inv(s)
    ensures Inv(PortBWrite(s, chip, ios))
  {
    hide LogOk, Run286, FireRefresh, RefreshSafePort, Running, Resume;
    if !s.xb.setup {
      var t := Resume(s);
      ResumeKeepsInv(s);
      if t.xb.due && !s.xb.fake && RefreshSafePort(t.xb.port) {
        FireKeepsInv(t, chip);
      } else {
        Run286KeepsInv(t, ios);
      }
    }
  }

  lemma OweKeepsInv(s: Board, lines: nat, hash: nat)
    requires Inv(s) && s.xb.configured
    ensures Inv(s.(xb := OweLines(s.xb, lines, hash)))
  {
    hide LogOk, Owed, Ticked;
  }

  lemma RunningKeepsInv(s: Board)
    requires Inv(s) && Free(s.xb)
    ensures Inv(Running(s))
  {
    hide LogOk;
  }

  lemma TickKeepsInv(s: Board, lines: nat, hash: nat, chip: bool, slice: bool, ios: seq<Io>)
    requires Inv(s)
    ensures Inv(Hsync(s, lines, hash, chip, slice, ios))
  {
    hide LogOk, Run286, FireRefresh, Shows;
    if s.xb.configured && !s.xb.inReset {
      var t := s.(xb := OweLines(s.xb, lines, hash));
      OweKeepsInv(s, lines, hash);
      hide OweLines;
      if t.xb.due && !t.xb.frozen && !t.xb.pending {
        FireKeepsInv(t, chip);
      } else if !t.xb.frozen && slice {
        RunningKeepsInv(t);
        Run286KeepsInv(t, ios);
      }
    }
  }

  lemma WriteAKeepsInv(s: Board, v: nat)
    requires Inv(s)
    ensures Inv(PortAWrite(s, v))
  {
    hide LogOk, DinBit, SetupBit;
  }

  lemma StepKeepsInv(s: Board, e: Event)
    requires Inv(s)
    ensures Inv(Step(s, e))
  {
    hide LogOk, PortBWrite, Hsync, PortAWrite;
    match e
    case WriteA(v) => WriteAKeepsInv(s, v);
    case WriteB(chip, ios) => WriteBKeepsInv(s, chip, ios);
    case Tick(lines, hash, chip, slice, ios) => TickKeepsInv(s, lines, hash, chip, slice, ios);
    case _ =>
  }

  lemma {:induction false} RunKeepsInv(s: Board, es: seq<Event>)
    requires Inv(s)
    ensures Inv(Run(s, es))
    decreases |es|
  {
    hide Inv, Step;
    if es != [] {
      RunKeepsInv(s, es[..|es| - 1]);
      StepKeepsInv(Run(s, es[..|es| - 1]), es[|es| - 1]);
    }
  }

  /** The board as it comes from its allocation. */
  function PowerOn(): Board {
    Board(Lines(false, false, false, false, false, false, false, 0, false, false, false, false, Clock(0, 0, 0)),
          Past(false, false, true, [], 0))
  }

  /** Over every run: a pending trap and a stop both mean frozen; the 286 has only run free of both; no trap was
      latched over another; no synthetic refresh came before the 286 had programmed video since its last reset, nor
      twice without the 286 running in between; and each trap is resumed or wiped once, the last one being the one the
      ports show. */
  lemma EveryRun(es: seq<Event>)
    ensures var t := Run(PowerOn(), es);
            (t.xb.pending ==> t.xb.frozen) && (t.xb.stopped ==> t.xb.frozen) && t.past.ranFree && Shows(t) &&
            LogOk(t.past.log)
  {
    hide Run, Shows, LogOk;
    StartIsGood();
    RunKeepsInv(PowerOn(), es);
  }

  lemma StartIsGood()
    ensures Inv(PowerOn())
  {
  }

  /** Stopping the 286 tells the driver which port trapped, for every 10-bit port: it masks with 0xff03 and rotates by
      8. */
  lemma DriverRecoversPort(port: nat)
    requires port < 1024
    ensures var v := Readback(port);
            var masked := v / 256 * 256 + v % 4;
            v < 65536 && masked % 256 * 256 + masked / 256 == port
  {
    var h, l := port / 256, port % 256;
    assert Readback(port) == 256 * l + h;
    Numbers.DivisionIsUnique(256, l, h);
  }

  // ----- what the 286 did, and what the driver learns of it -----

  /** Every I/O instruction traps but those to the coprocessor, and output to the two ports of the disk service that it
      would serve. */
  predicate Traps(io: Io) {
    !(0xf8 <= io.port <= 0xff) && !(!io.input && io.served && (io.port == 0xb0 || io.port == 0xb9))
  }

  /** The instructions that are executed of those it would execute. */
  function UpToTrap(ios: seq<Io>): seq<Io> {
    if ios == [] then [] else if Traps(ios[0]) then [ios[0]] else [ios[0]] + UpToTrap(ios[1..])
  }

  lemma TrapsIs(io: Io)
    ensures Traps(io) <==> !PassesBy(io)
  {
  }

  /** What the driver finds after the trap of `io`: a pending trap; once it has stopped the 286, the direction of `io`
      in bit 0; and in the word it reads from PORT_B, masked with 0xff03 and rotated by 8, the low ten bits of its
      port. */
  predicate DriverSees(t: Board, io: Io) {
    t.xb.pending && t.xb.frozen && t.xb.port == io.port % 1024 && t.xb.input == io.input &&
    PortARead(t.xb) / 2 == 1 && PortARead(PortBRead(t).xb) == (if io.input then 3 else 2) &&
    var v := Readback(PortBRead(t).xb.port);
    v / 256 * 256 + v % 4 == v && v % 256 * 256 + v / 256 == io.port % 1024
  }

  lemma TrapIsSeen(s: Board, io: Io)
    requires Traps(io)
    ensures DriverSees(X86Io(s, io), io)
  {
    hide SetsVideo;
    TrapsIs(io);
    var port := io.port % 1024;
    ReadbackIs(port);
  }

  lemma ReadbackIs(port: nat)
    requires port < 1024
    ensures var v := Readback(port); v / 256 * 256 + v % 4 == v && v % 256 * 256 + v / 256 == port
  {
    var h, l := port / 256, port % 256;
    assert Readback(port) == 256 * l + h;
    Numbers.DivisionIsUnique(256, l, h);
  }

  /** A 286 that executes instructions without a trap and then `io` stops with that one. */
  lemma {:induction false} DriverSeesTheTrap(s: Board, passing: seq<Io>, io: Io, rest: seq<Io>)
    requires Free(s.xb) && Traps(io) && forall i :: 0 <= i < |passing| ==> !Traps(passing[i])
    ensures DriverSees(Run286(s, passing + [io] + rest), io)
    decreases |passing|
  {
    hide DriverSees, Traps, PassesBy, X86Io;
    var ios := passing + [io] + rest;
    if passing == [] {
      assert ios[0] == io;
      TrapsIs(io);
      TrapIsSeen(Running(s), io);
    } else {
      TrapsIs(passing[0]);
      assert ios[1..] == passing[1..] + [io] + rest;
      DriverSeesTheTrap(Running(s), passing[1..], io, rest);
    }
  }

  /** Does the 286 run in this step?  It does after a resume, unless a refresh takes its place; and on a line, unless it
      is frozen or in reset, or no whole cycle has come together. */
  predicate Executes(s: Board, e: Event) {
    match e
    case WriteB(_, _) =>
      !s.xb.setup && !(s.xb.configured && s.xb.due && !s.xb.fake && RefreshSafePort(s.xb.port))
    case Tick(lines, hash, _, slice, _) =>
      s.xb.configured && !s.xb.inReset && !s.xb.frozen && slice &&
      !(OweLines(s.xb, lines, hash).due && !s.xb.pending)
    case _ => false
  }

  /** The instructions executed in a step, and in a run. */
  function ExecutedIn(s: Board, e: Event): seq<Io> {
    if Executes(s, e) then UpToTrap(e.ios) else []
  }

  function Executed(es: seq<Event>): seq<Io>
    decreases |es|
  {
    if es == [] then []
    else
      var n := |es| - 1;
      Executed(es[..n]) + ExecutedIn(Run(PowerOn(), es[..n]), es[n])
  }

  datatype Access = Access(port: nat, input: bool)

  /** The trapping ones among some instructions, with their ports as the board latches them. */
  function Trapping(ios: seq<Io>): seq<Access> {
    if ios == [] then []
    else (if Traps(ios[0]) then [Access(ios[0].port % 1024, ios[0].input)] else []) + Trapping(ios[1..])
  }

  /** The traps of the history that the 286 caused. */
  function Caused(log: seq<Trap>): seq<Access>
    decreases |log|
  {
    if log == [] then []
    else
      var t := log[|log| - 1];
      Caused(log[..|log| - 1]) + if t.synthetic then [] else [Access(t.port, t.input)]
  }

  lemma CausedNext(log: seq<Trap>, t: Trap)
    ensures Caused(log + [t]) == Caused(log) + if t.synthetic then [] else [Access(t.port, t.input)]
  {
    assert (log + [t])[..|log|] == log;
  }

  lemma {:induction false} TrappingJoin(a: seq<Io>, b: seq<Io>)
    ensures Trapping(a + b) == Trapping(a) + Trapping(b)
  {
    hide Traps;
    if a == [] {
      assert a + b == b;
    } else {
      var head := if Traps(a[0]) then [Access(a[0].port % 1024, a[0].input)] else [];
      assert (a + b)[1..] == a[1..] + b && (a + b)[0] == a[0];
      TrappingJoin(a[1..], b);
      assert head + (Trapping(a[1..]) + Trapping(b)) == (head + Trapping(a[1..])) + Trapping(b);
    }
  }

  /** Video output among some instructions: to the index or data port of either display, its mode port, or 0xbe. */
  predicate SetsUpVideo(ios: seq<Io>) {
    exists i :: 0 <= i < |ios| && !ios[i].input &&
                ios[i].port % 1024 in {0x3b4, 0x3b5, 0x3b8, 0x3d4, 0x3d5, 0x3d8, 0x0be}
  }

  lemma NothingExecuted()
    ensures !SetsUpVideo([]) && Trapping([]) == []
  {
  }

  lemma OwingKeepsLines(x: Lines, lines: nat, hash: nat)
    ensures var y := OweLines(x, lines, hash); y.frozen == x.frozen && y.pending == x.pending
  {
  }

  lemma TrapIsRecorded(s: Board, io: Io)
    requires Traps(io)
    ensures var t := X86Io(s, io);
            Caused(t.past.log) == Caused(s.past.log) + Trapping([io]) &&
            (t.past.programmed <==> s.past.programmed || SetsUpVideo([io]))
  {
    hide Caused;
    TrapsIs(io);
    var p := SawVideo(s, SetsVideo(io)).past;
    CausedNext(s.past.log, Trap(io.port % 1024, io.input, false, s.xb.pending, p.programmed, p.starved));
    assert [io][1..] == [] && [io][0] == io;
  }

  lemma PassingIsNoTrap(io: Io, ios: seq<Io>)
    requires !Traps(io)
    ensures Trapping([io] + ios) == Trapping(ios)
  {
    assert ([io] + ios)[1..] == ios;
  }

  lemma {:induction false} RunIsRecorded(s: Board, ios: seq<Io>)
    ensures var t := Run286(s, ios);
            Caused(t.past.log) == Caused(s.past.log) + Trapping(UpToTrap(ios)) &&
            (t.past.programmed <==> s.past.programmed || SetsUpVideo(UpToTrap(ios)))
    decreases |ios|
  {
    hide Caused, SetsUpVideo, Traps, PassesBy, X86Io, Trapping;
    NothingExecuted();
    if ios != [] {
      var io, rest := ios[0], ios[1..];
      TrapsIs(io);
      if Traps(io) {
        TrapIsRecorded(Running(s), io);
      } else {
        RunIsRecorded(Running(s), rest);
        PassingIsNoTrap(io, UpToTrap(rest));
        VideoJoin(io, UpToTrap(rest));
      }
    }
  }

  /** An instruction that passes sets up no video. */
  lemma VideoJoin(io: Io, ios: seq<Io>)
    requires !Traps(io)
    ensures SetsUpVideo([io] + ios) <==> SetsUpVideo(ios)
  {
    if i :| 0 <= i < |ios| && !ios[i].input &&
            ios[i].port % 1024 in {0x3b4, 0x3b5, 0x3b8, 0x3d4, 0x3d5, 0x3d8, 0x0be}
    {
      assert ([io] + ios)[i + 1] == ios[i];
    }
  }

  /** Has the 286 set up video since it was last reset: by the board's reset, by a rising edge of D0 while configured,
      or by the resume that configures the board? */
  predicate Programmed(es: seq<Event>)
    decreases |es|
  {
    es != [] &&
    var n := |es| - 1;
    var s, e := Run(PowerOn(), es[..n]), es[n];
    var kept := Programmed(es[..n]) && !e.ResetAll? &&
                !(e.WriteA? && s.xb.configured && !s.xb.din && e.v % 2 == 1) &&
                !(e.WriteB? && !s.xb.setup && !s.xb.configured);
    kept || SetsUpVideo(ExecutedIn(s, e))
  }

  /** What a step adds to the history. */
  lemma StepIsRecorded(s: Board, e: Event)
    ensures var t := Step(s, e);
            Caused(t.past.log) == Caused(s.past.log) + Trapping(ExecutedIn(s, e)) &&
            (t.past.programmed <==>
             (s.past.programmed && !e.ResetAll? && !(e.WriteA? && s.xb.configured && !s.xb.din && e.v % 2 == 1) &&
              !(e.WriteB? && !s.xb.setup && !s.xb.configured)) ||
             SetsUpVideo(ExecutedIn(s, e)))
  {
    hide Run286, RefreshSafePort, OweLines, UpToTrap, Caused, Trapping, SetsUpVideo;
    NothingExecuted();
    match e
    case WriteB(chip, ios) =>
      var t := Resume(s);
      RunIsRecorded(t, ios);
      FireIsRecorded(t, chip);
    case Tick(lines, hash, chip, slice, ios) =>
      var t := s.(xb := OweLines(s.xb, lines, hash));
      OwingKeepsLines(s.xb, lines, hash);
      RunIsRecorded(t, ios);
      FireIsRecorded(t, chip);
    case _ =>
  }

  lemma FireIsRecorded(s: Board, chip: bool)
    ensures var t := FireRefresh(s, chip);
            Caused(t.past.log) == Caused(s.past.log) && t.past.programmed == s.past.programmed
  {
    if chip { CausedNext(s.past.log, Trap(0x3d5, false, true, s.xb.pending, s.past.programmed, s.past.starved)); }
  }

  /** Over every run, the traps that are not synthetic are those of the instructions the 286 executed, in order, each
      with the instruction's direction and the low ten bits of its port; and video counts as programmed exactly if the
      286 has set it up since its last reset. */
  lemma {:induction false} EveryTrapIsExecuted(es: seq<Event>)
    ensures var t := Run(PowerOn(), es);
            Caused(t.past.log) == Trapping(Executed(es)) && (t.past.programmed <==> Programmed(es))
    decreases |es|
  {
    hide Step, ExecutedIn, SetsUpVideo, Trapping;
    if es == [] {
      NothingExecuted();
    } else {
      var n := |es| - 1;
      EveryTrapIsExecuted(es[..n]);
      var s := Run(PowerOn(), es[..n]);
      StepIsRecorded(s, es[n]);
      TrappingJoin(Executed(es[..n]), ExecutedIn(s, es[n]));
    }
  }

  // ----- the refresh timer -----

  /** `n` lines of frames of `lines` lines, all with the text whose hash is `hash`. */
  function After(c: Clock, lines: nat, hash: nat, n: nat): Clock {
    if n == 0 then c else Ticked(After(c, lines, hash, n - 1), lines, hash)
  }

  /** After a refresh, a text that does not change is next refreshed at the end of the 25th frame. */
  lemma {:induction false} RefreshedEvery25Frames(lines: nat, hash: nat, n: nat)
    requires lines > 0 && n < 25 * lines
    ensures After(Clock(0, hash, 0), lines, hash, n) == Clock(n % lines, hash, n / lines)
    ensures Owed(After(Clock(0, hash, 0), lines, hash, n), lines, hash) <==> n == 25 * lines - 1
  {
    Numbers.DivisionBounds(n, lines);
    Numbers.QuotientBelow(n, 25, lines);
    if n > 0 {
      var m := n - 1;
      RefreshedEvery25Frames(lines, hash, m);
      Numbers.DivisionBounds(m, lines);
      if m % lines + 1 < lines {
        Numbers.DivisionIsUnique(lines, m / lines, m % lines + 1);
      } else {
        Numbers.Distribute(lines, m / lines, -1);
        Numbers.DivisionIsUnique(lines, m / lines + 1, 0);
      }
    } else {
      Numbers.DivisionIsUnique(lines, 0, 0);
    }
    LastOfFrames(lines, n);
  }

  lemma LastOfFrames(lines: nat, n: nat)
    requires lines > 0 && n < 25 * lines
    ensures n % lines + 1 >= lines && n / lines + 1 >= 25 <==> n == 25 * lines - 1
  {
    Numbers.DivisionBounds(n, lines);
    Numbers.QuotientBelow(n, 25, lines);
    if n == 25 * lines - 1 { Numbers.DivisionIsUnique(lines, 24, lines - 1); }
  }

  /** A refresh that comes due shows itself as output to port 0x3d5. */
  lemma RefreshIsOutput(s: Board)
    ensures var t := FireRefresh(s, true);
            t.xb.pending && t.xb.frozen && t.xb.port == 0x3d5 && !t.xb.input && t.xb.fake && !t.xb.due
  {
  }

  lemma {:induction false} RunKeepsFake(s: Board, ios: seq<Io>)
    ensures Run286(s, ios).xb.fake == s.xb.fake
    decreases |ios|
  {
    hide PassesBy, SetsVideo;
    if ios != [] && PassesBy(ios[0]) { RunKeepsFake(Running(s), ios[1..]); }
  }

  /** A refresh that is due when a real trap is resumed takes the place of the run, unless the trap was at one of the
      video registers that the refresh itself goes through, or at a disk port. */
  lemma RefreshAfterResume(s: Board, chip: bool, ios: seq<Io>)
    requires s.xb.configured && !s.xb.setup && !s.xb.fake
    ensures PortBWrite(s, chip, ios).xb.fake <==>
            chip && s.xb.due && s.xb.port !in {0x3d4, 0x3d5, 0x3b4, 0x3b5} &&
            !(0xb0 <= s.xb.port < 0xc0) && !(0x1f0 <= s.xb.port < 0x1f8) && !(0x3f0 <= s.xb.port < 0x400)
  {
    hide Run286;
    RunKeepsFake(Resume(s), ios);
  }

  /** What writes to the two ports set: PORT_A, bit 0, its rising edge and bit 1; PORT_B in set-up mode and out of it.
      */
  lemma PortBits(s: Board, v: nat, chip: bool)
    ensures var x, y := s.xb, PortAWrite(s, v).xb;
            var edge := x.configured && v % 2 == 1 && !x.din;
            y == x.(din := v % 2 == 1, setup := v / 2 % 2 == 1, inReset := x.inReset || edge,
                    videoSet := x.videoSet && !edge, due := x.due && !edge)
    ensures s.xb.setup ==> PortBWrite(s, chip, []).xb == s.xb.(inReset := false)
    ensures !s.xb.setup && !s.xb.configured ==>
            PortBWrite(s, chip, []).xb ==
            s.xb.(configured := true, fake := false, frozen := false, stopped := false, pending := false,
                  inReset := false, videoSet := false, due := false)
  {
  }
}
