/**
 The queue between the host's network thread and the emulation thread (a2065.cpp:157-164, 537-567, 618-663).

 `ReceiveQueue` is the circular buffer with its two indices.  Below it, the two threads are a step relation:
 each step is one critical section of the program, and the steps of the two threads interleave freely.
 */
module A2065Queue {
  import opened A2065Ram
  import Rx = A2065Receive
  import Card = A2065Card
  import M = A2065Munge
  import opened Numbers

  type Frame = seq<Byte>

  const SLOTS := 256
  const MAX := MAX_PACKET_SIZE

  // ----- the circular buffer -----

  /** Frame data and frame lengths, slot by slot. */
  predicate Shaped(buffer: seq<Byte>, sizes: seq<nat>) {
    |buffer| == SLOTS * MAX && |sizes| == SLOTS && forall i :: 0 <= i < SLOTS ==> sizes[i] <= MAX
  }

  function Slot(buffer: seq<Byte>, sizes: seq<nat>, i: nat): Frame
    requires Shaped(buffer, sizes) && i < SLOTS
  {
    buffer[i * MAX..i * MAX + sizes[i]]
  }

  /** `n` slots from `i` on, going round. */
  function Frames(buffer: seq<Byte>, sizes: seq<nat>, i: nat, n: nat): (q: seq<Frame>)
    requires Shaped(buffer, sizes) && i < SLOTS
    ensures |q| == n
    decreases n
  {
    if n == 0 then [] else [Slot(buffer, sizes, i)] + Frames(buffer, sizes, (i + 1) % SLOTS, n - 1)
  }

  function Count(read: nat, write: nat): nat
    requires read < SLOTS && write < SLOTS
  {
    if read <= write then write - read else write + SLOTS - read
  }

  /** The first frame and the rest. */
  lemma FramesStep(buffer: seq<Byte>, sizes: seq<nat>, i: nat, n: nat)
    requires Shaped(buffer, sizes) && i < SLOTS && n > 0
    ensures Frames(buffer, sizes, i, n) == [Slot(buffer, sizes, i)] + Frames(buffer, sizes, (i + 1) % SLOTS, n - 1)
  {
    hide Slot, Shaped;
  }

  lemma {:induction false} FramesAppend(buffer: seq<Byte>, sizes: seq<nat>, i: nat, n: nat)
    requires Shaped(buffer, sizes) && i < SLOTS
    ensures Frames(buffer, sizes, i, n + 1) == Frames(buffer, sizes, i, n) + [Slot(buffer, sizes, (i + n) % SLOTS)]
    decreases n
  {
    hide Slot, Shaped;
    if n > 0 {
      FramesAppend(buffer, sizes, (i + 1) % SLOTS, n - 1);
      hide Frames;
      Numbers.ModAdd(SLOTS, i + 1, n - 1);
      FramesStep(buffer, sizes, i, n + 1);
      FramesStep(buffer, sizes, i, n);
    } else {
      FramesStep(buffer, sizes, i, 1);
    }
  }

  /** Overwriting a slot does not change the frames in the others. */
  lemma {:induction false} FramesSame(b1: seq<Byte>, s1: seq<nat>, b2: seq<Byte>, s2: seq<nat>, w: nat, i: nat, n: nat)
    requires Shaped(b1, s1) && Shaped(b2, s2) && i < SLOTS && w < SLOTS && n < SLOTS
    requires forall j :: 0 <= j < SLOTS && j != w ==> s1[j] == s2[j]
    requires forall j :: 0 <= j < |b1| && !(w * MAX <= j < w * MAX + MAX) ==> b1[j] == b2[j]
    requires if i <= w then i + n <= w else i + n <= w + SLOTS
    ensures Frames(b1, s1, i, n) == Frames(b2, s2, i, n)
    decreases n
  {
    if n > 0 {
      assert i * MAX + MAX <= w * MAX || w * MAX + MAX <= i * MAX;
      assert Slot(b1, s1, i) == Slot(b2, s2, i);
      FramesSame(b1, s1, b2, s2, w, (i + 1) % SLOTS, n - 1);
    }
  }

  /** A frame written to the first free slot comes after the others. */
  lemma FramesEnqueued(b0: seq<Byte>, s0: seq<nat>, b1: seq<Byte>, s1: seq<nat>, read: nat, w: nat, frame: Frame)
    requires Shaped(b0, s0) && |b1| == |b0| && read < SLOTS && w < SLOTS && (w + 1) % SLOTS != read && |frame| <= MAX
    requires s1 == s0[w := |frame|] && b1[w * MAX..w * MAX + |frame|] == frame
    requires forall j :: 0 <= j < |b0| && !(w * MAX <= j < w * MAX + MAX) ==> b0[j] == b1[j]
    ensures Shaped(b1, s1)
    ensures Frames(b1, s1, read, Count(read, (w + 1) % SLOTS)) == Frames(b0, s0, read, Count(read, w)) + [frame]
  {
    hide Frames;
    FramesSame(b0, s0, b1, s1, w, read, Count(read, w));
    FramesAppend(b1, s1, read, Count(read, w));
  }

  class ReceiveQueue {
    const buffer: array<Byte>
    const sizes: array<nat>
    var read: nat
    var write: nat

    ghost predicate Valid()
      reads this, buffer, sizes
    {
      Shaped(buffer[..], sizes[..]) && read < SLOTS && write < SLOTS
    }

    ghost function Contents(): (q: seq<Frame>)
      reads this, buffer, sizes
      requires Valid()
    {
      Frames(buffer[..], sizes[..], read, Count(read, write))
    }

    constructor ()
      ensures Valid() && Contents() == []
      ensures fresh(buffer) && fresh(sizes)
    {
      buffer := new Byte[SLOTS * MAX](_ => 0);
      sizes := new nat[SLOTS](_ => 0);
      read, write := 0, 0;
    }

    /** receive_queue_clear. */
    method Clear()
      requires Valid()
      modifies this
      ensures Valid() && Contents() == []
    {
      read, write := 0, 0;
    }

    /** receive_queue_peek_size: the length of the oldest frame, 0 if there is none. */
    method PeekSize() returns (size: nat)
      requires Valid()
      ensures size == if Contents() == [] then 0 else |Contents()[0]|
    {
      size := 0;
      if read != write { size := sizes[read]; }
    }

    /** receive_queue_pop. */
    method Pop() returns (got: bool, data: Frame)
      requires Valid()
      modifies `read
      ensures Valid() && got == (old(Contents()) != [])
      ensures if got then old(Contents()) == [data] + Contents() else Contents() == old(Contents())
    {
      got, data := false, [];
      if read != write {
        data := buffer[read * MAX..read * MAX + sizes[read]];
        assert data == Slot(buffer[..], sizes[..], read);
        read := (read + 1) % SLOTS;
        got := true;
      }
    }

    /** The critical section of gotfunc: append a frame, unless only one slot is left. */
    method Enqueue(frame: Frame) returns (kept: bool)
      requires Valid() && 0 < |frame| <= MAX
      modifies this, buffer, sizes
      ensures Valid() && kept == (|old(Contents())| < 255)
      ensures Contents() == if kept then old(Contents()) + [frame] else old(Contents())
    {
      hide Frames, Slot;
      var next := (write + 1) % SLOTS;
      if next == read { return false; }
      ghost var b0, s0, w := buffer[..], sizes[..], write;
      CopyTo(write * MAX, frame);
      sizes[write] := |frame|;
      write := next;
      kept := true;
      FramesEnqueued(b0, s0, buffer[..], sizes[..], read, w, frame);
    }

    method CopyTo(offset: nat, frame: Frame)
      requires offset + |frame| <= buffer.Length
      modifies buffer
      ensures buffer[offset..offset + |frame|] == frame
      ensures forall j :: 0 <= j < buffer.Length && !(offset <= j < offset + |frame|) ==> buffer[j] == old(buffer[j])
    {
      var i := 0;
      while i < |frame|
        invariant i <= |frame|
        invariant forall j :: 0 <= j < i ==> buffer[offset + j] == frame[j]
        invariant forall j :: 0 <= j < buffer.Length && !(offset <= j < offset + i) ==> buffer[j] == old(buffer[j])
      {
        buffer[offset + i] := frame[i];
        i := i + 1;
      }
    }
  }

  // ----- two threads -----

  /** The receive side of the card: ring, receiver settings, frame filter, RAM and ring position. */
  datatype Board = Board(k: Ring, o: Rx.Mode, f: Card.Filter, ram: Ram, pos: nat)

  predicate Fits(b: Board, len: nat) { Rx.CanFit(b.k, b.o, b.ram, b.pos, len) }

  predicate HasSpace(b: Board, len: nat) { Rx.SpaceAvailable(b.k, b.o, b.ram, b.pos, len) }

  /** Where the emulation thread is in receive_queue_drain: round, size peeked, and (for the proof) the frame it was. */
  datatype Phase =
    | Idle
    | Looking(round: nat)
    | Peeked(round: nat, len: nat, seen: Frame)
    | Dropping(round: nat, len: nat, seen: Frame)
    | Taking(round: nat, len: nat, seen: Frame)
    | Holding(round: nat, frame: Frame, seen: Frame)

  datatype Fate = Delivered | Dropped | Flushed

  datatype Sys = Sys(board: Board, queue: seq<Frame>, phase: Phase, arrived: seq<Frame>, log: seq<(Frame, Fate)>)

  const DRAIN_LIMIT := 16

  datatype Event =
    | Arrive(frame: Frame)   // host thread: gotfunc
    | Begin                  // emulation thread: the drain is called
    | Peek
    | Judge
    | Pop
    | Handle(stale: seq<Byte>, board: Board)  // the bytes behind the frame in gotfunc2's buffer; what becomes of the
                                              // board if the address exchange leaves that buffer
    | Flush                  // emulation thread: the queue is cleared
    | Guest(board: Board)    // emulation thread: the guest machine or the chip's set-up changes anything

  /** gotfunc2, from the outside. */
  function Got(b: Board, frame: Frame, stale: seq<Byte>, crc: seq<Byte> -> seq<Byte>): Board {
    var data := Card.OnTheBoard(b.o, b.f, frame, stale, crc);
    if !Card.Taken(b.o, b.f, frame) || b.k.len == 0 || |data| >= 65536 then b
    else
      match Rx.Deliver(b.k, b.ram, b.pos, data, 0)
      case Delivered(ram, pos) => b.(ram := ram, pos := pos)
      case RanOut(ram, pos, _) => b.(ram := ram, pos := pos)
  }

  /** The frame is not kept, or its exchange stays in the packet buffer. */
  predicate InsideBuffer(b: Board, frame: Frame, stale: seq<Byte>) {
    Card.Kept(b.o, b.f, frame) ==> M.StaysInside(b.f.macs, frame + stale)
  }

  function NextRound(i: nat): Phase { if i + 1 < DRAIN_LIMIT then Looking(i + 1) else Idle }

  /** One step; an event that its thread cannot take where it stands changes nothing. */
  function Step(s: Sys, e: Event, crc: seq<Byte> -> seq<Byte>): Sys {
    match e
    case Arrive(frame) =>
      if s.board.o.ready && s.board.o.rxon && 0 < |frame| <= MAX && |s.queue| < SLOTS - 1 then
        s.(queue := s.queue + [frame], arrived := s.arrived + [frame])
      else s
    case Begin => if s.phase.Idle? then s.(phase := Looking(0)) else s
    case Peek =>
      if !s.phase.Looking? then s
      else if s.queue == [] then s.(phase := Idle)
      else s.(phase := Peeked(s.phase.round, |s.queue[0]|, s.queue[0]))
    case Judge =>
      if !s.phase.Peeked? then s
      else
        var Peeked(i, len, seen) := s.phase;
        if !Fits(s.board, len) then s.(phase := Dropping(i, len, seen))
        else if !HasSpace(s.board, len) then s.(phase := Idle)
        else s.(phase := Taking(i, len, seen))
    case Pop =>
      if !(s.phase.Dropping? || s.phase.Taking?) then s
      else if s.queue == [] then s.(phase := Idle)
      else if s.phase.Dropping? then
        s.(queue := s.queue[1..], phase := NextRound(s.phase.round), log := s.log + [(s.queue[0], Dropped)])
      else
        s.(queue := s.queue[1..], phase := Holding(s.phase.round, s.queue[0], s.phase.seen))
    case Handle(stale, b) =>
      if !s.phase.Holding? || |s.phase.frame| + |stale| != MAX then s
      else
        s.(board := if InsideBuffer(s.board, s.phase.frame, stale) then Got(s.board, s.phase.frame, stale, crc) else b,
           phase := NextRound(s.phase.round),
           log := s.log + [(s.phase.frame, Delivered)])
    case Flush => if s.phase.Idle? then s.(queue := [], log := s.log + Flushes(s.queue)) else s
    case Guest(b) => if s.phase.Idle? then s.(board := b) else s
  }

  function Flushes(q: seq<Frame>): (r: seq<(Frame, Fate)>)
    ensures |r| == |q|
  {
    if q == [] then [] else [(q[0], Flushed)] + Flushes(q[1..])
  }

  function Run(s: Sys, es: seq<Event>, crc: seq<Byte> -> seq<Byte>): Sys
    decreases |es|
  {
    if es == [] then s else Run(Step(s, es[0], crc), es[1..], crc)
  }

  function Start(b: Board): Sys { Sys(b, [], Idle, [], []) }

  function Logged(log: seq<(Frame, Fate)>): (r: seq<Frame>)
    ensures |r| == |log|
  {
    if log == [] then [] else [log[0].0] + Logged(log[1..])
  }

  function InHand(p: Phase): seq<Frame> { if p.Holding? then [p.frame] else [] }

  /** Every accepted frame is delivered, dropped, flushed, in hand or queued, once, and in the order of arrival; what
      was peeked is still the oldest; what is taken has been tested against the ring as it now stands. */
  predicate Inv(s: Sys) {
    s.arrived == Logged(s.log) + InHand(s.phase) + s.queue &&
    |s.queue| < SLOTS && (forall i :: 0 <= i < |s.queue| ==> 0 < |s.queue[i]| <= MAX) &&
    match s.phase
    case Idle => true
    case Looking(i) => i < DRAIN_LIMIT
    case Peeked(i, len, seen) => i < DRAIN_LIMIT && s.queue != [] && s.queue[0] == seen && |seen| == len
    case Dropping(i, len, seen) =>
      i < DRAIN_LIMIT && s.queue != [] && s.queue[0] == seen && |seen| == len && !Fits(s.board, len)
    case Taking(i, len, seen) =>
      i < DRAIN_LIMIT && s.queue != [] && s.queue[0] == seen && |seen| == len && HasSpace(s.board, len)
    case Holding(i, frame, seen) =>
      i < DRAIN_LIMIT && frame == seen && 0 < |frame| <= MAX && HasSpace(s.board, |frame|)
  }

  lemma {:induction false} LoggedAppend(log: seq<(Frame, Fate)>, more: seq<(Frame, Fate)>)
    ensures Logged(log + more) == Logged(log) + Logged(more)
    decreases |log|
  {
    if log == [] {
      assert log + more == more;
    } else {
      assert (log + more)[1..] == log[1..] + more;
      LoggedAppend(log[1..], more);
    }
  }

  lemma {:induction false} LoggedFlushes(q: seq<Frame>)
    ensures Logged(Flushes(q)) == q
  {
    if q != [] {
      assert Flushes(q)[1..] == Flushes(q[1..]);
      LoggedFlushes(q[1..]);
    }
  }

  lemma LoggedOne(log: seq<(Frame, Fate)>, frame: Frame, fate: Fate)
    ensures Logged(log + [(frame, fate)]) == Logged(log) + [frame]
  {
    LoggedAppend(log, [(frame, fate)]);
    assert Logged([(frame, fate)]) == [frame] + Logged([]);
  }

  /** An arriving frame is queued if the receiver is initialised and on, its length is between 1 and 4000, and fewer
      than 255 frames wait. */
  lemma Arrival(s: Sys, frame: Frame, crc: seq<Byte> -> seq<Byte>)
    ensures var t := Step(s, Arrive(frame), crc);
            if s.board.o.ready && s.board.o.rxon && 0 < |frame| <= 4000 && |s.queue| < 255 then
              t == s.(queue := s.queue + [frame], arrived := s.arrived + [frame])
            else t == s
  {
  }

  /** One round of the drain, if nothing comes between its steps: the oldest frame is dropped if the ring could never
      hold it, left for later if there is no space for it now, and handed on otherwise.  There are at most 16 rounds. */
  lemma OneRound(s: Sys, stale: seq<Byte>, b: Board, crc: seq<Byte> -> seq<Byte>)
    requires s.phase.Looking? && s.queue != [] && |s.queue[0]| + |stale| == 4000
    ensures var t := Run(s, [Peek, Judge, Pop, Handle(stale, b)], crc);
            var frame, next := s.queue[0], if s.phase.round < 15 then Looking(s.phase.round + 1) else Idle;
            if !Fits(s.board, |frame|) then
              t == s.(queue := s.queue[1..], phase := next, log := s.log + [(frame, Dropped)])
            else if !HasSpace(s.board, |frame|) then t == s.(phase := Idle)
            else
              t == s.(queue := s.queue[1..], phase := next, log := s.log + [(frame, Delivered)],
                      board := if InsideBuffer(s.board, frame, stale) then Got(s.board, frame, stale, crc) else b)
  {
    hide Fits, HasSpace, Got, InsideBuffer;
    RunFour(s, Peek, Judge, Pop, Handle(stale, b), crc);
  }

  lemma RunFour(s: Sys, e1: Event, e2: Event, e3: Event, e4: Event, crc: seq<Byte> -> seq<Byte>)
    ensures Run(s, [e1, e2, e3, e4], crc) == Step(Step(Step(Step(s, e1, crc), e2, crc), e3, crc), e4, crc)
  {
    hide Step;
    assert [e1, e2, e3, e4][1..] == [e2, e3, e4] && [e2, e3, e4][1..] == [e3, e4] && [e3, e4][1..] == [e4];
    assert [e4][1..] == [];
    var s1 := Step(s, e1, crc);
    var s2 := Step(s1, e2, crc);
    var s3 := Step(s2, e3, crc);
    assert Run(s3, [e4], crc) == Run(Step(s3, e4, crc), [], crc);
    assert Run(s2, [e3, e4], crc) == Run(s3, [e4], crc);
    assert Run(s1, [e2, e3, e4], crc) == Run(s2, [e3, e4], crc);
  }

  lemma PopKeepsInv(s: Sys, crc: seq<Byte> -> seq<Byte>)
    requires Inv(s)
    ensures Inv(Step(s, Pop, crc))
  {
    hide Fits, HasSpace, Got, Logged, Flushes;
    if s.phase.Dropping? { LoggedOne(s.log, s.queue[0], Dropped); }
  }

  lemma StepKeepsInv(s: Sys, e: Event, crc: seq<Byte> -> seq<Byte>)
    requires Inv(s)
    ensures Inv(Step(s, e, crc))
  {
    hide Fits, HasSpace, Got, InsideBuffer, Logged, Flushes;
    match e
    case Arrive(frame) =>
      assert Logged(s.log) + InHand(s.phase) + (s.queue + [frame]) ==
             Logged(s.log) + InHand(s.phase) + s.queue + [frame];
    case Pop => PopKeepsInv(s, crc);
    case Handle(_, _) =>
      if s.phase.Holding? { LoggedOne(s.log, s.phase.frame, Delivered); }
    case Flush =>
      LoggedAppend(s.log, Flushes(s.queue));
      LoggedFlushes(s.queue);
    case _ =>
  }

  /** In every interleaving. */
  lemma {:induction false} RunKeepsInv(s: Sys, es: seq<Event>, crc: seq<Byte> -> seq<Byte>)
    requires Inv(s)
    ensures Inv(Run(s, es, crc))
    decreases |es|
  {
    if es != [] {
      StepKeepsInv(s, es[0], crc);
      RunKeepsInv(Step(s, es[0], crc), es[1..], crc);
    }
  }

  /** Whatever happens before, the frame handed to gotfunc2 is the one that was peeked and tested, and the next one in
      the order of arrival. */
  lemma HandledInOrder(b: Board, es: seq<Event>, crc: seq<Byte> -> seq<Byte>)
    ensures var s := Run(Start(b), es, crc);
            s.phase.Holding? ==>
              s.phase.frame == s.phase.seen && HasSpace(s.board, |s.phase.frame|) && |s.log| < |s.arrived| &&
              s.arrived[|s.log|] == s.phase.frame
  {
    hide HasSpace;
    assert Inv(Start(b)) by { assert Logged([]) + [] + [] == []; }
    RunKeepsInv(Start(b), es, crc);
    var s := Run(Start(b), es, crc);
    if s.phase.Holding? {
      assert (Logged(s.log) + [s.phase.frame] + s.queue)[|s.log|] == s.phase.frame;
    }
  }

  /** If gotfunc2 keeps the frame, the address exchange stays in the packet buffer and the ring's buffers are laid out
      sanely, it is delivered whole. */
  lemma HandledFrameArrives(s: Sys, stale: seq<Byte>, crc: seq<Byte> -> seq<Byte>)
    requires Inv(s) && s.phase.Holding? && Card.Taken(s.board.o, s.board.f, s.phase.frame)
    requires |s.phase.frame| + |stale| == MAX && M.StaysInside(s.board.f.macs, s.phase.frame + stale)
    requires |crc(M.Munge(s.board.f.macs, s.phase.frame + stale)[..|s.phase.frame|])| == 4
    requires RingOk(s.board.k) && Roomy(s.board, Card.OnTheBoard(s.board.o, s.board.f, s.phase.frame, stale, crc))
    ensures Arrives(s.board, Card.OnTheBoard(s.board.o, s.board.f, s.phase.frame, stale, crc))
  {
    hide Card.Taken, Rx.Deliver, Rx.Success, Rx.Scatter, Rx.Run, Rx.Apart, RingOk, M.Munge, M.StaysInside, Logged;
    var c := s.board;
    Card.GuardedFrameArrives(c.k, c.o, c.f, c.ram, c.pos, s.phase.frame, stale, crc);
  }

  /** The buffers a frame will use keep clear of each other and of the descriptors. */
  predicate Roomy(b: Board, data: seq<Byte>) {
    b.k.len > 0 && Rx.Apart(b.k, Rx.Scatter(b.k, b.ram, b.pos, |data|), b.pos, Rx.Run(b.k, b.ram, b.pos, |data|))
  }

  predicate Arrives(b: Board, data: seq<Byte>) {
    b.k.len > 0 && 0 < |data| < 65536 && Rx.Success(b.k, b.ram, b.pos, data, 0, Rx.Deliver(b.k, b.ram, b.pos, data, 0))
  }
}
