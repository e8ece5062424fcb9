/**
 Akiko's CD command and response machine (akiko.cpp:824-903, 1138-1293, 1380-1454, 1796-1808, 1973-1998).

 Commands come in byte by byte, through the data register (PIO) or from a 256-byte page by transmit DMA;
 response packets leave through the same register or into another page by receive DMA.  The drive behind the
 interface, the CPU and the guest's memory may do anything between two steps.
 */
module AkikoCd {
  import opened Numbers

  type Page = p: seq<Byte> | |p| == 256 witness seq(256, _ => 0)

  // "CHINON  O-658-2 24"
  const FIRMWARE: seq<Byte> := [67, 72, 73, 78, 79, 78, 32, 32, 79, 45, 54, 53, 56, 45, 50, 32, 50, 52]

  // ----- commands and packets -----

  function Sum(bs: seq<Byte>): nat
    decreases |bs|
  {
    if bs == [] then 0 else Sum(bs[..|bs| - 1]) + bs[|bs| - 1]
  }

  predicate SumsToFF(bs: seq<Byte>) { Sum(bs) % 256 == 255 }

  /** Length of a command without its checksum, by its low nibble; -1 if there is no such command. */
  function Need(command: Byte): (n: int)
    ensures -1 <= n <= 12 && n != 0
  {
    [1, 2, 1, 1, 12, 2, 1, 1, 4, 1, 2, -1, -1, -1, -1, -1][command % 16]
  }

  /** Bytes that make the command complete: an unknown command is complete at once and has no checksum. */
  function Full(command: Byte): (n: nat)
    ensures 1 <= n <= 13
  {
    if Need(command) < 0 then 1 else Need(command) + 1
  }

  predicate Complete(c: seq<Byte>) { c != [] && |c| == Full(c[0]) }

  /** The response to a good command before its checksum; `body` is what the drive has to say. */
  function Answer(c: seq<Byte>, body: Tail): (a: seq<Byte>)
    requires Complete(c) && Need(c[0]) > 0
    ensures |a| <= 20
  {
    match c[0] % 16
    case 0 => [c[0]]
    case 1 => [c[0], body[0]]
    case 2 => [c[0], body[0]]
    case 3 => [c[0], body[0]]
    case 4 => [c[0], body[0]]
    case 5 => if c[1] >= 128 then [c[0], c[1] % 2] else []
    case 6 => [c[0]] + body
    case 7 => [c[0], 1] + FIRMWARE
    case _ => []
  }

  const BAD_COMMAND: Byte := 0x81  // with the drawer bit, which never changes
  const BAD_CHECKSUM: Byte := 0x89

  function Complaint(command: Byte, error: Byte): (a: seq<Byte>)
    ensures |a| == 2
  {
    [command - command % 16 + 5, error]
  }

  /** What a complete command is owed; nothing for a command without a response. */
  function Owed(c: seq<Byte>, body: Tail): (a: seq<Byte>)
    requires Complete(c)
    ensures |a| <= 20
  {
    if Need(c[0]) < 0 then Complaint(c[0], BAD_COMMAND)
    else if !SumsToFF(c) then Complaint(c[0], BAD_CHECKSUM)
    else Answer(c, body)
  }

  /** Response bytes and the checksum byte after them. */
  function Seal(a: seq<Byte>): (p: seq<Byte>)
    ensures |p| == |a| + 1
  {
    a + [(255 - Sum(a)) % 256]
  }

  lemma SealedSumsToFF(a: seq<Byte>)
    ensures SumsToFF(Seal(a))
  {
    assert Seal(a)[..|a|] == a;
  }

  // ----- the response side -----

  /** cdrom_result_buffer with its length and read position, and the last byte read. */
  datatype Out = Out(result: seq<Byte>, len: nat, pos: nat, last: Byte)

  predicate OutOk(o: Out) { |o.result| == 32 && o.len <= 21 && (o.len > 0 ==> o.pos < o.len) }

  /** The part of the packet that nobody has read. */
  function Left(o: Out): seq<Byte>
    requires OutOk(o)
  {
    if o.len == 0 then [] else o.result[o.pos..o.len]
  }

  /** cdrom_start_return_data with len > 0 and nothing pending: seal the packet in the buffer. */
  function Start(o: Out, buffer: seq<Byte>, len: nat): (p: Out)
    requires |buffer| == 32 && 0 < len <= 20
    ensures OutOk(p) && p.len == len + 1
  {
    Out(buffer[len := (255 - Sum(buffer[..len])) % 256], len + 1, 0, o.last)
  }

  lemma StartedPacketIsPending(o: Out, a: seq<Byte>, rest: seq<Byte>)
    requires 0 < |a| <= 20 && |a| + |rest| == 32
    ensures Left(Start(o, a + rest, |a|)) == Seal(a)
  {
    assert (a + rest)[..|a|] == a;
    var p := Start(o, a + rest, |a|);
    assert p.result[..|a| + 1] == Seal(a);
  }

  /** One byte leaves the buffer. */
  function Next(o: Out): (p: Out)
    requires OutOk(o) && o.len > 0
    ensures OutOk(p) && Left(o) == [p.last] + Left(p)
  {
    var b := o.result[o.pos];
    Out(o.result, if o.pos + 1 == o.len then 0 else o.len, o.pos + 1, b)
  }

  // ----- the command side -----

  datatype In = In(cmd: seq<Byte>, len: nat, active: bool, badSum: bool, unknown: bool, command: Byte)

  predicate InOk(i: In) {
    |i.cmd| == 32 && if i.active then Decoded(i) else i.len == 0 || i.len < Full(i.cmd[0])
  }

  /** A command is complete, and the two error flags say what is wrong with it. */
  predicate Decoded(i: In)
    requires |i.cmd| == 32
  {
    i.command == i.cmd[0] && i.unknown == (Need(i.cmd[0]) < 0) &&
    i.badSum == (!i.unknown && !SumsToFF(i.cmd[..Full(i.cmd[0])]))
  }

  /** The part of the command that has come in. */
  function Current(i: In): (c: seq<Byte>)
    requires InOk(i)
    ensures i.active ==> Complete(c) && c[0] == i.command
  {
    if i.active then i.cmd[..Full(i.cmd[0])] else i.cmd[..i.len]
  }

  /** cdrom_add_command_byte. */
  function AddByte(i: In, b: Byte): (j: In)
    requires InOk(i) && !i.active
    ensures InOk(j)
  {
    var cmd := i.cmd[i.len := b];
    var len := i.len + 1;
    if Need(cmd[0]) < 0 then In(cmd, len, true, false, true, cmd[0])
    else if Need(cmd[0]) + 1 > len then In(cmd, len, false, false, false, cmd[0])
    else In(cmd, Need(cmd[0]), true, !SumsToFF(cmd[..Need(cmd[0]) + 1]), false, cmd[0])
  }

  lemma AddedByteIsLast(i: In, b: Byte)
    requires InOk(i) && !i.active
    ensures Current(AddByte(i, b)) == Current(i) + [b]
  {
    hide SumsToFF;
    var cmd := i.cmd[i.len := b];
    assert cmd[..i.len + 1] == i.cmd[..i.len] + [b];
  }

  /** What cdrom_run_command_run writes: by the error flags, or else the command's own response. */
  function Response(i: In, body: Tail): (a: seq<Byte>)
    requires InOk(i) && i.active
    ensures |a| <= 20
  {
    if i.badSum || i.unknown then Complaint(i.command, if i.badSum then BAD_CHECKSUM else BAD_COMMAND)
    else Answer(Current(i), body)
  }

  lemma ResponseIsOwed(i: In, body: Tail)
    requires InOk(i) && i.active
    ensures Response(i, body) == Owed(Current(i), body)
  {
    hide SumsToFF, Answer;
  }

  // ----- the whole interface -----

  /** What the drive shows the interface at the moment. */
  datatype Drive = Drive(present: bool, media: bool, changed: bool, timeout: int, playing: int, toc: int, points: nat,
                         entry: Tail)

  type Tail = t: seq<Byte> | |t| == 14 witness [0, 0, 0, 0, 0, 0, 0, 0, 0, 0, 0, 0, 0, 0]

  /** cdrom_flags, cdrom_intreq, and the DMA indices and delays. */
  datatype Io = Io(rxd: bool, txd: bool, enable: bool, driveXmit: bool, driveRecv: bool, rxDone: bool, txDone: bool,
                   txinx: Byte, txcmp: Byte, rxinx: Byte, rxcmp: Byte, txDelay: nat, rxDelay: nat)

  /** History: commands with their responses, commands without one, and packets the drive sent by itself. */
  datatype Item = Reply(command: seq<Byte>, packet: seq<Byte>) | Silent(command: seq<Byte>) | Notice(packet: seq<Byte>)

  /** With the history: bytes out, bytes in, and what became of them. */
  datatype Cd = Cd(io: Io, out: Out, inn: In, initialized: nat, drive: Drive, rxPage: Page, txPage: Page,
                   consumed: seq<Byte>, taken: seq<Byte>, log: seq<Item>)

  /** What the drive does with a command: the data it returns and its state afterwards. */
  datatype Env = Env(body: Tail, after: Drive)

  predicate Ok(s: Cd) { OutOk(s.out) && InOk(s.inn) && (s.inn.active ==> s.out.len == 0) }

  /** One byte by receive DMA. */
  function MoveByte(s: Cd): (t: Cd)
    requires Ok(s) && s.out.len > 0
    ensures Ok(t) && t.inn == s.inn && t.log == s.log && t.taken == s.taken && t.out == Next(s.out)
  {
    var o := Next(s.out);
    var inx: Byte := (s.io.rxinx + 1) % 256;
    s.(out := o, rxPage := s.rxPage[s.io.rxinx := o.last], io := s.io.(rxinx := inx), consumed := s.consumed + [o.last])
  }

  /** Receive DMA: until the packet is out or the index meets its limit. */
  function Burst(s: Cd): (t: Cd)
    requires Ok(s) && s.out.len > 0
    ensures Ok(t) && t.inn == s.inn && t.log == s.log && t.taken == s.taken
    decreases s.out.len - s.out.pos
  {
    var t := MoveByte(s);
    if t.io.rxinx == t.io.rxcmp then t.(io := t.io.(rxDone := true))
    else if t.out.len == 0 then t
    else Burst(t)
  }

  /** cdrom_return_data. */
  function ReturnData(s: Cd): (t: Cd)
    requires Ok(s)
    ensures Ok(t) && t.inn == s.inn && t.log == s.log && t.taken == s.taken
  {
    if s.out.len == 0 || !s.io.rxd || s.io.rxinx == s.io.rxcmp || s.io.rxDelay > 0 then s
    else
      var t := Burst(s);
      if t.out.len == 0 then t.(out := t.out.(pos := 0), io := t.io.(driveRecv := false, driveXmit := true)) else t
  }

  predicate CanSend(s: Cd) { s.initialized > 0 && !s.inn.active && s.out.len == 0 }

  function Receive(s: Cd, b: Byte): (t: Cd)
    requires Ok(s) && CanSend(s)
    ensures Ok(t) && t.out == s.out && t.log == s.log && t.consumed == s.consumed
  {
    s.(inn := AddByte(s.inn, b), taken := s.taken + [b])
  }

  /** cdrom_run_command: one byte by transmit DMA. */
  function FetchByte(s: Cd): (t: Cd)
    requires Ok(s)
    ensures Ok(t) && t.out == s.out && t.log == s.log && t.consumed == s.consumed
  {
    if !s.io.txd || s.io.enable || s.io.txinx == s.io.txcmp || s.io.txDelay > 0 || !CanSend(s) then s
    else
      var t := Receive(s, s.txPage[s.io.txinx]);
      var inx: Byte := (s.io.txinx + 1) % 256;
      t.(io := t.io.(txinx := inx, txDone := t.io.txDone || inx == t.io.txcmp))
  }

  function Zeros(n: nat): (z: seq<Byte>)
    ensures |z| == n
  {
    seq(n, _ => 0)
  }

  /** A response to command `c`, in a cleared buffer. */
  function Respond(s: Cd, c: seq<Byte>, a: seq<Byte>): (t: Cd)
    requires Ok(s) && !s.inn.active && |a| <= 20 && s.out.len == 0
    ensures Ok(t) && t.inn == s.inn && t.consumed == s.consumed && t.taken == s.taken
  {
    if a == [] then
      s.(out := s.out.(result := Zeros(32)), io := s.io.(driveXmit := true), log := s.log + [Silent(c)])
    else
      s.(out := Start(s.out, a + Zeros(32 - |a|), |a|), io := s.io.(driveRecv := true),
         log := s.log + [Reply(c, Seal(a))])
  }

  /** cdrom_run_command_run, if a command is active; the drive answers with `e`. */
  function Execute(s: Cd, e: Env): (t: Cd)
    requires Ok(s)
    ensures Ok(t) && !t.inn.active && t.consumed == s.consumed && t.taken == s.taken
  {
    if !s.inn.active then s
    else
      var i := s.inn;
      var t := s.(inn := i.(len := 0, active := false));
      var u := if i.badSum || i.unknown then t
               else t.(drive := e.after, initialized := if i.command % 16 == 7 then 2 else s.initialized);
      Respond(u, Current(i), Response(i, e.body))
  }

  /** akiko_internal. */
  function Internal(s: Cd, e: Env): (t: Cd)
    requires Ok(s)
    ensures Ok(t) && !t.inn.active
  {
    Execute(FetchByte(ReturnData(s)), e)
  }

  // ----- packets the drive sends by itself -----

  /** If nothing is pending, as the handler has made sure. */
  function Notify(s: Cd, a: seq<Byte>): (t: Cd)
    requires Ok(s) && !s.inn.active && 0 < |a| <= 20
    ensures Ok(t) && t.inn == s.inn && t.consumed == s.consumed && t.taken == s.taken
  {
    s.(out := Start(s.out, a + s.out.result[|a|..], |a|), io := s.io.(driveRecv := true),
       log := s.log + [Notice(Seal(a))])
  }

  function MediaStatus(d: Drive): (a: seq<Byte>)
    ensures |a| == 2
  {
    [10, if d.media then 1 else 0]
  }

  /** A play that was to start, to end or to fail is reported, once. */
  function PlayNotice(d: Drive): (a: seq<Byte>)
    ensures a == [] || |a| == 2
  {
    if d.timeout == 1 || d.timeout == 2 then (if d.playing == 0 || d.playing == 1 then [4, 0x0b] else [])
    else if d.timeout == -1 then (if d.playing != 0 then [4, 1] else [])
    else if d.timeout == -2 then [4, 1]
    else if d.timeout == -3 then [4, 0x81]
    else []
  }

  function AfterPlayNotice(d: Drive): Drive {
    if d.timeout > 2 then d.(timeout := d.timeout - 1)
    else if d.timeout == 1 || d.timeout == 2 then d.(timeout := 0, playing := 2)
    else if d.timeout == -1 then d.(timeout := 0, playing := 0)
    else if d.timeout == -2 || d.timeout == -3 then d.(timeout := 0)
    else d
  }

  function NextToc(d: Drive): int {
    if d.points == 0 then d.toc else if (d.toc + 1) / 3 >= d.points then -1 else d.toc + 1
  }

  /** The packet the drive sends, if any, and its state afterwards; one table-of-contents entry per frame, each three
      times. */
  function Spontaneous(d: Drive, initialized: nat, frame: bool): (r: (seq<Byte>, Drive))
    ensures |r.0| <= 20
  {
    if initialized == 0 then (if d.media then MediaStatus(d) else [], d)
    else if initialized < 2 then ([], d)
    else if d.changed then (MediaStatus(d), d.(changed := false, toc := -1))
    else
      var e := AfterPlayNotice(d);
      if PlayNotice(d) != [] then (PlayNotice(d), e)
      else if e.toc >= 0 && frame then ([6] + e.entry, e.(toc := NextToc(e)))
      else ([], e)
  }

  /** akiko_handler. */
  function Handler(s: Cd, frame: bool): (t: Cd)
    requires Ok(s) && !s.inn.active
    ensures Ok(t) && t.inn == s.inn && t.consumed == s.consumed && t.taken == s.taken
  {
    if !s.drive.present || s.out.len > 0 then s
    else
      var (a, d) := Spontaneous(s.drive, s.initialized, frame);
      var t := s.(drive := d, initialized := if s.initialized == 0 then 1 else s.initialized);
      if a == [] then t else Notify(t, a)
  }

  // ----- steps -----

  datatype Event =
    | Touch                                          // an access to any other register
    | ReadData                                       // 0x28
    | WriteData(b: Byte)                             // 0x28
    | SetTx(cmp: Byte)                               // 0x1d
    | SetRx(cmp: Byte)                               // 0x1f
    | SetFlags(rxd: bool, txd: bool, enable: bool)   // 0x24
    | Hsync(frame: bool)
    | Guest(rxPage: Page, txPage: Page)              // the CPU writes to the pages or moves them
    | Backend(drive: Drive)                          // the drive's own thread

  /** The read of the data register. */
  function Take(s: Cd): (t: Cd)
    requires Ok(s)
    ensures Ok(t) && t.inn == s.inn && t.taken == s.taken && t.log == s.log
  {
    if !s.io.rxd && s.out.len > 0 then
      var o := Next(s.out);
      var t := s.(out := o, consumed := s.consumed + [o.last]);
      if o.len == 0 then t.(io := s.io.(driveRecv := false, driveXmit := true)) else t
    else s.(io := s.io.(driveRecv := false))
  }

  /** The write of the data register. */
  function Give(s: Cd, b: Byte): (t: Cd)
    requires Ok(s)
    ensures Ok(t) && t.out == s.out && t.consumed == s.consumed && t.log == s.log
  {
    if s.io.txd then s
    else if !CanSend(s) then s.(io := s.io.(driveXmit := false))
    else
      var t := Receive(s, b);
      t.(io := s.io.(driveXmit := CanSend(t)))
  }

  function Less(n: nat): nat { if n > 0 then n - 1 else 0 }

  /** What a register access does before akiko_internal is called. */
  function Access(s: Cd, ev: Event): (t: Cd)
    requires Ok(s)
    ensures Ok(t)
  {
    match ev
    case ReadData => Take(s)
    case WriteData(b) => Give(s, b)
    case SetTx(c) => s.(io := s.io.(txDone := false, txcmp := c, txDelay := 3))
    case SetRx(c) => s.(io := s.io.(rxDone := false, rxcmp := c, rxDelay := 3))
    case SetFlags(r, x, e) => s.(io := s.io.(rxd := r, txd := x, enable := e))
    case Hsync(_) => s.(io := s.io.(txDelay := Less(s.io.txDelay), rxDelay := Less(s.io.rxDelay)))
    case _ => s
  }

  /** One register access, one horizontal line, or something done by the outside world. */
  function Step(s: Cd, ev: Event, e: Env): (t: Cd)
    requires Ok(s) && !s.inn.active
    ensures Ok(t) && !t.inn.active
  {
    match ev
    case Guest(r, x) => s.(rxPage := r, txPage := x)
    case Backend(d) => s.(drive := d)
    case Hsync(frame) => Handler(Internal(Access(s, ev), e), frame)
    case _ => Internal(Access(s, ev), e)
  }

  function Run(s: Cd, es: seq<(Event, Env)>): (t: Cd)
    requires Ok(s) && !s.inn.active
    ensures Ok(t) && !t.inn.active
    decreases |es|
  {
    if es == [] then s else Step(Run(s, es[..|es| - 1]), es[|es| - 1].0, es[|es| - 1].1)
  }

  // ----- what every run keeps -----

  /** All packets that were started, one after the other. */
  function Packets(log: seq<Item>): seq<Byte>
    decreases |log|
  {
    if log == [] then []
    else
      var x := log[|log| - 1];
      Packets(log[..|log| - 1]) + if x.Silent? then [] else x.packet
  }

  /** All commands that were carried out, one after the other. */
  function Commands(log: seq<Item>): seq<Byte>
    decreases |log|
  {
    if log == [] then []
    else
      var x := log[|log| - 1];
      Commands(log[..|log| - 1]) + if x.Notice? then [] else x.command
  }

  predicate PacketOk(p: seq<Byte>) { 2 <= |p| <= 21 && SumsToFF(p) }

  /** A complete command has one packet, holding what it is owed, or none because it is owed none. */
  ghost predicate ItemOk(x: Item) {
    match x
    case Reply(c, p) => PacketOk(p) && Complete(c) && exists body :: p == Seal(Owed(c, body))
    case Silent(c) => Complete(c) && exists body :: Owed(c, body) == []
    case Notice(p) => PacketOk(p)
  }

  ghost predicate LogOk(log: seq<Item>) { forall i :: 0 <= i < |log| ==> ItemOk(log[i]) }

  /** Bytes read and bytes pending are the packets in order; bytes sent are the commands in order and the one coming
      in. */
  ghost predicate Inv(s: Cd) {
    Ok(s) && s.consumed + Left(s.out) == Packets(s.log) && s.taken == Commands(s.log) + Current(s.inn) && LogOk(s.log)
  }

  /** From `s` to `t` only pending bytes are read, in order, and what is not read stays. */
  predicate Drains(s: Cd, t: Cd)
    requires Ok(s) && Ok(t)
  {
    |s.consumed| <= |t.consumed| <= |s.consumed| + |Left(s.out)| &&
    var n := |t.consumed| - |s.consumed|;
    t.consumed == s.consumed + Left(s.out)[..n] && (n < |Left(s.out)| ==> Left(t.out) == Left(s.out)[n..])
  }

  lemma AppendPacket(log: seq<Item>, x: Item)
    ensures Packets(log + [x]) == Packets(log) + if x.Silent? then [] else x.packet
    ensures Commands(log + [x]) == Commands(log) + if x.Notice? then [] else x.command
  {
    assert (log + [x])[..|log|] == log;
  }

  lemma AppendOk(log: seq<Item>, x: Item)
    requires LogOk(log) && ItemOk(x)
    ensures LogOk(log + [x])
  {
    hide ItemOk;
  }

  /** The same packets, and more of them read. */
  predicate ReadsOn(s: Cd, t: Cd)
    requires Ok(s) && Ok(t)
  {
    s.consumed <= t.consumed && t.consumed + Left(t.out) == s.consumed + Left(s.out)
  }

  lemma NextReadsOn(s: Cd, t: Cd)
    requires Ok(s) && Ok(t) && s.out.len > 0 && t.out == Next(s.out) && t.consumed == s.consumed + [t.out.last]
    ensures ReadsOn(s, t)
  {
    hide Next, Left;
  }

  lemma {:induction false} BurstReadsOn(s: Cd)
    requires Ok(s) && s.out.len > 0
    ensures ReadsOn(s, Burst(s))
    decreases s.out.len - s.out.pos
  {
    hide Left, InOk;
    var t := MoveByte(s);
    NextReadsOn(s, t);
    if t.io.rxinx != t.io.rxcmp && t.out.len > 0 { BurstReadsOn(t); }
  }

  lemma EmptyStaysEmpty(o: Out)
    requires OutOk(o)
    ensures Left(if o.len == 0 then o.(pos := 0) else o) == Left(o)
  {
  }

  lemma ReturnDataReadsOn(s: Cd)
    requires Ok(s)
    ensures ReadsOn(s, ReturnData(s))
  {
    hide Left, InOk, Burst;
    if !(s.out.len == 0 || !s.io.rxd || s.io.rxinx == s.io.rxcmp || s.io.rxDelay > 0) {
      BurstReadsOn(s);
      EmptyStaysEmpty(Burst(s).out);
    }
  }

  lemma TakeReadsOn(s: Cd)
    requires Ok(s)
    ensures ReadsOn(s, Take(s))
  {
    hide Left, InOk;
    if !s.io.rxd && s.out.len > 0 { NextReadsOn(s, Take(s)); }
  }

  lemma ReceiveKeepsInv(s: Cd, b: Byte)
    requires Inv(s) && CanSend(s)
    ensures Inv(Receive(s, b))
  {
    hide Left, LogOk, Packets, Commands, Current, InOk, OutOk, AddByte;
    AddedByteIsLast(s.inn, b);
  }

  /** A register access reads at most from the pending packet and starts nothing. */
  lemma AccessKeepsInv(s: Cd, ev: Event)
    requires Inv(s) && !s.inn.active
    ensures Inv(Access(s, ev)) && ReadsOn(s, Access(s, ev)) && Access(s, ev).log == s.log
  {
    hide Left, LogOk, Packets, Commands, Current, InOk, OutOk, Receive, Take;
    match ev
    case ReadData => TakeReadsOn(s);
    case WriteData(b) => if !s.io.txd && CanSend(s) { ReceiveKeepsInv(s, b); }
    case _ =>
  }

  lemma FetchKeepsInv(s: Cd)
    requires Inv(s)
    ensures Inv(FetchByte(s))
  {
    hide Left, LogOk, Packets, Commands, Current, InOk, OutOk, Receive;
    if !(!s.io.txd || s.io.enable || s.io.txinx == s.io.txcmp || s.io.txDelay > 0 || !CanSend(s)) {
      ReceiveKeepsInv(s, s.txPage[s.io.txinx]);
    }
  }

  /** The new log entries of a step can be seen at its end: a packet is pending whole, or the transmit status is up. */
  predicate Signalled(s: Cd, t: Cd)
    requires Ok(t)
  {
    s.log <= t.log &&
    forall i :: |s.log| <= i < |t.log| ==>
      match t.log[i]
      case Silent(_) => t.io.driveXmit
      case Reply(_, p) => t.io.driveRecv && Left(t.out) == p != []
      case Notice(p) => t.io.driveRecv && Left(t.out) == p != []
  }

  lemma AnswerIsRecorded(c: seq<Byte>, body: Tail)
    requires Complete(c)
    ensures ItemOk(if Owed(c, body) == [] then Silent(c) else Reply(c, Seal(Owed(c, body))))
  {
    hide Owed, SumsToFF, Sum;
    SealedSumsToFF(Owed(c, body));
  }

  /** A complete command is carried out once, and its packet starts. */
  lemma ExecuteKeepsInv(s: Cd, e: Env)
    requires Inv(s)
    ensures var t := Execute(s, e);
            Inv(t) && Signalled(s, t) && (s.inn.active || t == s)
  {
    hide ItemOk, LogOk, Packets, Commands, Response, Owed, Seal, Start, Complete;
    if s.inn.active {
      var c := Current(s.inn);
      var a := Response(s.inn, e.body);
      ResponseIsOwed(s.inn, e.body);
      AnswerIsRecorded(c, e.body);
      var x := if a == [] then Silent(c) else Reply(c, Seal(a));
      AppendOk(s.log, x);
      AppendPacket(s.log, x);
      if a != [] { StartedPacketIsPending(s.out, a, Zeros(32 - |a|)); }
    }
  }

  lemma NotifyKeepsInv(s: Cd, a: seq<Byte>)
    requires Inv(s) && !s.inn.active && s.out.len == 0 && 0 < |a| <= 20
    ensures var t := Notify(s, a);
            Inv(t) && Left(t.out) == Seal(a) && t.log == s.log + [Notice(Seal(a))]
  {
    hide LogOk, Packets, Commands, Current, InOk, Start, Seal, Sum;
    StartedPacketIsPending(s.out, a, s.out.result[|a|..]);
    SealedSumsToFF(a);
    assert |Seal(a)| == |a| + 1;
    assert ItemOk(Notice(Seal(a)));
    AppendOk(s.log, Notice(Seal(a)));
    AppendPacket(s.log, Notice(Seal(a)));
  }

  /** The handler starts a packet only when none is pending. */
  lemma HandlerKeepsInv(s: Cd, frame: bool)
    requires Inv(s) && !s.inn.active
    ensures var t := Handler(s, frame);
            Inv(t) && Signalled(s, t) && (s.out.len > 0 ==> t == s) && t.io.driveXmit == s.io.driveXmit
  {
    hide LogOk, Packets, Commands, Current, InOk, OutOk, Left, Seal, Start, Spontaneous;
    if s.drive.present && s.out.len == 0 {
      var (a, d) := Spontaneous(s.drive, s.initialized, frame);
      var u := s.(drive := d, initialized := if s.initialized == 0 then 1 else s.initialized);
      if a != [] { NotifyKeepsInv(u, a); }
    }
  }

  lemma ReadsOnDrains(s: Cd, t: Cd, u: Cd)
    requires Ok(s) && Ok(t) && Ok(u) && ReadsOn(s, t) && u.consumed == t.consumed
    requires t.out.len > 0 ==> Left(u.out) == Left(t.out)
    ensures Drains(s, u)
  {
    hide InOk, OutOk, Left;
    PrefixCancels(s.consumed, t.consumed, Left(t.out), Left(s.out));
    if t.out.len == 0 { NothingLeft(t.out); }
  }

  lemma NothingLeft(o: Out)
    requires OutOk(o) && o.len == 0
    ensures Left(o) == []
  {
  }

  lemma PrefixCancels(a: seq<Byte>, c: seq<Byte>, l: seq<Byte>, m: seq<Byte>)
    requires a <= c && c + l == a + m
    ensures var n := |c| - |a|; n <= |m| && c == a + m[..n] && l == m[n..]
  {
    var n := |c| - |a|;
    assert (c + l)[|a|..|c|] == (a + m)[|a|..|c|] == m[..n];
    assert (c + l)[|c|..] == (a + m)[|c|..] == m[n..];
  }

  lemma InternalKeepsInv(s: Cd, e: Env)
    requires Inv(s)
    ensures var t := Internal(s, e);
            Inv(t) && Signalled(s, t) && ReadsOn(s, ReturnData(s)) && t.consumed == ReturnData(s).consumed &&
            (ReturnData(s).out.len > 0 ==> !s.inn.active ==> t.out == ReturnData(s).out && t.log == s.log)
  {
    hide LogOk, Packets, Commands, Current, InOk, OutOk, Left, Execute, ReturnData, FetchByte, Signalled;
    ReturnDataReadsOn(s);
    var t := ReturnData(s);
    FetchKeepsInv(t);
    ExecuteKeepsInv(FetchByte(t), e);
    assert Signalled(s, Internal(s, e)) by { SignalledSame(s, FetchByte(t), Internal(s, e)); }
    if t.out.len > 0 { NothingFetched(t); }
  }

  lemma NothingFetched(s: Cd)
    requires Ok(s) && s.out.len > 0
    ensures FetchByte(s) == s && !s.inn.active
  {
  }

  lemma SignalledSame(s: Cd, t: Cd, u: Cd)
    requires Ok(u) && s.log == t.log && Signalled(t, u)
    ensures Signalled(s, u)
  {
  }

  lemma SignalledOn(s: Cd, t: Cd, u: Cd)
    requires Ok(t) && Ok(u) && Signalled(s, t) && Signalled(t, u) && u.io.driveXmit == t.io.driveXmit
    requires t.out.len > 0 ==> u == t
    ensures Signalled(s, u)
  {
    hide InOk;
  }

  /** What one step does: the invariant stays, only pending bytes are read and what is not read stays, and new packets
      and commands without one are signalled. */
  lemma StepKeepsInv(s: Cd, ev: Event, e: Env)
    requires Inv(s) && !s.inn.active
    ensures Inv(Step(s, ev, e)) && Drains(s, Step(s, ev, e)) && Signalled(s, Step(s, ev, e))
  {
    hide LogOk, Packets, Commands, Current, InOk, OutOk, Left, Internal, Handler, Access, Signalled, Drains, ReadsOn;
    var t := Step(s, ev, e);
    if ev.Guest? || ev.Backend? {
      Unmoved(s, t);
    } else {
      var u := Access(s, ev);
      AccessKeepsInv(s, ev);
      InternalKeepsInv(u, e);
      var v := Internal(u, e);
      SignalledSame(s, u, v);
      InternalDrains(s, u, e);
      if ev.Hsync? {
        HandlerKeepsInv(v, ev.frame);
        SignalledOn(s, v, t);
        LaterDrains(s, v, t);
      }
    }
  }

  lemma Unmoved(s: Cd, t: Cd)
    requires Ok(s) && Ok(t) && t.out == s.out && t.consumed == s.consumed && t.log == s.log
    ensures Drains(s, t) && Signalled(s, t)
  {
    hide InOk, OutOk, Left;
  }

  lemma InternalDrains(s: Cd, u: Cd, e: Env)
    requires Inv(s) && Inv(u) && ReadsOn(s, u)
    ensures Drains(s, Internal(u, e))
  {
    hide LogOk, Packets, Commands, Current, InOk, OutOk, Left, Internal, Signalled, Drains;
    InternalKeepsInv(u, e);
    ReadsOnDrains(s, ReturnData(u), Internal(u, e));
  }

  lemma LaterDrains(s: Cd, v: Cd, t: Cd)
    requires Ok(s) && Ok(v) && Ok(t) && Drains(s, v) && t.consumed == v.consumed
    requires v.out.len > 0 ==> t == v
    ensures Drains(s, t)
  {
    hide InOk;
  }

  lemma {:induction false} RunKeepsInv(s: Cd, es: seq<(Event, Env)>)
    requires Inv(s) && !s.inn.active
    ensures Inv(Run(s, es))
    decreases |es|
  {
    hide Step, LogOk, Packets, Commands, Current, InOk, OutOk, Left, Drains, Signalled;
    if es != [] {
      var n := |es| - 1;
      RunKeepsInv(s, es[..n]);
      StepKeepsInv(Run(s, es[..n]), es[n].0, es[n].1);
    }
  }

  /** After a reset: nothing pending, no command begun, and no history. */
  predicate Fresh(s: Cd) {
    Ok(s) && s.out.len == 0 && s.inn.len == 0 && !s.inn.active && s.consumed == [] && s.taken == [] && s.log == []
  }

  /** The commands in a stream of bytes, as their first bytes delimit them. */
  function Split(bs: seq<Byte>): seq<seq<Byte>>
    decreases |bs|
  {
    if bs == [] || |bs| < Full(bs[0]) then [] else [bs[..Full(bs[0])]] + Split(bs[Full(bs[0])..])
  }

  function CommandList(log: seq<Item>): seq<seq<Byte>>
    decreases |log|
  {
    if log == [] then []
    else
      var x := log[|log| - 1];
      CommandList(log[..|log| - 1]) + if x.Notice? then [] else [x.command]
  }

  lemma SplitFirst(c: seq<Byte>, rest: seq<Byte>)
    requires Complete(c)
    ensures Split(c + rest) == [c] + Split(rest)
  {
    hide Full;
    assert (c + rest)[..|c|] == c;
    assert (c + rest)[|c|..] == rest;
  }

  lemma ItemIsComplete(x: Item)
    requires ItemOk(x)
    ensures x.Notice? || Complete(x.command)
  {
    hide Complete, SumsToFF;
  }

  lemma {:induction false} CommandsAreSplit(log: seq<Item>, rest: seq<Byte>)
    requires LogOk(log)
    ensures Split(Commands(log) + rest) == CommandList(log) + Split(rest)
    decreases |log|
  {
    hide Split, Complete, ItemOk;
    if log == [] {
      assert Commands(log) + rest == rest;
    } else {
      var n := |log| - 1;
      var x := log[n];
      ItemIsComplete(x);
      if x.Notice? {
        CommandsAreSplit(log[..n], rest);
        assert Commands(log) == Commands(log[..n]);
      } else {
        CommandsAreSplit(log[..n], x.command + rest);
        SplitFirst(x.command, rest);
        assert Commands(log) + rest == Commands(log[..n]) + (x.command + rest);
        assert CommandList(log[..n]) + ([x.command] + Split(rest)) == CommandList(log) + Split(rest);
      }
    }
  }

  // ----- the bytes the guest offers -----

  /** Transmit DMA takes a byte exactly while it is on and data DMA off, the index is short of its limit, the delay is
      over, the drive is initialized, no command is active and no packet pending. */
  predicate DmaTakes(s: Cd) {
    s.io.txd && !s.io.enable && s.io.txinx != s.io.txcmp && s.io.txDelay == 0 && s.initialized > 0 && !s.inn.active &&
    s.out.len == 0
  }

  /** It is the byte at the index; the index moves on by one, round the page, and says so when it meets its limit. */
  lemma FetchesTheNextByte(s: Cd)
    requires Ok(s)
    ensures var t := FetchByte(s);
            if DmaTakes(s) then
              var b, inx := s.txPage[s.io.txinx], if s.io.txinx == 255 then 0 else s.io.txinx + 1;
              t.taken == s.taken + [b] && Current(t.inn) == Current(s.inn) + [b] &&
              t.io == s.io.(txinx := inx, txDone := s.io.txDone || inx == s.io.txcmp) && t.txPage == s.txPage &&
              t.initialized == s.initialized && t.drive == s.drive && t.rxPage == s.rxPage
            else t == s
  {
    hide Current, AddByte, InOk;
    if DmaTakes(s) { AddedByteIsLast(s.inn, s.txPage[s.io.txinx]); }
  }

  /** The bytes that a step hands over to the interface: by a write to the data register, if transmit DMA is off and the
      interface is ready for one; by transmit DMA, once the receive DMA of the same step is done, from the page. */
  function Offered(s: Cd, ev: Event): seq<Byte>
    requires Ok(s)
  {
    if ev.Guest? || ev.Backend? then []
    else
      var u := ReturnData(Access(s, ev));
      (if ev.WriteData? && !s.io.txd && s.initialized > 0 && !s.inn.active && s.out.len == 0 then [ev.b] else []) +
      (if DmaTakes(u) then [u.txPage[u.io.txinx]] else [])
  }

  function OfferedBy(s: Cd, es: seq<(Event, Env)>): seq<Byte>
    requires Ok(s) && !s.inn.active
    decreases |es|
  {
    if es == [] then []
    else
      var n := |es| - 1;
      OfferedBy(s, es[..n]) + Offered(Run(s, es[..n]), es[n].0)
  }

  /** Returning data touches neither the transmit side nor the page it reads from. */
  lemma ReturnDataKeepsTx(s: Cd)
    requires Ok(s)
    ensures var t := ReturnData(s);
            t.io.txinx == s.io.txinx && t.io.txcmp == s.io.txcmp && t.io.txd == s.io.txd &&
              t.io.enable == s.io.enable &&
            t.io.txDelay == s.io.txDelay && t.txPage == s.txPage && t.initialized == s.initialized
  {
    hide InOk, OutOk, Burst;
    if !(s.out.len == 0 || !s.io.rxd || s.io.rxinx == s.io.rxcmp || s.io.rxDelay > 0) { BurstKeepsTx(s); }
  }

  lemma {:induction false} BurstKeepsTx(s: Cd)
    requires Ok(s) && s.out.len > 0
    ensures var t := Burst(s);
            t.io.txinx == s.io.txinx && t.io.txcmp == s.io.txcmp && t.io.txd == s.io.txd &&
              t.io.enable == s.io.enable &&
            t.io.txDelay == s.io.txDelay && t.txPage == s.txPage && t.initialized == s.initialized
    decreases s.out.len - s.out.pos
  {
    hide InOk, Next;
    var t := MoveByte(s);
    if t.io.rxinx != t.io.rxcmp && t.out.len > 0 { BurstKeepsTx(t); }
  }

  /** A step takes what it is offered, and the index counts the bytes taken from the page. */
  lemma StepTakesOffered(s: Cd, ev: Event, e: Env)
    requires Ok(s) && !s.inn.active
    ensures var t := Step(s, ev, e);
            t.taken == s.taken + Offered(s, ev) &&
            t.io.txinx ==
            (s.io.txinx + if ev.Guest? || ev.Backend? || !DmaTakes(ReturnData(Access(s, ev))) then 0 else 1) % 256
  {
    hide InOk, OutOk, ReturnData, FetchByte, Burst, Take, AddByte, Current, Respond, Spontaneous;
    if !ev.Guest? && !ev.Backend? {
      AccessTakes(s, ev);
      var u := ReturnData(Access(s, ev));
      ReturnDataKeepsTx(Access(s, ev));
      FetchesTheNextByte(u);
      assert Internal(Access(s, ev), e).io.txinx == FetchByte(u).io.txinx by { ExecuteKeepsTx(FetchByte(u), e); }
    }
  }

  lemma ExecuteKeepsTx(s: Cd, e: Env)
    requires Ok(s)
    ensures Execute(s, e).io.txinx == s.io.txinx
  {
    hide OutOk, Start, Response, Current, Respond, SumsToFF;
    if s.inn.active {
      var i := s.inn;
      var t := s.(inn := i.(len := 0, active := false));
      var u := if i.badSum || i.unknown then t
               else t.(drive := e.after, initialized := if i.command % 16 == 7 then 2 else s.initialized);
      RespondKeepsTx(u, Current(i), Response(i, e.body));
    }
  }

  lemma RespondKeepsTx(s: Cd, c: seq<Byte>, a: seq<Byte>)
    requires Ok(s) && !s.inn.active && |a| <= 20 && s.out.len == 0
    ensures Respond(s, c, a).io.txinx == s.io.txinx
  {
    hide InOk, OutOk, Start, Seal;
  }

  lemma AccessTakes(s: Cd, ev: Event)
    requires Ok(s)
    ensures Access(s, ev).taken ==
            s.taken + if ev.WriteData? && !s.io.txd && s.initialized > 0 && !s.inn.active &&
              s.out.len == 0 then [ev.b] else []
    ensures Access(s, ev).io.txinx == s.io.txinx
  {
    hide InOk, OutOk, AddByte;
  }

  lemma {:induction false} RunTakesOffered(s: Cd, es: seq<(Event, Env)>)
    requires Ok(s) && !s.inn.active
    ensures Run(s, es).taken == s.taken + OfferedBy(s, es)
    decreases |es|
  {
    hide Step, Offered;
    if es != [] {
      var n := |es| - 1;
      RunTakesOffered(s, es[..n]);
      StepTakesOffered(Run(s, es[..n]), es[n].0, es[n].1);
      assert (s.taken + OfferedBy(s, es[..n])) + Offered(Run(s, es[..n]), es[n].0) == s.taken + OfferedBy(s, es);
    }
  }

  /** Over every run: the commands carried out are those in the bytes the guest offered, in order, each with exactly the
      packet it is owed or none if it is owed none; the bytes read are a prefix of the packets, and all of them when
      nothing is pending; every packet sums to 0xff. */
  lemma EveryRun(s: Cd, es: seq<(Event, Env)>)
    requires Fresh(s)
    ensures var t := Run(s, es);
            t.consumed <= Packets(t.log) && (t.out.len == 0 ==> t.consumed == Packets(t.log)) &&
            Split(OfferedBy(s, es)) == CommandList(t.log) && LogOk(t.log)
  {
    hide Run, ItemOk, OfferedBy;
    RunKeepsInv(s, es);
    RunTakesOffered(s, es);
    var t := Run(s, es);
    assert t.taken == OfferedBy(s, es);
    CommandsAreSplit(t.log, Current(t.inn));
  }

  // ----- receive DMA in memory -----

  /** `n` places on in a page whose index is a byte. */
  function On(x: Byte, n: nat): Byte
    requires n <= 256
  {
    if x + n < 256 then x + n else x + n - 256
  }

  /** How far `y` is ahead of `x`. */
  function Ahead(x: Byte, y: Byte): (n: nat)
    ensures n < 256 && On(x, n) == y && (n == 0 <==> x == y)
  {
    if x <= y then y - x else y + 256 - x
  }

  lemma OneOn(x: Byte, y: Byte)
    ensures On(x, 1) == (x + 1) % 256
    ensures x != y ==> Ahead(On(x, 1), y) == Ahead(x, y) - 1
    ensures Ahead(On(x, 1), x) == 255
  {
  }

  lemma OnAndOn(x: Byte, n: nat)
    requires n < 256
    ensures On(On(x, 1), n) == On(x, n + 1)
  {
  }

  /** Bytes go to consecutive places of the page from `x`, round its end, and nowhere else. */
  predicate Placed(p: Page, q: Page, x: Byte, bs: seq<Byte>) {
    |bs| < 256 &&
    (forall i :: 0 <= i < |bs| ==> q[On(x, i)] == bs[i]) &&
    forall y :: 0 <= y < 256 && Ahead(x, y) >= |bs| ==> q[y] == p[y]
  }

  lemma PlaceOne(p: Page, x: Byte, b: Byte)
    ensures Placed(p, p[x := b], x, [b])
  {
  }

  lemma PlaceMore(p: Page, q: Page, x: Byte, b: Byte, bs: seq<Byte>)
    requires Placed(p[x := b], q, On(x, 1), bs) && |bs| < 255
    ensures Placed(p, q, x, [b] + bs)
  {
    hide Ahead, On;
    OneOn(x, x);
    forall i | 0 <= i < |bs| + 1
      ensures q[On(x, i)] == ([b] + bs)[i]
    {
      if i > 0 { OnAndOn(x, i - 1); } else { OnNone(x); }
    }
    forall y | 0 <= y < 256 && Ahead(x, y) >= |bs| + 1
      ensures q[y] == p[y]
    {
      OneOn(x, y);
    }
  }

  lemma OnNone(x: Byte)
    ensures On(x, 0) == x
  {
  }

  /** How many bytes a burst moves: what is left, or as many as the index limit allows. */
  function BurstLength(o: Out, io: Io): (n: nat)
    requires OutOk(o)
    ensures n <= |Left(o)|
  {
    if |Left(o)| < Ahead(io.rxinx, io.rxcmp) then |Left(o)| else Ahead(io.rxinx, io.rxcmp)
  }

  /** The burst as a whole: so many pending bytes go to the page; the index stops at its limit and says so. */
  predicate BurstPlaces(s: Cd, t: Cd)
    requires Ok(s)
  {
    var n := BurstLength(s.out, s.io);
    t.io == s.io.(rxinx := On(s.io.rxinx, n), rxDone := s.io.rxDone || On(s.io.rxinx, n) == s.io.rxcmp) &&
    t.consumed == s.consumed + Left(s.out)[..n] && Placed(s.rxPage, t.rxPage, s.io.rxinx, Left(s.out)[..n])
  }

  /** One byte less to move after the first. */
  lemma BurstLengthFalls(o: Out, io: Io)
    requires OutOk(o) && o.len > 0 && io.rxinx != io.rxcmp
    ensures BurstLength(o, io) == 1 + BurstLength(Next(o), io.(rxinx := On(io.rxinx, 1)))
    ensures BurstLength(Next(o), io.(rxinx := On(io.rxinx, 1))) < 255
  {
    hide Left, Next, On, Ahead;
    OneOn(io.rxinx, io.rxcmp);
  }

  lemma FirstByteOf(o: Out, n: nat)
    requires OutOk(o) && o.len > 0 && 0 < n <= |Left(o)|
    ensures Left(o)[..n] == [Next(o).last] + Left(Next(o))[..n - 1]
  {
    hide Left, Next;
  }

  lemma OneByteBurst(s: Cd)
    requires Ok(s) && s.out.len > 0 && s.io.rxinx != s.io.rxcmp
    requires var t := MoveByte(s); t.io.rxinx == t.io.rxcmp || t.out.len == 0
    ensures BurstPlaces(s, Burst(s))
  {
    hide Left, InOk, On, Ahead, Placed, BurstLength, Next;
    var t := MoveByte(s);
    OneOn(s.io.rxinx, s.io.rxcmp);
    BurstLengthFalls(s.out, s.io);
    BurstLengthEnds(t);
    FirstByteOf(s.out, 1);
    assert Left(s.out)[..1] == [t.out.last];
    PlaceOne(s.rxPage, s.io.rxinx, t.out.last);
  }

  lemma BurstGoesOn(s: Cd, u: Cd)
    requires Ok(s) && s.out.len > 0 && s.io.rxinx != s.io.rxcmp && BurstPlaces(MoveByte(s), u)
    ensures BurstPlaces(s, u)
  {
    hide Left, InOk, OutOk, On, Ahead, Placed, BurstLength, Next;
    var t := MoveByte(s);
    var n := BurstLength(s.out, s.io);
    OneOn(s.io.rxinx, s.io.rxcmp);
    BurstLengthFalls(s.out, s.io);
    FirstByteOf(s.out, n);
    PlaceMore(s.rxPage, u.rxPage, s.io.rxinx, t.out.last, Left(t.out)[..n - 1]);
    OnAndOn(s.io.rxinx, n - 1);
  }

  lemma {:induction false} BurstGoesToThePage(s: Cd)
    requires Ok(s) && s.out.len > 0 && s.io.rxinx != s.io.rxcmp
    ensures BurstPlaces(s, Burst(s))
    decreases s.out.len - s.out.pos
  {
    hide Left, InOk, On, Ahead, Placed, BurstLength, BurstPlaces;
    var t := MoveByte(s);
    if t.io.rxinx == t.io.rxcmp || t.out.len == 0 {
      OneByteBurst(s);
    } else {
      BurstGoesToThePage(t);
      BurstGoesOn(s, Burst(t));
    }
  }

  lemma BurstLengthEnds(t: Cd)
    requires Ok(t) && (t.io.rxinx == t.io.rxcmp || t.out.len == 0)
    ensures BurstLength(t.out, t.io) == 0
  {
  }

  /** Receive DMA moves bytes exactly while it is on, a packet is pending, the index is short of its limit and the delay
      is over; the packet's last byte turns the receive status off and the transmit status on. */
  lemma ReturnsExactly(s: Cd)
    requires Ok(s)
    ensures var t := ReturnData(s);
            if s.io.rxd && s.out.len > 0 && s.io.rxinx != s.io.rxcmp && s.io.rxDelay == 0 then
              var n, m := |Left(s.out)|, Ahead(s.io.rxinx, s.io.rxcmp);
              var moved := if n < m then n else m;
              t.consumed == s.consumed + Left(s.out)[..moved] && Left(t.out) == Left(s.out)[moved..] &&
              Placed(s.rxPage, t.rxPage, s.io.rxinx, Left(s.out)[..moved]) &&
              t.io.rxinx == (s.io.rxinx + moved) % 256 && (t.io.rxDone <==> s.io.rxDone || m <= n) &&
              (t.io.driveXmit <==> s.io.driveXmit || n <= m) && (t.io.driveRecv <==> s.io.driveRecv && n > m)
            else t == s
  {
    hide InOk, Burst, Left, Placed, On;
    if s.io.rxd && s.out.len > 0 && s.io.rxinx != s.io.rxcmp && s.io.rxDelay == 0 {
      var t, n, m := Burst(s), |Left(s.out)|, Ahead(s.io.rxinx, s.io.rxcmp);
      var moved := if n < m then n else m;
      BurstGoesToThePage(s);
      BurstReadsOn(s);
      PrefixCancels(s.consumed, t.consumed, Left(t.out), Left(s.out));
      EmptyStaysEmpty(t.out);
      LeftIsPending(t.out);
      OnIsModulo(s.io.rxinx, moved);
      AheadIsUnique(s.io.rxinx, s.io.rxcmp, moved);
    }
  }

  lemma LeftIsPending(o: Out)
    requires OutOk(o)
    ensures Left(o) == [] <==> o.len == 0
  {
  }

  lemma OnIsModulo(x: Byte, n: nat)
    requires n <= 256
    ensures On(x, n) == (x + n) % 256
  {
  }

  lemma AheadIsUnique(x: Byte, y: Byte, n: nat)
    requires n <= Ahead(x, y)
    ensures On(x, n) == y <==> n == Ahead(x, y)
  {
  }

  /** A read of the data register takes the next pending byte, unless receive DMA is on. */
  lemma TakesTheNextByte(s: Cd)
    requires Ok(s)
    ensures var t := Take(s);
            if !s.io.rxd && s.out.len > 0 then
              t.consumed == s.consumed + [t.out.last] && [t.out.last] + Left(t.out) == Left(s.out) &&
              t.io == if |Left(s.out)| == 1 then s.io.(driveRecv := false, driveXmit := true) else s.io
            else t == s.(io := s.io.(driveRecv := false))
  {
    hide InOk;
    if s.out.len > 0 { LeftIsPending(Next(s.out)); }
  }

  /** A write to the data register is taken if transmit DMA is off and the interface is ready for a byte; the transmit
      status tells whether it is ready for another. */
  lemma GivesTheByte(s: Cd, b: Byte)
    requires Ok(s)
    ensures var t := Give(s, b);
            var ready := s.initialized > 0 && !s.inn.active && s.out.len == 0;
            if s.io.txd then t == s
            else
              t.io == s.io.(driveXmit := ready && !t.inn.active) &&
              if ready then t.taken == s.taken + [b] && Current(t.inn) == Current(s.inn) + [b] else t.inn == s.inn
  {
    hide InOk, Current, AddByte;
    if CanSend(s) { AddedByteIsLast(s.inn, b); }
  }

  // ----- the drive's answers -----

  /** The bytes of a command, its checksum included, by its low nibble. */
  lemma CommandLengths(c: seq<Byte>)
    requires Complete(c)
    ensures |c| == match c[0] % 16
                   case 0 => 2 case 1 => 3 case 2 => 2 case 3 => 2 case 4 => 13 case 5 => 3 case 6 => 2 case 7 => 2
                   case 8 => 5 case 9 => 2 case 10 => 3 case _ => 1
    ensures Need(c[0]) > 0 <==> c[0] % 16 <= 10
  {
  }

  /** What a command is owed: a complaint if there is no such command or its checksum is wrong; else its answer. */
  lemma Answers(c: seq<Byte>, body: Tail)
    requires Complete(c)
    ensures var n := c[0] % 16;
            Owed(c, body) ==
            if n > 10 then [c[0] - n + 5, 0x81]
            else if Sum(c) % 256 != 255 then [c[0] - n + 5, 0x89]
            else if n == 0 then [c[0]]
            else if n <= 4 then [c[0], body[0]]
            else if n == 5 then (if c[1] < 128 then [] else if c[1] % 2 == 1 then [c[0], 1] else [c[0], 0])
            else if n == 6 then [c[0]] + body
            else if n == 7 then [c[0], 1, 67, 72, 73, 78, 79, 78, 32, 32, 79, 45, 54, 53, 56, 45, 50, 32, 50, 52]
            else []
  {
    hide Sum, Need, Answer;
    CommandLengths(c);
    if c[0] % 16 <= 10 { GoodAnswers(c, body); }
  }

  lemma GoodAnswers(c: seq<Byte>, body: Tail)
    requires Complete(c) && Need(c[0]) > 0
    ensures var n := c[0] % 16;
            Answer(c, body) ==
            if n == 0 then [c[0]]
            else if 1 <= n <= 4 then [c[0], body[0]]
            else if n == 5 then (if c[1] < 128 then [] else if c[1] % 2 == 1 then [c[0], 1] else [c[0], 0])
            else if n == 6 then [c[0]] + body
            else if n == 7 then [c[0], 1, 67, 72, 73, 78, 79, 78, 32, 32, 79, 45, 54, 53, 56, 45, 50, 32, 50, 52]
            else []
  {
    hide Need;
    CommandLengths(c);
  }

  /** What the drive sends by itself, and when: the medium's presence at first and after a change, the start, end or
      failure of play, and while the table of contents is being read, one entry with each frame. */
  lemma Notices(d: Drive, initialized: nat, frame: bool)
    ensures var a := Spontaneous(d, initialized, frame).0;
            a == if initialized == 0 && d.media then [10, 1]
                 else if initialized < 2 then []
                 else if d.changed then [10, if d.media then 1 else 0]
                 else if d.timeout in {1, 2} && d.playing in {0, 1} then [4, 0x0b]
                 else if d.timeout == -2 || (d.timeout == -1 && d.playing != 0) then [4, 0x01]
                 else if d.timeout == -3 then [4, 0x81]
                 else if d.toc >= 0 && frame then [6] + d.entry
                 else []
  {
  }

  /** The table of contents is sent entry by entry, each three times, and then no more. */
  lemma TocTurns(d: Drive)
    requires 0 <= d.toc < 3 * d.points
    ensures NextToc(d) == if d.toc + 1 == 3 * d.points then -1 else d.toc + 1
  {
  }

  /** How the interface comes up: the handler's first call finds the drive, and a good status command (7) turns its
      notices on. */
  lemma ComesUp(s: Cd, e: Env, frame: bool)
    requires Ok(s)
    ensures Execute(s, e).initialized ==
            if s.inn.active && Current(s.inn)[0] % 16 == 7 && Sum(Current(s.inn)) % 256 == 255 then 2 else s.initialized
    ensures !s.inn.active ==>
            Handler(s, frame).initialized ==
            if s.drive.present && s.out.len == 0 && s.initialized == 0 then 1 else s.initialized
  {
    hide Sum, Response, Start, Spontaneous, Current;
    if s.inn.active {
      CurrentIsWhole(s.inn);
      CommandLengths(Current(s.inn));
      hide Need;
    }
  }

  lemma CurrentIsWhole(i: In)
    requires InOk(i) && i.active
    ensures Complete(Current(i)) && Current(i)[0] == i.command
    ensures i.unknown == (Need(i.command) < 0) && i.badSum == (!i.unknown && Sum(Current(i)) % 256 != 255)
  {
    hide Sum, Need;
  }
}
