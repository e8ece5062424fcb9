/**
 The CD interface in the program's form: buffers and indices updated in place, loops over bytes
 (akiko.cpp:834-903, 1138-1293, 1380-1454, 1796-1808, 1973-1998).
 */
module AkikoCdPort {
  import opened AkikoCd
  import opened Numbers

  /** The old contents of the buffer do not matter to a response. */
  lemma RespondClears(s: Cd, was: seq<Byte>, c: seq<Byte>, a: seq<Byte>)
    requires Ok(s) && !s.inn.active && |a| <= 20 && s.out.len == 0 && |was| == 32
    ensures Respond(s.(out := s.out.(result := was)), c, a) == Respond(s, c, a)
  {
  }

  class Port {
    const resultBuffer: array<Byte>
    const commandBuffer: array<Byte>
    const rxMemory: array<Byte>
    const txMemory: array<Byte>
    var io: Io
    var receiveLength: nat
    var receiveOffset: nat
    var lastRx: Byte
    var commandLength: nat
    var commandActive: bool
    var checksumError: bool
    var unknownCommand: bool
    var command: Byte
    var initialized: nat
    var drive: Drive
    ghost var consumed: seq<Byte>
    ghost var taken: seq<Byte>
    ghost var log: seq<Item>

    ghost predicate Arrays()
      reads this
    {
      resultBuffer.Length == 32 && commandBuffer.Length == 32 && rxMemory.Length == 256 && txMemory.Length == 256 &&
      resultBuffer != commandBuffer && resultBuffer != rxMemory && resultBuffer != txMemory &&
      commandBuffer != rxMemory && commandBuffer != txMemory && rxMemory != txMemory
    }

    ghost function OutState(): (o: Out)
      reads this, resultBuffer
    {
      Out(resultBuffer[..], receiveLength, receiveOffset, lastRx)
    }

    ghost function InState(): (i: In)
      reads this, commandBuffer
    {
      In(commandBuffer[..], commandLength, commandActive, checksumError, unknownCommand, command)
    }

    ghost function State(): (s: Cd)
      reads this, resultBuffer, commandBuffer, rxMemory, txMemory
      requires Arrays()
    {
      Cd(io, OutState(), InState(), initialized, drive, rxMemory[..], txMemory[..], consumed, taken, log)
    }

    ghost predicate Valid()
      reads this, resultBuffer, commandBuffer, rxMemory, txMemory
    {
      Arrays() && Ok(State())
    }

    constructor (d: Drive)
      ensures Valid() && AkikoCd.Fresh(State())
      ensures fresh(resultBuffer) && fresh(commandBuffer) && fresh(rxMemory) && fresh(txMemory)
    {
      resultBuffer := new Byte[32](_ => 0);
      commandBuffer := new Byte[32](_ => 0);
      rxMemory := new Byte[256](_ => 0);
      txMemory := new Byte[256](_ => 0);
      io := Io(false, false, false, false, false, false, false, 0, 0, 0, 0, 0, 0);
      receiveLength, receiveOffset, lastRx, commandLength, command, initialized := 0, 0, 0, 0, 0, 0;
      commandActive, checksumError, unknownCommand := false, false, false;
      drive := d;
      consumed, taken, log := [], [], [];
    }

    /** cdrom_start_return_data. */
    method StartReturnData(len: nat) returns (r: int)
      requires Arrays() && len <= 20
      modifies this`receiveLength, this`receiveOffset, this`io, resultBuffer
      ensures r == if old(receiveLength) > 0 then 0 else if len == 0 then -1 else 1
      ensures r < 1 ==> OutState() == old(OutState()) && io == old(io)
      ensures r == 1 ==>
              OutState() == Start(old(OutState()), old(resultBuffer[..]), len) && io == old(io).(driveRecv := true)
    {
      if receiveLength > 0 { return 0; }
      if len == 0 { return -1; }
      var checksum: Byte := 255;
      var i := 0;
      while i < len
        invariant i <= len && checksum == (255 - Sum(resultBuffer[..i])) % 256
      {
        assert resultBuffer[..i + 1][..i] == resultBuffer[..i];
        checksum := (checksum - resultBuffer[i]) % 256;
        i := i + 1;
      }
      resultBuffer[len] := checksum;
      receiveLength := len + 1;
      receiveOffset := 0;
      io := io.(driveRecv := true);
      r := 1;
    }

    /** One round of the receive DMA loop. */
    method MoveOne()
      requires Valid() && receiveOffset < receiveLength
      modifies this`lastRx, this`io, this`receiveOffset, this`consumed, rxMemory
      ensures Arrays() && receiveOffset == old(receiveOffset) + 1
      ensures Settled() == MoveByte(old(State()))
    {
      lastRx := resultBuffer[receiveOffset];
      rxMemory[io.rxinx] := lastRx;
      io := io.(rxinx := (io.rxinx + 1) % 256);
      receiveOffset := receiveOffset + 1;
      consumed := consumed + [lastRx];
    }

    /** The state with a read-out packet counted as gone. */
    ghost function Settled(): (s: Cd)
      reads this, resultBuffer, commandBuffer, rxMemory, txMemory
      requires Arrays()
    {
      var s := State();
      if receiveOffset == receiveLength then s.(out := s.out.(len := 0)) else s
    }

    /** The loop of cdrom_return_data. */
    method TransferLoop()
      requires Valid() && receiveOffset < receiveLength && io.rxinx != io.rxcmp
      modifies this`lastRx, this`io, this`receiveOffset, this`consumed, rxMemory
      ensures Arrays() && receiveOffset <= receiveLength && Settled() == Burst(old(State()))
    {
      hide MoveByte, InOk, Next;
      ghost var whole := Burst(State());
      while receiveOffset < receiveLength
        invariant Arrays() && receiveOffset <= receiveLength
        invariant receiveOffset < receiveLength ==> Ok(State()) && Burst(State()) == whole
        invariant receiveOffset == receiveLength ==> Settled() == whole
      {
        MoveOne();
        if io.rxinx == io.rxcmp {
          io := io.(rxDone := true);
          break;
        }
      }
    }

    /** cdrom_return_data. */
    method TransferResult()
      requires Valid()
      modifies this`lastRx, this`io, this`receiveOffset, this`receiveLength, this`consumed, rxMemory
      ensures Valid() && State() == ReturnData(old(State()))
    {
      hide Burst, InOk;
      if receiveLength == 0 || !io.rxd || io.rxinx == io.rxcmp || io.rxDelay > 0 { return; }
      TransferLoop();
      if receiveOffset == receiveLength {
        receiveLength := 0;
        receiveOffset := 0;
        io := io.(driveRecv := false, driveXmit := true);
      }
    }

    /** cdrom_add_command_byte. */
    method AddCommandByte(b: Byte)
      requires Arrays() && InOk(InState()) && !commandActive
      modifies this`commandLength, this`command, this`checksumError, this`unknownCommand, this`commandActive, this`taken
      modifies commandBuffer
      ensures InState() == AddByte(old(InState()), b) && taken == old(taken) + [b]
    {
      commandBuffer[commandLength] := b;
      commandLength := commandLength + 1;
      command := commandBuffer[0];
      taken := taken + [b];
      var cmdLen := Need(command);
      checksumError := false;
      unknownCommand := false;
      if cmdLen < 0 {
        unknownCommand := true;
        commandActive := true;
        return;
      }
      if cmdLen + 1 > commandLength { return; }
      var checksum := SumCommand(cmdLen + 1);
      if checksum != 255 { checksumError := true; }
      commandActive := true;
      commandLength := cmdLen;
    }

    /** Its checksum loop. */
    method SumCommand(n: nat) returns (checksum: Byte)
      requires Arrays() && n <= 32
      ensures checksum == Sum(commandBuffer[..n]) % 256
    {
      checksum := 0;
      var i := 0;
      while i < n
        invariant i <= n && checksum == Sum(commandBuffer[..i]) % 256
      {
        assert commandBuffer[..i + 1][..i] == commandBuffer[..i];
        checksum := (checksum + commandBuffer[i]) % 256;
        i := i + 1;
      }
    }

    /** can_send_command. */
    method CanSendCommand() returns (can: bool)
      requires Arrays()
      ensures can == CanSend(State())
    {
      if initialized == 0 { return false; }
      if commandActive { return false; }
      if receiveLength != 0 { return false; }
      can := true;
    }

    /** cdrom_run_command. */
    method RunCommand()
      requires Valid()
      modifies this`commandLength, this`command, this`checksumError, this`unknownCommand, this`commandActive, this`taken
      modifies this`io, commandBuffer
      ensures Valid() && State() == FetchByte(old(State()))
    {
      hide AddByte, OutOk, InOk;
      if !io.txd { return; }
      if io.enable { return; }
      if io.txinx == io.txcmp { return; }
      if io.txDelay > 0 { return; }
      var can := CanSendCommand();
      if !can { return; }
      ghost var s := State();
      AddCommandByte(txMemory[io.txinx]);
      assert State() == Receive(s, s.txPage[s.io.txinx]);
      hide Receive;
      io := io.(txinx := (io.txinx + 1) % 256);
      if io.txinx == io.txcmp { io := io.(txDone := true); }
    }

    /** The response bytes go to the start of the buffer, one after the other. */
    method Put(a: seq<Byte>)
      requires Arrays() && |a| <= 20
      modifies resultBuffer
      ensures resultBuffer[..] == a + old(resultBuffer[..])[|a|..]
    {
      var i := 0;
      while i < |a|
        invariant i <= |a|
        invariant forall j :: 0 <= j < i ==> resultBuffer[j] == a[j]
        invariant forall j :: i <= j < 32 ==> resultBuffer[j] == old(resultBuffer[j])
      {
        resultBuffer[i] := a[i];
        i := i + 1;
      }
    }

    /** The memset. */
    method ClearResult()
      requires Arrays()
      modifies resultBuffer
      ensures resultBuffer[..] == Zeros(32)
    {
      forall i | 0 <= i < 32 { resultBuffer[i] := 0; }
    }

    /** The response of a command is sealed in the cleared buffer, or there is none. */
    method Answered(c: seq<Byte>, a: seq<Byte>)
      requires Valid() && !commandActive && receiveLength == 0 && |a| <= 20 && resultBuffer[..] == Zeros(32)
      modifies this`io, this`receiveLength, this`receiveOffset, this`log, resultBuffer
      ensures Valid() && State() == Respond(old(State()), c, a)
    {
      hide Seal, InOk, Sum;
      Put(a);
      assert resultBuffer[..] == a + Zeros(32 - |a|);
      if |a| == 0 {
        assert resultBuffer[..] == Zeros(32);
        io := io.(driveXmit := true);
        log := log + [Silent(c)];
      } else {
        var r := StartReturnData(|a|);
        log := log + [Reply(c, Seal(a))];
      }
    }

    /** The choice of a response, and what the drive makes of a good command. */
    method Choose(c: seq<Byte>, e: Env) returns (a: seq<Byte>)
      requires Complete(c) && c[0] == command && unknownCommand == (Need(command) < 0)
      modifies this`drive, this`initialized
      ensures |a| <= 20
      ensures if checksumError || unknownCommand then
                a == Complaint(command, if checksumError then BAD_CHECKSUM else BAD_COMMAND) &&
                drive == old(drive) && initialized == old(initialized)
              else
                a == Answer(c, e.body) && drive == e.after &&
                initialized == if command % 16 == 7 then 2 else old(initialized)
    {
      if checksumError || unknownCommand {
        a := [command - command % 16 + 5, if checksumError then BAD_CHECKSUM else BAD_COMMAND];
      } else {
        a := Answer(c, e.body);
        drive := e.after;
        if command % 16 == 7 { initialized := 2; }
      }
    }

    /** cdrom_run_command_run. */
    method RunCommandRun(e: Env)
      requires Valid() && commandActive
      modifies this`commandLength, this`commandActive, this`io, this`receiveLength, this`receiveOffset, this`initialized
      modifies this`drive, this`log, resultBuffer
      ensures Valid() && State() == Execute(old(State()), e)
    {
      hide Answer, SumsToFF, Seal, Complaint, Respond, Zeros;
      ghost var s := State();
      var c := commandBuffer[..Full(command)];
      commandLength := 0;
      commandActive := false;
      ClearResult();
      var a := Choose(c, e);
      RespondClears(State(), s.out.result, c, a);
      Answered(c, a);
    }

    /** akiko_internal. */
    method RunInternal(e: Env)
      requires Valid()
      modifies this, resultBuffer, commandBuffer, rxMemory
      ensures Valid() && State() == Internal(old(State()), e)
    {
      hide ReturnData, FetchByte, OutOk, InOk;
      TransferResult();
      RunCommand();
      if commandActive { RunCommandRun(e); }
    }

    /** A packet that is no response: written over the start of the buffer and started if nothing is pending. */
    method SendNotice(a: seq<Byte>)
      requires Valid() && !commandActive && receiveLength == 0 && 0 < |a| <= 20
      modifies this`io, this`receiveLength, this`receiveOffset, this`log, resultBuffer
      ensures Valid() && State() == Notify(old(State()), a)
    {
      hide Seal, Sum, InOk;
      Put(a);
      var r := StartReturnData(|a|);
      log := log + [Notice(Seal(a))];
    }

    /** Starts of play, ends of play and failed plays: the part of akiko_handler between media changes and the table of
        contents. */
    method NoticePlay() returns (a: seq<Byte>)
      modifies this`drive
      ensures a == PlayNotice(old(drive)) && drive == AfterPlayNotice(old(drive))
    {
      a := [];
      if drive.timeout > 1 { drive := drive.(timeout := drive.timeout - 1); }
      if drive.timeout == 1 {
        if drive.playing == 0 { drive := drive.(playing := 1); }
        if drive.playing == 1 { a := [4, 0x0b]; }
        drive := drive.(playing := 2);
        drive := drive.(timeout := 0);
      }
      if drive.timeout == -1 {
        if drive.playing != 0 {
          drive := drive.(timeout := 0, playing := 0);
          drive := drive.(timeout := -2);
        } else {
          drive := drive.(timeout := 0);
        }
      }
      if drive.timeout == -2 && a == [] {
        a := [4, 1];
        drive := drive.(timeout := 0);
      }
      if drive.timeout == -3 && a == [] {
        a := [4, 0x81];
        drive := drive.(timeout := 0);
      }
    }

    /** What akiko_handler sends, if anything. */
    method ChooseNotice(frame: bool) returns (a: seq<Byte>)
      modifies this`drive, this`initialized
      ensures var r := Spontaneous(old(drive), old(initialized), frame);
              a == r.0 && drive == r.1 && initialized == if old(initialized) == 0 then 1 else old(initialized)
    {
      if initialized == 0 {
        a := if drive.media then MediaStatus(drive) else [];
        initialized := 1;
        return;
      }
      if initialized < 2 { return []; }
      if drive.changed {
        a := MediaStatus(drive);
        drive := drive.(changed := false, toc := -1);
        return;
      }
      a := NoticePlay();
      if drive.toc >= 0 && frame && a == [] {
        a := [6] + drive.entry;
        drive := drive.(toc := NextToc(drive));
      }
    }

    /** akiko_handler. */
    method Handle(frame: bool)
      requires Valid() && !commandActive
      modifies this`drive, this`initialized, this`io, this`receiveLength, this`receiveOffset, this`log, resultBuffer
      ensures Valid() && State() == Handler(old(State()), frame)
    {
      hide Spontaneous, Notify, OutOk, InOk;
      if !drive.present { return; }
      if receiveLength > 0 { return; }
      var a := ChooseNotice(frame);
      if a != [] { SendNotice(a); }
    }

    /** The delays of the DMA channels. */
    method CountDelays()
      modifies this`io
      ensures io == old(io).(txDelay := Less(old(io.txDelay)), rxDelay := Less(old(io.rxDelay)))
    {
      if io.txDelay > 0 { io := io.(txDelay := io.txDelay - 1); }
      if io.rxDelay > 0 { io := io.(rxDelay := io.rxDelay - 1); }
    }

    /** The CD part of AKIKO_hsync_handler. */
    method HsyncHandler(frame: bool, e: Env)
      requires Valid() && !commandActive
      modifies this, resultBuffer, commandBuffer, rxMemory
      ensures Valid() && State() == Step(old(State()), Hsync(frame), e)
    {
      hide Internal, Handler, Less, OutOk, InOk;
      CountDelays();
      assert State() == Access(old(State()), Hsync(frame));
      hide Access;
      RunInternal(e);
      Handle(frame);
    }

    /** The read itself. */
    method TakeByte()
      requires Valid()
      modifies this`lastRx, this`receiveOffset, this`receiveLength, this`io, this`consumed
      ensures Valid() && State() == Take(old(State()))
    {
      hide InOk;
      if !io.rxd && receiveOffset < receiveLength {
        lastRx := resultBuffer[receiveOffset];
        consumed := consumed + [lastRx];
        receiveOffset := receiveOffset + 1;
        if receiveOffset == receiveLength {
          receiveLength := 0;
          io := io.(driveRecv := false, driveXmit := true);
        }
      } else {
        io := io.(driveRecv := false);
      }
    }

    /** A byte read from the data register. */
    method ReadDataRegister(e: Env) returns (v: Byte)
      requires Valid() && !commandActive
      modifies this, resultBuffer, commandBuffer, rxMemory
      ensures Valid() && State() == Step(old(State()), ReadData, e) && v == Take(old(State())).out.last
    {
      hide Internal, InOk, OutOk, Take;
      TakeByte();
      v := lastRx;
      RunInternal(e);
    }

    /** The write itself. */
    method GiveByte(b: Byte)
      requires Valid()
      modifies this`commandLength, this`command, this`checksumError, this`unknownCommand, this`commandActive, this`taken
      modifies this`io, commandBuffer
      ensures Valid() && State() == Give(old(State()), b)
    {
      hide OutOk, InOk, AddByte;
      if io.txd { return; }
      io := io.(driveXmit := false);
      var can := CanSendCommand();
      if can {
        AddCommandByte(b);
        can := CanSendCommand();
        if can { io := io.(driveXmit := true); }
      }
    }

    /** A byte written to the data register. */
    method WriteDataRegister(b: Byte, e: Env)
      requires Valid() && !commandActive
      modifies this, resultBuffer, commandBuffer, rxMemory
      ensures Valid() && State() == Step(old(State()), WriteData(b), e)
    {
      hide Internal, OutOk, InOk, Give;
      GiveByte(b);
      RunInternal(e);
    }
  }
}
