/**
 The ATonce board in the program's form (atonce.cpp:423-434, 736-759, 775-947, 1090-1163): `xb` is struct atonce_s,
 updated field by field, with the history beside it.
 */
module AtonceBoard {
  import opened Atonce

  class Atonce286 {
    var xb: Lines
    ghost var past: Past

    ghost function State(): Board
      reads this
    {
      Board(xb, past)
    }

    constructor ()
      ensures State() == PowerOn()
    {
      xb := PowerOn().xb;
      past := PowerOn().past;
    }

    /** atonce_trap. */
    method Trap(port: nat, input: bool)
      modifies this
      ensures State() == TrapNow(old(State()), port % 1024, input)
    {
      hide Logged;
      past := Logged(past, port % 1024, input, false, xb.pending);
      xb := xb.(pending := true);
      xb := xb.(port := port % 1024);
      xb := xb.(input := input);
      xb := xb.(frozen := true);
    }

    /** atonce_x86_io; the result says whether the instruction trapped. */
    method X86(io: Io) returns (trapped: bool)
      modifies this
      ensures State() == X86Io(old(State()), io) && trapped == !PassesBy(io)
    {
      hide VideoPort, TrapNow;
      if io.port / 8 == 31 { return false; }
      if !io.input {
        if (io.port == 0xb0 || io.port == 0xb9) && io.served { return false; }
        if VideoPort(io.port % 1024) {
          xb := xb.(videoSet := true);
          past := past.(programmed := true);
        }
      }
      Trap(io.port, io.input);
      trapped := true;
    }

    /** atonce_run: the processor executes until an instruction traps or the budget is spent. */
    method Execute(ios: seq<Io>)
      modifies this
      ensures State() == Run286(old(State()), ios)
    {
      hide X86Io, PassesBy;
      past := past.(starved := false, ranFree := past.ranFree && Free(xb));
      var i := 0;
      var trapped := false;
      RunningTwice(old(State()), ios);
      while i < |ios| && !trapped
        invariant i <= |ios|
        invariant !trapped ==> Running(State()) == State() && Run286(State(), ios[i..]) == Run286(old(State()), ios)
        invariant trapped ==> State() == Run286(old(State()), ios)
      {
        ghost var s := State();
        trapped := X86(ios[i]);
        assert ios[i..][1..] == ios[i + 1..];
        if !trapped { PassingChangesNothing(s, ios[i]); }
        i := i + 1;
      }
    }

    /** atonce_porta_read. */
    method StatusRead() returns (v: nat)
      ensures v == PortARead(xb)
      ensures v / 2 == 1 <==> xb.pending
      ensures xb.stopped ==> (v % 2 == 1 <==> xb.input)
    {
      v := 0;
      if xb.pending { v := v + 2; }
      if xb.stopped {
        if xb.input { v := v + 1; }
      }
    }

    /** atonce_porta_write. */
    method ModeWrite(v: nat)
      modifies this
      ensures State() == PortAWrite(old(State()), v)
    {
      hide DinBit, SetupBit;
      var was := xb.din;
      xb := xb.(din := DinBit(v));
      xb := xb.(setup := SetupBit(v));
      if xb.configured && DinBit(v) && !was {
        Pulse();
      }
    }

    /** The reset of the 286 on a rising edge. */
    method Pulse()
      modifies this
      ensures xb == old(xb).(inReset := true, videoSet := false, due := false) &&
              past == old(past).(programmed := false)
    {
      past := past.(programmed := false);
      xb := xb.(inReset := true);
      xb := xb.(videoSet := false);
      xb := xb.(due := false);
    }

    /** atonce_fire_refresh. */
    method Refresh(chip: bool)
      modifies this
      ensures State() == FireRefresh(old(State()), chip)
    {
      hide Logged;
      if !chip { return; }
      past := Logged(past, 0x3d5, false, true, xb.pending);
      xb := xb.(due := false);
      xb := xb.(fake := true);
      xb := xb.(port := 0x3d5);
      xb := xb.(input := false);
      xb := xb.(pending := true);
      xb := xb.(frozen := true);
    }

    /** atonce_portb_read. */
    method StopRead() returns (v: nat)
      modifies this
      ensures State() == PortBRead(old(State())) && v == Readback(xb.port)
    {
      xb := xb.(frozen := true);
      xb := xb.(stopped := true);
      v := xb.port % 256 * 256 + xb.port / 256 % 4;
    }

    /** The part of atonce_portb_write that clears the trap and brings the board up. */
    method Continue()
      modifies this
      ensures State() == Resume(old(State()))
    {
      hide Settled;
      past := Settled(past, xb.pending, !xb.configured);
      xb := xb.(fake := false);
      xb := xb.(frozen := false);
      xb := xb.(stopped := false);
      xb := xb.(pending := false);
      xb := xb.(inReset := false);
      if !xb.configured {
        xb := xb.(configured := true);
        xb := xb.(videoSet := false);
        xb := xb.(due := false);
      }
    }

    /** atonce_portb_write; `ios` is what the 286 would do. */
    method ResumeWrite(chip: bool, ios: seq<Io>)
      modifies this
      ensures State() == PortBWrite(old(State()), chip, ios)
    {
      hide FireRefresh, Run286, RefreshSafePort, Resume;
      if xb.setup {
        xb := xb.(inReset := false);
        return;
      }
      var wasFake := xb.fake;
      Continue();
      if xb.due && !wasFake && RefreshSafePort(xb.port) {
        Refresh(chip);
        return;
      }
      Execute(ios);
    }

    /** The refresh timer. */
    method CountFrame(c: Clock, lines: nat, hash: nat) returns (clock: Clock, owed: bool)
      ensures clock == Ticked(c, lines, hash) && owed == Owed(c, lines, hash)
    {
      clock, owed := c.(div := c.div + 1), false;
      if clock.div >= lines {
        clock := clock.(div := 0, beat := clock.beat + 1);
        var changed := hash != clock.hash;
        if changed || clock.beat >= 25 {
          clock := clock.(hash := hash, beat := 0);
          owed := true;
        }
      }
    }

    /** atonce_hsync. */
    method Line(lines: nat, hash: nat, chip: bool, slice: bool, ios: seq<Io>)
      modifies this
      ensures State() == Hsync(old(State()), lines, hash, chip, slice, ios)
    {
      hide FireRefresh, Run286, Ticked, Owed;
      if !xb.configured || xb.inReset { return; }
      if xb.videoSet {
        var clock, owed := CountFrame(xb.clock, lines, hash);
        xb := xb.(clock := clock);
        if owed { xb := xb.(due := true); }
      }
      assert xb == OweLines(old(xb), lines, hash);
      hide OweLines;
      if xb.due && !xb.frozen && !xb.pending {
        Refresh(chip);
        return;
      }
      if xb.frozen { return; }
      if slice { Execute(ios); }
    }

    /** atonce_reset. */
    method HardReset()
      modifies this
      ensures State() == Reset(old(State()))
    {
      hide Settled;
      past := Settled(past, xb.pending, true);
      xb := xb.(configured := false);
      xb := xb.(frozen := false);
      xb := xb.(stopped := false);
      xb := xb.(pending := false);
      xb := xb.(inReset := true);
      xb := xb.(setup := false);
    }
  }

  lemma RunningTwice(s: Board, ios: seq<Io>)
    ensures Running(Running(s)) == Running(s) && Run286(Running(s), ios) == Run286(s, ios)
  {
  }

  lemma PassingChangesNothing(s: Board, io: Io)
    requires PassesBy(io)
    ensures X86Io(s, io) == s
  {
  }
}
