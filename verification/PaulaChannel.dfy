/** The audio channel in the program's form (audio.cpp:1557-1703, 1818-2035, 2542-2647): `cdp` is struct
    audio_channel_data, updated field by field; `tape` records what has gone through. */
module PaulaChannel {
  import opened Paula
  import opened Numbers

  class AudioChannel {
    var cdp: Chan
    ghost var tape: Tape

    ghost function State(): Audio
      reads this
    {
      Audio(cdp, tape)
    }

    constructor (len: Word, lc: nat, pt: nat)
      ensures cdp == Chan(0, 0, 0, len, 0, false, false, false, false, false, pt, lc) && tape == Tape([], [], [], [], 0)
    {
      cdp := Chan(0, 0, 0, len, 0, false, false, false, false, false, pt, lc);
      tape := Tape([], [], [], [], 0);
    }

    /** setdr. */
    method SetDr()
      modifies this`cdp
      ensures cdp == Request(old(cdp))
    {
      if cdp.wlen == 1 {
        cdp := cdp.(dsr := true);
      } else {
        cdp := cdp.(dr := true);
      }
    }

    /** loaddat. */
    method LoadDat()
      modifies this
      ensures cdp == old(cdp).(dat2 := old(cdp.dat)) &&
              tape == old(tape).(latched := old(tape.latched) + [old(cdp.dat)])
    {
      tape := tape.(latched := tape.latched + [cdp.dat]);
      cdp := cdp.(dat2 := cdp.dat);
    }

    /** newsample. */
    method NewSample(sample: Byte)
      modifies this`tape
      ensures tape == Emit(old(tape), sample)
    {
      tape := tape.(out := tape.out + [sample]);
    }

    /** setirq. */
    method SetIrq()
      modifies this`tape
      ensures tape == Raise(old(tape))
    {
      tape := tape.(irqs := tape.irqs + 1);
    }

    /** audio_state_channel2; the recursive calls play the sample of the state they enter. */
    method StateMachine(perfin: bool)
      modifies this
      ensures State() == Channel(old(State()), perfin)
      decreases if perfin then 1 else 0, if cdp.state == 5 then 1 else 0
    {
      hide Request, Emit, Raise, Hi, Lo, Decremented;
      if cdp.state == 0 {
        TurnOn();
      } else if cdp.state == 1 {
        if !cdp.written { return; }
        SetIrq();
        SetDr();
        RequestKeepsLength(old(cdp));
        if cdp.wlen != 1 { cdp := cdp.(wlen := Decremented(cdp.wlen)); }
        cdp := cdp.(state := 5);
      } else if cdp.state == 5 {
        if !cdp.written { return; }
        LoadDat();
        SetDr();
        RequestKeepsLength(old(cdp).(dat2 := old(cdp.dat)));
        cdp := cdp.(state := 2);
        cdp := cdp.(pbufldl := true);
        StateMachine(false);
      } else if cdp.state == 2 {
        if cdp.pbufldl {
          NewSample(Hi(cdp.dat2));
          cdp := cdp.(pbufldl := false);
        }
        if !perfin { return; }
        cdp := cdp.(pbufldl := true);
        cdp := cdp.(state := 3);
        StateMachine(false);
      } else if cdp.state == 3 {
        if cdp.pbufldl {
          NewSample(Lo(cdp.dat2));
          cdp := cdp.(pbufldl := false);
        }
        if !perfin { return; }
        NextWord();
        cdp := cdp.(pbufldl := true);
        cdp := cdp.(state := 2);
        StateMachine(false);
      }
    }

    /** State 0 with the channel enabled. */
    method TurnOn()
      modifies this
      ensures State() == Enabled(old(State()))
    {
      cdp := cdp.(state := 1);
      cdp := cdp.(dr := true);
      cdp := cdp.(wlen := cdp.len);
      cdp := cdp.(dsr := true);
      if cdp.intreq2 {
        SetIrq();
        cdp := cdp.(intreq2 := false);
      }
    }

    /** The end of the second sample of a word. */
    method NextWord()
      modifies this
      ensures State() == LoopInterrupt(Latch(old(State())))
    {
      LoadDat();
      SetDr();
      if cdp.intreq2 {
        SetIrq();
        cdp := cdp.(intreq2 := false);
      }
    }

    /** AUDxDAT and event_audxdat_func, DMA on. */
    method AudxDat(v: Word)
      modifies this
      ensures State() == Arrive(old(State()), v)
    {
      hide Channel, Decremented;
      cdp := cdp.(dat := v);
      if cdp.state == 2 || cdp.state == 3 {
        tape := tape.(arrived := tape.arrived + [v], reloads := tape.reloads + [cdp.wlen == 1]);
        if cdp.wlen == 1 {
          cdp := cdp.(wlen := cdp.len);
          cdp := cdp.(intreq2 := true);
        } else {
          cdp := cdp.(wlen := Decremented(cdp.wlen));
        }
      } else {
        cdp := cdp.(written := true);
        if cdp.state == 5 { tape := tape.(arrived := tape.arrived + [v], reloads := tape.reloads + [false]); }
        StateMachine(false);
      }
      cdp := cdp.(written := false);
    }

    /** audio_dmal and the immediate DMA slot of this channel. */
    method DmaSlot(mem: nat -> Word)
      modifies this
      ensures State() == Fetch(old(State()), mem)
    {
      hide Arrive;
      if !cdp.dr && !cdp.dsr { return; }
      var reload := cdp.dsr;
      cdp := cdp.(dr := false, dsr := false);
      var pt := cdp.pt;
      AudxDat(mem(pt));
      ArriveKeepsRegisters(Audio(old(cdp).(dr := false, dsr := false), old(tape)), mem(pt));
      cdp := cdp.(pt := (pt + 2) % TWO32);
      if reload { cdp := cdp.(pt := cdp.lc); }
    }
  }

  lemma RequestKeepsLength(c: Chan)
    ensures Request(c) == c.(dr := Request(c).dr, dsr := Request(c).dsr)
  {
  }
}
