/**
  The DMX object with its shadow buffer, and the command interpreter as the firmware runs it.
 */
module Firmware {
  import opened Common
  import opened KeyStrings
  import opened KeyCommands
  import opened DmxDevices
  import T = DmxTransmit

  class Dmx {
    const dmxp: DmxOutput
    const dmxData: array<Byte>
    var dataUpdate: bool

    ghost predicate Valid() {
      dmxData.Length == FRAME_SIZE
    }

    constructor ()
      ensures Valid() && fresh(dmxData) && fresh(dmxp) && !dataUpdate
      ensures forall i :: 0 <= i < FRAME_SIZE ==> dmxData[i] == i % 256
    {
      dmxp := new DmxOutput(false);
      dmxData := new Byte[FRAME_SIZE](_ => 0);
      dataUpdate := false;
      new;
      for i := 0 to FRAME_SIZE
        invariant !dataUpdate && forall k :: 0 <= k < i ==> dmxData[k] == k % 256
      {
        dmxData[i] := i % 256;
      }
    }

    function Shadow(): Frame
      requires Valid()
      reads dmxData
    {
      dmxData[..]
    }

    /** Hands the whole shadow buffer to the transmitter. */
    method SendDMX()
      requires Valid()
      modifies dmxp, dmxp.sm
      ensures dmxp.View() == T.WriteDmx(dmxp.inverted, old(dmxp.View()), Shadow())
    {
      dmxp.Write(dmxData[..]);
    }

    method IsBusy() returns (busy: bool)
      ensures busy == (dmxp.View().Busy() || dataUpdate)
    {
      busy := dmxp.IsBusy();
      busy := busy || dataUpdate;
    }

    method ForceBusy(busy: bool)
      modifies this`dataUpdate
      ensures dataUpdate == busy
    {
      dataUpdate := busy;
    }

    /** Copies a frame into the shadow buffer, from the start code on or from channel 1 on. */
    method UnsafeWriteBuffer(buffer: Frame, noStartCode: bool)
      requires Valid()
      modifies dmxData
      ensures Shadow() == if noStartCode then buffer[0 := old(Shadow())[0]] else buffer
    {
      var from := if noStartCode then 1 else 0;
      for i := from to FRAME_SIZE
        invariant dmxData[..from] == old(dmxData[..from])
        invariant dmxData[from..i] == buffer[from..i]
      {
        dmxData[i] := buffer[i];
      }
    }

    /** Copies the channels, but not the start code, out. */
    method GetShadowBuff(buffer: array<Byte>)
      requires Valid() && buffer.Length == FRAME_SIZE && buffer != dmxData
      modifies buffer
      ensures buffer[..] == Shadow()[0 := old(buffer[0])]
    {
      for i := 1 to FRAME_SIZE
        invariant buffer[0] == old(buffer[0]) && buffer[1..i] == dmxData[1..i]
      {
        buffer[i] := dmxData[i];
      }
    }
  }

  class Rfu {
    const dmx: Dmx
    var captured: set<nat>
    var dmxQueue: seq<Frame>
    var waiting: Option<Frame>

    constructor (dmx: Dmx)
      ensures this.dmx == dmx && captured == {} && dmxQueue == [] && waiting == None
    {
      this.dmx, captured, dmxQueue, waiting := dmx, {}, [], None;
    }

    /** The end of processKeys: with the queue full, its thread blocks, holding the frame. */
    method SendFrame(frame: Frame)
      requires waiting == None
      modifies this`dmxQueue, this`waiting
      ensures if old(|dmxQueue|) < 5 then dmxQueue == old(dmxQueue) + [frame] && waiting == None
              else dmxQueue == old(dmxQueue) && waiting == Some(frame)
    {
      if |dmxQueue| < QUEUE_LENGTH {
        dmxQueue := dmxQueue + [frame];
      } else {
        waiting := Some(frame);
      }
    }

    /** There may be room now: the blocked send goes on. */
    method ResumeSend()
      modifies this`dmxQueue, this`waiting
      ensures if old(waiting).Some? && old(|dmxQueue|) < 5
              then dmxQueue == old(dmxQueue) + [old(waiting).value] && waiting == None
              else dmxQueue == old(dmxQueue) && waiting == old(waiting)
    {
      if waiting.Some? {
        var frame := waiting.value;
        waiting := None;
        SendFrame(frame);
      }
    }

    /** One round of dmx_task, from a received frame on: with the transmitter free, the frame is copied under
        the flag, and sent unless dmx_loop does that.  `behind` is the byte behind the 512 of the frame. */
    method ServeFrame(loopOn: bool, behind: Byte)
      requires dmx.Valid() && dmxQueue != [] && !dmx.dataUpdate && !dmx.dmxp.View().Busy()
      modifies this`dmxQueue, dmx`dataUpdate, dmx.dmxData, dmx.dmxp, dmx.dmxp.sm
      ensures dmxQueue == old(dmxQueue)[1..] && !dmx.dataUpdate && dmx.Valid()
      ensures dmx.Shadow() == old(dmxQueue)[0][512 := behind][0 := old(dmx.Shadow())[0]]
      ensures dmx.dmxp.View() == if loopOn then old(dmx.dmxp.View())
                                 else T.WriteDmx(dmx.dmxp.inverted, old(dmx.dmxp.View()), dmx.Shadow())
    {
      var data := dmxQueue[0][512 := behind];
      dmxQueue := dmxQueue[1..];
      dmx.ForceBusy(true);
      dmx.UnsafeWriteBuffer(data, true);
      dmx.ForceBusy(false);
      if !loopOn { dmx.SendDMX(); }
    }

    /** Interprets a key string against the shadow buffer and sends the frame to the queue.  Its thread
        calls it again only when it is not blocked any more. */
    method ProcessKeys(keys: string)
      requires dmx.Valid() && waiting == None
      modifies this`captured, this`dmxQueue, this`waiting
      ensures var (frame, caught) := Interpret(dmx.Shadow(), old(captured), keys);
              && captured == caught
              && if old(|dmxQueue|) < 5 then dmxQueue == old(dmxQueue) + [frame] && waiting == None
                 else dmxQueue == old(dmxQueue) && waiting == Some(frame)
    {
      hide Tokens, Atoi, Step;
      var dmxFrame := new Byte[FRAME_SIZE](_ => 0);
      dmx.GetShadowBuff(dmxFrame);
      var tokens := Split(keys);
      var channels: seq<nat> := [];
      var isLevel, isThru, released := false, false, false;
      ghost var st := StartState(dmx.Shadow(), captured);
      ghost var goal := RunTokens(st, tokens);
      var n := 0;
      while n < |tokens| && !released
        invariant n <= |tokens| && fresh(dmxFrame) && dmxFrame.Length == FRAME_SIZE
        invariant st == Interp(dmxFrame[..], captured, channels, isLevel, isThru, released)
        invariant RunTokens(st, tokens[n..]) == goal
        invariant dmxQueue == old(dmxQueue) && waiting == None
      {
        var t := tokens[n];
        isLevel, isThru, channels, released := ProcessToken(t, dmxFrame, isLevel, isThru, channels);
        assert tokens[n..][0] == t && tokens[n..][1..] == tokens[n + 1..];
        st := Step(st, t);
        n := n + 1;
      }
      if released { ReleasedStays(st, tokens[n..]); }
      SendFrame(dmxFrame[..]);
    }

    /** One token: what it does to the frame, the selection, the flags and the captured set. */
    method ProcessToken(t: string, dmxFrame: array<Byte>, isLevel0: bool, isThru0: bool, channels0: seq<nat>)
      returns (isLevel: bool, isThru: bool, channels: seq<nat>, released: bool)
      requires dmxFrame.Length == FRAME_SIZE
      modifies this`captured, dmxFrame
      ensures Interp(dmxFrame[..], captured, channels, isLevel, isThru, released)
        == Step(Interp(old(dmxFrame[..]), old(captured), channels0, isLevel0, isThru0, false), t)
    {
      hide Atoi, Cleared, SetAll, ToSet, Upto, U16;
      isLevel, isThru, channels, released := isLevel0, isThru0, channels0, false;
      if "release" <= t {
        Clear(dmxFrame);
        captured := {};
        released := true;
      } else if "AND" <= t {
      } else if "AT" <= t {
        isLevel := true;
      } else if "FULL" <= t {
        Store(dmxFrame, channels, 255);
        captured, channels, isLevel := captured + ToSet(channels), [], false;
      } else if "THRU" <= t {
        isThru := true;
      } else if isLevel {
        var level := U16(Atoi(t));
        Store(dmxFrame, channels, level % 256);
        captured, channels, isLevel := captured + ToSet(channels), [], false;
      } else if isThru {
        var channel := U16(Atoi(t));
        if 1 <= channel <= 512 && channels != [] {
          channels := PushRange(channels, channels[|channels| - 1] + 1, channel);
        }
        isThru := false;
      } else {
        channels := channels + [U16(Atoi(t))];
      }
    }
  }

  method Store(dmxFrame: array<Byte>, channels: seq<nat>, v: Byte)
    requires dmxFrame.Length == FRAME_SIZE
    modifies dmxFrame
    ensures dmxFrame[..] == SetAll(old(dmxFrame[..]), channels, v)
  {
    assert channels[..0] == [];
    for k := 0 to |channels|
      invariant dmxFrame[..] == SetAll(old(dmxFrame[..]), channels[..k], v)
    {
      var d := channels[k];
      assert channels[..k + 1][..k] == channels[..k];
      if d < FRAME_SIZE {
        dmxFrame[d] := v;
      }
    }
    assert channels[..|channels|] == channels;
  }

  /** All bytes but the one behind the 512 that the buffer of processKeys has. */
  method Clear(dmxFrame: array<Byte>)
    requires dmxFrame.Length == FRAME_SIZE
    modifies dmxFrame
    ensures dmxFrame[..] == Cleared(old(dmxFrame[..]))
  {
    for i := 0 to 512
      invariant forall k :: 0 <= k < i ==> dmxFrame[k] == 0
      invariant dmxFrame[512] == old(dmxFrame[512])
    {
      dmxFrame[i] := 0;
    }
  }

  method PushRange(channels: seq<nat>, from: nat, to: nat) returns (r: seq<nat>)
    ensures r == channels + Upto(from, to)
  {
    r := channels;
    var i := from;
    while i <= to
      invariant from <= i
      invariant i > from ==> i <= to + 1 && r == channels + Upto(from, i - 1)
      invariant i == from ==> r == channels
    {
      r := r + [i];
      i := i + 1;
    }
  }
}
