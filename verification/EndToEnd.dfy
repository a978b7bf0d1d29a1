/** From the commands typed to the buffers of a receiver at the other end of the cable. */
module EndToEnd {
  import opened Pio
  import opened KeyCommands
  import opened Tasks
  import opened History
  import opened DmxTransmit
  import opened DmxWaveform
  import opened DmxLink
  import opened DmxLoop
  import R = DmxReceive

  /** The start code and the channels 1 to 511. */
  const CAPTURED := 512

  /** Every transmission is of a whole frame, and the next one begins when `busy` is false. */
  ghost predicate WaitForFree(t: Tx<Sm>, xs: seq<Send>)
    decreases |xs|
  {
    xs != [] ==>
      |xs[0].universe| == FRAME_SIZE && !After(t, xs[0]).Busy() && WaitForFree(After(t, xs[0]), xs[1..])
  }

  /** Then the first 512 slots are whole, even if the last one is cut. */
  lemma {:induction false} AllButLastWhole(t: Tx<Sm>, xs: seq<Send>)
    requires t.fifo == [] && WaitForFree(t, xs)
    ensures AllDeliver(t, xs, CAPTURED)
    decreases |xs|
  {
    hide TxAt, Line, FrameLevel, WriteDmx, Words;
    if xs != [] {
      var x := xs[0];
      Waveform(false, t, x.universe, x.grants, x.len);
      BusyMeansNotAllTaken(false, t, x.universe, x.grants, x.len);
      var s := After(t, x);
      assert |Words(s.log) + s.fifo + s.src| == |t.fifo + x.universe|;
      assert |s.log| == FRAME_SIZE;
      assert s.log[511].at + SLOT_CYCLES <= s.log[512].at < x.len;
      AllButLastWhole(s, xs[1..]);
    }
  }

  /** What a receiver takes are the bytes of the universes. */
  lemma {:induction false} FirstBytesAre(t: Tx<Sm>, xs: seq<Send>, i: nat)
    requires t.fifo == [] && WaitForFree(t, xs) && i < |xs|
    ensures |FirstBytes(t, xs, CAPTURED)| == |xs|
    ensures |xs[i].universe| == FRAME_SIZE && FirstBytes(t, xs, CAPTURED)[i] == LowBytes(xs[i].universe)[..CAPTURED]
    decreases |xs|
  {
    hide LowByte, After;
    var x := xs[0];
    assert t.fifo + x.universe == x.universe;
    FirstBytesSplit(t, xs, CAPTURED);
    if |xs| == 1 {
      assert xs[1..] == [] && FirstBytes(After(t, x), [], CAPTURED) == [];
    } else {
      FirstBytesAre(After(t, x), xs[1..], if i == 0 then 0 else i - 1);
    }
  }

  /** With dmx_loop off and every command typed when the queue is drained: if the transmissions on the
      line are those of a run of the tasks, the receiver takes one buffer per transmission, and buffer i
      has start code 0 and shows on the channels 1 to 511 what the first i commands amount to. */
  lemma StageShowsCommands(atomic: bool, events: seq<Event>, before: nat -> bool, b: nat, t: Tx<Sm>, xs: seq<Send>,
                           c: Capture, serve: nat -> bool, t0: real, r: real) returns (n: nat, got: seq<seq<Word>>)
    requires Unhurried(false, atomic, events)
    requires 0 < |xs| <= |Run(Tasks.Start(false, atomic), events).sent|
    requires forall i :: 0 <= i < |xs| ==> LowBytes(xs[i].universe) == Run(Tasks.Start(false, atomic), events).sent[i]
    requires t.fifo == [] && WaitForFree(t, xs) && Quiet(WholeLine(before, b, t, xs), b)
    requires Tolerated(r) && 0.0 <= t0 <= b as real + 80.0 && Armed(c.rx) && forall k: nat :: ServedSoon(serve, k)
    ensures forall m: nat :: n <= m ==>
      CaptureAt(c, CAPTURED, Sampled(WholeLine(before, b, t, xs), t0, r), serve, m).taken == c.taken + got
    ensures |got| == |xs| <= |Commands(events)| + 1
    ensures forall i :: 0 <= i < |got| ==> |got[i]| == CAPTURED && got[i][0] == 0
    ensures forall i, d :: 0 <= i < |got| && 1 <= d <= 511 ==> got[i][d] == Fold(Commands(events)[..i]).0[d]
  {
    hide Run, Fold, Commands, Tasks.Start, Unhurried, WaitForFree, Quiet, WholeLine, Sampled, CaptureAt, ServedSoon,
      Tolerated, LowByte, FirstBytes, AllDeliver;
    AllButLastWhole(t, xs);
    n := EveryFrameIsTaken(before, b, t, xs, c, CAPTURED, serve, t0, r);
    got := FirstBytes(t, xs, CAPTURED);
    FirstBytesAre(t, xs, 0);
    SentAreFolds(atomic, events, |xs| - 1);
    forall i | 0 <= i < |got|
      ensures |got[i]| == CAPTURED && got[i][0] == 0
      ensures forall d :: 1 <= d <= 511 ==> got[i][d] == Fold(Commands(events)[..i]).0[d]
    {
      FirstBytesAre(t, xs, i);
      SentAreFolds(atomic, events, i);
    }
  }
}
