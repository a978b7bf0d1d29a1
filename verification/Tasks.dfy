/**
  The FreeRTOS threads that share the shadow buffer, as a state machine: commands fill the queue, dmx_task
  empties it into the shadow buffer, dmx_loop (when it is on) and dmx_task start transmissions, and
  the DMA channel reads the shadow buffer while a transmission runs.
 */
module Tasks {
  import opened Common
  import opened KeyCommands

  /** What the constructor leaves in the buffer. */
  function PowerOn(): Frame {
    seq(FRAME_SIZE, i => i % 256)
  }

  function Dark(): Frame {
    seq(FRAME_SIZE, _ => 0)
  }

  /** Where dmx_task stands.  A received frame has 512 bytes; what lies behind them in memory is
      copied along. */
  datatype TaskPc =
    | Receive
    | Check(data: Frame)
    | Flag(data: Frame)
    | Copy(data: Frame, i: nat)
    | Unflag
    | Send

  /** A transmission reads the buffer byte by byte; the FIFO empties after the last one. */
  datatype Dma = Idle | Moving(got: seq<Byte>) | Draining(got: seq<Byte>)

  /** `loopOn` is the dmx_loop setting.  `atomic` says that nothing runs between the busy check of
      dmx_task and the raising of its flag; the firmware does not see to that.  `waiting` is the frame
      that processKeys holds while it is blocked on a full queue.  `made`, `dequeued`, `started` and
      `sent` are histories: frames made of commands, frames taken from the queue, the buffer at the
      start of every transmission, and the bytes every finished transmission moved. */
  datatype World = World(
    loopOn: bool, atomic: bool,
    queue: seq<Frame>, waiting: Option<Frame>, captured: set<nat>, pc: TaskPc, buffer: Frame, flag: bool, dma: Dma,
    made: seq<Frame>, dequeued: seq<Frame>, started: seq<Frame>, sent: seq<seq<Byte>>)

  datatype Event =
    | Command(keys: string)
    | SenderResumes
    | TaskStep(behind: Byte)
    | LoopTick
    | DmaMove
    | FifoDrained

  function Start(loopOn: bool, atomic: bool): World {
    World(loopOn, atomic, [Dark()], None, {}, Receive, PowerOn(), false, Idle, [], [], [], [])
  }

  predicate Busy(w: World) {
    !w.dma.Idle? || w.flag
  }

  function Transmit(w: World): World {
    w.(dma := Moving([]), started := w.started + [w.buffer])
  }

  function StepTask(w: World, behind: Byte): World {
    match w.pc
    case Receive =>
      if w.queue == [] then w
      else
        var data := w.queue[0][512 := behind];
        w.(queue := w.queue[1..], pc := Check(data), dequeued := w.dequeued + [data])
    case Check(data) =>
      if Busy(w) then w
      else if w.atomic then w.(pc := Copy(data, 1), flag := true)
      else w.(pc := Flag(data))
    case Flag(data) => w.(pc := Copy(data, 1), flag := true)
    case Copy(data, i) =>
      if i < FRAME_SIZE then w.(buffer := w.buffer[i := data[i]], pc := Copy(data, i + 1)) else w.(pc := Unflag)
    case Unflag => w.(flag := false, pc := if w.loopOn then Receive else Send)
    case Send => Transmit(w).(pc := Receive)
  }

  /** A command while processKeys is still blocked is not taken: its thread does not get to it. */
  function Step(w: World, e: Event): World {
    match e
    case Command(keys) =>
      if w.waiting.Some? then w
      else
        var (frame, captured) := Interpret(w.buffer, w.captured, keys);
        var w1 := w.(captured := captured, made := w.made + [frame]);
        if |w.queue| < QUEUE_LENGTH then w1.(queue := w.queue + [frame]) else w1.(waiting := Some(frame))
    case SenderResumes =>
      if w.waiting.Some? && |w.queue| < QUEUE_LENGTH
      then w.(queue := w.queue + [w.waiting.value], waiting := None)
      else w
    case TaskStep(behind) => StepTask(w, behind)
    case LoopTick => if w.loopOn && !Busy(w) then Transmit(w) else w
    case DmaMove =>
      if w.dma.Moving? && |w.dma.got| < FRAME_SIZE then
        var got := w.dma.got + [w.buffer[|w.dma.got|]];
        w.(dma := if |got| < FRAME_SIZE then Moving(got) else Draining(got))
      else w
    case FifoDrained =>
      if w.dma.Draining? then w.(dma := Idle, sent := w.sent + [w.dma.got]) else w
  }

  function Run(w: World, events: seq<Event>): World {
    if events == [] then w else Step(Run(w, events[..|events| - 1]), events[|events| - 1])
  }

  /** A frame as the buffer holds it: the start code of the buffer is always zero. */
  function Shown(f: Frame): Frame {
    f[0 := 0]
  }

  // ---------------------------------------------------------------------------------------
  // What every step keeps.

  /** The last frame that was copied completely, or the pattern of the constructor. */
  function LastWhole(w: World): Frame {
    var n := |w.dequeued| - if w.pc.Check? || w.pc.Flag? || w.pc.Copy? then 1 else 0;
    if n <= 0 then PowerOn() else Shown(w.dequeued[n - 1])
  }

  ghost predicate TaskInv(w: World) {
    && (w.pc.Check? || w.pc.Flag? ==> w.dequeued != [] && w.pc.data == w.dequeued[|w.dequeued| - 1])
    && (w.pc.Copy? ==>
          && w.dequeued != [] && w.pc.data == w.dequeued[|w.dequeued| - 1]
          && 1 <= w.pc.i <= FRAME_SIZE && w.buffer[1..w.pc.i] == w.pc.data[1..w.pc.i])
    && (w.pc.Unflag? || w.pc.Send? ==> w.dequeued != [])
    && (w.flag <==> w.pc.Copy? || w.pc.Unflag?)
    && (w.pc.Send? ==> !w.loopOn)
    && (w.pc.Flag? ==> !w.atomic)
    && w.buffer[0] == 0
    && (!w.pc.Copy? ==> w.buffer == LastWhole(w))
  }

  /** Frames that may be on the line: the constructor's pattern, or a frame taken from the queue. */
  ghost predicate IsWhole(w: World, f: Frame) {
    f == PowerOn() || exists d :: d in w.dequeued && f == Shown(d)
  }

  lemma StepKeepsTaskInv(w: World, e: Event)
    requires TaskInv(w)
    ensures TaskInv(Step(w, e))
  {
    hide Interpret, PowerOn;
    if e.TaskStep? {
      hide TaskInv, StepTask;
      TaskStepKeepsInv(w, e.behind);
    }
  }

  lemma TaskStepKeepsInv(w: World, behind: Byte)
    requires TaskInv(w)
    ensures TaskInv(StepTask(w, behind))
  {
    hide PowerOn;
    if w.pc.Copy? {
      var i, data := w.pc.i, w.pc.data;
      if i == FRAME_SIZE {
        SameChannels(w.buffer, data);
      } else {
        assert w.buffer[i := data[i]][1..i + 1] == w.buffer[1..i] + [data[i]];
        assert data[1..i + 1] == data[1..i] + [data[i]];
      }
    }
  }

  lemma SameChannels(buffer: Frame, data: Frame)
    requires buffer[0] == 0 && buffer[1..FRAME_SIZE] == data[1..FRAME_SIZE]
    ensures buffer == Shown(data)
  {
    assert buffer == [buffer[0]] + buffer[1..FRAME_SIZE];
    assert Shown(data) == [0] + data[1..FRAME_SIZE];
  }

  lemma {:induction false} RunKeepsTaskInv(loopOn: bool, atomic: bool, events: seq<Event>)
    ensures TaskInv(Run(Start(loopOn, atomic), events))
    ensures var w := Run(Start(loopOn, atomic), events); w.loopOn == loopOn && w.atomic == atomic
  {
    hide Interpret, TaskInv, Step;
    if events == [] {
      StartKeepsTaskInv(loopOn, atomic);
    } else {
      var w := Run(Start(loopOn, atomic), events[..|events| - 1]);
      RunKeepsTaskInv(loopOn, atomic, events[..|events| - 1]);
      StepKeepsTaskInv(w, events[|events| - 1]);
      StepKeepsMode(w, events[|events| - 1]);
    }
  }

  lemma StartKeepsTaskInv(loopOn: bool, atomic: bool)
    ensures TaskInv(Start(loopOn, atomic))
  {
  }

  lemma StepKeepsMode(w: World, e: Event)
    ensures Step(w, e).loopOn == w.loopOn && Step(w, e).atomic == w.atomic
  {
    hide Interpret;
  }

  /** The frames on their way: taken from the queue, in it, or waiting for room. */
  function Pipeline(w: World): seq<Frame> {
    w.dequeued + w.queue + if w.waiting.Some? then [w.waiting.value] else []
  }

  /** No frame is lost, repeated or overtaken: the pipeline holds the zero frame and then the frames made,
      in order.  (Byte 512 is not part of a queued frame.) */
  ghost predicate Conserved(w: World) {
    && |w.queue| <= QUEUE_LENGTH
    && SameFrames(Pipeline(w), [Dark()] + w.made)
  }

  ghost predicate SameFrames(a: seq<Frame>, b: seq<Frame>) {
    |a| == |b| && forall i :: 0 <= i < |a| ==> a[i][512 := 0] == b[i][512 := 0]
  }

  lemma StepConserves(w: World, e: Event)
    requires Conserved(w)
    ensures Conserved(Step(w, e))
  {
    hide Interpret, SameFrames, Dark, StepTask;
    var w1 := Step(w, e);
    match e
    case Command(keys) =>
      if w.waiting.None? {
        var frame := Interpret(w.buffer, w.captured, keys).0;
        assert Pipeline(w1) == Pipeline(w) + [frame];
        OneMoreFrame(Pipeline(w), [Dark()] + w.made, frame);
        assert [Dark()] + w1.made == [Dark()] + w.made + [frame];
      }
    case SenderResumes =>
      assert Pipeline(w1) == Pipeline(w);
    case TaskStep(behind) => TaskStepConserves(w, behind);
    case _ =>
  }

  lemma OneMoreFrame(a: seq<Frame>, b: seq<Frame>, f: Frame)
    requires SameFrames(a, b)
    ensures SameFrames(a + [f], b + [f])
  {
  }

  lemma TaskStepConserves(w: World, behind: Byte)
    requires Conserved(w)
    ensures Conserved(StepTask(w, behind))
  {
    hide Dark;
    if w.pc.Receive? && w.queue != [] {
      var n := |w.dequeued|;
      assert Pipeline(StepTask(w, behind)) == Pipeline(w)[n := w.queue[0][512 := behind]];
      assert Pipeline(w)[n] == w.queue[0];
      assert w.queue[0][512 := behind][512 := 0] == w.queue[0][512 := 0];
    }
  }

  lemma {:induction false} FramesAreConserved(loopOn: bool, atomic: bool, events: seq<Event>)
    ensures Conserved(Run(Start(loopOn, atomic), events))
  {
    hide Step;
    if events != [] {
      FramesAreConserved(loopOn, atomic, events[..|events| - 1]);
      StepConserves(Run(Start(loopOn, atomic), events[..|events| - 1]), events[|events| - 1]);
    }
  }

  // ---------------------------------------------------------------------------------------
  // No transmission is torn, unless dmx_loop ticks between the busy test and the flag of dmx_task.

  /** dmx_task is about to copy, or copies, what the buffer holds already. */
  ghost predicate CopiesTheSame(w: World) {
    (w.pc.Flag? || w.pc.Copy?) && w.buffer == Shown(w.pc.data)
  }

  /** The buffer does not change while the DMA channel reads it, and what it read is a prefix of the
      frame the transmission started from. */
  ghost predicate Untorn(w: World) {
    && (w.dma.Idle? || w.pc.Receive? || w.pc.Check? || (w.loopOn && (w.pc.Unflag? || CopiesTheSame(w))))
    && |w.started| == |w.sent| + (if w.dma.Idle? then 0 else 1)
    && (forall i :: 0 <= i < |w.sent| ==> w.sent[i] == w.started[i])
    && (!w.dma.Idle? ==> w.started[|w.started| - 1] == w.buffer)
    && (w.dma.Moving? ==> |w.dma.got| < FRAME_SIZE && w.dma.got == w.buffer[..|w.dma.got|])
    && (w.dma.Draining? ==> w.dma.got == w.buffer)
  }

  /** A tick of dmx_loop in the window, with the transmitter free and another frame about to be copied. */
  ghost predicate InWindow(w: World) {
    w.loopOn && w.pc.Flag? && w.dma.Idle? && w.buffer != Shown(w.pc.data)
  }

  ghost predicate Harmless(w: World, e: Event) {
    e.LoopTick? ==> !InWindow(w)
  }

  ghost predicate HarmlessRun(w: World, events: seq<Event>) {
    forall i :: 0 <= i < |events| ==> Harmless(Run(w, events[..i]), events[i])
  }

  ghost predicate NoTear(w: World) {
    forall i :: 0 <= i < |w.sent| && i < |w.started| ==> w.sent[i] == w.started[i]
  }

  lemma StepKeepsUntorn(w: World, e: Event)
    requires TaskInv(w) && Untorn(w) && Harmless(w, e)
    ensures Untorn(Step(w, e))
  {
    hide Interpret, LastWhole, StepTask, Shown;
    match e
    case TaskStep(behind) => TaskStepKeepsUntorn(w, behind);
    case DmaMove => MoveKeepsUntorn(w);
    case LoopTick => TickKeepsUntorn(w);
    case _ =>
  }

  lemma MoveKeepsUntorn(w: World)
    requires Untorn(w)
    ensures Untorn(Step(w, DmaMove))
  {
    hide Interpret, StepTask, Shown;
    if w.dma.Moving? {
      var k := |w.dma.got|;
      assert w.buffer[..k + 1] == w.buffer[..k] + [w.buffer[k]];
      assert w.buffer[..FRAME_SIZE] == w.buffer;
    }
  }

  lemma TickKeepsUntorn(w: World)
    requires TaskInv(w) && Untorn(w) && !InWindow(w)
    ensures Untorn(Step(w, LoopTick))
  {
    hide Interpret, LastWhole, StepTask, Shown;
  }

  lemma TaskStepKeepsUntorn(w: World, behind: Byte)
    requires TaskInv(w) && Untorn(w)
    ensures Untorn(StepTask(w, behind))
  {
    hide LastWhole;
    if CopiesTheSame(w) && w.pc.Copy? && w.pc.i < FRAME_SIZE {
      assert w.buffer[w.pc.i := w.pc.data[w.pc.i]] == w.buffer;
    }
  }

  /** As long as dmx_loop does not tick in the window, every transmission that finishes moved exactly the
      buffer it started from. */
  lemma {:induction false} HarmlessKeepsUntorn(w: World, events: seq<Event>)
    requires TaskInv(w) && Untorn(w) && HarmlessRun(w, events)
    ensures TaskInv(Run(w, events)) && Untorn(Run(w, events))
  {
    hide Interpret, Step, TaskInv, Harmless, Untorn;
    if events != [] {
      var front, e := events[..|events| - 1], events[|events| - 1];
      forall i | 0 <= i < |front| ensures Harmless(Run(w, front[..i]), front[i]) {
        assert front[..i] == events[..i] && front[i] == events[i];
      }
      HarmlessKeepsUntorn(w, front);
      StepKeepsTaskInv(Run(w, front), e);
      StepKeepsUntorn(Run(w, front), e);
    }
  }

  /** For the code as it is: in every run from power-on without such a tick no frame is torn. */
  lemma WholeWithoutWindowTicks(loopOn: bool, atomic: bool, events: seq<Event>)
    requires HarmlessRun(Start(loopOn, atomic), events)
    ensures Untorn(Run(Start(loopOn, atomic), events)) && NoTear(Run(Start(loopOn, atomic), events))
  {
    hide Run, HarmlessRun, TaskInv;
    StartKeepsTaskInv(loopOn, atomic);
    HarmlessKeepsUntorn(Start(loopOn, atomic), events);
  }

  /** With dmx_loop off, or if nothing could run between test and flag, there is no window. */
  lemma NeverTorn(loopOn: bool, atomic: bool, events: seq<Event>)
    requires loopOn ==> atomic
    ensures Untorn(Run(Start(loopOn, atomic), events))
  {
    hide Run, Start, Untorn;
    forall i | 0 <= i < |events| ensures Harmless(Run(Start(loopOn, atomic), events[..i]), events[i]) {
      RunKeepsTaskInv(loopOn, atomic, events[..i]);
    }
    WholeWithoutWindowTicks(loopOn, atomic, events);
  }

  // ---------------------------------------------------------------------------------------
  // Loop off: the frames sent are the frames dequeued, in order.

  /** How many dequeued frames have been handed to the transmitter. */
  ghost predicate InStep(w: World) {
    && !w.loopOn
    && |w.started| == |w.dequeued| - (if w.pc.Receive? then 0 else 1)
    && forall i :: 0 <= i < |w.started| ==> w.started[i] == Shown(w.dequeued[i])
  }

  lemma StepKeepsInStep(w: World, e: Event)
    requires TaskInv(w) && InStep(w)
    ensures InStep(Step(w, e))
  {
    hide Interpret;
  }

  lemma {:induction false} RunKeepsInStep(atomic: bool, events: seq<Event>)
    ensures InStep(Run(Start(false, atomic), events))
  {
    hide Interpret, Step, TaskInv;
    if events != [] {
      var front := events[..|events| - 1];
      RunKeepsInStep(atomic, front);
      RunKeepsTaskInv(false, atomic, front);
      StepKeepsInStep(Run(Start(false, atomic), front), events[|events| - 1]);
    }
  }

  /** With dmx_loop off, the bytes of the finished transmissions are the dequeued frames, whole, each
      once and in queue order, with a zero start code; at most one more is under way and at most one
      more waits for its turn. */
  lemma SentAreDequeued(atomic: bool, events: seq<Event>, i: nat)
    ensures var w := Run(Start(false, atomic), events);
            && |w.sent| <= |w.dequeued| <= |w.sent| + 2
            && (i < |w.sent| ==> w.sent[i] == Shown(w.dequeued[i]))
  {
    hide Interpret, Step;
    NeverTorn(false, atomic, events);
    RunKeepsInStep(atomic, events);
  }

  // ---------------------------------------------------------------------------------------
  // Loop on: every transmission starts from a whole frame.

  lemma StepStartsWhole(w: World, e: Event)
    requires TaskInv(w) && forall f :: f in w.started ==> IsWhole(w, f)
    ensures forall f :: f in Step(w, e).started ==> IsWhole(Step(w, e), f)
  {
    hide Interpret, Shown, PowerOn;
    var w1 := Step(w, e);
    assert forall d :: d in w.dequeued ==> d in w1.dequeued;
    forall f | f in w1.started ensures IsWhole(w1, f) {
      if f in w.started {
        assert IsWhole(w, f);
      } else {
        assert f == LastWhole(w);
      }
    }
  }

  /** In either mode, every transmission starts from one whole dequeued frame (or, before the first
      was copied, from the pattern of the constructor), never from a half-copied one. */
  lemma {:induction false} StartsAreWhole(loopOn: bool, atomic: bool, events: seq<Event>)
    ensures var w := Run(Start(loopOn, atomic), events);
            forall f :: f in w.started ==> IsWhole(w, f)
  {
    hide Interpret, Step, TaskInv, IsWhole;
    if events != [] {
      var front := events[..|events| - 1];
      StartsAreWhole(loopOn, atomic, front);
      RunKeepsTaskInv(loopOn, atomic, front);
      StepStartsWhole(Run(Start(loopOn, atomic), front), events[|events| - 1]);
    }
  }

  /** The frame on the line is the latest one copied: a transmission that starts now starts from it. */
  lemma StartsFromLatest(loopOn: bool, atomic: bool, events: seq<Event>, e: Event)
    ensures var w := Run(Start(loopOn, atomic), events);
            |Step(w, e).started| > |w.started| ==> Step(w, e).started == w.started + [LastWhole(w)]
  {
    RunKeepsTaskInv(loopOn, atomic, events);
    hide Interpret, Run;
  }

  // ---------------------------------------------------------------------------------------
  // Loop on, with the window between check and flag: a transmission can be torn.

  /** From the moment dmx_task has found the transmitter free and before it raises its flag: a tick
      starts a transmission, which moves k bytes; dmx_task copies its frame; the rest is moved. */
  lemma WindowTears(w: World, k: nat) returns (events: seq<Event>)
    requires w.loopOn && w.pc.Flag? && w.dma.Idle? && !w.flag && 0 < k < FRAME_SIZE
    ensures var t := Run(w, events);
            && t.sent == w.sent + [w.buffer[..k] + w.pc.data[k..]]
            && t.started == w.started + [w.buffer]
            && events != [] && events[0] == LoopTick && forall e :: e in events[1..] ==> !e.LoopTick?
  {
    hide Step, Run;
    var data := w.pc.data;
    var w1 := Transmit(w);
    TickStarts(w);
    var e1 := Moves(w1, k);
    var w2 := w1.(dma := Moving(w.buffer[..k]));
    assert [] + w.buffer[0..k] == w.buffer[..k];
    var w3 := w2.(pc := Copy(data, 1), flag := true);
    FlagRaised(w2);
    var e2 := Copies(w3, data, FRAME_SIZE);
    var w4 := Run(w3, e2);
    CopiedTail(w4.buffer, data, k);
    var e3 := Moves(w4, FRAME_SIZE);
    var w5 := w4.(dma := Draining(w.buffer[..k] + data[k..]));
    assert w4.buffer[k..FRAME_SIZE] == data[k..];
    assert Run(w4, e3) == w5;
    Finishes(w5);
    RunAppend(w, [LoopTick], e1);
    RunAppend(w, [LoopTick] + e1, [TaskStep(0)]);
    RunAppend(w, [LoopTick] + e1 + [TaskStep(0)], e2);
    RunAppend(w, [LoopTick] + e1 + [TaskStep(0)] + e2, e3);
    RunAppend(w, [LoopTick] + e1 + [TaskStep(0)] + e2 + e3, [FifoDrained]);
    events := [LoopTick] + e1 + [TaskStep(0)] + e2 + e3 + [FifoDrained];
    assert events[1..] == e1 + [TaskStep(0)] + e2 + e3 + [FifoDrained];
  }

  lemma TickStarts(w: World)
    requires w.loopOn && !Busy(w)
    ensures Run(w, [LoopTick]) == Transmit(w)
  {
    RunOne(w, LoopTick);
  }

  lemma FlagRaised(w: World)
    requires w.pc.Flag?
    ensures Run(w, [TaskStep(0)]) == w.(pc := Copy(w.pc.data, 1), flag := true)
  {
    RunOne(w, TaskStep(0));
  }

  lemma Finishes(w: World)
    requires w.dma.Draining?
    ensures Run(w, [FifoDrained]) == w.(dma := Idle, sent := w.sent + [w.dma.got])
  {
    RunOne(w, FifoDrained);
  }

  lemma CopiedTail(after: Frame, data: Frame, k: nat)
    requires 0 < k < FRAME_SIZE && after[1..FRAME_SIZE] == data[1..FRAME_SIZE]
    ensures after[k..] == data[k..]
  {
    assert after[k..] == after[1..FRAME_SIZE][k - 1..];
    assert data[k..] == data[1..FRAME_SIZE][k - 1..];
  }

  lemma RunOne(w: World, e: Event)
    ensures Run(w, [e]) == Step(w, e)
  {
    hide Step;
    assert [e][..0] == [];
  }

  lemma {:induction false} RunAppend(w: World, a: seq<Event>, b: seq<Event>)
    ensures Run(w, a + b) == Run(Run(w, a), b)
  {
    hide Step;
    if b == [] {
      assert a + b == a;
    } else {
      assert (a + b)[..|a + b| - 1] == a + b[..|b| - 1];
      RunAppend(w, a, b[..|b| - 1]);
    }
  }

  lemma MoveOne(w: World)
    requires w.dma.Moving? && |w.dma.got| < FRAME_SIZE
    ensures var got := w.dma.got + [w.buffer[|w.dma.got|]];
            Run(w, [DmaMove]) == w.(dma := if |got| < FRAME_SIZE then Moving(got) else Draining(got))
  {
    RunOne(w, DmaMove);
  }

  /** The DMA channel moves up to n bytes in all, while nothing else happens. */
  lemma {:induction false} Moves(w: World, n: nat) returns (events: seq<Event>)
    requires w.dma.Moving? && |w.dma.got| < n <= FRAME_SIZE
    ensures var got := w.dma.got + w.buffer[|w.dma.got|..n];
            Run(w, events) == w.(dma := if n < FRAME_SIZE then Moving(got) else Draining(got))
    ensures forall e :: e in events ==> e.DmaMove?
    decreases n
  {
    hide Run;
    var k := |w.dma.got|;
    if n == k + 1 {
      events := [DmaMove];
      MoveOne(w);
      assert w.buffer[k..n] == [w.buffer[k]];
    } else {
      var e0 := Moves(w, n - 1);
      events := e0 + [DmaMove];
      RunAppend(w, e0, [DmaMove]);
      MoveOne(w.(dma := Moving(w.dma.got + w.buffer[k..n - 1])));
      assert w.dma.got + w.buffer[k..n] == w.dma.got + w.buffer[k..n - 1] + [w.buffer[n - 1]];
    }
  }

  /** dmx_task copies its frame, while nothing else happens. */
  lemma {:induction false} Copies(w: World, data: Frame, n: nat) returns (events: seq<Event>)
    requires w.pc == Copy(data, 1) && 1 <= n <= FRAME_SIZE
    ensures var t := Run(w, events);
            && t == w.(pc := Copy(data, n), buffer := t.buffer)
            && t.buffer[1..n] == data[1..n]
    ensures forall e :: e in events ==> e.TaskStep?
    decreases n
  {
    hide Step, Run;
    if n == 1 {
      events := [];
      RunNone(w);
    } else {
      var e0 := Copies(w, data, n - 1);
      events := e0 + [TaskStep(0)];
      RunAppend(w, e0, [TaskStep(0)]);
      CopyOne(Run(w, e0), data, n - 1);
    }
  }

  lemma RunNone(w: World)
    ensures Run(w, []) == w
  {
  }

  lemma CopyOne(w: World, data: Frame, i: nat)
    requires w.pc == Copy(data, i) && 1 <= i < FRAME_SIZE && w.buffer[1..i] == data[1..i]
    ensures Run(w, [TaskStep(0)]) == w.(pc := Copy(data, i + 1), buffer := w.buffer[i := data[i]])
    ensures w.buffer[i := data[i]][1..i + 1] == data[1..i + 1]
  {
    RunOne(w, TaskStep(0));
    assert w.buffer[i := data[i]][1..i + 1] == w.buffer[1..i] + [data[i]];
    assert data[1..i + 1] == data[1..i] + [data[i]];
  }

  /** The first frame of all can be torn: part constructor pattern, part zeros. */
  lemma FirstFrameTorn() returns (events: seq<Event>)
    ensures !NoTear(Run(Start(true, false), events))
  {
    var w0 := Start(true, false);
    var a, b := TaskStep(0), TaskStep(0);
    RunOne(w0, a);
    var w1 := Step(w0, a);
    RunOne(w1, b);
    RunAppend(w0, [a], [b]);
    var w2 := Run(w0, [a, b]);
    assert [a] + [b] == [a, b];
    FirstCheckPasses();
    var rest := WindowTears(w2, 300);
    RunAppend(w0, [a, b], rest);
    events := [a, b] + rest;
    var t := Run(w0, events);
    assert t.sent[0][511] == 0 && t.started[0][511] == 255;
  }

  lemma FirstCheckPasses()
    ensures var w := Step(Step(Start(true, false), TaskStep(0)), TaskStep(0));
            && w.pc == Flag(Dark()[512 := 0]) && w.dma.Idle? && !w.flag && w.loopOn
            && w.buffer == PowerOn() && w.sent == [] && w.started == []
  {
  }

  /** From power-on to the first frame in the buffer. */
  lemma DarkUnit() returns (events: seq<Event>)
    ensures var w := Run(Start(true, false), events);
            w.queue == [] && w.waiting.None? && w.pc.Receive? && w.buffer == Dark()
  {
    hide Step, Start, Dark;
    var w0, e := Start(true, false), TaskStep(0);
    FirstCopyBegins();
    RunThree(w0, e, e, e);
    var w3 := Run(w0, [e, e, e]);
    var rest := Copies(w3, Dark(), FRAME_SIZE);
    RunAppend(w0, [e, e, e], rest);
    var t := Run(w3, rest);
    RunKeepsTaskInv(true, false, [e, e, e] + rest);
    CopyEnds(t);
    RunTwo(t, e, e);
    events := [e, e, e] + rest + [e, e];
    RunAppend(w0, [e, e, e] + rest, [e, e]);
  }

  lemma FirstCopyBegins()
    ensures var w := Step(Step(Step(Start(true, false), TaskStep(0)), TaskStep(0)), TaskStep(0));
            && w.pc == Copy(Dark(), 1) && w.queue == [] && w.waiting.None? && w.loopOn
  {
    assert Dark()[512 := 0] == Dark();
  }

  lemma CopyEnds(t: World)
    requires TaskInv(t) && t.pc == Copy(Dark(), FRAME_SIZE) && t.loopOn && t.queue == [] && t.waiting.None?
    ensures var w := Step(Step(t, TaskStep(0)), TaskStep(0));
            w.queue == [] && w.waiting.None? && w.pc.Receive? && w.buffer == Dark()
  {
    SameChannels(t.buffer, Dark());
    assert Shown(Dark()) == Dark();
  }

  lemma RunTwo(w: World, a: Event, b: Event)
    ensures Run(w, [a, b]) == Step(Step(w, a), b)
  {
    hide Step;
    assert [a, b][..1] == [a];
    RunOne(w, a);
  }

  lemma RunThree(w: World, a: Event, b: Event, c: Event)
    ensures Run(w, [a, b, c]) == Step(Step(Step(w, a), b), c)
  {
    hide Step;
    assert [a, b, c][..2] == [a, b];
    RunTwo(w, a, b);
  }

  /** A tick of dmx_loop in any state that can come up: some run goes on from it, with no further tick in
      the window, to a torn frame if and only if the tick itself was in the window. */
  lemma TickTearsExactly(w: World)
    requires TaskInv(w) && Untorn(w)
    ensures TearsAfter(Step(w, LoopTick)) <==> InWindow(w)
  {
    hide Step, Run, TaskInv, Untorn, InWindow;
    if InWindow(w) {
      InWindowTears(w);
    } else {
      StepKeepsUntorn(w, LoopTick);
      StepKeepsTaskInv(w, LoopTick);
      var w1 := Step(w, LoopTick);
      forall rest | HarmlessRun(w1, rest) ensures NoTear(Run(w1, rest)) {
        HarmlessKeepsUntorn(w1, rest);
        UntornIsNoTear(Run(w1, rest));
      }
    }
  }

  ghost predicate TearsAfter(w: World) {
    exists rest :: HarmlessRun(w, rest) && !NoTear(Run(w, rest))
  }

  lemma UntornIsNoTear(w: World)
    requires Untorn(w)
    ensures NoTear(w)
  {
  }

  lemma InWindowTears(w: World)
    requires TaskInv(w) && Untorn(w) && InWindow(w)
    ensures TearsAfter(Step(w, LoopTick))
  {
    hide Step, Run;
    var events := WindowTears(w, 1);
    var rest := events[1..];
    assert events == [LoopTick] + rest;
    RunAppend(w, [LoopTick], rest);
    RunOne(w, LoopTick);
    var w1, t := Step(w, LoopTick), Run(w, events);
    assert HarmlessRun(w1, rest) by {
      forall i | 0 <= i < |rest| ensures Harmless(Run(w1, rest[..i]), rest[i]) { assert rest[i] in rest; }
    }
    assert w.buffer[..1] + w.pc.data[1..] == Shown(w.pc.data);
    assert t.sent[|w.sent|] == Shown(w.pc.data) && t.started[|w.sent|] == w.buffer;
  }

  /** With dmx_loop on, transmissions are whole in every run if and only if nothing can run between
      the busy test and the flag. */
  lemma WholeIffAtomic(atomic: bool)
    ensures (forall events :: NoTear(Run(Start(true, atomic), events))) <==> atomic
  {
    hide Run, Start;
    if atomic {
      forall events ensures NoTear(Run(Start(true, atomic), events)) {
        NeverTorn(true, atomic, events);
      }
    } else {
      var events := FirstFrameTorn();
    }
  }
}
