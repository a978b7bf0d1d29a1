/** What the threads get done: ticks of dmx_loop that send, and frames that reach the line. */
module Progress {
  import opened Common
  import K = KeyCommands
  import opened Tasks
  import opened History

  /** A tick of dmx_loop starts a transmission of the buffer if and only if the loop is on, the DMA channel
      and the FIFO have nothing left, and the flag is down; otherwise it does nothing. */
  lemma TickSendsExactly(w: World)
    ensures w.loopOn && w.dma.Idle? && !w.flag ==>
      Step(w, LoopTick) == w.(dma := Moving([]), started := w.started + [w.buffer])
    ensures !(w.loopOn && w.dma.Idle? && !w.flag) ==> Step(w, LoopTick) == w
  {
  }

  /** A command is taken unless one is blocked; it blocks if and only if five frames wait. */
  lemma CommandBlocksExactly(w: World, keys: string)
    requires w.waiting.None?
    ensures var w1, frame := Step(w, Command(keys)), K.Interpret(w.buffer, w.captured, keys).0;
            && (|w.queue| < 5 ==> w1.queue == w.queue + [frame] && w1.waiting.None?)
            && (|w.queue| >= 5 ==> w1.queue == w.queue && w1.waiting == Some(frame))
            && w1.buffer == w.buffer && w1.dma == w.dma && w1.pc == w.pc && w1.flag == w.flag
  {
    hide K.Interpret;
  }

  /** A blocked sender gets its frame into the queue, behind all others, as soon as dmx_task has taken one;
      and not before, while five wait. */
  lemma SenderWaitsForTask(w: World, behind: Byte)
    requires TaskInv(w) && Conserved(w) && w.waiting.Some?
    ensures |w.queue| == 5 ==> Step(w, SenderResumes) == w
    ensures w.pc.Receive? ==>
      var w1 := Step(Step(w, TaskStep(behind)), SenderResumes);
      w1.waiting == None && w1.queue == (if w.queue == [] then [] else w.queue[1..]) + [w.waiting.value]
  {
    hide TaskInv;
  }

  ghost predicate NoCommands(events: seq<Event>) {
    forall e :: e in events ==> !e.Command?
  }

  /** What is kept in every run and needed here. */
  ghost predicate Alive(w: World) {
    && TaskInv(w) && Conserved(w)
    && (w.dma.Moving? ==> |w.dma.got| < K.FRAME_SIZE)
    && (!w.loopOn ==> InStep(w) && Untorn(w))
  }

  lemma StepKeepsAlive(w: World, e: Event)
    requires Alive(w)
    ensures Alive(Step(w, e)) && Step(w, e).loopOn == w.loopOn
  {
    hide TaskInv, Conserved, InStep, Untorn, K.Interpret;
    StepKeepsTaskInv(w, e);
    StepConserves(w, e);
    StepKeepsMode(w, e);
    if !w.loopOn {
      StepKeepsInStep(w, e);
      NoWindowWithoutLoop(w, e);
      StepKeepsUntorn(w, e);
    }
  }

  lemma NoWindowWithoutLoop(w: World, e: Event)
    requires !w.loopOn
    ensures Harmless(w, e)
  {
  }

  lemma {:induction false} RunKeepsAlive(w: World, events: seq<Event>)
    requires Alive(w)
    ensures Alive(Run(w, events)) && Run(w, events).loopOn == w.loopOn
  {
    hide Alive, Step;
    if events != [] {
      RunKeepsAlive(w, events[..|events| - 1]);
      StepKeepsAlive(Run(w, events[..|events| - 1]), events[|events| - 1]);
    }
  }

  lemma StartIsAlive(loopOn: bool, atomic: bool)
    ensures Alive(Start(loopOn, atomic))
  {
  }

  // ---------------------------------------------------------------------------------------
  // Steps other than commands keep the latest frame.

  lemma StepKeepsLatest(w: World, e: Event)
    requires TaskInv(w) && Conserved(w) && !e.Command?
    ensures Same(Latest(Step(w, e)), Latest(w))
  {
    hide LastWhole, StepTask, TaskInv, Conserved, Dark, K.Interpret;
    if e.TaskStep? { TaskStepKeepsLatest(w, e.behind); }
  }

  lemma TaskStepKeepsLatest(w: World, behind: Byte)
    requires TaskInv(w)
    ensures Same(Latest(StepTask(w, behind)), Latest(w))
  {
    hide LastWhole;
    if w.pc.Copy? && w.pc.i == K.FRAME_SIZE {
      SameChannels(w.buffer, w.pc.data);
    }
  }

  lemma {:induction false} RunKeepsLatest(w: World, events: seq<Event>)
    requires Alive(w) && NoCommands(events)
    ensures Same(Latest(Run(w, events)), Latest(w))
  {
    hide Alive, Step, Latest;
    if events != [] {
      var front, e := events[..|events| - 1], events[|events| - 1];
      assert e in events;
      RunKeepsLatest(w, front);
      RunKeepsAlive(w, front);
      AliveHas(Run(w, front));
      StepKeepsLatest(Run(w, front), e);
    }
  }

  lemma AliveHas(w: World)
    requires Alive(w)
    ensures TaskInv(w) && Conserved(w)
  {
  }

  // ---------------------------------------------------------------------------------------
  // Continuations.

  lemma Append(w: World, a: seq<Event>, b: seq<Event>)
    requires NoCommands(a) && NoCommands(b)
    ensures NoCommands(a + b) && Run(w, a + b) == Run(Run(w, a), b)
  {
    hide Run;
    RunAppend(w, a, b);
  }

  /** The transmission under way is finished; if it has moved nothing yet, with the bytes of the buffer. */
  lemma FinishDma(w: World) returns (events: seq<Event>)
    requires w.dma.Moving? ==> |w.dma.got| < K.FRAME_SIZE
    ensures NoCommands(events)
    ensures var t := Run(w, events);
            && t == w.(dma := Idle, sent := t.sent)
            && (w.dma == Moving([]) ==> t.sent == w.sent + [w.buffer])
  {
    hide Step, Run;
    match w.dma
    case Idle =>
      events := [];
      RunNone(w);
    case Draining(_) =>
      events := [FifoDrained];
      Finishes(w);
    case Moving(got) =>
      var e := Moves(w, K.FRAME_SIZE);
      var w1 := w.(dma := Draining(got + w.buffer[|got|..K.FRAME_SIZE]));
      Finishes(w1);
      Append(w, e, [FifoDrained]);
      events := e + [FifoDrained];
      assert [] + w.buffer[0..K.FRAME_SIZE] == w.buffer;
  }

  /** How far dmx_task is from waiting for the next frame. */
  function Ahead(w: World): nat
    requires w.pc.Copy? ==> w.pc.i <= K.FRAME_SIZE
  {
    2 * (match w.pc
         case Receive => 0
         case Send => 1
         case Unflag => 2
         case Copy(_, i) => 3 + K.FRAME_SIZE - i
         case Flag(_) => 600
         case Check(_) => 601)
    + if w.dma.Idle? then 0 else 1
  }

  lemma OneTaskStep(w: World)
    requires Alive(w) && w.dma.Idle? && !w.pc.Receive?
    ensures var t := Step(w, TaskStep(0));
            && (w.pc.Copy? ==> w.pc.i <= K.FRAME_SIZE) && (t.pc.Copy? ==> t.pc.i <= K.FRAME_SIZE)
            && t.queue == w.queue && t.waiting == w.waiting && Ahead(t) < Ahead(w)
  {
    hide Conserved, InStep, Untorn, LastWhole;
  }

  lemma CopyInRange(w: World)
    requires Alive(w)
    ensures w.pc.Copy? ==> w.pc.i <= K.FRAME_SIZE
  {
    hide Conserved, InStep, Untorn, LastWhole;
  }

  /** dmx_task finishes the frame it has. */
  lemma {:induction false} ToReceive(w: World, ahead: nat) returns (events: seq<Event>)
    requires Alive(w) && (w.pc.Copy? ==> w.pc.i <= K.FRAME_SIZE) && ahead == Ahead(w)
    ensures NoCommands(events)
    ensures var t := Run(w, events);
            t.pc.Receive? && t.dma.Idle? && t.queue == w.queue && t.waiting == w.waiting
    decreases ahead
  {
    hide Step, Run, TaskInv, Conserved, InStep, Untorn;
    if w.pc.Receive? && w.dma.Idle? {
      events := [];
      RunNone(w);
    } else if !w.dma.Idle? {
      var e := FinishDma(w);
      RunKeepsAlive(w, e);
      var rest := ToReceive(Run(w, e), Ahead(Run(w, e)));
      Append(w, e, rest);
      events := e + rest;
    } else {
      OneTaskStep(w);
      RunOne(w, TaskStep(0));
      RunKeepsAlive(w, [TaskStep(0)]);
      var rest := ToReceive(Step(w, TaskStep(0)), Ahead(Step(w, TaskStep(0))));
      Append(w, [TaskStep(0)], rest);
      events := [TaskStep(0)] + rest;
    }
  }

  function Pending(w: World): nat {
    2 * |w.queue| + if w.waiting.Some? then 3 else 0
  }

  /** And then all the frames that wait. */
  lemma {:induction false} ServeAll(w: World, pending: nat) returns (events: seq<Event>)
    requires Alive(w) && pending == Pending(w)
    ensures NoCommands(events)
    ensures var t := Run(w, events);
            t.pc.Receive? && t.dma.Idle? && t.queue == [] && t.waiting.None?
    decreases pending
  {
    hide Step, Run, Alive;
    CopyInRange(w);
    var e := ToReceive(w, Ahead(w));
    var t := Run(w, e);
    RunKeepsAlive(w, e);
    if t.queue == [] && t.waiting.None? {
      events := e;
    } else {
      var next := if t.queue != [] then TaskStep(0) else SenderResumes;
      NextIsTaken(t, next);
      RunOne(t, next);
      RunKeepsAlive(t, [next]);
      Append(w, e, [next]);
      var rest := ServeAll(Step(t, next), Pending(Step(t, next)));
      Append(w, e + [next], rest);
      events := e + [next] + rest;
    }
  }

  lemma NextIsTaken(t: World, next: Event)
    requires t.pc.Receive? && (t.queue != [] || t.waiting.Some?)
    requires next == if t.queue != [] then TaskStep(0) else SenderResumes
    ensures Pending(Step(t, next)) < Pending(t)
  {
  }

  /** From every reachable state, in both modes, the threads can go on, without further commands, to a
      state in which nothing waits and the last frame on the line is the latest one of the commands. */
  lemma LatestReachesLine(loopOn: bool, atomic: bool, events: seq<Event>) returns (more: seq<Event>)
    ensures NoCommands(more)
    ensures var w := Run(Start(loopOn, atomic), events);
            var t := Run(w, more);
            && t.queue == [] && t.waiting.None? && t.pc.Receive? && t.dma.Idle? && t.sent != []
            && |t.sent[|t.sent| - 1]| == K.FRAME_SIZE
            && forall c :: 1 <= c <= 511 ==> t.sent[|t.sent| - 1][c] == Latest(w)[c]
  {
    hide Step, Run, Alive, Start;
    StartIsAlive(loopOn, atomic);
    RunKeepsAlive(Start(loopOn, atomic), events);
    RunKeepsTaskInv(loopOn, atomic, events);
    var w := Run(Start(loopOn, atomic), events);
    more := ServeAll(w, Pending(w));
    if loopOn {
      var t := Run(w, more);
      RunKeepsAlive(w, more);
      LoopTickStarts(t);
      var e := FinishDma(Step(t, LoopTick));
      Append(w, more, [LoopTick]);
      Append(w, more + [LoopTick], e);
      more := more + [LoopTick] + e;
    } else {
      RunKeepsAlive(w, more);
      LastSentIsBuffer(Run(w, more));
    }
    RunKeepsLatest(w, more);
  }

  lemma LoopTickStarts(t: World)
    requires Alive(t) && t.loopOn && t.pc.Receive? && t.dma.Idle?
    ensures Run(t, [LoopTick]) == Step(t, LoopTick) == t.(dma := Moving([]), started := t.started + [t.buffer])
  {
    hide Conserved, InStep, Untorn, LastWhole;
    RunOne(t, LoopTick);
    TickSendsExactly(t);
  }

  lemma LastSentIsBuffer(t: World)
    requires Alive(t) && !t.loopOn && t.pc.Receive? && t.dma.Idle? && t.queue == [] && t.waiting.None?
    ensures t.sent != [] && t.sent[|t.sent| - 1] == t.buffer
  {
    hide Dark, PowerOn;
    assert |Pipeline(t)| == |t.dequeued| == 1 + |t.made|;
    var i := |t.sent| - 1;
    assert |t.started| == |t.dequeued| == |t.sent|;
    assert t.sent[i] == t.started[i] == Shown(t.dequeued[i]);
    assert t.buffer == LastWhole(t);
  }
}
