/**
  What the shadow buffer holds after a history of commands, each typed when the one before has
  reached the buffer.
 */
module History {
  import opened Common
  import opened KeyStrings
  import opened KeyCommands
  import opened Tasks

  /** The frame and the captured set after a list of commands, from a dark stage. */
  function Fold(cmds: seq<string>): (Frame, set<nat>) {
    if cmds == [] then (Dark(), {})
    else
      var (frame, captured) := Fold(cmds[..|cmds| - 1]);
      Interpret(frame, captured, cmds[|cmds| - 1])
  }

  /** Two frames agree on the channels 1 to 511. */
  ghost predicate Same(f: Frame, g: Frame) {
    forall i :: 1 <= i < 512 ==> f[i] == g[i]
  }

  ghost predicate SameState(a: Interp, b: Interp) {
    Same(a.frame, b.frame) && a == b.(frame := a.frame)
  }

  lemma SetAllSame(f: Frame, g: Frame, channels: seq<nat>, v: Byte)
    requires Same(f, g)
    ensures Same(SetAll(f, channels, v), SetAll(g, channels, v))
  {
    forall i | 1 <= i < 512 ensures SetAll(f, channels, v)[i] == SetAll(g, channels, v)[i] {
      SetAllAt(f, channels, v, i);
      SetAllAt(g, channels, v, i);
    }
  }

  lemma StepSame(a: Interp, b: Interp, t: string)
    requires SameState(a, b)
    ensures SameState(KeyCommands.Step(a, t), KeyCommands.Step(b, t))
  {
    hide Atoi;
    SetAllSame(a.frame, b.frame, a.channels, 255);
    SetAllSame(a.frame, b.frame, a.channels, U16(Atoi(t)) % 256);
  }

  lemma {:induction false} RunSame(a: Interp, b: Interp, ts: seq<string>)
    requires SameState(a, b)
    ensures SameState(RunTokens(a, ts), RunTokens(b, ts))
    decreases |ts|
  {
    if ts != [] {
      StepSame(a, b, ts[0]);
      hide KeyCommands.Step, SameState;
      RunSame(KeyCommands.Step(a, ts[0]), KeyCommands.Step(b, ts[0]), ts[1..]);
    }
  }

  /** What lies outside the channels 1 to 511 has no influence on them. */
  lemma InterpretSame(f: Frame, g: Frame, captured: set<nat>, keys: string)
    requires Same(f, g)
    ensures Same(Interpret(f, captured, keys).0, Interpret(g, captured, keys).0)
    ensures Interpret(f, captured, keys).1 == Interpret(g, captured, keys).1
  {
    hide KeyCommands.Step, Tokens;
    RunSame(StartState(f, captured), StartState(g, captured), Tokens(keys));
  }

  // ---------------------------------------------------------------------------------------
  // Release, and the captured set.

  /** After a release the stage is dark and nothing is captured, and what was typed before does not
      matter any more. */
  lemma {:induction false} ReleaseForgets(before: seq<string>, after: seq<string>)
    ensures Same(Fold(before + ["release"] + after).0, Fold(after).0)
    ensures Fold(before + ["release"] + after).1 == Fold(after).1
    decreases |after|
  {
    hide Interpret;
    var all := before + ["release"] + after;
    if after == [] {
      assert all == before + ["release"] && all[..|all| - 1] == before;
      var (frame, captured) := Fold(before);
      ReleaseClears(frame, captured);
    } else {
      var front, last := after[..|after| - 1], after[|after| - 1];
      assert all[..|all| - 1] == before + ["release"] + front && all[|all| - 1] == last;
      ReleaseForgets(before, front);
      InterpretSame(Fold(before + ["release"] + front).0, Fold(front).0, Fold(front).1, last);
    }
  }

  ghost predicate LitAreCaptured(frame: Frame, captured: set<nat>) {
    forall i :: 1 <= i < 512 && frame[i] != 0 ==> i in captured
  }

  lemma StepCaptures(st: Interp, t: string)
    requires LitAreCaptured(st.frame, st.captured)
    ensures LitAreCaptured(KeyCommands.Step(st, t).frame, KeyCommands.Step(st, t).captured)
  {
    hide Atoi;
    AssignCaptures(st, 255);
    AssignCaptures(st, U16(Atoi(t)) % 256);
  }

  lemma AssignCaptures(st: Interp, v: Byte)
    requires LitAreCaptured(st.frame, st.captured)
    ensures LitAreCaptured(AssignLevel(st, v).frame, AssignLevel(st, v).captured)
  {
    forall i | 1 <= i < 512 ensures SetAll(st.frame, st.channels, v)[i] == if i in st.channels then v else st.frame[i] {
      SetAllAt(st.frame, st.channels, v, i);
    }
  }

  lemma {:induction false} RunCaptures(st: Interp, ts: seq<string>)
    requires LitAreCaptured(st.frame, st.captured)
    ensures LitAreCaptured(RunTokens(st, ts).frame, RunTokens(st, ts).captured)
    decreases |ts|
  {
    if ts != [] {
      StepCaptures(st, ts[0]);
      hide KeyCommands.Step;
      RunCaptures(KeyCommands.Step(st, ts[0]), ts[1..]);
    }
  }

  /** After any key strings whatever, every channel that is not at zero is captured. */
  lemma {:induction false} NonZeroAreCaptured(cmds: seq<string>)
    ensures LitAreCaptured(Fold(cmds).0, Fold(cmds).1)
  {
    if cmds != [] {
      hide KeyCommands.Step, Tokens;
      NonZeroAreCaptured(cmds[..|cmds| - 1]);
      var (frame, captured) := Fold(cmds[..|cmds| - 1]);
      RunCaptures(StartState(frame, captured), Tokens(cmds[|cmds| - 1]));
    }
  }

  // ---------------------------------------------------------------------------------------
  // Histories of dmx_task and its queue.

  function Commands(events: seq<Event>): seq<string> {
    if events == [] then []
    else
      var e := events[|events| - 1];
      Commands(events[..|events| - 1]) + if e.Command? then [e.keys] else []
  }

  predicate Drained(w: World) {
    w.queue == [] && w.waiting.None? && w.pc.Receive?
  }

  /** Every command is typed when the queue is drained. */
  ghost predicate Unhurried(loopOn: bool, atomic: bool, events: seq<Event>) {
    forall i :: 0 <= i < |events| && events[i].Command? ==> Drained(Run(Start(loopOn, atomic), events[..i]))
  }

  /** The frame that is, or will be, in the buffer. */
  function Latest(w: World): Frame {
    if w.waiting.Some? then w.waiting.value
    else if w.queue != [] then w.queue[|w.queue| - 1]
    else if w.pc.Check? || w.pc.Flag? || w.pc.Copy? then w.pc.data
    else w.buffer
  }

  ghost predicate Tracks(w: World, cmds: seq<string>) {
    && |w.queue| <= 1 && w.waiting.None? && (w.queue != [] ==> w.pc.Receive?)
    && Same(Latest(w), Fold(cmds).0) && w.captured == Fold(cmds).1
    && |w.made| == |cmds| && forall k :: 0 <= k < |cmds| ==> Same(w.made[k], Fold(cmds[..k + 1]).0)
  }

  lemma CommandTracks(w: World, cmds: seq<string>, keys: string)
    requires Tracks(w, cmds) && Drained(w)
    ensures Tracks(Tasks.Step(w, Command(keys)), cmds + [keys])
  {
    hide Interpret;
    var all := cmds + [keys];
    assert all[..|all| - 1] == cmds && all[..|all|] == all;
    InterpretSame(w.buffer, Fold(cmds).0, w.captured, keys);
    var made := Tasks.Step(w, Command(keys)).made;
    forall k | 0 <= k < |all| ensures Same(made[k], Fold(all[..k + 1]).0) {
      if k < |cmds| {
        assert all[..k + 1] == cmds[..k + 1] && made[k] == w.made[k];
      } else {
        assert all[..k + 1] == all;
      }
    }
  }

  lemma TaskTracks(w: World, cmds: seq<string>, e: Event)
    requires TaskInv(w) && Tracks(w, cmds) && !e.Command?
    ensures Tracks(Tasks.Step(w, e), cmds)
  {
    hide Fold;
    if e.TaskStep? && w.pc.Copy? && w.pc.i == FRAME_SIZE {
      SameChannels(w.buffer, w.pc.data);
    }
  }

  lemma {:induction false} RunTracks(loopOn: bool, atomic: bool, events: seq<Event>)
    requires Unhurried(loopOn, atomic, events)
    ensures Tracks(Run(Start(loopOn, atomic), events), Commands(events))
  {
    hide Tasks.Step, Fold, Interpret, TaskInv;
    if events == [] {
      StartTracks(loopOn, atomic);
    } else {
      var front, e := events[..|events| - 1], events[|events| - 1];
      forall i | 0 <= i < |front| && front[i].Command? ensures Drained(Run(Start(loopOn, atomic), front[..i])) {
        assert front[..i] == events[..i] && front[i] == events[i];
      }
      RunTracks(loopOn, atomic, front);
      RunKeepsTaskInv(loopOn, atomic, front);
      if e.Command? {
        CommandTracks(Run(Start(loopOn, atomic), front), Commands(front), e.keys);
      } else {
        TaskTracks(Run(Start(loopOn, atomic), front), Commands(front), e);
        assert Commands(front) + [] == Commands(front);
      }
    }
  }

  lemma StartTracks(loopOn: bool, atomic: bool)
    ensures Tracks(Start(loopOn, atomic), [])
  {
  }

  /** Whenever the queue is drained, the buffer shows on every channel what the commands typed so far
      amount to, the captured set is theirs and contains every channel that is lit; and the start
      code is zero at all times. */
  lemma BufferIsFold(loopOn: bool, atomic: bool, events: seq<Event>)
    requires Unhurried(loopOn, atomic, events)
    ensures var w := Run(Start(loopOn, atomic), events);
            && w.buffer[0] == 0
            && (Drained(w) ==>
                  && Same(w.buffer, Fold(Commands(events)).0)
                  && w.captured == Fold(Commands(events)).1
                  && LitAreCaptured(w.buffer, w.captured))
  {
    RunKeepsTaskInv(loopOn, atomic, events);
    RunTracks(loopOn, atomic, events);
    NonZeroAreCaptured(Commands(events));
    hide Run, Fold, Commands, Start;
  }

  /** With dmx_loop off and every command typed when the queue is drained, transmission i carries what the
      first i commands amount to (and the zero frame comes first). */
  lemma SentAreFolds(atomic: bool, events: seq<Event>, i: nat)
    requires Unhurried(false, atomic, events)
    requires i < |Run(Start(false, atomic), events).sent|
    ensures var w := Run(Start(false, atomic), events);
            && i <= |Commands(events)| && |w.sent[i]| == FRAME_SIZE && w.sent[i][0] == 0
            && Same(w.sent[i], Fold(Commands(events)[..i]).0)
  {
    hide Run, Fold, Commands, Start, Latest;
    var w, cmds := Run(Start(false, atomic), events), Commands(events);
    SentAreDequeued(atomic, events, i);
    FramesAreConserved(false, atomic, events);
    RunTracks(false, atomic, events);
    var f, g := w.dequeued[i], ([Dark()] + w.made)[i];
    assert f == Pipeline(w)[i] && f[512 := 0] == g[512 := 0];
    forall c | 1 <= c < 512 ensures f[c] == g[c] {
      assert f[c] == f[512 := 0][c] && g[c] == g[512 := 0][c];
    }
    NothingTyped();
    assert cmds[..0] == [];
  }

  lemma NothingTyped()
    ensures Fold([]).0 == Dark()
  {
  }

  // ---------------------------------------------------------------------------------------
  // Commands that overtake each other.

  /** A channel that some clause names does not depend on the frame before; any other keeps its level. */
  lemma {:induction false} MeaningAt(f: Frame, g: Frame, clauses: seq<Clause>, c: nat)
    requires c < FRAME_SIZE
    ensures c in Touched(clauses) ==> Meaning(f, clauses)[c] == Meaning(g, clauses)[c]
    ensures c !in Touched(clauses) ==> Meaning(f, clauses)[c] == f[c]
    decreases |clauses|
  {
    hide Channels, LevelValue;
    if clauses != [] {
      var f1, g1 := Apply(f, clauses[0]), Apply(g, clauses[0]);
      if c in Touched(clauses[1..]) || c !in Touched(clauses) {
        MeaningAt(f1, g1, clauses[1..], c);
      } else {
        MeaningAt(f1, f1, clauses[1..], c);
        MeaningAt(g1, g1, clauses[1..], c);
      }
    }
  }

  lemma MeaningOfSame(f: Frame, g: Frame, clauses: seq<Clause>, c: nat)
    requires c < FRAME_SIZE && f[c] == g[c]
    ensures Meaning(f, clauses)[c] == Meaning(g, clauses)[c]
  {
    hide Meaning, Touched;
    MeaningAt(f, g, clauses, c);
    MeaningAt(g, f, clauses, c);
  }

  /** A command starts from the buffer, not from the frames on their way to it.  In any state in which it
      is taken, a channel of its frame is as the command would leave it after all those before if and only
      if the command names the channel or the buffer already shows it as the latest of them has it. */
  lemma NextFrameExactly(w: World, b: string, cb: seq<Clause>, c: nat)
    requires w.waiting.None? && 1 <= c <= 511
    requires (forall x :: x in cb ==> ValidClause(x)) && Spells(b, cb)
    ensures Latest(Tasks.Step(w, Command(b)))[c] == Meaning(Latest(w), cb)[c] <==>
            c in Touched(cb) || Latest(w)[c] == w.buffer[c]
  {
    hide Interpret, Spells, Meaning, Touched, ValidClause;
    InterpreterRefinesMeaning(w.buffer, w.captured, b, cb);
    MeaningAt(w.buffer[0 := 0], Latest(w), cb, c);
    MeaningAt(Latest(w), w.buffer, cb, c);
  }

  /** Two commands with no copy between: a channel is as the two in turn would leave it if and only if the
      second one names it or the first one did not change it. */
  lemma OverlapLosesExactly(w: World, a: string, b: string, ca: seq<Clause>, cb: seq<Clause>, c: nat)
    requires w.waiting.None? && |w.queue| < QUEUE_LENGTH && 1 <= c <= 511
    requires forall x :: x in ca + cb ==> ValidClause(x)
    requires Spells(a, ca) && Spells(b, cb)
    ensures Latest(Tasks.Step(Tasks.Step(w, Command(a)), Command(b)))[c] == Meaning(Meaning(w.buffer, ca), cb)[c] <==>
            c in Touched(cb) || Meaning(w.buffer, ca)[c] == w.buffer[c]
  {
    hide Interpret, Spells, Meaning, Touched, ValidClause, Tasks.Step, Latest;
    var w1 := Tasks.Step(w, Command(a));
    QueuedFrame(w, a, ca);
    NextFrameExactly(w1, b, cb, c);
    MeaningOfSame(w.buffer[0 := 0], w.buffer, ca, c);
    MeaningOfSame(Latest(w1), Meaning(w.buffer, ca), cb, c);
  }

  lemma QueuedFrame(w: World, a: string, ca: seq<Clause>)
    requires w.waiting.None?
    requires (forall x :: x in ca ==> ValidClause(x)) && Spells(a, ca)
    ensures var w1 := Tasks.Step(w, Command(a));
            && Latest(w1) == Meaning(w.buffer[0 := 0], ca) && w1.buffer == w.buffer
            && (|w.queue| < QUEUE_LENGTH ==> w1.waiting.None?)
  {
    hide Interpret, Spells, Meaning, Touched, ValidClause;
    InterpreterRefinesMeaning(w.buffer, w.captured, a, ca);
  }

  /** For example, in a dark unit: "1 AT 5" and "2 AT 6" in a row leave channel 1 dark. */
  lemma SecondCommandForgetsFirst() returns (events: seq<Event>)
    ensures var w := Run(Start(true, false), events);
            && Drained(w) && w.buffer == Dark()
            && Latest(Tasks.Step(Tasks.Step(w, Command("1 AT 5")), Command("2 AT 6")))[1] == 0
            && Fold(["1 AT 5", "2 AT 6"]).0[1] == 5
  {
    hide Tasks.Step, Run, Start, Dark, Meaning, Touched, Fold, Spells, Latest, ValidClause;
    events := DarkUnit();
    var w := Run(Start(true, false), events);
    var a, b := Clause([One("1")], At("5")), Clause([One("2")], At("6"));
    TypedDigits('1', '5');
    TypedDigits('2', '6');
    assert "1 AT 5" == ['1'] + " AT " + ['5'] && "2 AT 6" == ['2'] + " AT " + ['6'];
    assert "1" == ['1'] && "5" == ['5'] && "2" == ['2'] && "6" == ['6'];
    OneClauseAt(w.buffer, a, 1);
    OneClauseAt(w.buffer, b, 1);
    OneClauseAt(Meaning(w.buffer, [a]), b, 1);
    OverlapLosesExactly(w, "1 AT 5", "2 AT 6", [a], [b], 1);
    LatestOfTwo(w, "1 AT 5", "2 AT 6", [a], [b], 1);
    FoldOfTwo("1 AT 5", "2 AT 6", [a], [b], 1);
    DarkAt(1);
  }

  lemma DarkAt(c: nat)
    requires c < FRAME_SIZE
    ensures Dark()[c] == 0
  {
  }

  lemma TypedDigits(x: char, v: char)
    requires '1' <= x <= '9' && IsDigit(v)
    ensures var c := Clause([One([x])], At([v]));
            && Spells([x] + " AT " + [v], [c]) && ValidClause(c)
            && Channels(c.sels) == {x as int - '0' as int} && LevelValue(c.level) == v as int - '0' as int
  {
    var c := Clause([One([x])], At([v]));
    SpellsSingle([x], [v]);
    NumOfDigit(x);
    NumOfDigit(v);
    forall d: nat ensures d in Channels(c.sels) <==> d == Num([x]) {
      if d == Num([x]) { assert One([x]) in c.sels && d in SelChannels(One([x])); }
    }
  }

  lemma SpellsSingle(x: string, v: string)
    requires IsToken(x) && IsToken(v)
    ensures Spells(x + " AT " + v, [Clause([One(x)], At(v))])
  {
    hide Tokens, DropAnds;
    var c := Clause([One(x)], At(v));
    TokensOfThree(x, "AT", v);
    assert x + " AT " + v == x + (" " + ("AT" + (" " + v)));
    assert [c][1..] == [] && CommandTokens([c]) == ClauseTokens(c) + [];
    assert ClauseTokens(c) == [x] + ["AT", v] == [x, "AT", v];
    assert CommandTokens([c]) == [x, "AT", v];
    assert Tokens(x + " AT " + v) == [x, "AT", v];
  }

  lemma TokensOfThree(a: string, b: string, c: string)
    requires IsToken(a) && IsToken(b) && IsToken(c)
    ensures Tokens(a + (" " + (b + (" " + c)))) == [a, b, c]
  {
    hide Tokens, Join;
    JoinOfThree(a, b, c);
    SplitOfJoin([a, b, c]);
  }

  lemma JoinOfThree(a: string, b: string, c: string)
    ensures Join([a, b, c]) == a + (" " + (b + (" " + c)))
  {
    assert [a, b, c][1..] == [b, c] && [b, c][1..] == [c];
    assert Join([b, c]) == b + (" " + Join([c]));
  }

  lemma NumOfDigit(x: char)
    requires IsDigit(x)
    ensures Num([x]) == x as int - '0' as int
  {
    assert [x][1..] == [];
    assert LeadDigits([x], 0) == LeadDigits([], x as int - '0' as int);
  }

  lemma OneClauseAt(frame: Frame, c: Clause, d: nat)
    requires d < FRAME_SIZE
    ensures Meaning(frame, [c])[d] == if d in Channels(c.sels) then LevelValue(c.level) else frame[d]
    ensures d in Touched([c]) <==> d in Channels(c.sels)
  {
    assert [c][1..] == [] && c in [c];
    assert Meaning(Apply(frame, c), []) == Apply(frame, c);
  }

  lemma LatestOfTwo(w: World, a: string, b: string, ca: seq<Clause>, cb: seq<Clause>, c: nat)
    requires w.waiting.None? && |w.queue| < QUEUE_LENGTH && 1 <= c <= 511
    requires forall x :: x in ca + cb ==> ValidClause(x)
    requires Spells(a, ca) && Spells(b, cb)
    ensures Latest(Tasks.Step(Tasks.Step(w, Command(a)), Command(b)))[c] == Meaning(w.buffer, cb)[c]
  {
    hide Interpret, Spells, Meaning, Touched, ValidClause, Tasks.Step, Latest;
    QueuedFrame(w, a, ca);
    QueuedFrame(Tasks.Step(w, Command(a)), b, cb);
    MeaningOfSame(w.buffer[0 := 0], w.buffer, cb, c);
  }

  lemma FoldOfTwo(a: string, b: string, ca: seq<Clause>, cb: seq<Clause>, c: nat)
    requires forall x :: x in ca + cb ==> ValidClause(x)
    requires Spells(a, ca) && Spells(b, cb) && 1 <= c <= 511
    ensures Fold([a, b]).0[c] == Meaning(Meaning(Dark(), ca), cb)[c]
  {
    hide Interpret, Spells, Meaning, Touched, ValidClause;
    FoldTwo(a, b);
    assert Dark()[0 := 0] == Dark();
    InterpreterRefinesMeaning(Dark(), {}, a, ca);
    var f := Meaning(Dark(), ca);
    InterpreterRefinesMeaning(f, {} + Touched(ca), b, cb);
    MeaningOfSame(f[0 := 0], f, cb, c);
  }

  lemma FoldTwo(a: string, b: string)
    ensures Fold([a, b]) == var (f, k) := Interpret(Dark(), {}, a); Interpret(f, k, b)
  {
    hide Interpret;
    assert [a, b][..1] == [a] && [a][..0] == [];
    assert Fold([a]) == Interpret(Dark(), {}, a);
  }
}
