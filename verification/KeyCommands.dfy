/**
  The command interpreter of the firmware, token by token, and what a command means.
 */
module KeyCommands {
  import opened Common
  import opened KeyStrings

  const FRAME_SIZE := 513

  /** How many frames the queue of frames holds. */
  const QUEUE_LENGTH := 5

  /** A DMX frame: the start code and the channels from 1 on. */
  type Frame = f: seq<Byte> | |f| == FRAME_SIZE witness seq(FRAME_SIZE, _ => 0)

  // ---------------------------------------------------------------------------------------
  // The interpreter.

  datatype Interp = Interp(frame: Frame, captured: set<nat>, channels: seq<nat>,
                           isLevel: bool, isThru: bool, released: bool)

  /** Stores v at every listed channel that lies in the frame. */
  function SetAll(frame: Frame, channels: seq<nat>, v: Byte): Frame {
    if channels == [] then frame
    else
      var f := SetAll(frame, channels[..|channels| - 1], v);
      var d := channels[|channels| - 1];
      if d < FRAME_SIZE then f[d := v] else f
  }

  function ToSet(channels: seq<nat>): set<nat> {
    set d | d in channels
  }

  /** The numbers from a to b. */
  function Upto(a: nat, b: nat): seq<nat> {
    if a > b then [] else if a == b then [b] else Upto(a, b - 1) + [b]
  }

  function U16(x: int): nat {
    x % 0x1_0000
  }

  /** `memset(dmxFrame, 0, 512)`: all but the last entry, which the buffer does not have. */
  function Cleared(frame: Frame): Frame {
    seq(512, _ => 0) + [frame[512]]
  }

  function AssignLevel(st: Interp, v: Byte): Interp {
    st.(frame := SetAll(st.frame, st.channels, v), captured := st.captured + ToSet(st.channels),
        channels := [], isLevel := false)
  }

  function Step(st: Interp, t: string): Interp {
    if st.released then st
    else if "release" <= t then st.(frame := Cleared(st.frame), captured := {}, released := true)
    else if "AND" <= t then st
    else if "AT" <= t then st.(isLevel := true)
    else if "FULL" <= t then AssignLevel(st, 255)
    else if "THRU" <= t then st.(isThru := true)
    else if st.isLevel then AssignLevel(st, U16(Atoi(t)) % 256)
    else if st.isThru then
      var c := U16(Atoi(t));
      st.(isThru := false,
          channels := if 1 <= c <= 512 && st.channels != []
                      then st.channels + Upto(st.channels[|st.channels| - 1] + 1, c) else st.channels)
    else st.(channels := st.channels + [U16(Atoi(t))])
  }

  function RunTokens(st: Interp, ts: seq<string>): Interp
    decreases |ts|
  {
    if ts == [] then st else RunTokens(Step(st, ts[0]), ts[1..])
  }

  function StartState(shadow: Frame, captured: set<nat>): Interp {
    Interp(shadow[0 := 0], captured, [], false, false, false)
  }

  /** What `processKeys` makes of a key string: the frame it queues and the captured set. */
  function Interpret(shadow: Frame, captured: set<nat>, keys: string): (Frame, set<nat>) {
    var st := RunTokens(StartState(shadow, captured), Tokens(keys));
    (st.frame, st.captured)
  }

  // ---------------------------------------------------------------------------------------
  // What a command means.

  datatype Sel = One(c: string) | Range(a: string, b: string)

  datatype Level = Full(at: bool) | At(v: string)

  datatype Clause = Clause(sels: seq<Sel>, level: Level)

  predicate IsChannel(s: string) {
    IsNumeral(s) && 1 <= Num(s) <= 511
  }

  predicate ValidSel(s: Sel) {
    match s
    case One(c) => IsChannel(c)
    case Range(a, b) => IsChannel(a) && IsChannel(b)
  }

  predicate IsLevel(s: string) {
    IsNumeral(s) && Num(s) < INT_LIMIT
  }

  predicate ValidClause(c: Clause) {
    (forall s :: s in c.sels ==> ValidSel(s)) && (c.level.At? ==> IsLevel(c.level.v))
  }

  /** The channels selected; a range that runs backwards means just its first channel. */
  function SelChannels(s: Sel): set<nat> {
    match s
    case One(c) => {Num(c)}
    case Range(a, b) => {Num(a)} + Interval(Num(a), Num(b))
  }

  predicate Between(a: nat, d: nat, b: nat) {
    a <= d <= b
  }

  function Interval(a: nat, b: nat): set<nat> {
    set d: nat | d < b + 1 && Between(a, d, b)
  }

  function Channels(sels: seq<Sel>): set<nat> {
    set s, d | s in sels && d in SelChannels(s) :: d
  }

  function LevelValue(l: Level): Byte {
    match l
    case Full(_) => 255
    case At(v) => Num(v) % 256
  }

  /** The frame with the clause's channels, and only those, at its level. */
  function Apply(frame: Frame, c: Clause): Frame {
    seq(FRAME_SIZE, i requires 0 <= i < FRAME_SIZE =>
      if i in Channels(c.sels) then LevelValue(c.level) else frame[i])
  }

  function Meaning(frame: Frame, clauses: seq<Clause>): Frame
    decreases |clauses|
  {
    if clauses == [] then frame else Meaning(Apply(frame, clauses[0]), clauses[1..])
  }

  function Touched(clauses: seq<Clause>): set<nat> {
    set c, d | c in clauses && d in Channels(c.sels) :: d
  }

  /** What a selection names: its channel, or its ends and what lies between them. */
  predicate Selects(s: Sel, d: nat) {
    match s
    case One(c) => d == Num(c)
    case Range(a, b) => d == Num(a) || Num(a) <= d <= Num(b)
  }

  ghost predicate Names(c: Clause, d: nat) {
    exists s :: s in c.sels && Selects(s, d)
  }

  lemma NamesAreChannels(c: Clause, d: nat)
    ensures d in Channels(c.sels) <==> Names(c, d)
  {
    hide Num;
    if Names(c, d) {
      var s :| s in c.sels && Selects(s, d);
      assert d in SelChannels(s);
    }
  }

  /** Later clauses win: a channel has the level of the last clause that names it, or its old one. */
  lemma {:induction false} LastClauseWins(frame: Frame, clauses: seq<Clause>, i: nat, k: nat)
    requires i < FRAME_SIZE && k <= |clauses|
    requires k < |clauses| ==> Names(clauses[k], i)
    requires forall j :: k < j < |clauses| ==> !Names(clauses[j], i)
    requires k == |clauses| ==> forall j :: 0 <= j < |clauses| ==> !Names(clauses[j], i)
    ensures k < |clauses| ==> Meaning(frame, clauses)[i] ==
                              match clauses[k].level case Full(_) => 255 case At(v) => Num(v) % 256
    ensures k == |clauses| ==> Meaning(frame, clauses)[i] == frame[i]
    decreases |clauses|
  {
    hide Channels, Names, Num;
    if clauses != [] {
      NamesAreChannels(clauses[0], i);
      var rest := clauses[1..];
      LastClauseWins(Apply(frame, clauses[0]), rest, i, if k == 0 then |rest| else k - 1);
    }
  }

  // ---------------------------------------------------------------------------------------
  // How a command is spelled.

  function SelTokens(s: Sel): seq<string> {
    match s
    case One(c) => [c]
    case Range(a, b) => [a, "THRU", b]
  }

  function SelsTokens(sels: seq<Sel>): seq<string> {
    if sels == [] then []
    else if |sels| == 1 then SelTokens(sels[0])
    else SelTokens(sels[0]) + (["AND"] + SelsTokens(sels[1..]))
  }

  function LevelTokens(l: Level): seq<string> {
    match l
    case Full(at) => (if at then ["AT"] else []) + ["FULL"]
    case At(v) => ["AT", v]
  }

  function ClauseTokens(c: Clause): seq<string> {
    SelsTokens(c.sels) + LevelTokens(c.level)
  }

  function CommandTokens(clauses: seq<Clause>): seq<string> {
    if clauses == [] then [] else ClauseTokens(clauses[0]) + CommandTokens(clauses[1..])
  }

  // ---------------------------------------------------------------------------------------
  // The interpreter computes the meaning.

  lemma {:induction false} RunAppend(st: Interp, a: seq<string>, b: seq<string>)
    ensures RunTokens(st, a + b) == RunTokens(RunTokens(st, a), b)
    decreases |a|
  {
    hide Step;
    if a == [] {
      assert a + b == b;
    } else {
      assert (a + b)[0] == a[0] && (a + b)[1..] == a[1..] + b;
      RunAppend(Step(st, a[0]), a[1..], b);
    }
  }

  /** A numeral is none of the key words. */
  lemma NumeralIsNoKeyword(t: string)
    requires IsNumeral(t)
    ensures !("release" <= t) && !("AND" <= t) && !("AT" <= t) && !("FULL" <= t) && !("THRU" <= t)
  {
    assert t[0] in t;
    assert IsDigit(t[0]);
  }

  lemma StepKeyword(st: Interp)
    requires !st.released
    ensures Step(st, "AND") == st
    ensures Step(st, "AT") == st.(isLevel := true)
    ensures Step(st, "FULL") == AssignLevel(st, 255)
    ensures Step(st, "THRU") == st.(isThru := true)
  {
    assert "AND"[0] == 'A' && "AT"[0] == 'A' && "FULL"[0] == 'F' && "THRU"[0] == 'T' && "release"[0] == 'r';
    assert "AND"[1] == 'N' && "AT"[1] == 'T';
  }

  predicate Ready(st: Interp) {
    !st.isLevel && !st.isThru && !st.released
  }

  /** The list of channels a selection adds. */
  function SelList(s: Sel): seq<nat> {
    match s
    case One(c) => [Num(c)]
    case Range(a, b) => [Num(a)] + Upto(Num(a) + 1, Num(b))
  }

  lemma {:induction false} UptoIsInterval(a: nat, b: nat)
    ensures ToSet(Upto(a, b)) == Interval(a, b)
  {
    if a < b {
      UptoIsInterval(a, b - 1);
      assert Upto(a, b) == Upto(a, b - 1) + [b];
      forall d: nat ensures d in Upto(a, b) <==> Between(a, d, b) {
        assert d in Upto(a, b - 1) <==> d in ToSet(Upto(a, b - 1));
      }
    }
  }

  lemma SelListIsSet(s: Sel)
    ensures ToSet(SelList(s)) == SelChannels(s)
  {
    if s.Range? {
      var a, b := Num(s.a), Num(s.b);
      UptoIsInterval(a + 1, b);
      forall d: nat ensures d in SelList(s) <==> d in SelChannels(s) {
        assert d in Upto(a + 1, b) <==> d in ToSet(Upto(a + 1, b));
      }
    }
  }

  lemma StepNumber(st: Interp, t: string)
    requires Ready(st) && IsChannel(t)
    ensures Step(st, t) == st.(channels := st.channels + [Num(t)])
  {
    NumeralIsNoKeyword(t);
    AtoiOfNumeral(t);
  }

  lemma StepRangeEnd(st: Interp, t: string)
    requires !st.isLevel && st.isThru && !st.released && IsChannel(t) && st.channels != []
    ensures Step(st, t) ==
      st.(isThru := false, channels := st.channels + Upto(st.channels[|st.channels| - 1] + 1, Num(t)))
  {
    NumeralIsNoKeyword(t);
    AtoiOfNumeral(t);
  }

  lemma RunSel(st: Interp, s: Sel)
    requires Ready(st) && ValidSel(s)
    ensures RunTokens(st, SelTokens(s)) == st.(channels := st.channels + SelList(s))
  {
    hide Step, RunTokens, Num, Upto;
    match s
    case One(c) =>
      StepNumber(st, c);
      OneToken(st, c);
    case Range(a, b) =>
      StepNumber(st, a);
      var st1 := Step(st, a);
      var st2 := Step(st1, "THRU");
      StepKeyword(st1);
      StepRangeEnd(st2, b);
      ThreeTokens(st, a, "THRU", b);
      assert st.channels + [Num(a)] + Upto(Num(a) + 1, Num(b)) == st.channels + SelList(s);
  }

  lemma ThreeTokens(st: Interp, a: string, b: string, c: string)
    ensures RunTokens(st, [a, b, c]) == Step(Step(Step(st, a), b), c)
  {
    hide Step;
    assert [a, b, c][1..] == [b, c] && [b, c][1..] == [c] && [c][1..] == [];
    var x := Step(st, a);
    var y := Step(x, b);
    assert RunTokens(st, [a, b, c]) == RunTokens(x, [b, c]);
    assert RunTokens(x, [b, c]) == RunTokens(y, [c]);
    assert RunTokens(y, [c]) == RunTokens(Step(y, c), []);
  }

  lemma OneToken(st: Interp, a: string)
    ensures RunTokens(st, [a]) == Step(st, a)
  {
    hide Step;
    assert [a][1..] == [];
    assert RunTokens(st, [a]) == RunTokens(Step(st, a), []);
  }

  function SelsList(sels: seq<Sel>): seq<nat> {
    if sels == [] then [] else SelList(sels[0]) + SelsList(sels[1..])
  }

  lemma {:induction false} SelsListIsSet(sels: seq<Sel>)
    ensures ToSet(SelsList(sels)) == Channels(sels)
  {
    if sels != [] {
      SelsListIsSet(sels[1..]);
      SelListIsSet(sels[0]);
      assert sels == [sels[0]] + sels[1..];
      assert ToSet(SelsList(sels)) == ToSet(SelList(sels[0])) + ToSet(SelsList(sels[1..]));
      hide SelChannels, SelList;
      assert Channels(sels) == SelChannels(sels[0]) + Channels(sels[1..]);
    }
  }

  lemma {:induction false} RunSels(st: Interp, sels: seq<Sel>)
    requires Ready(st) && forall s :: s in sels ==> ValidSel(s)
    ensures RunTokens(st, SelsTokens(sels)) == st.(channels := st.channels + SelsList(sels))
    decreases |sels|
  {
    hide SelTokens, SelList, ValidSel;
    if sels == [] {
      assert st.channels + [] == st.channels;
    } else {
      assert sels[0] in sels;
      RunSel(st, sels[0]);
      var st1 := st.(channels := st.channels + SelList(sels[0]));
      if |sels| == 1 {
        assert SelsList(sels[1..]) == [];
        assert SelList(sels[0]) + [] == SelList(sels[0]);
      } else {
        RunAppend(st, SelTokens(sels[0]), ["AND"] + SelsTokens(sels[1..]));
        RunAppend(st1, ["AND"], SelsTokens(sels[1..]));
        OneToken(st1, "AND");
        StepKeyword(st1);
        RunSels(st1, sels[1..]);
        assert st.channels + SelList(sels[0]) + SelsList(sels[1..]) ==
          st.channels + (SelList(sels[0]) + SelsList(sels[1..]));
      }
    }
  }

  lemma RunLevel(st: Interp, l: Level)
    requires Ready(st) && (l.At? ==> IsLevel(l.v))
    ensures RunTokens(st, LevelTokens(l)) == AssignLevel(st, LevelValue(l))
  {
    hide RunTokens;
    StepKeyword(st);
    var st1 := st.(isLevel := true);
    match l
    case Full(at) =>
      if at {
        assert LevelTokens(l) == ["AT"] + ["FULL"];
        RunAppend(st, ["AT"], ["FULL"]);
        OneToken(st, "AT");
        OneToken(st1, "FULL");
        StepKeyword(st1);
      } else {
        assert LevelTokens(l) == ["FULL"];
        OneToken(st, "FULL");
      }
    case At(v) =>
      assert LevelTokens(l) == ["AT"] + [v];
      RunAppend(st, ["AT"], [v]);
      OneToken(st, "AT");
      OneToken(st1, v);
      StepLevel(st1, v);
  }

  lemma StepLevel(st: Interp, v: string)
    requires st.isLevel && !st.released && IsLevel(v)
    ensures Step(st, v) == AssignLevel(st, Num(v) % 256)
  {
    hide Num, Atoi, SetAll, ToSet, IsNumeral;
    NumeralIsNoKeyword(v);
    AtoiOfNumeral(v);
  }

  /** Writing the listed channels one after the other writes the set of them. */
  lemma {:induction false} SetAllAt(frame: Frame, channels: seq<nat>, v: Byte, i: nat)
    requires i < FRAME_SIZE
    ensures SetAll(frame, channels, v)[i] == if i in channels then v else frame[i]
  {
    if channels != [] {
      var last := |channels| - 1;
      SetAllAt(frame, channels[..last], v, i);
      assert channels == channels[..last] + [channels[last]];
    }
  }

  lemma RunClause(st: Interp, c: Clause)
    requires Ready(st) && st.channels == [] && ValidClause(c)
    ensures RunTokens(st, ClauseTokens(c)) ==
      st.(frame := Apply(st.frame, c), captured := st.captured + Channels(c.sels))
  {
    hide RunTokens, SelsTokens, LevelTokens, LevelValue, Channels;
    RunAppend(st, SelsTokens(c.sels), LevelTokens(c.level));
    RunSels(st, c.sels);
    var l := SelsList(c.sels);
    assert [] + l == l;
    RunLevel(st.(channels := l), c.level);
    SelsListIsSet(c.sels);
    var v := LevelValue(c.level);
    assert SetAll(st.frame, l, v) == Apply(st.frame, c) by {
      forall i | 0 <= i < FRAME_SIZE ensures SetAll(st.frame, l, v)[i] == Apply(st.frame, c)[i] {
        SetAllAt(st.frame, l, v, i);
        assert i in l <==> i in ToSet(l);
      }
    }
  }

  lemma {:induction false} RunCommand(st: Interp, clauses: seq<Clause>)
    requires Ready(st) && st.channels == [] && forall c :: c in clauses ==> ValidClause(c)
    ensures RunTokens(st, CommandTokens(clauses)) ==
      st.(frame := Meaning(st.frame, clauses), captured := st.captured + Touched(clauses))
    decreases |clauses|
  {
    hide ClauseTokens, Apply, Channels, ValidClause;
    if clauses == [] {
      assert st.captured + Touched([]) == st.captured;
    } else {
      assert clauses[0] in clauses;
      RunAppend(st, ClauseTokens(clauses[0]), CommandTokens(clauses[1..]));
      RunClause(st, clauses[0]);
      var st1 := st.(frame := Apply(st.frame, clauses[0]), captured := st.captured + Channels(clauses[0].sels));
      RunCommand(st1, clauses[1..]);
      assert Touched(clauses) == Channels(clauses[0].sels) + Touched(clauses[1..]) by {
        assert clauses == [clauses[0]] + clauses[1..];
      }
      assert st.captured + Channels(clauses[0].sels) + Touched(clauses[1..]) == st.captured + Touched(clauses);
    }
  }

  /** AND changes nothing wherever it stands, so it may be left out. */
  function DropAnds(ts: seq<string>): seq<string> {
    if ts == [] then [] else (if "AND" <= ts[0] then [] else [ts[0]]) + DropAnds(ts[1..])
  }

  lemma {:induction false} AndsDoNotMatter(st: Interp, ts: seq<string>)
    ensures RunTokens(st, ts) == RunTokens(st, DropAnds(ts))
    decreases |ts|
  {
    hide Step;
    if ts != [] {
      var t, rest := ts[0], DropAnds(ts[1..]);
      AndsDoNotMatter(Step(st, t), ts[1..]);
      if "AND" <= t {
        StepAnd(st, t);
        assert [] + rest == rest;
      } else {
        assert ([t] + rest)[0] == t && ([t] + rest)[1..] == rest;
      }
    }
  }

  lemma DropAndsCons(t: string, ts: seq<string>)
    ensures DropAnds([t] + ts) == if "AND" <= t then DropAnds(ts) else [t] + DropAnds(ts)
  {
    assert ([t] + ts)[1..] == ts;
    assert [] + DropAnds(ts) == DropAnds(ts);
  }

  lemma StepAnd(st: Interp, t: string)
    requires "AND" <= t
    ensures Step(st, t) == st
  {
    assert t[0] == 'A' && "release"[0] == 'r';
  }

  /** The key string is the command, up to words AND: between selections, between clauses, or anywhere. */
  predicate Spells(keys: string, clauses: seq<Clause>) {
    DropAnds(Tokens(keys)) == DropAnds(CommandTokens(clauses))
  }

  /** A key string that spells a command turns the shadow frame into the meaning of the command, and
      captures exactly the channels it names besides those captured before. */
  lemma InterpreterRefinesMeaning(shadow: Frame, captured: set<nat>, keys: string, clauses: seq<Clause>)
    requires forall c :: c in clauses ==> ValidClause(c)
    requires Spells(keys, clauses)
    ensures Interpret(shadow, captured, keys) == (Meaning(shadow[0 := 0], clauses), captured + Touched(clauses))
  {
    hide Tokens, CommandTokens, RunTokens, DropAnds, ValidClause, Meaning, Touched;
    var st := StartState(shadow, captured);
    AndsDoNotMatter(st, Tokens(keys));
    AndsDoNotMatter(st, CommandTokens(clauses));
    RunCommand(st, clauses);
  }

  /** Clauses with an AND between them, as they are typed one after the other. */
  function AndJoined(clauses: seq<Clause>): seq<string> {
    if clauses == [] then []
    else if |clauses| == 1 then ClauseTokens(clauses[0])
    else ClauseTokens(clauses[0]) + (["AND"] + AndJoined(clauses[1..]))
  }

  lemma {:induction false} DropAndsAppend(a: seq<string>, b: seq<string>)
    ensures DropAnds(a + b) == DropAnds(a) + DropAnds(b)
  {
    if a == [] {
      assert a + b == b;
    } else {
      assert (a + b)[0] == a[0] && (a + b)[1..] == a[1..] + b;
      DropAndsAppend(a[1..], b);
    }
  }

  lemma {:induction false} AndJoinedDropped(clauses: seq<Clause>)
    ensures DropAnds(AndJoined(clauses)) == DropAnds(CommandTokens(clauses))
  {
    hide ClauseTokens;
    if clauses != [] {
      var c, rest := clauses[0], clauses[1..];
      DropAndsAppend(ClauseTokens(c), CommandTokens(rest));
      if |clauses| == 1 {
        assert CommandTokens(rest) == [] && DropAnds([]) == [];
      } else {
        AndJoinedDropped(rest);
        DropAndsAppend(["AND"], AndJoined(rest));
        DropAndsAppend(ClauseTokens(c), ["AND"] + AndJoined(rest));
        assert ["AND"][1..] == [] && DropAnds(["AND"]) == [];
      }
    }
  }

  /** "release" alone gives the zero frame and an empty set. */
  lemma ReleaseClears(shadow: Frame, captured: set<nat>)
    ensures Interpret(shadow, captured, "release") == (Cleared(shadow), {})
  {
    TokenThenRest("release", "");
    assert "release" + "" == "release";
    OneToken(StartState(shadow, captured), "release");
  }

  // ---------------------------------------------------------------------------------------
  // Single tokens and single clauses, exactly.

  /** A token is a key word if it begins with it. */
  lemma KeywordsArePrefixes(st: Interp, x: string)
    ensures Step(st, "release" + x) == Step(st, "release") && Step(st, "AND" + x) == Step(st, "AND")
    ensures Step(st, "AT" + x) == Step(st, "AT") && Step(st, "FULL" + x) == Step(st, "FULL")
    ensures Step(st, "THRU" + x) == Step(st, "THRU")
  {
    var r, a, t, f, h := "release" + x, "AND" + x, "AT" + x, "FULL" + x, "THRU" + x;
    assert "AND"[0] == 'A' && "AT"[0] == 'A' && "FULL"[0] == 'F' && "THRU"[0] == 'T' && "release"[0] == 'r';
    assert "AND"[1] == 'N' && "AT"[1] == 'T';
    assert r[0] == 'r' && a[0] == 'A' && a[1] == 'N' && t[0] == 'A' && t[1] == 'T' && f[0] == 'F' && h[0] == 'T';
  }

  lemma {:induction false} ReleasedStays(st: Interp, ts: seq<string>)
    requires st.released
    ensures RunTokens(st, ts) == st
    decreases |ts|
  {
    if ts != [] {
      ReleasedStays(st, ts[1..]);
    }
  }

  /** A release, anywhere in a key string, darkens the stage and forgets all channels, whatever stands before
      it or behind. */
  lemma {:induction false} ReleaseWins(st: Interp, ts: seq<string>, i: nat)
    requires !st.released && i < |ts| && "release" <= ts[i]
    ensures var t := RunTokens(st, ts); t.captured == {} && forall d :: 0 <= d <= 511 ==> t.frame[d] == 0
    decreases |ts|
  {
    if "release" <= ts[0] {
      ReleasedStays(Step(st, ts[0]), ts[1..]);
    } else {
      hide Step;
      OnlyReleaseReleases(st, ts[0]);
      assert ts[i] == ts[1..][i - 1];
      ReleaseWins(Step(st, ts[0]), ts[1..], i - 1);
    }
  }

  lemma OnlyReleaseReleases(st: Interp, t: string)
    requires !st.released && !("release" <= t)
    ensures !Step(st, t).released
  {
    hide Atoi;
  }

  lemma ReleaseAnywhere(shadow: Frame, captured: set<nat>, keys: string, i: nat)
    requires i < |Tokens(keys)| && "release" <= Tokens(keys)[i]
    ensures var (frame, caught) := Interpret(shadow, captured, keys);
            caught == {} && forall d :: 0 <= d <= 511 ==> frame[d] == 0
  {
    ReleaseWins(StartState(shadow, captured), Tokens(keys), i);
  }

  /** A number that an int can hold: as a selection, sixteen bits of it; as the end of a range, the channels up
      to it if it is 1 to 512; as a level, eight bits of it. */
  lemma NumbersExactly(st: Interp, t: string)
    requires !st.released && IsLevel(t)
    ensures st.isLevel ==> Step(st, t) == AssignLevel(st, Num(t) % 256)
    ensures !st.isLevel && !st.isThru ==> Step(st, t) == st.(channels := st.channels + [Num(t) % 65536])
    ensures !st.isLevel && st.isThru && st.channels != [] ==>
      var c := Num(t) % 65536;
      Step(st, t) == st.(isThru := false,
        channels := if 1 <= c <= 512 then st.channels + Upto(st.channels[|st.channels| - 1] + 1, c) else st.channels)
  {
    hide LeadDigits, Num, Upto;
    NumeralIsNoKeyword(t);
    AtoiOfNumeral(t);
  }

  /** A clause, channel by channel. */
  lemma ClauseExactly(frame: Frame, c: Clause, d: nat)
    requires d < FRAME_SIZE
    ensures Names(c, d) ==> Meaning(frame, [c])[d] == match c.level case Full(_) => 255 case At(v) => Num(v) % 256
    ensures !Names(c, d) ==> Meaning(frame, [c])[d] == frame[d]
    ensures d in Touched([c]) <==> Names(c, d)
  {
    hide Num;
    assert [c][1..] == [] && Meaning(Apply(frame, c), []) == Apply(frame, c);
    NamesAreChannels(c, d);
    assert c in [c];
  }
}
