/** When the keypad is in solo mode, and what its keys do in it and out of it. */
module SoloMode {
  import opened KeyStrings
  import opened KeyCommands
  import opened KeypadText
  import opened Browser
  import opened Padding
  import opened BrowserRuns
  import opened BrowserClauses

  /** Rel: the buffer and the list are emptied, solo mode is over, "release" is posted and nothing else, and
      the stage is dark. */
  lemma ReleaseEndsSolo(s: Session)
    ensures var t := Act(s, ReleaseKey);
            && t.page == Page("", s.page.prevBuffer, map[], false, s.page.posted + ["release"])
            && t.captured == {} && forall d :: 0 <= d <= 511 ==> t.frame[d] == 0
  {
    hide Mirrors, Interpret;
    assert Press(s.page, ReleaseKey).posted[|s.page.posted|..] == ["release"];
    ReleaseMirrors(s.frame, s.captured);
  }

  /** Solo, pressed in solo mode, does the same. */
  lemma SecondSoloEndsSolo(s: Session)
    requires s.page.solo
    ensures var t := Act(s, SoloKey);
            && t.page == Page("", s.page.prevBuffer, map[], false, s.page.posted + ["release"])
            && t.captured == {} && forall d :: 0 <= d <= 511 ==> t.frame[d] == 0
  {
    hide Mirrors, Interpret;
    assert Press(s.page, SoloKey).posted[|s.page.posted|..] == ["release"];
    ReleaseMirrors(s.frame, s.captured);
  }

  /** Solo, pressed outside solo mode, posts nothing and puts the last command into the buffer. */
  lemma FirstSoloBegins(s: Session)
    requires !s.page.solo
    ensures Act(s, SoloKey) == s.(page := s.page.(solo := true, keyBuffer := s.page.prevBuffer))
  {
    assert s.page.posted[|s.page.posted|..] == [];
  }

  /** So that Enter then posts it once more. */
  lemma SoloRepeatsCommand(s: Session, keys: string)
    requires !s.page.solo
    ensures var t := Act(Typed(s, keys), SoloKey);
            var u := Typed(t, t.page.keyBuffer);
            && t.page.keyBuffer == PadNumbers(keys, false)
            && u.page.posted == s.page.posted + [PadNumbers(keys, false), PadNumbers(keys, false)]
            && u.page.keyBuffer == "" && u.page.solo
  {
    hide PadNumbers, ParseBuffer, Interpret;
    FirstSoloBegins(Typed(s, keys));
    PadIdempotent(keys, false);
  }

  /** Outside solo mode plus and minus do nothing at all. */
  lemma StepOutsideSolo(s: Session, up: bool)
    requires !s.page.solo
    ensures Act(s, PlusMinus(up)) == s
  {
    assert s.page.posted[|s.page.posted|..] == [];
  }

  function WithoutSteps(actions: seq<Action>): seq<Action> {
    if actions == [] then []
    else
      var a := actions[|actions| - 1];
      WithoutSteps(actions[..|actions| - 1]) + if a.PlusMinus? then [] else [a]
  }

  /** Until Solo is pressed, a session stays out of solo mode, and is as if plus and minus were never pressed. */
  lemma {:induction false} NoStepsOutsideSolo(s: Session, actions: seq<Action>)
    requires !s.page.solo && SoloKey !in actions
    ensures !RunActions(s, actions).page.solo
    ensures RunActions(s, actions) == RunActions(s, WithoutSteps(actions))
  {
    hide Act;
    if actions != [] {
      var front, a := actions[..|actions| - 1], actions[|actions| - 1];
      assert a in actions;
      NoStepsOutsideSolo(s, front);
      var t := RunActions(s, front);
      match a
      case Enter(c) =>
        EnterKeepsSolo(t, c);
        assert WithoutSteps(actions)[..|WithoutSteps(actions)| - 1] == WithoutSteps(front);
      case ReleaseKey =>
        ReleaseEndsSolo(t);
        assert WithoutSteps(actions)[..|WithoutSteps(actions)| - 1] == WithoutSteps(front);
      case PlusMinus(up) =>
        StepOutsideSolo(t, up);
        assert WithoutSteps(actions) == WithoutSteps(front);
      case SoloKey =>
    }
  }

  lemma EnterKeepsSolo(s: Session, c: Cmd)
    ensures Act(s, Enter(c)).page.solo == s.page.solo
  {
    hide Interpret, PadNumbers, ParseBuffer;
    EnterIsTyped(s, c);
  }

  /** In solo mode, before any command, plus and minus do nothing either. */
  lemma StepWithoutCommand(s: Session, up: bool)
    requires s.page.prevBuffer == ""
    ensures Act(s, PlusMinus(up)) == s
  {
    NothingToSolo();
    assert s.page.posted[|s.page.posted|..] == [];
  }

  // ---------------------------------------------------------------------------------------
  // What the list shows.

  lemma {:induction false} RecordedUnder(data: map<string, string>, channels: seq<string>, level: string, s: string)
    requires level != "0" && s in channels
    ensures Pad3(s) in RecordAll(data, channels, level) && RecordAll(data, channels, level)[Pad3(s)] == level
  {
    hide Pad3;
    var front, last := channels[..|channels| - 1], channels[|channels| - 1];
    if s in front {
      RecordedUnder(data, front, level, s);
    } else {
      assert channels == front + [last];
    }
  }

  /** After a command every channel it names is listed, under three digits, with the level as typed, or FL for
      FULL and 255. */
  lemma ListedLevels(s: Session, c: Cmd, d: nat)
    requires ValidCmd(c) && 1 <= d <= 511 && d in Channels(ClauseOf(c).sels)
    ensures var data := Act(s, Enter(c)).page.data;
            Key(d) in data && data[Key(d)] == if c.level == "FULL" || c.level == "255" then "FL" else c.level
  {
    hide Join, ClauseTokens, IsLevelKey, ValidChans, ValidClause, ParseBuffer, Key, Act, NamedChannels, RecordAll,
      AllKeys, Num, KeyAt, IndexOf, Meaning, IsLevelText, IsTyped;
    ValidChansOf(c);
    EnterDelivers(s, c);
    LevelOfValid(c);
    LevelKeyIsValid(c.level);
    ValidCmdIsValidClause(c);
    PadClauseTokens(ClauseOf(c));
    NotEmptyTokens(ClauseOf(c));
    var keys := ClauseTokens(ClauseOf(c));
    ParsedKeys(s.page.data, keys);
    ParsedCommand(c);
    var x :| x in NamedChannels(keys) && Num(x) == d;
    TypedKey(x);
    ShownIsNotZero(c.level);
    RecordedUnder(s.page.data, NamedChannels(keys), ShownLevel(c.level), x);
  }
}
