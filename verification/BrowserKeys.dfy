/** What the keys of the keypad put into the buffer. */
module BrowserKeys {
  import opened KeyStrings
  import opened KeyCommands
  import opened KeypadText
  import opened Browser
  import opened BrowserRuns

  function Clear(p: Page): Page {
    p.(keyBuffer := "")
  }

  /** Keys pressed one after the other: digits, " AND ", " AT ", " THRU " and "FULL". */
  function PressAll(p: Page, keys: seq<string>): Page
    decreases |keys|
  {
    if keys == [] then p else PressAll(Append(p, keys[0]), keys[1..])
  }

  /** What stands between two separators. */
  predicate IsWord(t: string) {
    IsNumeral(t) || t == "FULL"
  }

  predicate IsSeparator(t: string) {
    t == "AND" || t == "AT" || t == "THRU"
  }

  /** Words with a separator between any two: all that can be typed, since no key is a blank. */
  predicate Typable(ts: seq<string>)
    decreases |ts|
  {
    && ts != [] && IsWord(ts[0])
    && (|ts| == 1 || (|ts| >= 3 && IsSeparator(ts[1]) && Typable(ts[2..])))
  }

  function Digits(t: string): seq<string> {
    if t == "" then [] else [[t[0]]] + Digits(t[1..])
  }

  function WordKeys(t: string): seq<string> {
    if t == "FULL" then ["FULL"] else Digits(t)
  }

  function SeparatorKey(t: string): string {
    " " + t + " "
  }

  /** The keys for a list of tokens. */
  function KeysFor(ts: seq<string>): seq<string>
    requires Typable(ts)
    decreases |ts|
  {
    WordKeys(ts[0]) + if |ts| == 1 then [] else [SeparatorKey(ts[1])] + KeysFor(ts[2..])
  }

  lemma {:induction false} PressAllAppend(p: Page, a: seq<string>, b: seq<string>)
    ensures PressAll(p, a + b) == PressAll(PressAll(p, a), b)
    decreases |a|
  {
    hide Append;
    if a == [] {
      assert a + b == b;
    } else {
      assert (a + b)[0] == a[0] && (a + b)[1..] == a[1..] + b;
      PressAllAppend(Append(p, a[0]), a[1..], b);
    }
  }

  lemma PressOne(p: Page, key: string)
    ensures PressAll(p, [key]) == Append(p, key)
  {
    hide Append;
    assert [key][1..] == [];
    assert PressAll(p, [key]) == PressAll(Append(p, key), []);
  }

  lemma PressNothing(p: Page)
    ensures PressAll(p, []) == p
  {
  }

  lemma PressAllFirst(p: Page, key: string, keys: seq<string>)
    ensures PressAll(p, [key] + keys) == PressAll(Append(p, key), keys)
  {
    hide Append;
    assert ([key] + keys)[1..] == keys;
  }

  lemma {:induction false} DigitsType(p: Page, t: string)
    requires AllDigits(t)
    ensures PressAll(p, Digits(t)) == p.(keyBuffer := p.keyBuffer + t)
    decreases |t|
  {
    hide Append, PressAll;
    if t == "" {
      assert p.keyBuffer + t == p.keyBuffer;
      PressNothing(p);
    } else {
      var key := [t[0]];
      assert t[0] in t;
      DigitTypes(p, t[0]);
      DigitsType(Append(p, key), t[1..]);
      assert p.keyBuffer + key + t[1..] == p.keyBuffer + t;
      PressAllFirst(p, key, Digits(t[1..]));
    }
  }

  lemma DigitTypes(p: Page, c: char)
    requires IsDigit(c)
    ensures Append(p, [c]) == p.(keyBuffer := p.keyBuffer + [c])
  {
    hide SendKeys;
    assert "FULL"[0] == 'F' && [c][0] == c;
  }

  /** FULL is typed only where the buffer does not end in FULL yet. */
  lemma WordTypes(p: Page, t: string)
    requires IsWord(t) && !EndsWith(p.keyBuffer, "FULL")
    ensures PressAll(p, WordKeys(t)) == p.(keyBuffer := p.keyBuffer + t)
  {
    if t == "FULL" { PressOne(p, t); } else { DigitsType(p, t); }
  }

  lemma SeparatorTypes(p: Page, t: string)
    requires IsSeparator(t)
    ensures PressAll(p, [SeparatorKey(t)]) == p.(keyBuffer := p.keyBuffer + SeparatorKey(t))
    ensures !EndsWith(p.keyBuffer + SeparatorKey(t), "FULL")
  {
    PressOne(p, SeparatorKey(t));
    var s := p.keyBuffer + SeparatorKey(t);
    assert SeparatorKey(t)[0] == ' ' && "FULL"[0] == 'F' && "FULL"[3] == 'L' && s[|s| - 1] == ' ';
  }

  lemma {:induction false} KeysType(p: Page, ts: seq<string>)
    requires Typable(ts) && !EndsWith(p.keyBuffer, "FULL")
    ensures PressAll(p, KeysFor(ts)) == p.(keyBuffer := p.keyBuffer + Join(ts))
    decreases |ts|
  {
    hide PressAll, Join, KeysFor, Append, IsWord, IsSeparator, EndsWith, SeparatorKey, WordKeys;
    var w := WordKeys(ts[0]);
    WordTypes(p, ts[0]);
    KeysForSplit(ts);
    if |ts| > 1 {
      var rest := KeysFor(ts[2..]);
      var p1 := p.(keyBuffer := p.keyBuffer + ts[0]);
      var p2 := p1.(keyBuffer := p1.keyBuffer + SeparatorKey(ts[1]));
      PressAllAppend(p, w, [SeparatorKey(ts[1])] + rest);
      PressAllAppend(p1, [SeparatorKey(ts[1])], rest);
      SeparatorTypes(p1, ts[1]);
      KeysType(p2, ts[2..]);
      JoinThroughSeparator(ts);
      assert p.keyBuffer + ts[0] + SeparatorKey(ts[1]) + Join(ts[2..]) == p.keyBuffer + Join(ts);
    }
  }

  lemma KeysForSplit(ts: seq<string>)
    requires Typable(ts)
    ensures |ts| == 1 ==> KeysFor(ts) == WordKeys(ts[0]) && Join(ts) == ts[0]
    ensures |ts| > 1 ==> KeysFor(ts) == WordKeys(ts[0]) + ([SeparatorKey(ts[1])] + KeysFor(ts[2..]))
  {
    hide WordKeys, SeparatorKey, IsWord, IsSeparator;
    assert WordKeys(ts[0]) + [] == WordKeys(ts[0]);
  }

  lemma JoinThroughSeparator(ts: seq<string>)
    requires |ts| >= 3
    ensures Join(ts) == ts[0] + SeparatorKey(ts[1]) + Join(ts[2..])
  {
    hide Join;
    JoinFirst(ts);
    JoinFirst(ts[1..]);
    assert ts[1..][0] == ts[1] && ts[1..][1..] == ts[2..];
    Regroup(ts[0], ts[1], Join(ts[2..]));
  }

  lemma JoinFirst(ts: seq<string>)
    requires |ts| >= 2
    ensures Join(ts) == ts[0] + (" " + Join(ts[1..]))
  {
  }

  lemma Regroup(a: string, b: string, c: string)
    ensures a + (" " + (b + (" " + c))) == a + (" " + b + " ") + c
  {
  }

  /** Clear, the keys of a typable list, and Enter: the list is sent with one blank between its words.  If
      it ends in FULL, pressing FULL again does for Enter. */
  lemma KeysSend(p: Page, ts: seq<string>)
    requires Typable(ts)
    ensures SendKeys(PressAll(Clear(p), KeysFor(ts))) == SendKeys(p.(keyBuffer := Join(ts)))
    ensures ts[|ts| - 1] == "FULL" ==> PressAll(Clear(p), KeysFor(ts) + ["FULL"]) == SendKeys(p.(keyBuffer := Join(ts)))
  {
    hide Typable, SendKeys, KeysFor;
    KeysType(Clear(p), ts);
    assert "" + Join(ts) == Join(ts);
    var p1 := p.(keyBuffer := Join(ts));
    PressAllAppend(Clear(p), KeysFor(ts), ["FULL"]);
    PressOne(p1, "FULL");
    JoinEnds(ts);
  }

  /** A command that is sent leaves an empty buffer, so the next one needs no Clear. */
  lemma TwoCommandsTyped(p: Page, ts: seq<string>, us: seq<string>)
    requires Typable(ts) && Typable(us)
    ensures var p1 := SendKeys(PressAll(Clear(p), KeysFor(ts)));
            && p1.keyBuffer == "" && p1.prevBuffer == PadNumbers(Join(ts), false) && p1.solo == p.solo
            && SendKeys(PressAll(p1, KeysFor(us))).posted ==
               p.posted + [PadNumbers(Join(ts), false), PadNumbers(Join(us), false)]
  {
    hide Typable, KeysFor, PadNumbers, ParseBuffer, Join, PressAll;
    KeysSend(p, ts);
    var p1 := SendKeys(p.(keyBuffer := Join(ts)));
    assert p1.keyBuffer == "" && !EndsWith("", "FULL");
    KeysType(p1, us);
    assert "" + Join(us) == Join(us);
  }

  lemma {:induction false} JoinEnds(ts: seq<string>)
    requires Typable(ts)
    ensures EndsWith(Join(ts), ts[|ts| - 1])
    decreases |ts|
  {
    hide IsWord, IsSeparator;
    if |ts| >= 3 {
      JoinEnds(ts[2..]);
      JoinThroughSeparator(ts);
      var s, t, u := Join(ts), Join(ts[2..]), ts[|ts| - 1];
      assert s[|s| - |t|..] == t && s[|s| - |u|..] == t[|t| - |u|..];
    }
  }

  // ---------------------------------------------------------------------------------------
  // The commands of the runs are typable.

  lemma {:induction false} TypableAppend(a: seq<string>, t: string, b: seq<string>)
    requires Typable(a) && IsSeparator(t) && Typable(b)
    ensures Typable(a + [t] + b)
    decreases |a|
  {
    hide IsWord, IsSeparator;
    var ts := a + [t] + b;
    if |a| == 1 {
      assert ts[2..] == b;
    } else {
      TypableAppend(a[2..], t, b);
      assert ts[2..] == a[2..] + [t] + b;
    }
  }

  lemma {:induction false} OnesTypable(chans: seq<string>)
    requires chans != [] && forall s :: s in chans ==> IsTyped(s)
    ensures Typable(SelsTokens(Ones(chans)))
  {
    hide IsNumeral, Num;
    assert chans[0] in chans;
    var ts := SelsTokens(Ones(chans));
    OnesOfOne(chans[0]);
    if |chans| == 1 {
      assert chans == [chans[0]] && ts == [chans[0]];
    } else {
      OnesTypable(chans[1..]);
      OnesLength(chans);
      assert Ones(chans)[0] == One(chans[0]) && Ones(chans)[1..] == Ones(chans[1..]);
      assert ts == [chans[0]] + (["AND"] + SelsTokens(Ones(chans[1..])));
      assert ts[2..] == SelsTokens(Ones(chans[1..]));
    }
  }

  lemma CommandTypable(c: Cmd)
    requires ValidChans(c) && IsLevelText(c.level)
    ensures Typable(ClauseTokens(ClauseOf(c)))
  {
    hide IsNumeral, Num, SelsTokens;
    var ts := SelsTokens(ClauseOf(c).sels);
    match c {
      case List(chans, _) => OnesTypable(chans);
      case Thru(a, b, _) =>
        RangeTokens(a, b);
        assert ts[2..] == [b];
    }
    assert [c.level] == [c.level] && Typable([c.level]);
    TypableAppend(ts, "AT", [c.level]);
    LevelAfterAt(c.level);
    assert ClauseTokens(ClauseOf(c)) == ts + ["AT"] + [c.level];
  }

  lemma RangeTokens(a: string, b: string)
    ensures SelsTokens([Range(a, b)]) == [a, "THRU", b]
  {
  }

  lemma LevelAfterAt(l: string)
    ensures LevelTokens(LevelOf(l)) == ["AT"] + [l]
  {
  }

  /** Entering a command is pressing keys: Clear, the keys of the command, and Enter, or FULL once more. */
  lemma EnterIsKeyPresses(p: Page, c: Cmd)
    requires ValidChans(c) && IsLevelText(c.level)
    ensures Typable(ClauseTokens(ClauseOf(c)))
    ensures var keys := KeysFor(ClauseTokens(ClauseOf(c)));
            && Press(p, Enter(c)) == SendKeys(PressAll(Clear(p), keys))
            && (c.level == "FULL" ==> Press(p, Enter(c)) == PressAll(Clear(p), keys + ["FULL"]))
  {
    hide Typable, SendKeys, KeysFor, SelsTokens, IsLevelText, ValidChans;
    CommandTypable(c);
    OneClauseTokens(ClauseOf(c));
    KeysSend(p, ClauseTokens(ClauseOf(c)));
    LevelAfterAt(c.level);
  }
}
