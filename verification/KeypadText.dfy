/**
  The text processing of the browser keypad: zero padding, splitting at blanks, and the search for
  the channel that solo mode steps.
 */
module KeypadText {
  import opened Common
  import opened KeyStrings

  predicate IsWordChar(c: char) {
    IsDigit(c) || 'a' <= c <= 'z' || 'A' <= c <= 'Z' || c == '_'
  }

  /** How many digits s begins with. */
  function DigitRun(s: string): (n: nat)
    ensures n <= |s| && AllDigits(s[..n]) && (n < |s| ==> !IsDigit(s[n]))
  {
    if s == [] || !IsDigit(s[0]) then 0
    else
      var n := 1 + DigitRun(s[1..]);
      assert s[..n] == [s[0]] + s[1..][..n - 1];
      n
  }

  /** `replace(/\b(\d{1,2})(?![\d.])/g, padStart(3, '0'))`, after a word character or not: a run of one
      or two digits that begins a word and is not followed by a point is padded. */
  function PadNumbers(s: string, inWord: bool): string
    decreases |s|
  {
    if s == [] then []
    else
      var n := DigitRun(s);
      if !inWord && 1 <= n <= 2 && !(n < |s| && s[n] == '.') then Pad3(s[..n]) + PadNumbers(s[n..], true)
      else [s[0]] + PadNumbers(s[1..], IsWordChar(s[0]))
  }

  /** `split(" ")`: every blank separates, so two in a row leave an empty piece. */
  function SplitAtBlanks(s: string): (r: seq<string>)
    ensures r != []
  {
    if s == [] then [""]
    else
      var r := SplitAtBlanks(s[1..]);
      if s[0] == ' ' then [""] + r else [[s[0]] + r[0]] + r[1..]
  }

  /** White space, as `parseInt` and regular expressions know it. */
  predicate IsSpace(c: char) {
    var n := c as int;
    || 9 <= n <= 13 || n == 32 || n == 0xa0 || n == 0x1680 || 0x2000 <= n <= 0x200a || n == 0x2028 || n == 0x2029
    || n == 0x202f || n == 0x205f || n == 0x3000 || n == 0xfeff
  }

  function TrimStart(s: string): string {
    if s != [] && IsSpace(s[0]) then TrimStart(s[1..]) else s
  }

  /** Three digits, then white space or none, then AT. */
  predicate MatchHere(s: string) {
    |s| >= 3 && AllDigits(s[..3]) && "AT" <= TrimStart(s[3..])
  }

  /** `match(/\b(\d{3})(?=\s*AT)/)`: the index of the first three digits that begin a word and are
      followed by AT. */
  function SoloMatch(s: string, inWord: bool): (r: Option<nat>)
    ensures r.Some? ==> r.value + 3 <= |s| && MatchHere(s[r.value..])
  {
    if s == [] then None
    else if !inWord && MatchHere(s) then Some(0)
    else
      match SoloMatch(s[1..], IsWordChar(s[0]))
      case None => None
      case Some(i) => Some(i + 1)
  }

  // ---------------------------------------------------------------------------------------
  // The same, on tokens.

  predicate IsLetters(t: string) {
    t != [] && forall c :: c in t ==> 'A' <= c <= 'Z'
  }

  /** A numeral or a key word. */
  predicate IsKey(t: string) {
    IsNumeral(t) || IsLetters(t)
  }

  function PadKey(t: string): string {
    if IsNumeral(t) then Pad3(t) else t
  }

  function PadKeys(ts: seq<string>): seq<string> {
    if ts == [] then [] else [PadKey(ts[0])] + PadKeys(ts[1..])
  }

  lemma {:induction false} DigitRunOf(t: string, rest: string)
    requires AllDigits(t) && (rest == [] || !IsDigit(rest[0]))
    ensures DigitRun(t + rest) == |t|
  {
    if t == [] {
      assert t + rest == rest;
    } else {
      assert t[0] in t && (t + rest)[0] == t[0] && (t + rest)[1..] == t[1..] + rest;
      DigitRunOf(t[1..], rest);
    }
  }

  /** A number is padded at the beginning of s. */
  predicate Padded(s: string, inWord: bool) {
    var n := DigitRun(s);
    !inWord && 1 <= n <= 2 && !(n < |s| && s[n] == '.')
  }

  lemma PadStep(s: string, inWord: bool)
    requires s != []
    ensures Padded(s, inWord) ==> DigitRun(s) >= 1
    ensures var n := DigitRun(s);
            PadNumbers(s, inWord) ==
              if Padded(s, inWord) then Pad3(s[..n]) + PadNumbers(s[n..], true)
              else [s[0]] + PadNumbers(s[1..], IsWordChar(s[0]))
  {
  }

  /** One or two digits behind a character are padded unless it is a letter, a digit or an underscore. */
  lemma PaddedBehind(c: char, d: string, inWord: bool)
    requires !IsDigit(c) && AllDigits(d) && 1 <= |d| <= 2
    ensures PadNumbers([c] + d, inWord) ==
      [c] + if 'a' <= c <= 'z' || 'A' <= c <= 'Z' || c == '_' then d else Pad3(d)
  {
    hide Pad3, DigitRun, PadNumbers;
    var s := [c] + d;
    assert s[1..] == d && s[0] == c;
    DigitRunOf([], s);
    assert [] + s == s;
    PadStep(s, inWord);
    if IsWordChar(c) {
      InWordAsIs(d);
    } else {
      OneNumber(d);
    }
  }

  lemma OneNumber(d: string)
    requires AllDigits(d) && 1 <= |d| <= 2
    ensures PadNumbers(d, false) == Pad3(d)
  {
    hide Pad3, DigitRun, PadNumbers;
    DigitRunOf(d, []);
    assert d + [] == d;
    PadStep(d, false);
    assert d[..|d|] == d && d[|d|..] == [];
    PadNothing(true);
  }

  lemma {:induction false} InWordAsIs(d: string)
    requires AllDigits(d)
    ensures PadNumbers(d, true) == d
  {
    if d != [] {
      assert d[0] in d;
      InWordAsIs(d[1..]);
    }
  }

  lemma PadNothing(inWord: bool)
    ensures PadNumbers([], inWord) == []
  {
  }

  lemma Regroup(a: string, b: string, c: string)
    ensures a + (b + c) == a + b + c
  {
  }

  lemma OnlyNewWords(s: string)
    ensures !Padded(s, true)
  {
  }

  /** Inside a word nothing is padded. */
  lemma {:induction false} PadInsideWord(t: string, rest: string)
    requires forall c :: c in t ==> IsWordChar(c)
    ensures PadNumbers(t + rest, true) == t + PadNumbers(rest, true)
  {
    hide PadNumbers, Padded;
    if t == [] {
      assert t + rest == rest && [] + PadNumbers(rest, true) == PadNumbers(rest, true);
    } else {
      assert t[0] in t && (t + rest)[0] == t[0] && (t + rest)[1..] == t[1..] + rest;
      PadStep(t + rest, true);
      OnlyNewWords(t + rest);
      PadInsideWord(t[1..], rest);
      Regroup([t[0]], t[1..], PadNumbers(rest, true));
      assert [t[0]] + t[1..] == t;
    }
  }

  lemma PadOneKey(t: string, rest: string)
    requires IsKey(t) && (rest == [] || rest[0] == ' ')
    ensures PadNumbers(t + rest, false) == PadKey(t) + PadNumbers(rest, true)
  {
    if IsNumeral(t) && |t| <= 2 {
      PadShortNumber(t, rest);
    } else {
      PadWholeWord(t, rest);
    }
  }

  lemma PadShortNumber(t: string, rest: string)
    requires IsNumeral(t) && |t| <= 2 && (rest == [] || rest[0] == ' ')
    ensures PadNumbers(t + rest, false) == Pad3(t) + PadNumbers(rest, true)
  {
    DigitRunOf(t, rest);
    assert (t + rest)[..|t|] == t && (t + rest)[|t|..] == rest;
  }

  lemma KeyChars(t: string)
    requires IsKey(t)
    ensures IsWordChar(t[0]) && forall c :: c in t[1..] ==> IsWordChar(c)
  {
    forall c | c in t ensures IsWordChar(c) {
      if IsNumeral(t) { assert IsDigit(c); }
    }
    assert t == [t[0]] + t[1..];
  }

  lemma PadWholeWord(t: string, rest: string)
    requires IsKey(t) && (IsNumeral(t) ==> |t| > 2) && (rest == [] || rest[0] == ' ')
    ensures PadNumbers(t + rest, false) == t + PadNumbers(rest, true)
  {
    hide *;
    var s := t + rest;
    KeyChars(t);
    KeyNotEmpty(t);
    WholeWordRun(t, rest);
    UnpaddedHead(s);
    assert s[0] == t[0] && s[1..] == t[1..] + rest;
    PadInsideWord(t[1..], rest);
    Regroup([t[0]], t[1..], PadNumbers(rest, true));
    assert [t[0]] + t[1..] == t;
  }

  lemma KeyNotEmpty(t: string)
    requires IsKey(t)
    ensures t != []
  {
  }

  lemma UnpaddedHead(s: string)
    requires s != [] && (DigitRun(s) == 0 || DigitRun(s) > 2)
    ensures PadNumbers(s, false) == [s[0]] + PadNumbers(s[1..], IsWordChar(s[0]))
  {
  }

  lemma WholeWordRun(t: string, rest: string)
    requires IsKey(t) && (IsNumeral(t) ==> |t| > 2) && (rest == [] || rest[0] == ' ')
    ensures var n := DigitRun(t + rest); n == 0 || n > 2
  {
    if IsNumeral(t) {
      DigitRunOf(t, rest);
    } else {
      assert (t + rest)[0] == t[0] && t[0] in t;
    }
  }

  lemma {:induction false} PadOfJoin(ts: seq<string>)
    requires forall t :: t in ts ==> IsKey(t)
    ensures PadNumbers(Join(ts), false) == Join(PadKeys(ts))
  {
    if ts != [] {
      assert ts[0] in ts;
      if |ts| == 1 {
        assert ts[0] + "" == ts[0];
        PadOneKey(ts[0], "");
        assert PadKeys(ts) == [PadKey(ts[0])];
      } else {
        var rest := Join(ts[1..]);
        PadOneKey(ts[0], " " + rest);
        assert (" " + rest)[0] == ' ' && (" " + rest)[1..] == rest;
        assert PadNumbers(" " + rest, true) == " " + PadNumbers(rest, false) by {
          assert DigitRun(" " + rest) == 0;
        }
        PadOfJoin(ts[1..]);
      }
    }
  }

  lemma {:induction false} SplitOneKey(t: string, rest: string)
    requires ' ' !in t
    ensures SplitAtBlanks(t + (" " + rest)) == [t] + SplitAtBlanks(rest)
    ensures SplitAtBlanks(t) == [t]
  {
    if t == [] {
      assert t + (" " + rest) == " " + rest;
      assert (" " + rest)[1..] == rest;
    } else {
      assert t[0] in t;
      assert (t + (" " + rest))[0] == t[0] && (t + (" " + rest))[1..] == t[1..] + (" " + rest);
      SplitOneKey(t[1..], rest);
      assert [t[0]] + t[1..] == t;
    }
  }

  lemma {:induction false} SplitAtBlanksOfJoin(ts: seq<string>)
    requires ts != [] && forall t :: t in ts ==> ' ' !in t
    ensures SplitAtBlanks(Join(ts)) == ts
  {
    assert ts[0] in ts;
    if |ts| == 1 {
      SplitOneKey(ts[0], "");
    } else {
      SplitOneKey(ts[0], Join(ts[1..]));
      SplitAtBlanksOfJoin(ts[1..]);
    }
  }

  /** Every blank separates, and without one the string is its only piece. */
  lemma {:induction false} SplitAtEveryBlank(a: string, b: string)
    ensures SplitAtBlanks(a + (" " + b)) == SplitAtBlanks(a) + SplitAtBlanks(b)
    ensures ' ' !in a ==> SplitAtBlanks(a) == [a]
    decreases |a|
  {
    hide SplitAtBlanks, Grown;
    var s := a + (" " + b);
    SplitStep(s);
    SplitStep(a);
    if ' ' !in a { NoBlankNoSplit(a); }
    if a == [] {
      assert s == " " + b && (" " + b)[1..] == b;
      BlankBegins(SplitAtBlanks(b));
    } else {
      SplitAtEveryBlank(a[1..], b);
      assert s[0] == a[0] && s[1..] == a[1..] + (" " + b);
      FirstPiece(a[0], SplitAtBlanks(a[1..]), SplitAtBlanks(b));
    }
  }

  lemma {:induction false} NoBlankNoSplit(a: string)
    requires ' ' !in a
    ensures SplitAtBlanks(a) == [a]
  {
    if a != [] {
      assert a[0] in a;
      NoBlankNoSplit(a[1..]);
      assert [a[0]] + a[1..] == a;
    }
  }

  lemma BlankBegins(r: seq<string>)
    requires r != []
    ensures Grown(' ', r) == [""] + r
  {
  }

  /** A piece grows by a character in front, or a new one begins. */
  function Grown(c: char, r: seq<string>): seq<string>
    requires r != []
  {
    if c == ' ' then [""] + r else [[c] + r[0]] + r[1..]
  }

  lemma SplitStep(s: string)
    ensures SplitAtBlanks(s) == if s == [] then [""] else Grown(s[0], SplitAtBlanks(s[1..]))
  {
  }

  lemma FirstPiece(c: char, r: seq<string>, q: seq<string>)
    requires r != []
    ensures Grown(c, r + q) == Grown(c, r) + q
  {
    assert (r + q)[0] == r[0] && (r + q)[1..] == r[1..] + q;
  }

  lemma KeyHasNoBlank(t: string)
    requires IsKey(t)
    ensures IsToken(t)
  {
    if ' ' in t {
      assert false;
    }
  }

  // ---------------------------------------------------------------------------------------
  // The number solo mode finds.

  lemma {:induction false} NoMatchInsideWord(t: string, rest: string)
    requires forall c :: c in t ==> IsWordChar(c)
    ensures SoloMatch(t + rest, true) ==
      match SoloMatch(rest, true) case None => None case Some(i) => Some(|t| + i)
  {
    if t == [] {
      assert t + rest == rest;
    } else {
      assert t[0] in t && (t + rest)[0] == t[0] && (t + rest)[1..] == t[1..] + rest;
      NoMatchInsideWord(t[1..], rest);
    }
  }

  /** A key that is not directly before AT is passed over. */
  lemma SoloSkipsKey(t: string, rest: string)
    requires IsKey(t) && !("AT" <= TrimStart(rest)) && rest != [] && rest[0] == ' '
    ensures SoloMatch(t + rest, false) ==
      match SoloMatch(rest[1..], false) case None => None case Some(i) => Some(|t| + 1 + i)
  {
    hide *;
    var s := t + rest;
    KeyChars(t);
    KeyNotEmpty(t);
    KeyBeforeMatch(t, rest);
    assert s[0] == t[0] && s[1..] == t[1..] + rest;
    NoMatchAtHead(s, false);
    NoMatchInsideWord(t[1..], rest);
    NoMatchAtHead(rest, true);
    BlankIsNoWordChar();
  }

  lemma NoMatchAtHead(s: string, inWord: bool)
    requires s != [] && (inWord || !MatchHere(s))
    ensures SoloMatch(s, inWord) ==
      match SoloMatch(s[1..], IsWordChar(s[0])) case None => None case Some(i) => Some(i + 1)
  {
  }

  lemma BlankIsNoWordChar()
    ensures !IsWordChar(' ')
  {
  }

  /** A match at a key means the key is three digits and AT follows it. */
  lemma KeyBeforeMatch(t: string, rest: string)
    requires IsKey(t) && !("AT" <= TrimStart(rest)) && rest != [] && rest[0] == ' '
    ensures !MatchHere(t + rest)
  {
    var s := t + rest;
    if |s| >= 3 && AllDigits(s[..3]) {
      assert s[..3][0] in s[..3] && s[..3][1] in s[..3] && s[..3][2] in s[..3];
      assert s[|t|] == ' ';
      assert |t| >= 3;
      if |t| == 3 {
        assert s[3..] == rest;
      } else {
        assert t[0] in t && t[3] in t;
        assert s[3..][0] == t[3] && IsDigit(t[3]);
      }
    }
  }

  function SoloTokens(front: seq<string>, n: string, l: string): seq<string> {
    front + [n, "AT", l]
  }

  /** At position i of s three digits begin a word and have AT behind them. */
  predicate MatchAt(s: string, inWord: bool, i: nat)
    requires i <= |s|
  {
    MatchHere(s[i..]) && !(if i == 0 then inWord else IsWordChar(s[i - 1]))
  }

  /** The match is the first of all. */
  lemma {:induction false} SoloMatchIsFirst(s: string, inWord: bool)
    ensures match SoloMatch(s, inWord)
            case None => forall i :: 0 <= i <= |s| ==> !MatchAt(s, inWord, i)
            case Some(k) => MatchAt(s, inWord, k) && forall i :: 0 <= i < k ==> !MatchAt(s, inWord, i)
  {
    hide MatchHere, IsWordChar;
    if s == [] {
      NoMatchInNothing();
    } else {
      assert s[0..] == s;
      SoloMatchIsFirst(s[1..], IsWordChar(s[0]));
      forall i | 1 <= i <= |s| ensures MatchAt(s, inWord, i) <==> MatchAt(s[1..], IsWordChar(s[0]), i - 1) {
        assert s[1..][i - 1..] == s[i..];
        if i > 1 { assert s[1..][i - 2] == s[i - 1]; }
      }
      forall i | 0 <= i <= |s| ensures MatchAt(s, inWord, i) <==>
          if i == 0 then !inWord && MatchHere(s) else MatchAt(s[1..], IsWordChar(s[0]), i - 1) {
      }
    }
  }

  lemma NoMatchInNothing()
    ensures !MatchHere([])
  {
  }

  lemma JoinThree(n: string, l: string)
    ensures Join([n, "AT", l]) == n + (" AT " + l)
  {
    assert [n, "AT", l][1..] == ["AT", l] && ["AT", l][1..] == [l];
    assert Join([n, "AT", l]) == n + (" " + Join(["AT", l]));
    assert Join(["AT", l]) == "AT" + (" " + l);
    assert " " + ("AT" + (" " + l)) == " AT " + l;
  }

  lemma SoloAtFront(n: string, l: string)
    requires IsNumeral(n) && |n| == 3
    ensures SoloMatch(n + (" AT " + l), false) == Some(0)
  {
    hide TrimStart;
    var s := n + (" AT " + l);
    assert s[..3] == n && s[3..] == " AT " + l;
    OneBlankSkipped(l);
    assert MatchHere(s);
  }

  lemma OneBlankSkipped(l: string)
    ensures TrimStart(" AT " + l) == "AT " + l && "AT" <= "AT " + l
  {
    assert (" AT " + l)[1..] == "AT " + l;
    assert ("AT " + l)[0] == 'A';
  }

  /** In a padded command, solo mode finds the number before AT, and the level is what follows it. */
  lemma {:induction false} SoloFindsLastNumber(front: seq<string>, n: string, l: string) returns (at: nat)
    requires forall t :: t in front ==> IsKey(t) && !("AT" <= t)
    requires IsNumeral(n) && |n| == 3
    ensures var s := Join(SoloTokens(front, n, l));
            && SoloMatch(s, false) == Some(at) && at + 3 <= |s|
            && s[at..at + 3] == n && s[at + 3..] == " AT " + l
  {
    hide SoloMatch, IsKey, TrimStart;
    var ts := SoloTokens(front, n, l);
    var s := Join(ts);
    if front == [] {
      at := 0;
      assert ts == [n, "AT", l];
      JoinThree(n, l);
      SoloAtFront(n, l);
      assert s[0..3] == n && s[3..] == " AT " + l;
    } else {
      var t := front[0];
      assert t in front;
      assert ts[0] == t && ts[1..] == SoloTokens(front[1..], n, l);
      var rest := Join(ts[1..]);
      var k := SoloFindsLastNumber(front[1..], n, l);
      NextKeyIsNotAt(front[1..], n, l);
      assert (" " + rest)[1..] == rest;
      SoloSkipsKey(t, " " + rest);
      at := |t| + 1 + k;
      assert s == t + (" " + rest);
      assert s[at..at + 3] == rest[k..k + 3];
      assert s[at + 3..] == rest[k + 3..];
    }
  }

  lemma NextKeyIsNotAt(front: seq<string>, n: string, l: string)
    requires forall t :: t in front ==> IsKey(t) && !("AT" <= t)
    requires IsNumeral(n) && |n| == 3
    ensures !("AT" <= TrimStart(" " + Join(SoloTokens(front, n, l))))
  {
    var ts := SoloTokens(front, n, l);
    var s := Join(ts);
    var t := ts[0];
    assert t == if front == [] then n else front[0];
    assert if front == [] then n[0] in n && IsDigit(n[0]) else front[0] in front;
    KeyChars(t);
    NotAtStart(t, Join(ts[1..]));
    assert s == t + (" " + Join(ts[1..]));
    assert (" " + s)[1..] == s;
  }

  lemma NotAtStart(t: string, rest: string)
    requires IsKey(t) && !("AT" <= t)
    ensures var s := t + (" " + rest); !("AT" <= s) && TrimStart(s) == s
  {
    var s := t + (" " + rest);
    KeyChars(t);
    assert s[0] == t[0];
    if |t| == 1 { assert s[1] == ' '; } else { assert s[1] == t[1]; }
  }
}
