/**
  The browser keypad: the commands it sends, and its own list of channels and levels.
 */
module Browser {
  import opened Common
  import opened KeyStrings
  import opened KeypadText

  function Digit(d: nat): char
    requires d < 10
  {
    ('0' as int + d) as char
  }

  /** `toString()`. */
  function Show(n: nat): string {
    if n < 10 then [Digit(n)] else Show(n / 10) + [Digit(n % 10)]
  }

  function ShowInt(n: int): string {
    if n < 0 then "-" + Show(-n) else Show(n)
  }

  // ---------------------------------------------------------------------------------------
  // Reading the buffer back.

  function IndexOf(keys: seq<string>, t: string): (i: int)
    ensures -1 <= i < |keys|
    ensures i >= 0 ==> keys[i] == t && t !in keys[..i]
    ensures i == -1 ==> t !in keys
  {
    if keys == [] then -1
    else if keys[0] == t then 0
    else
      var i := IndexOf(keys[1..], t);
      if i < 0 then -1 else
        assert keys[..i + 1] == [keys[0]] + keys[1..][..i];
        i + 1
  }

  function KeyAt(keys: seq<string>, i: int): string {
    if 0 <= i < |keys| then keys[i] else "undefined"
  }

  function ShownLevel(level: string): string {
    if level == "FULL" || level == "255" then "FL" else level
  }

  /** The keys other than AND, as they were typed. */
  function NotAnds(keys: seq<string>): seq<string> {
    if keys == [] then []
    else NotAnds(keys[..|keys| - 1]) + if keys[|keys| - 1] == "AND" then [] else [keys[|keys| - 1]]
  }

  /** The numbers from a to b, shown. */
  function ShowRange(a: int, b: int): seq<string>
    decreases b - a
  {
    if a > b then [] else ShowRange(a, b - 1) + [ShowInt(b)]
  }

  predicate IsHexDigit(c: char) {
    IsDigit(c) || 'a' <= c <= 'f' || 'A' <= c <= 'F'
  }

  function HexValue(c: char): nat
    requires IsHexDigit(c)
  {
    if IsDigit(c) then c as int - '0' as int
    else if c >= 'a' then c as int - 'a' as int + 10
    else c as int - 'A' as int + 10
  }

  function LeadHexDigits(s: string, acc: nat): nat {
    if s == [] || !IsHexDigit(s[0]) then acc else LeadHexDigits(s[1..], 16 * acc + HexValue(s[0]))
  }

  /** A number without sign: hexadecimal behind 0x, else decimal, as far as its digits go. */
  function ParseUnsigned(s: string): Option<nat> {
    if |s| >= 2 && s[0] == '0' && (s[1] == 'x' || s[1] == 'X') then
      if |s| > 2 && IsHexDigit(s[2]) then Some(LeadHexDigits(s[2..], 0)) else None
    else if s != [] && IsDigit(s[0]) then Some(LeadDigits(s, 0))
    else None
  }

  /** `parseInt`; NaN is None. */
  function ParseInt(s: string): Option<int> {
    var t := TrimStart(s);
    var signed := t != [] && (t[0] == '-' || t[0] == '+');
    match ParseUnsigned(if signed then t[1..] else t)
    case None => None
    case Some(n) => Some(if signed && t[0] == '-' then 0 - n else n)
  }

  lemma ParseIntOfNumeral(s: string)
    requires IsNumeral(s)
    ensures ParseInt(s) == Some(Num(s))
  {
    hide LeadDigits;
    assert s[0] in s;
    if |s| >= 2 { assert s[1] in s; }
  }

  lemma SignedParse(t: string)
    ensures ParseInt(['-'] + t) == match ParseUnsigned(t) case None => None case Some(n) => Some(0 - n)
    ensures ParseInt(['+'] + t) == match ParseUnsigned(t) case None => None case Some(n) => Some(n)
  {
    hide ParseUnsigned;
    assert (['-'] + t)[1..] == t && (['+'] + t)[1..] == t;
  }

  /** A sign counts, and what follows the digits does not. */
  lemma ParseIntOfDigits(s: string)
    requires s != [] && IsDigit(s[0]) && (|s| > 1 ==> s[1] != 'x' && s[1] != 'X')
    ensures ParseInt(s) == ParseInt("+" + s) == Some(LeadDigits(s, 0))
    ensures ParseInt("-" + s) == Some(0 - LeadDigits(s, 0))
  {
    hide LeadDigits, LeadHexDigits, ParseUnsigned, ParseInt;
    UnsignedParse(s);
    assert "-" == ['-'] && "+" == ['+'];
    UnsignedOfDigits(s);
    SignedParse(s);
  }

  lemma UnsignedOfDigits(s: string)
    requires s != [] && IsDigit(s[0]) && (|s| > 1 ==> s[1] != 'x' && s[1] != 'X')
    ensures ParseUnsigned(s) == Some(LeadDigits(s, 0))
  {
    hide LeadDigits, LeadHexDigits;
  }

  /** Behind 0x the digits are hexadecimal. */
  lemma ParseIntOfHex(s: string)
    requires s != [] && IsHexDigit(s[0])
    ensures ParseInt("0x" + s) == ParseInt("0X" + s) == Some(LeadHexDigits(s, 0))
    ensures ParseInt("-0x" + s) == Some(0 - LeadHexDigits(s, 0))
  {
    hide LeadHexDigits, ParseUnsigned, ParseInt;
    HexUnsigned(s, 'x');
    HexUnsigned(s, 'X');
    assert "0x" == ['0', 'x'] && "0X" == ['0', 'X'];
    assert "-0x" + s == ['-'] + ("0x" + s);
    SignedParse("0x" + s);
    UnsignedParse("0x" + s);
    UnsignedParse("0X" + s);
  }

  lemma UnsignedParse(t: string)
    requires t != [] && IsDigit(t[0])
    ensures ParseInt(t) == match ParseUnsigned(t) case None => None case Some(n) => Some(n)
  {
    hide ParseUnsigned;
  }

  lemma HexUnsigned(s: string, x: char)
    requires s != [] && IsHexDigit(s[0]) && (x == 'x' || x == 'X')
    ensures ParseUnsigned(['0', x] + s) == Some(LeadHexDigits(s, 0))
  {
    hide LeadDigits, LeadHexDigits;
    assert (['0', x] + s)[2..] == s && (['0', x] + s)[2] == s[0];
  }

  /** White space in front is skipped. */
  lemma ParseIntSkipsSpace(s: string, c: char)
    requires IsSpace(c)
    ensures ParseInt([c] + s) == ParseInt(s)
  {
    hide ParseUnsigned;
    assert ([c] + s)[1..] == s;
  }

  /** What begins with nothing of that kind is no number. */
  lemma ParseIntOfNoNumber(s: string)
    requires s == [] || !(IsSpace(s[0]) || IsDigit(s[0]) || s[0] == '-' || s[0] == '+')
    ensures ParseInt(s) == None
  {
  }

  /** The value of hexadecimal digits, digit by digit. */
  lemma {:induction false} HexOfMore(h: string, d: char, acc: nat)
    requires (forall c :: c in h ==> IsHexDigit(c)) && IsHexDigit(d)
    ensures LeadHexDigits(h + [d], acc) == 16 * LeadHexDigits(h, acc) + HexValue(d)
    decreases |h|
  {
    if h == [] {
      assert h + [d] == [d] && [d][1..] == [];
    } else {
      assert h[0] in h && (h + [d])[0] == h[0] && (h + [d])[1..] == h[1..] + [d];
      HexOfMore(h[1..], d, 16 * acc + HexValue(h[0]));
    }
  }

  /** The numbers from one key to another: none if one of them is no number. */
  function KeyRange(a: string, b: string): seq<string> {
    match (ParseInt(a), ParseInt(b))
    case (Some(from), Some(to)) => ShowRange(from, to)
    case _ => []
  }

  /** The channel strings a buffer names. */
  function NamedChannels(keys: seq<string>): seq<string> {
    var at, thru := IndexOf(keys, "AT"), IndexOf(keys, "THRU");
    if thru == -1 then NotAnds(if at < 0 then [] else keys[..at])
    else KeyRange(KeyAt(keys, thru - 1), KeyAt(keys, thru + 1))
  }

  /** One channel: level "0" deletes the entry under the string as typed, any other level sets the
      entry under the padded string. */
  function Record(data: map<string, string>, channel: string, level: string): map<string, string> {
    if level == "0" then data - {channel} else data[Pad3(channel) := level]
  }

  function RecordAll(data: map<string, string>, channels: seq<string>, level: string): map<string, string> {
    if channels == [] then data
    else Record(RecordAll(data, channels[..|channels| - 1], level), channels[|channels| - 1], level)
  }

  function ParseBuffer(data: map<string, string>, buffer: string): map<string, string> {
    var keys := SplitAtBlanks(buffer);
    RecordAll(data, NamedChannels(keys), ShownLevel(KeyAt(keys, IndexOf(keys, "AT") + 1)))
  }

  // ---------------------------------------------------------------------------------------
  // The buttons.

  /** The page's variables, and what was posted to the firmware. */
  datatype Page = Page(keyBuffer: string, prevBuffer: string, data: map<string, string>, solo: bool,
                       posted: seq<string>)

  function SendKeys(p: Page): Page {
    var padded := PadNumbers(p.keyBuffer, false);
    Page("", padded, ParseBuffer(p.data, p.keyBuffer), p.solo, p.posted + [padded])
  }

  predicate EndsWith(s: string, t: string) {
    |t| <= |s| && s[|s| - |t|..] == t
  }

  function Append(p: Page, key: string): Page {
    if key == "FULL" && EndsWith(p.keyBuffer, "FULL") then SendKeys(p) else p.(keyBuffer := p.keyBuffer + key)
  }

  function Release(p: Page): Page {
    Page("", p.prevBuffer, map[], false, p.posted + ["release"])
  }

  function Solo(p: Page): Page {
    if p.solo then Release(p) else p.(solo := true, keyBuffer := p.prevBuffer)
  }

  function SoloStep(p: Page, at: nat, up: bool): Page
    requires at + 3 <= |p.prevBuffer|
  {
    var number, tail := p.prevBuffer[at..at + 3], p.prevBuffer[at + 3..];
    var next := ShowInt(Atoi(number) + if up then 1 else -1) + tail;
    SendKeys(SendKeys(p.(keyBuffer := number + " AT 0")).(keyBuffer := next)).(keyBuffer := next)
  }

  function SoloChange(p: Page, up: bool): Page {
    if !p.solo then p
    else
      match SoloMatch(p.prevBuffer, false)
      case None => p
      case Some(at) => SoloStep(p, at, up)
  }

  lemma RecordNone(data: map<string, string>, channels: seq<string>, level: string)
    ensures RecordAll(data, channels[..0], level) == data
  {
  }

  lemma RecordOneMore(data: map<string, string>, channels: seq<string>, level: string, i: nat)
    requires i < |channels|
    ensures RecordAll(data, channels[..i + 1], level) ==
      Record(RecordAll(data, channels[..i], level), channels[i], level)
  {
    assert channels[..i + 1][..i] == channels[..i];
  }

  method CollectChannels(keys: seq<string>) returns (channels: seq<string>)
    ensures channels == NamedChannels(keys)
  {
    var atIndex, thruIndex := IndexOf(keys, "AT"), IndexOf(keys, "THRU");
    channels := [];
    if thruIndex == -1 {
      var i := 0;
      while i < atIndex
        invariant 0 <= i && (i <= atIndex || i == 0)
        invariant channels == NotAnds(keys[..i])
      {
        assert keys[..i + 1][..i] == keys[..i];
        if keys[i] != "AND" {
          channels := channels + [keys[i]];
        }
        i := i + 1;
      }
    } else {
      var from, to := ParseInt(KeyAt(keys, thruIndex - 1)), ParseInt(KeyAt(keys, thruIndex + 1));
      if from.None? || to.None? { return; }
      var i := from.value;
      while i <= to.value
        invariant from.value <= i && (i <= to.value + 1 || i == from.value)
        invariant channels == ShowRange(from.value, i - 1)
      {
        channels := channels + [ShowInt(i)];
        i := i + 1;
      }
    }
  }

  class Keypad {
    var keyBuffer: string
    var prevBuffer: string
    var channelData: map<string, string>
    var soloMode: bool
    ghost var posted: seq<string>

    constructor ()
      ensures View() == Page("", "", map[], false, [])
    {
      keyBuffer, prevBuffer, channelData, soloMode, posted := "", "", map[], false, [];
    }

    ghost function View(): Page
      reads this
    {
      Page(keyBuffer, prevBuffer, channelData, soloMode, posted)
    }

    /** A key; FULL pressed twice sends. */
    method AppendKey(key: string)
      modifies this
      ensures View() == Append(old(View()), key)
    {
      if key == "FULL" && EndsWith(keyBuffer, "FULL") {
        Send();
        return;
      }
      keyBuffer := keyBuffer + key;
    }

    method ClearDisplay()
      modifies this`keyBuffer
      ensures View() == old(View()).(keyBuffer := "")
    {
      keyBuffer := "";
    }

    /** Updates the list of channels and levels from a buffer. */
    method Parse(buffer: string)
      modifies this`channelData
      ensures channelData == ParseBuffer(old(channelData), buffer)
    {
      hide SplitAtBlanks, RecordAll;
      var keys := SplitAtBlanks(buffer);
      var level := KeyAt(keys, IndexOf(keys, "AT") + 1);
      if level == "FULL" || level == "255" {
        level := "FL";
      }
      var channels := CollectChannels(keys);
      var i := 0;
      RecordNone(channelData, channels, level);
      while i < |channels|
        invariant 0 <= i <= |channels|
        invariant channelData == RecordAll(old(channelData), channels[..i], level)
      {
        RecordOneMore(old(channelData), channels, level, i);
        if level == "0" {
          channelData := channelData - {channels[i]};
        } else {
          channelData := channelData[Pad3(channels[i]) := level];
        }
        i := i + 1;
      }
      assert channels[..|channels|] == channels;
    }

    method Send()
      modifies this
      ensures View() == SendKeys(old(View()))
    {
      var padded := PadNumbers(keyBuffer, false);
      prevBuffer := padded;
      Parse(keyBuffer);
      posted := posted + [padded];
      keyBuffer := "";
    }

    method PressRelease()
      modifies this
      ensures View() == Release(old(View()))
    {
      channelData := map[];
      soloMode := false;
      posted := posted + ["release"];
      keyBuffer := "";
    }

    method PressSolo()
      modifies this
      ensures View() == Solo(old(View()))
    {
      soloMode := !soloMode;
      if soloMode {
        keyBuffer := prevBuffer;
      } else {
        PressRelease();
      }
    }

    method PressSoloChange(up: bool)
      modifies this
      ensures View() == SoloChange(old(View()), up)
    {
      if soloMode {
        var found := SoloMatch(prevBuffer, false);
        if found.Some? {
          var number := prevBuffer[found.value..found.value + 3];
          var tail := prevBuffer[found.value + 3..];
          keyBuffer := number + " AT 0";
          Send();
          var next := ShowInt(Atoi(number) + if up then 1 else -1) + tail;
          keyBuffer := next;
          Send();
          keyBuffer := next;
        }
      }
    }
  }
}
