/**
  The configuration record: its memory image, its checksum, and what survives a reboot.
 */
module Config {
  import opened Common
  import opened Eeprom

  /** Text fields are arrays of fixed length; the flags are kept as the bytes they are stored in. */
  datatype RfuConfig = RfuConfig(
    hostname: seq<Byte>, hostnameLen: nat, ssid: seq<Byte>, ssidLen: nat,
    password: seq<Byte>, passwordLen: nat, webPassword: seq<Byte>, webPasswordLen: nat,
    apMode: Byte, dmxLoop: Byte, checksum: Byte)

  const CONFIG_SIZE := 212
  const WORD := 0x1_0000_0000

  predicate WellSized(c: RfuConfig) {
    && |c.hostname| == 32 && |c.ssid| == 32 && |c.password| == 64 && |c.webPassword| == 64
    && c.hostnameLen < WORD && c.ssidLen < WORD && c.passwordLen < WORD && c.webPasswordLen < WORD
  }

  // ---------------------------------------------------------------------------------------
  // The checksum.

  function Sum(s: seq<Byte>): nat {
    if s == [] then 0 else Sum(s[..|s| - 1]) + s[|s| - 1]
  }

  function Total(c: RfuConfig): nat {
    Sum(c.hostname) + Sum(c.ssid) + Sum(c.password) + Sum(c.webPassword)
    + c.hostnameLen + c.ssidLen + c.passwordLen + c.webPasswordLen + c.apMode + c.dmxLoop
  }

  function CheckSum(c: RfuConfig): Byte {
    Total(c) % 256
  }

  lemma {:induction false} SumUpdate(s: seq<Byte>, i: nat, v: Byte)
    requires i < |s|
    ensures Sum(s[i := v]) == Sum(s) + v - s[i]
  {
    var n := |s| - 1;
    if i < n {
      SumUpdate(s[..n], i, v);
      assert s[i := v][..n] == s[..n][i := v];
    } else {
      assert s[i := v][..n] == s[..n];
    }
  }

  /** Every character of every text moves the checksum by as much as it changes. */
  lemma TextsAreSummed(c: RfuConfig, i: nat, v: Byte)
    requires WellSized(c)
    ensures i < 32 ==> CheckSum(c.(hostname := c.hostname[i := v])) == (CheckSum(c) + v - c.hostname[i]) % 256
    ensures i < 32 ==> CheckSum(c.(ssid := c.ssid[i := v])) == (CheckSum(c) + v - c.ssid[i]) % 256
    ensures i < 64 ==> CheckSum(c.(password := c.password[i := v])) == (CheckSum(c) + v - c.password[i]) % 256
    ensures i < 64 ==> CheckSum(c.(webPassword := c.webPassword[i := v])) == (CheckSum(c) + v - c.webPassword[i]) % 256
  {
    hide Sum, Total;
    if i < 32 {
      SumUpdate(c.hostname, i, v);
      SumUpdate(c.ssid, i, v);
    }
    if i < 64 {
      SumUpdate(c.password, i, v);
      SumUpdate(c.webPassword, i, v);
    }
    TotalOfTexts(c, if i < 32 then c.hostname[i := v] else c.hostname, if i < 32 then c.ssid[i := v] else c.ssid,
                 if i < 64 then c.password[i := v] else c.password,
                 if i < 64 then c.webPassword[i := v] else c.webPassword);
    if i < 32 {
      ModAdd(Total(c), v - c.hostname[i]);
      ModAdd(Total(c), v - c.ssid[i]);
    }
    if i < 64 {
      ModAdd(Total(c), v - c.password[i]);
      ModAdd(Total(c), v - c.webPassword[i]);
    }
  }

  lemma TotalOfTexts(c: RfuConfig, h: seq<Byte>, s: seq<Byte>, p: seq<Byte>, w: seq<Byte>)
    ensures Total(c.(hostname := h)) == Total(c) + Sum(h) - Sum(c.hostname)
    ensures Total(c.(ssid := s)) == Total(c) + Sum(s) - Sum(c.ssid)
    ensures Total(c.(password := p)) == Total(c) + Sum(p) - Sum(c.password)
    ensures Total(c.(webPassword := w)) == Total(c) + Sum(w) - Sum(c.webPassword)
  {
    hide Sum;
  }

  lemma ModAdd(total: int, d: int)
    ensures (total % 256 + d) % 256 == (total + d) % 256
  {
  }

  /** So does every length and every flag. */
  lemma NumbersAreSummed(c: RfuConfig, n: nat, v: Byte)
    ensures CheckSum(c.(hostnameLen := n)) == (CheckSum(c) + n - c.hostnameLen) % 256
    ensures CheckSum(c.(ssidLen := n)) == (CheckSum(c) + n - c.ssidLen) % 256
    ensures CheckSum(c.(passwordLen := n)) == (CheckSum(c) + n - c.passwordLen) % 256
    ensures CheckSum(c.(webPasswordLen := n)) == (CheckSum(c) + n - c.webPasswordLen) % 256
    ensures CheckSum(c.(apMode := v)) == (CheckSum(c) + v - c.apMode) % 256
    ensures CheckSum(c.(dmxLoop := v)) == (CheckSum(c) + v - c.dmxLoop) % 256
  {
    hide Total;
    TotalOfNumbers(c, n, v);
    ModAdd(Total(c), n - c.hostnameLen);
    ModAdd(Total(c), n - c.ssidLen);
    ModAdd(Total(c), n - c.passwordLen);
    ModAdd(Total(c), n - c.webPasswordLen);
    ModAdd(Total(c), v - c.apMode);
    ModAdd(Total(c), v - c.dmxLoop);
  }

  lemma TotalOfNumbers(c: RfuConfig, n: nat, v: Byte)
    ensures Total(c.(hostnameLen := n)) == Total(c) + n - c.hostnameLen
    ensures Total(c.(ssidLen := n)) == Total(c) + n - c.ssidLen
    ensures Total(c.(passwordLen := n)) == Total(c) + n - c.passwordLen
    ensures Total(c.(webPasswordLen := n)) == Total(c) + n - c.webPasswordLen
    ensures Total(c.(apMode := v)) == Total(c) + v - c.apMode
    ensures Total(c.(dmxLoop := v)) == Total(c) + v - c.dmxLoop
  {
    hide Sum;
  }

  predicate Checked(c: RfuConfig) {
    c.checksum == CheckSum(c)
  }

  /** `checksum += b` in eight bits, when the sum so far is `total`. */
  method Add8(checksum: Byte, b: nat, ghost total: nat) returns (r: Byte)
    requires checksum == total % 256
    ensures r == (total + b) % 256
  {
    r := (checksum as nat + b) % 256;
  }

  method AddField(checksum: Byte, field: seq<Byte>, ghost total: nat) returns (r: Byte)
    requires checksum == total % 256
    ensures r == (total + Sum(field)) % 256
  {
    r := checksum;
    var i := 0;
    while i < |field|
      invariant i <= |field| && r == (total + Sum(field[..i])) % 256
    {
      assert field[..i + 1][..i] == field[..i];
      r := Add8(r, field[i], total + Sum(field[..i]));
      i := i + 1;
    }
    assert field[..|field|] == field;
  }

  method CalcCheckSum(c: RfuConfig) returns (checksum: Byte)
    ensures checksum == CheckSum(c)
  {
    ghost var t := Sum(c.hostname);
    checksum := AddField(0, c.hostname, 0);
    checksum := AddField(checksum, c.ssid, t);
    t := t + Sum(c.ssid);
    checksum := AddField(checksum, c.password, t);
    t := t + Sum(c.password);
    checksum := AddField(checksum, c.webPassword, t);
    t := t + Sum(c.webPassword);
    checksum := Add8(checksum, c.hostnameLen, t);
    t := t + c.hostnameLen;
    checksum := Add8(checksum, c.ssidLen, t);
    t := t + c.ssidLen;
    checksum := Add8(checksum, c.passwordLen, t);
    t := t + c.passwordLen;
    checksum := Add8(checksum, c.webPasswordLen, t);
    t := t + c.webPasswordLen;
    checksum := Add8(checksum, c.apMode, t);
    t := t + c.apMode;
    checksum := Add8(checksum, c.dmxLoop, t);
  }

  // ---------------------------------------------------------------------------------------
  // The memory image.

  /** A 32-bit number, least significant byte first. */
  function LittleEndian(n: nat): (b: seq<Byte>)
    requires n < WORD
    ensures |b| == 4
  {
    [n % 256, n / 256 % 256, n / 0x1_0000 % 256, n / 0x100_0000]
  }

  function FromLittleEndian(b: seq<Byte>): (n: nat)
    requires |b| == 4
    ensures n < WORD
  {
    Weigh(b[0], 1) + Weigh(b[1], 256) + Weigh(b[2], 0x1_0000) + Weigh(b[3], 0x100_0000)
  }

  function Weigh(b: nat, w: nat): nat {
    b * w
  }

  /** The record as it lies in memory; the last byte pads it to a multiple of four. */
  function Image(c: RfuConfig): (b: seq<Byte>)
    requires WellSized(c)
    ensures |b| == CONFIG_SIZE
  {
    c.hostname + LittleEndian(c.hostnameLen) + c.ssid + LittleEndian(c.ssidLen)
    + c.password + LittleEndian(c.passwordLen) + c.webPassword + LittleEndian(c.webPasswordLen)
    + [c.apMode, c.dmxLoop, c.checksum, 0]
  }

  function FromImage(b: seq<Byte>): (c: RfuConfig)
    requires |b| == CONFIG_SIZE
    ensures WellSized(c)
  {
    RfuConfig(b[..32], FromLittleEndian(b[32..36]), b[36..68], FromLittleEndian(b[68..72]),
              b[72..136], FromLittleEndian(b[136..140]), b[140..204], FromLittleEndian(b[204..208]),
              b[208], b[209], b[210])
  }

  lemma LittleEndianRoundTrip(n: nat)
    requires n < WORD
    ensures FromLittleEndian(LittleEndian(n)) == n
  {
    var a, b, c := n / 256, n / 0x1_0000, n / 0x100_0000;
    assert n == 256 * a + n % 256 && a == 256 * b + a % 256 && b == 256 * c + b % 256;
  }

  lemma ImageRoundTrip(c: RfuConfig)
    requires WellSized(c)
    ensures FromImage(Image(c)) == c
  {
    hide LittleEndian, FromLittleEndian;
    LittleEndianRoundTrip(c.hostnameLen);
    LittleEndianRoundTrip(c.ssidLen);
    LittleEndianRoundTrip(c.passwordLen);
    LittleEndianRoundTrip(c.webPasswordLen);
    var b := Image(c);
    assert b[..32] == c.hostname && b[32..36] == LittleEndian(c.hostnameLen);
    assert b[36..68] == c.ssid && b[68..72] == LittleEndian(c.ssidLen);
    assert b[72..136] == c.password && b[136..140] == LittleEndian(c.passwordLen);
    assert b[140..204] == c.webPassword && b[204..208] == LittleEndian(c.webPasswordLen);
  }

  /** Where the fields lie, lengths with their least significant byte first. */
  lemma RecordLayout(b: seq<Byte>)
    requires |b| == 212
    ensures var c := FromImage(b);
            && c.hostname == b[..32] && c.ssid == b[36..68] && c.password == b[72..136] && c.webPassword == b[140..204]
            && c.hostnameLen == Weighed(b, 32) && c.ssidLen == Weighed(b, 68)
            && c.passwordLen == Weighed(b, 136) && c.webPasswordLen == Weighed(b, 204)
            && c.apMode == b[208] && c.dmxLoop == b[209] && c.checksum == b[210]
  {
  }

  function Weighed(b: seq<int>, p: nat): int
    requires p + 4 <= |b|
  {
    b[p] + 256 * (b[p + 1] + 256 * (b[p + 2] + 256 * b[p + 3]))
  }

  // ---------------------------------------------------------------------------------------
  // What the checksum covers, byte by byte of the image.

  /** The texts, the lowest byte of each length, and the two flags. */
  predicate Covered(i: nat) {
    i <= 32 || 36 <= i <= 68 || 72 <= i <= 136 || 140 <= i <= 204 || i == 208 || i == 209
  }

  function CoveredSum(b: seq<Byte>, n: nat): nat
    requires n <= |b|
  {
    if n == 0 then 0 else CoveredSum(b, n - 1) + if Covered(n - 1) then b[n - 1] else 0
  }

  lemma {:induction false} CoveredText(b: seq<Byte>, p: nat, q: nat)
    requires p <= q <= |b| && forall i :: p <= i < q ==> Covered(i)
    ensures CoveredSum(b, q) == CoveredSum(b, p) + Sum(b[p..q])
    decreases q
  {
    hide Covered;
    if p < q {
      CoveredText(b, p, q - 1);
      assert b[p..q][..q - 1 - p] == b[p..q - 1];
    }
  }

  lemma {:induction false} UncoveredGap(b: seq<Byte>, p: nat, q: nat)
    requires p <= q <= |b| && forall i :: p <= i < q ==> !Covered(i)
    ensures CoveredSum(b, q) == CoveredSum(b, p)
    decreases q
  {
    hide Covered;
    if p < q { UncoveredGap(b, p, q - 1); }
  }

  lemma {:induction false} CoveredSumUpdate(b: seq<Byte>, i: nat, v: Byte, n: nat)
    requires i < |b| && n <= |b|
    ensures CoveredSum(b[i := v], n) == CoveredSum(b, n) + if i < n && Covered(i) then v - b[i] else 0
  {
    hide Covered;
    if n > 0 { CoveredSumUpdate(b, i, v, n - 1); }
  }

  /** The checksum of the record in an image is the sum of the covered bytes. */
  lemma CheckSumOfImage(b: seq<Byte>)
    requires |b| == 212
    ensures CheckSum(FromImage(b)) == CoveredSum(b, 212) % 256
  {
    hide CheckSum, FromImage, Sum, CoveredSum;
    var c := FromImage(b);
    CoveredStep(b);
    CoveredText(b, 0, 32);
    CoveredText(b, 36, 68);
    CoveredText(b, 72, 136);
    CoveredText(b, 140, 204);
    UncoveredGap(b, 33, 36);
    UncoveredGap(b, 69, 72);
    UncoveredGap(b, 137, 140);
    UncoveredGap(b, 205, 208);
    UncoveredGap(b, 210, 212);
    assert b[0..32] == b[..32];
    RecordLayout(b);
    LowBytes(c, b[32], b[68], b[136], b[204]);
  }

  lemma CoveredStep(b: seq<Byte>)
    requires |b| == 212
    ensures CoveredSum(b, 0) == 0 && CoveredSum(b, 33) == CoveredSum(b, 32) + b[32]
    ensures CoveredSum(b, 69) == CoveredSum(b, 68) + b[68] && CoveredSum(b, 137) == CoveredSum(b, 136) + b[136]
    ensures CoveredSum(b, 205) == CoveredSum(b, 204) + b[204]
    ensures CoveredSum(b, 210) == CoveredSum(b, 208) + b[208] + b[209]
  {
    assert CoveredSum(b, 209) == CoveredSum(b, 208) + b[208];
  }

  lemma LowBytes(c: RfuConfig, h: Byte, s: Byte, p: Byte, w: Byte)
    requires c.hostnameLen % 256 == h && c.ssidLen % 256 == s && c.passwordLen % 256 == p && c.webPasswordLen % 256 == w
    ensures CheckSum(c) == (Sum(c.hostname) + h + Sum(c.ssid) + s + Sum(c.password) + p + Sum(c.webPassword) + w
                            + c.apMode + c.dmxLoop) % 256
  {
    hide Sum;
    var low := Sum(c.hostname) + h + Sum(c.ssid) + s + Sum(c.password) + p + Sum(c.webPassword) + w
               + c.apMode + c.dmxLoop;
    var high := c.hostnameLen / 256 + c.ssidLen / 256 + c.passwordLen / 256 + c.webPasswordLen / 256;
    assert Total(c) == low + 256 * high;
    SameModulo(low, high);
  }

  lemma SameModulo(x: int, k: int)
    ensures (x + 256 * k) % 256 == x % 256
  {
  }

  /** One byte of a good record changed: it is still good if and only if the byte is one of the upper three
      of a length, or the padding. */
  lemma ChangedByteIsNoticed(b: seq<Byte>, i: nat, v: Byte)
    requires |b| == 212 && i < 212 && v != b[i] && Checked(FromImage(b))
    ensures Checked(FromImage(b[i := v])) <==>
              33 <= i <= 35 || 69 <= i <= 71 || 137 <= i <= 139 || 205 <= i <= 207 || i == 211
  {
    hide CheckSum, FromImage, CoveredSum;
    RecordLayout(b);
    RecordLayout(b[i := v]);
    CheckSumOfImage(b);
    CheckSumOfImage(b[i := v]);
    CoveredSumUpdate(b, i, v, 212);
    var s := CoveredSum(b, 212);
    if Covered(i) { assert (s + v - b[i]) % 256 != s % 256; }
  }

  // ---------------------------------------------------------------------------------------
  // Defaults.

  function Text(s: string, n: nat): (b: seq<Byte>)
    requires |s| <= n && forall i :: 0 <= i < |s| ==> s[i] < 128 as char
    ensures |b| == n
  {
    Codes(s) + Zeros(n - |s|)
  }

  function Codes(s: string): (b: seq<Byte>)
    requires forall i :: 0 <= i < |s| ==> s[i] < 128 as char
    ensures |b| == |s|
  {
    if s == [] then [] else Codes(s[..|s| - 1]) + [s[|s| - 1] as int]
  }

  function Zeros(n: nat): (b: seq<Byte>)
    ensures |b| == n
  {
    if n == 0 then [] else Zeros(n - 1) + [0]
  }

  function Default(): (c: RfuConfig)
    ensures WellSized(c)
  {
    RfuConfig(Text("rfunit", 32), 6, Text("RemoteFocus", 32), 11,
              Text("12345678", 64), 8, Text("12345678", 64), 8, 1, 1, 111)
  }

  lemma {:induction false} SumAppend(a: seq<Byte>, b: seq<Byte>)
    ensures Sum(a + b) == Sum(a) + Sum(b)
  {
    if b == [] {
      assert a + b == a;
    } else {
      assert (a + b)[..|a + b| - 1] == a + b[..|b| - 1];
      SumAppend(a, b[..|b| - 1]);
    }
  }

  lemma {:induction false} SumOfZeros(n: nat)
    ensures Sum(Zeros(n)) == 0
  {
    if n > 0 {
      SumOfZeros(n - 1);
      assert Zeros(n)[..n - 1] == Zeros(n - 1);
    }
  }

  /** The sum of the codes of a text from letter `i` on. */
  function SumOfCodes(s: string, i: nat): nat
    decreases |s| - i
  {
    if i >= |s| then 0 else s[i] as int + SumOfCodes(s, i + 1)
  }

  lemma SumOfText(s: string, n: nat)
    requires |s| <= n && forall i :: 0 <= i < |s| ==> s[i] < 128 as char
    ensures Sum(Text(s, n)) == SumOfCodes(s, 0)
  {
    SumAppend(Codes(s), Zeros(n - |s|));
    SumOfZeros(n - |s|);
    SumOfTheCodes(s, 0);
  }

  lemma {:induction false} SumOfTheCodes(s: string, i: nat)
    requires i <= |s| && forall i :: 0 <= i < |s| ==> s[i] < 128 as char
    ensures Sum(Codes(s)) == Sum(Codes(s[..i])) + SumOfCodes(s, i)
    decreases |s| - i
  {
    if i == |s| {
      assert s[..i] == s;
    } else {
      SumOfTheCodes(s, i + 1);
      assert s[..i + 1][..i] == s[..i];
    }
  }

  lemma SixCodes(s: string)
    requires |s| == 6
    ensures SumOfCodes(s, 0) == s[0] as int + s[1] as int + s[2] as int + s[3] as int + s[4] as int + s[5] as int
  {
    assert SumOfCodes(s, 5) == s[5] as int + SumOfCodes(s, 6);
    assert SumOfCodes(s, 4) == s[4] as int + s[5] as int;
    assert SumOfCodes(s, 2) == s[2] as int + s[3] as int + SumOfCodes(s, 4);
  }

  lemma EightCodes(s: string)
    requires |s| >= 8
    ensures SumOfCodes(s, 0) == s[0] as int + s[1] as int + s[2] as int + s[3] as int
      + s[4] as int + s[5] as int + s[6] as int + s[7] as int + SumOfCodes(s, 8)
  {
    assert SumOfCodes(s, 6) == s[6] as int + s[7] as int + SumOfCodes(s, 8);
    assert SumOfCodes(s, 4) == s[4] as int + s[5] as int + SumOfCodes(s, 6);
    assert SumOfCodes(s, 2) == s[2] as int + s[3] as int + SumOfCodes(s, 4);
  }

  lemma DefaultCodes()
    ensures SumOfCodes("rfunit", 0) == 664 && SumOfCodes("RemoteFocus", 0) == 1132
    ensures SumOfCodes("12345678", 0) == 420
  {
    SixCodes("rfunit");
    EightCodes("RemoteFocus");
    EightCodes("12345678");
  }

  /** The checksum written into the defaults, 111, is theirs. */
  lemma DefaultIsChecked()
    ensures Checked(Default()) && Default().checksum == 111
  {
    hide Text, Sum, SumOfCodes;
    SumOfText("rfunit", 32);
    SumOfText("RemoteFocus", 32);
    SumOfText("12345678", 64);
    DefaultCodes();
  }

  // ---------------------------------------------------------------------------------------
  // Boot, save, and the fallback after a connection timeout.

  datatype Unit = Unit(cache: Cache, config: RfuConfig)

  /** `loadConfig`: a record whose checksum does not fit is not taken over. */
  function Loaded(c: Cache, current: RfuConfig): RfuConfig {
    match Get(c, 0, CONFIG_SIZE)
    case None => if Checked(Default()) then Default() else current
    case Some(b) => if Checked(FromImage(b)) then FromImage(b) else current
  }

  /** Power-on: the variables are initialised, then the flash is read. */
  function Boot(flash: Sector): Unit {
    var cache := Begin(Cache(flash, None, 0, false), CONFIG_SIZE);
    Unit(cache, Loaded(cache, Default()))
  }

  function Save(u: Unit): Unit
    requires Valid(u.cache) && WellSized(u.config)
  {
    u.(cache := Commit(Put(u.cache, 0, Image(u.config))).0)
  }

  /** The path taken when the access point does not answer: the checksum is moved on, and saved. */
  function GiveUp(u: Unit): Unit
    requires Valid(u.cache) && WellSized(u.config)
  {
    Save(u.(config := u.config.(checksum := (u.config.checksum + 1) % 256)))
  }

  class ConfigStore {
    const eeprom: EEPROMClass
    var config: RfuConfig

    constructor (eeprom: EEPROMClass)
      ensures this.eeprom == eeprom && config == Default()
    {
      this.eeprom, config := eeprom, Default();
    }

    method LoadConfig()
      requires eeprom.Sound()
      modifies this`config
      ensures config == Loaded(eeprom.View(), old(config))
    {
      hide CheckSum, Default, FromImage;
      var stored := eeprom.Fetch(0, CONFIG_SIZE);
      var record := if stored.None? then Default() else FromImage(stored.value);
      var sum := CalcCheckSum(record);
      if record.checksum == sum {
        config := record;
      }
    }

    method WriteConfig()
      requires eeprom.Sound() && WellSized(config) && eeprom != this as object
      modifies eeprom, eeprom.data, eeprom.sector
      ensures eeprom.Sound() && eeprom.View() == Save(Unit(old(eeprom.View()), config)).cache
    {
      hide Image;
      eeprom.Store(0, Image(config));
      var ok := eeprom.Flush();
    }
  }

  /** Whatever the flash holds, the configuration after power-on has a valid checksum. */
  lemma BootIsChecked(flash: Sector)
    ensures Checked(Boot(flash).config) && WellSized(Boot(flash).config) && Valid(Boot(flash).cache)
    ensures Boot(flash).cache.size == 256
  {
    hide CheckSum, Default;
    DefaultIsChecked();
  }

  /** What a unit loads from its flash: the record at its beginning, if the byte at 210 is the sum of the
      covered ones, else the defaults. */
  lemma BootTakesOverExactly(flash: Sector)
    ensures Boot(flash).config ==
            if flash[210] == CoveredSum(flash[..212], 212) % 256 then FromImage(flash[..212]) else Default()
  {
    hide CheckSum, Default, FromImage, CoveredSum;
    var b := flash[..212];
    RecordLayout(b);
    CheckSumOfImage(b);
    BootReads(flash);
  }

  lemma BootReads(flash: Sector)
    ensures Boot(flash).config == if Checked(FromImage(flash[..212])) then FromImage(flash[..212]) else Default()
  {
    hide CheckSum, Default, FromImage;
    assert flash[..256][0..212] == flash[..212];
  }

  /** A good record with any covered byte, or its checksum, changed in the flash is not taken over. */
  lemma ChangedRecordIsRejected(flash: Sector, i: nat, v: Byte)
    requires i < 212 && v != flash[i]
    requires Boot(flash).config == FromImage(flash[..212]) && Checked(FromImage(flash[..212]))
    ensures Boot(flash[i := v]).config ==
            if Covered(i) || i == 210 then Default() else FromImage(flash[..212][i := v])
  {
    hide CheckSum, Default, FromImage, Boot;
    ChangedByteIsNoticed(flash[..212], i, v);
    BootReads(flash[i := v]);
    assert flash[i := v][..212] == flash[..212][i := v];
  }

  /** What a unit loads after a save: the saved record if its checksum fits, else the defaults. */
  lemma BootAfterSave(u: Unit)
    requires Valid(u.cache) && u.cache.size >= CONFIG_SIZE && WellSized(u.config)
    ensures Boot(Save(u).cache.flash).config == if Checked(u.config) then u.config else Default()
  {
    hide CheckSum, Default, Image, FromImage;
    var image := Image(u.config);
    PutCommitBeginGet(u.cache, 0, image, CONFIG_SIZE, 0, 0);
    ImageRoundTrip(u.config);
    var saved := Save(u).cache;
    DoKeepsValid(u.cache, DoPut(0, image));
    BeginReadsFlash(saved);
  }

  lemma BeginReadsFlash(c: Cache)
    ensures Get(Begin(c, CONFIG_SIZE), 0, CONFIG_SIZE)
      == Get(Begin(Cache(c.flash, None, 0, false), CONFIG_SIZE), 0, CONFIG_SIZE)
  {
  }

  /** After a timeout the next power-on rejects the saved record and keeps the defaults, whatever
      configuration the unit had booted with. */
  lemma GivingUpRestoresDefaults(flash: Sector)
    ensures Boot(GiveUp(Boot(flash)).cache.flash).config == Default()
  {
    hide Default, Boot, Save;
    BootIsChecked(flash);
    var u := Boot(flash);
    BootAfterSave(u.(config := u.config.(checksum := (u.config.checksum + 1) % 256)));
  }
}
