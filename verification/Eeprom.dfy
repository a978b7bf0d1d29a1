/**
  The EEPROM emulation: a write-back cache over one flash sector.
 */
module Eeprom {
  import opened Common

  const SECTOR := 4096

  type Sector = s: seq<Byte> | |s| == SECTOR witness seq(SECTOR, _ => 255)

  /** The flash sector, and the cache: no data before `begin` and after `end`. */
  datatype Cache = Cache(flash: Sector, data: Option<seq<Byte>>, size: nat, dirty: bool)

  ghost predicate Valid(c: Cache) {
    && c.size <= SECTOR
    && (c.data.None? <==> c.size == 0)
    && (c.data.Some? ==> |c.data.value| == c.size)
    && (c.data.Some? && !c.dirty ==> c.data.value == c.flash[..c.size])
  }

  /** The size `begin` settles on: at most a sector, in steps of 256. */
  function CacheSize(n: nat): (m: nat)
    ensures m % 256 == 0 && if n == 0 || n > 4096 then m == 4096 else n <= m < n + 256
  {
    var k := if n == 0 || n > SECTOR then SECTOR else n;
    (k + 255) / 256 * 256
  }

  function Begin(c: Cache, n: nat): Cache {
    c.(data := Some(c.flash[..CacheSize(n)]), size := CacheSize(n), dirty := false)
  }

  function Write(c: Cache, address: int, value: Byte): Cache {
    if address < 0 || address >= c.size || c.data.None? || address >= |c.data.value| then c
    else if c.data.value[address] == value then c
    else c.(data := Some(c.data.value[address := value]), dirty := true)
  }

  function Read(c: Cache, address: int): Byte {
    if address < 0 || address >= c.size || c.data.None? || address >= |c.data.value| then 0
    else c.data.value[address]
  }

  /** `n` bytes from `address` on, when they lie in the cache. */
  function Get(c: Cache, address: int, n: nat): Option<seq<Byte>> {
    if address < 0 || address + n > c.size || c.data.None? || address + n > |c.data.value| then None
    else Some(c.data.value[address..address + n])
  }

  function Put(c: Cache, address: int, t: seq<Byte>): (r: Cache)
    ensures Valid(c) ==> Valid(r)
  {
    match Get(c, address, |t|)
    case None => c
    case Some(was) =>
      if was == t then c
      else c.(data := Some(c.data.value[..address] + t + c.data.value[address + |t|..]), dirty := true)
  }

  /** Erased flash. */
  function Blank(n: nat): (b: seq<Byte>)
    ensures |b| == n && forall i :: 0 <= i < n ==> b[i] == 255
  {
    seq(n, _ => 255)
  }

  /** Erasing the sector and programming the cached part.  The dirty flag is left as it is. */
  function Flashed(c: Cache): Sector
    requires Valid(c) && c.data.Some?
  {
    c.data.value + Blank(SECTOR - c.size)
  }

  function Commit(c: Cache): (Cache, bool)
    requires Valid(c)
  {
    if c.size == 0 then (c, false)
    else if !c.dirty then (c, true)
    else (c.(flash := Flashed(c)), true)
  }

  function End(c: Cache): (Cache, bool)
    requires Valid(c)
  {
    if c.size == 0 then (c, false)
    else (Commit(c).0.(data := None, size := 0, dirty := false), Commit(c).1)
  }

  // ---------------------------------------------------------------------------------------
  // The object.

  class EEPROMClass {
    const sector: array<Byte>
    var data: array?<Byte>
    var size: nat
    var dirty: bool

    ghost predicate Sound()
      reads this, sector, data
    {
      && sector.Length == SECTOR && data != sector
      && size <= SECTOR && (data == null <==> size == 0)
      && (data != null ==> data.Length == size)
      && Valid(View())
    }

    function View(): Cache
      requires sector.Length == SECTOR
      reads this, sector, data
    {
      Cache(sector[..], if data == null then None else Some(data[..]), size, dirty)
    }

    constructor (sector: array<Byte>)
      requires sector.Length == SECTOR
      ensures Sound() && this.sector == sector && View() == Cache(sector[..], None, 0, false)
    {
      this.sector := sector;
      data, size, dirty := null, 0, false;
    }

    method Start(n: nat)
      requires Sound()
      modifies this, data
      ensures Sound() && View() == Begin(old(View()), n) && (data == old(data) || fresh(data))
    {
      var want := if n == 0 || n > SECTOR then SECTOR else n;
      want := (want + 255) / 256 * 256;
      if data == null || want != size {
        data := new Byte[want](_ => 0);
      }
      size := want;
      CopySector(data);
      dirty := false;
    }

    method CopySector(d: array<Byte>)
      requires sector.Length == SECTOR && d.Length <= SECTOR && d != sector
      modifies d
      ensures d[..] == sector[..d.Length]
    {
      for i := 0 to d.Length
        invariant d[..i] == sector[..i]
      {
        d[i] := sector[i];
      }
    }

    method ReadByte(address: int) returns (r: Byte)
      requires Sound()
      ensures r == Read(View(), address)
    {
      if data == null || address < 0 || address >= size { return 0; }
      return data[address];
    }

    method WriteByte(address: int, value: Byte)
      requires Sound()
      modifies this, data
      ensures Sound() && View() == Write(old(View()), address, value) && data == old(data)
    {
      if data == null || address < 0 || address >= size { return; }
      if data[address] != value {
        data[address] := value;
        dirty := true;
      }
    }

    method Fetch(address: int, n: nat) returns (r: Option<seq<Byte>>)
      requires Sound() && n > 0
      ensures r == Get(View(), address, n)
    {
      if address < 0 || address + n > size { return None; }
      return Some(data[address..address + n]);
    }

    method Store(address: int, t: seq<Byte>)
      requires Sound() && t != []
      modifies this, data
      ensures Sound() && View() == Put(old(View()), address, t) && data == old(data)
    {
      if address < 0 || address + |t| > size { return; }
      if data[address..address + |t|] != t {
        dirty := true;
        CopyBytes(data, address, t);
      }
    }

    /** The flash is erased before it is programmed, which is what makes the data arrive. */
    method Flush() returns (ok: bool)
      requires Sound()
      modifies sector
      ensures Sound() && (View(), ok) == Commit(old(View()))
    {
      if size == 0 { return false; }
      if !dirty { return true; }
      FlashErase(sector);
      FlashProgram(sector, data);
      assert sector[..] == data[..] + Blank(SECTOR - size);
      return true;
    }

    method Stop() returns (ok: bool)
      requires Sound()
      modifies this, sector
      ensures Sound() && (View(), ok) == End(old(View()))
    {
      if size == 0 { return false; }
      ok := Flush();
      data, size, dirty := null, 0, false;
    }
  }

  method CopyBytes(d: array<Byte>, address: nat, t: seq<Byte>)
    requires address + |t| <= d.Length
    modifies d
    ensures d[..] == old(d[..address]) + t + old(d[address + |t|..])
  {
    for i := 0 to |t|
      invariant d[..address] == old(d[..address]) && d[address..address + i] == t[..i]
      invariant d[address + |t|..] == old(d[address + |t|..])
    {
      d[address + i] := t[i];
    }
    assert d[..] == d[..address] + d[address..address + |t|] + d[address + |t|..];
  }

  method FlashErase(sector: array<Byte>)
    requires sector.Length == SECTOR
    modifies sector
    ensures sector[..] == Blank(SECTOR)
  {
    for i := 0 to SECTOR
      invariant forall k :: 0 <= k < i ==> sector[k] == 255
    {
      sector[i] := 255;
    }
  }

  /** Programming can only clear bits, so it is defined here on erased flash alone. */
  method FlashProgram(sector: array<Byte>, data: array<Byte>)
    requires sector.Length == SECTOR && data.Length <= SECTOR && data != sector
    requires forall k :: 0 <= k < data.Length ==> sector[k] == 255
    modifies sector
    ensures sector[..] == data[..] + old(sector[data.Length..])
  {
    for i := 0 to data.Length
      invariant sector[..i] == data[..i] && sector[data.Length..] == old(sector[data.Length..])
      invariant forall k :: i <= k < data.Length ==> sector[k] == 255
    {
      sector[i] := data[i];
    }
  }

  // ---------------------------------------------------------------------------------------
  // Runs.

  datatype Op =
    | DoBegin(n: nat)
    | DoWrite(address: int, value: Byte)
    | DoPut(address: int, t: seq<Byte>)
    | DoCommit
    | DoEnd

  function Do(c: Cache, op: Op): Cache
    requires Valid(c)
  {
    match op
    case DoBegin(n) => Begin(c, n)
    case DoWrite(a, v) => Write(c, a, v)
    case DoPut(a, t) => Put(c, a, t)
    case DoCommit => Commit(c).0
    case DoEnd => End(c).0
  }

  lemma DoKeepsValid(c: Cache, op: Op)
    requires Valid(c)
    ensures Valid(Do(c, op))
  {
  }

  function RunOps(c: Cache, ops: seq<Op>): (r: Cache)
    requires Valid(c)
    ensures Valid(r)
  {
    if ops == [] then c else Do(RunOps(c, ops[..|ops| - 1]), ops[|ops| - 1])
  }

  /** After every run of operations a clean cache equals the beginning of the flash, also though a
      commit leaves the dirty flag up. */
  lemma CleanCacheIsFlash(c: Cache, ops: seq<Op>)
    requires Valid(c)
    ensures var r := RunOps(c, ops);
            r.data.Some? && (!r.dirty || (ops != [] && ops[|ops| - 1] == DoCommit)) ==>
              r.data.value == r.flash[..r.size]
  {
    if ops != [] {
      var before := RunOps(c, ops[..|ops| - 1]);
      hide RunOps;
      if before.size > 0 { assert Flashed(before)[..before.size] == before.data.value; }
    }
  }

  /** Bytes [a, a + k) lie beside [b, b + n). */
  predicate Beside(a: nat, k: nat, b: nat, n: nat) {
    a + k <= b || b + n <= a
  }

  /** What is put and committed is there after the next `begin`, and what was cached beside it is still
      there. */
  lemma PutCommitBeginGet(c: Cache, address: nat, t: seq<Byte>, n: nat, a: nat, k: nat)
    requires Valid(c) && address + |t| <= c.size && t != []
    requires address + |t| <= CacheSize(n)
    requires a + k <= c.size && a + k <= CacheSize(n) && Beside(a, k, address, |t|)
    ensures var saved := Commit(Put(c, address, t));
            && saved.1
            && Get(Begin(saved.0, n), address, |t|) == Some(t)
            && Get(Begin(saved.0, n), a, k) == Get(c, a, k)
  {
    PutBytes(c, address, t, a, k);
    var p := Put(c, address, t);
    CommittedBytes(p);
    hide CacheSize, Commit, Put;
    GetAfterBegin(Commit(p).0, p.data.value, n, address, |t|);
    GetAfterBegin(Commit(p).0, p.data.value, n, a, k);
  }

  lemma GetAfterBegin(c: Cache, bytes: seq<Byte>, n: nat, a: nat, k: nat)
    requires Valid(c) && bytes <= c.flash && a + k <= |bytes| && a + k <= CacheSize(n)
    ensures Get(Begin(c, n), a, k) == Some(bytes[a..a + k])
  {
    hide CacheSize;
    var m := CacheSize(n);
    SliceOfPrefix(c.flash, m, a, a + k);
    SliceOfPrefix(c.flash, |bytes|, a, a + k);
    assert c.flash[..|bytes|] == bytes;
  }

  lemma PutBytes(c: Cache, address: nat, t: seq<Byte>, a: nat, k: nat)
    requires Valid(c) && address + |t| <= c.size && t != []
    requires a + k <= c.size && Beside(a, k, address, |t|)
    ensures var p := Put(c, address, t);
            && Valid(p) && p.size == c.size && p.flash == c.flash
            && p.data.value[address..address + |t|] == t
            && p.data.value[a..a + k] == c.data.value[a..a + k]
  {
    hide Valid, Put;
    PutSplices(c, address, t);
    SameBeside(c.data.value, Put(c, address, t).data.value, address, address + |t|, a, k);
  }

  lemma SameBeside(d: seq<Byte>, p: seq<Byte>, b: nat, e: nat, a: nat, k: nat)
    requires b <= e <= |d| == |p| && a + k <= |d| && (a + k <= b || e <= a)
    requires d[..b] == p[..b] && d[e..] == p[e..]
    ensures d[a..a + k] == p[a..a + k]
  {
    if a + k <= b {
      SliceOfPrefix(d, b, a, a + k);
      SliceOfPrefix(p, b, a, a + k);
    } else {
      SliceOfSuffix(d, e, a - e, a + k - e);
      SliceOfSuffix(p, e, a - e, a + k - e);
    }
  }

  lemma PutSplices(c: Cache, address: nat, t: seq<Byte>)
    requires Valid(c) && address + |t| <= c.size && t != []
    ensures c.data.Some? && |c.data.value| == c.size
    ensures var p := Put(c, address, t);
            && Valid(p) && p.size == c.size && p.flash == c.flash && p.data.Some?
            && |p.data.value| == c.size
            && p.data.value[..address] == c.data.value[..address]
            && p.data.value[address..address + |t|] == t
            && p.data.value[address + |t|..] == c.data.value[address + |t|..]
  {
    DoKeepsValid(c, DoPut(address, t));
    var d, e := c.data.value, address + |t|;
    var p := d[..address] + t + d[e..];
    assert p[..address] == d[..address] && p[address..e] == t && p[e..] == d[e..];
  }

  lemma CommittedBytes(p: Cache)
    requires Valid(p) && p.size > 0
    ensures Commit(p).1 && Commit(p).0.flash[..p.size] == p.data.value
  {
  }

  /** A commit erases the flash behind the cached part: it stays as it was if and only if it was blank or
      the cache was not dirty. */
  lemma CommitErasesTheRest(c: Cache)
    requires Valid(c) && c.size > 0
    ensures Commit(c).0.flash[c.size..] == c.flash[c.size..] <==>
            !c.dirty || forall i :: c.size <= i < SECTOR ==> c.flash[i] == 255
  {
    if c.dirty {
      var f := Commit(c).0.flash;
      assert f[c.size..] == Blank(SECTOR - c.size);
      assert forall i :: c.size <= i < SECTOR ==> c.flash[c.size..][i - c.size] == c.flash[i];
    }
  }

  // ---------------------------------------------------------------------------------------
  // Single bytes, and what is written at all.

  /** Reading and writing a byte is getting and putting a value of one byte; outside of the cache a byte
      reads as 0 and is not written. */
  lemma BytesAreValues(c: Cache, address: int, v: Byte)
    requires Valid(c)
    ensures Write(c, address, v) == Put(c, address, [v])
    ensures Read(c, address) == if 0 <= address < c.size then Get(c, address, 1).value[0] else 0
    ensures !(0 <= address < c.size) ==> Write(c, address, v) == c && Get(c, address, 1) == None
  {
    if 0 <= address < c.size {
      var d := c.data.value;
      assert d[address..address + 1] == [d[address]];
      assert d[address := v] == d[..address] + [v] + d[address + 1..];
    }
  }

  /** Putting what is there already does not make the cache dirty; anything else does. */
  lemma DirtyExactly(c: Cache, address: nat, t: seq<Byte>)
    requires Valid(c) && address + |t| <= c.size && t != []
    ensures Get(c, address, |t|) == Some(t) ==> Put(c, address, t) == c
    ensures Get(c, address, |t|) != Some(t) ==> Put(c, address, t).dirty
  {
  }

  /** A value that does not fit changes nothing. */
  lemma PutOutside(c: Cache, address: int, t: seq<Byte>)
    requires Valid(c) && t != [] && (address < 0 || address + |t| > c.size)
    ensures Put(c, address, t) == c && Get(c, address, |t|) == None
  {
  }

  /** `begin` makes the cache the beginning of the flash, and clean: a commit right after it writes nothing. */
  lemma BeginIsClean(c: Cache, n: nat)
    ensures var b := Begin(c, n);
            && b.flash == c.flash && b.size == CacheSize(n) && b.data == Some(c.flash[..CacheSize(n)]) && !b.dirty
            && Valid(b) && Commit(b) == (b, true)
  {
  }

  /** A commit reports whether there is a cache; the cache itself stays as it is. */
  lemma CommitReports(c: Cache)
    requires Valid(c)
    ensures Commit(c).1 <==> c.data.Some?
    ensures Commit(c).0 == c.(flash := Commit(c).0.flash)
    ensures c.size > 0 ==> Commit(c).0.flash[..c.size] == c.data.value
    ensures c.size == 0 || !c.dirty ==> Commit(c).0.flash == c.flash
  {
  }

  /** `end` leaves the cached bytes at the beginning of the flash and no cache; without one it fails. */
  lemma EndSaves(c: Cache)
    requires Valid(c)
    ensures c.size > 0 ==>
      && End(c).1 && End(c).0.flash[..c.size] == c.data.value
      && End(c).0 == Cache(Commit(c).0.flash, None, 0, false)
    ensures c.size == 0 ==> End(c) == (c, false)
  {
  }
}
