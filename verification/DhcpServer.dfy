/**
  The lease table, what a DISCOVER and a REQUEST do to it, and the reply that is built.
  `now` is true time in milliseconds, which never wraps; the firmware sees it modulo 2^32 and
  keeps the upper half of a 32-bit deadline per lease.  A message takes time: a clock says what the
  time is when slot i is looked at, or, for i = 0, when a REQUEST is granted.
 */
module DhcpServer {
  import opened Common
  import opened DhcpOptions

  type Mac = m: seq<Byte> | |m| == 6 witness [0, 0, 0, 0, 0, 0]

  const NO_MAC: Mac := [0, 0, 0, 0, 0, 0]

  type Half = h: int | 0 <= h < 0x1_0000

  datatype Lease = Lease(mac: Mac, expiry: Half)

  const DHCPS_BASE_IP := 16
  const DHCPS_MAX_IP := 8

  type Table = t: seq<Lease> | |t| == DHCPS_MAX_IP witness seq(DHCPS_MAX_IP, _ => Lease(NO_MAC, 0))

  // ---------------------------------------------------------------------------------------
  // Time.

  const TICKS := 0x1_0000_0000
  const LEASE_MS := 24 * 60 * 60 * 1000

  type Clock = c: seq<nat> | |c| == DHCPS_MAX_IP witness seq(DHCPS_MAX_IP, _ => 0)

  /** The upper 16 bits of the 32-bit deadline of a lease granted now. */
  function Stamp(now: nat): Half {
    (now % TICKS + LEASE_MS) % TICKS / 0x1_0000
  }

  /** The firmware's test: the difference of two 32-bit numbers, read as signed, is negative. */
  predicate Expired(l: Lease, now: nat) {
    (l.expiry * 0x1_0000 + 0xffff - now % TICKS) % TICKS >= 0x8000_0000
  }

  /** The last millisecond, in true time, of a lease granted at time t: its day, rounded up to
      the end of a 65.5 s block of the tick counter. */
  function LastMs(t: nat): nat {
    t + LEASE_MS + (0xffff - (t % TICKS + LEASE_MS) % TICKS % 0x1_0000)
  }

  // ---------------------------------------------------------------------------------------
  // DISCOVER.

  /** The first slot, from i on, that holds the MAC. */
  function FirstHeld(t: Table, mac: Mac, i: nat): (k: nat)
    requires i <= DHCPS_MAX_IP
    ensures i <= k <= DHCPS_MAX_IP && forall j :: i <= j < k ==> t[j].mac != mac
    ensures k < DHCPS_MAX_IP ==> t[k].mac == mac
    decreases DHCPS_MAX_IP - i
  {
    if i == DHCPS_MAX_IP || t[i].mac == mac then i else FirstHeld(t, mac, i + 1)
  }

  predicate Usable(l: Lease, now: nat) {
    l.mac == NO_MAC || Expired(l, now)
  }

  /** The first slot, from i on, that is free or expired. */
  function FirstUsable(t: Table, clock: Clock, i: nat): (k: nat)
    requires i <= DHCPS_MAX_IP
    ensures i <= k <= DHCPS_MAX_IP && forall j :: i <= j < k ==> !Usable(t[j], clock[j])
    ensures k < DHCPS_MAX_IP ==> Usable(t[k], clock[k])
    decreases DHCPS_MAX_IP - i
  {
    if i == DHCPS_MAX_IP || Usable(t[i], clock[i]) then i else FirstUsable(t, clock, i + 1)
  }

  /** The slot offered: the client's own, else the lowest usable one, else none (8). */
  function OfferedSlot(t: Table, mac: Mac, clock: Clock): (k: nat)
    ensures k <= DHCPS_MAX_IP
    ensures k < DHCPS_MAX_IP ==> t[k].mac == mac || Usable(t[k], clock[k])
  {
    if FirstHeld(t, mac, 0) < DHCPS_MAX_IP then FirstHeld(t, mac, 0) else FirstUsable(t, clock, 0)
  }

  /** The table afterwards: an expired slot met before the client's own is cleared. */
  function AfterDiscover(t: Table, mac: Mac, clock: Clock): Table {
    var f := FirstUsable(t, clock, 0);
    if f < FirstHeld(t, mac, 0) && Expired(t[f], clock[f]) then t[f := t[f].(mac := NO_MAC)] else t
  }

  // ---------------------------------------------------------------------------------------
  // Messages.

  /** The options start after the magic cookie; a find near the end of the 308 bytes makes the
      code look at up to five bytes of whatever is stored behind them. */
  type OptionField = b: seq<Byte> | |b| == 314 witness seq(314, _ => 0)

  datatype Message = Message(len: nat, chaddr: Mac, opts: OptionField)

  datatype Server = Server(ip: Ip4, mask: Ip4, table: Table)

  datatype Verdict = Ignore | Offer(slot: nat) | Grant(slot: nat)

  const DHCP_MIN_SIZE := 243
  const DHCPDISCOVER: Byte := 1
  const DHCPOFFER: Byte := 2
  const DHCPREQUEST: Byte := 3
  const DHCPACK: Byte := 5
  const OPT_SUBNET_MASK: Byte := 1
  const OPT_ROUTER: Byte := 3
  const OPT_DNS: Byte := 6
  const OPT_REQUESTED_IP: Byte := 50
  const OPT_IP_LEASE_TIME: Byte := 51
  const OPT_MSG_TYPE: Byte := 53
  const OPT_SERVER_ID: Byte := 54

  function MessageType(opts: OptionField): Option<Byte> {
    match FindFrom(opts, 0, OPT_MSG_TYPE)
    case None => None
    case Some(i) => Some(opts[i + 2])
  }

  /** The slot of the requested address, when it is one of ours. */
  function RequestedSlot(ip: Ip4, opts: OptionField): (r: Option<nat>)
    ensures r.Some? ==> r.value < DHCPS_MAX_IP
  {
    match FindFrom(opts, 0, OPT_REQUESTED_IP)
    case None => None
    case Some(i) =>
      var yi := (opts[i + 5] - DHCPS_BASE_IP) % 256;
      if opts[i + 2..i + 5] == ip[..3] && yi < DHCPS_MAX_IP then Some(yi) else None
  }

  function Decide(s: Server, m: Message, clock: Clock): (Table, Verdict) {
    if m.len < DHCP_MIN_SIZE then (s.table, Ignore)
    else
      match MessageType(m.opts)
      case None => (s.table, Ignore)
      case Some(kind) =>
        if kind == DHCPDISCOVER then
          var yi := OfferedSlot(s.table, m.chaddr, clock);
          (AfterDiscover(s.table, m.chaddr, clock), if yi == DHCPS_MAX_IP then Ignore else Offer(yi))
        else if kind == DHCPREQUEST then
          match RequestedSlot(s.ip, m.opts)
          case None => (s.table, Ignore)
          case Some(yi) =>
            if s.table[yi].mac == m.chaddr || s.table[yi].mac == NO_MAC
            then (s.table[yi := Lease(m.chaddr, Stamp(clock[0]))], Grant(yi))
            else (s.table, Ignore)
        else (s.table, Ignore)
  }

  /** The address a slot stands for. */
  function Address(ip: Ip4, slot: nat): Ip4
    requires slot < DHCPS_MAX_IP
  {
    [ip[0], ip[1], ip[2], DHCPS_BASE_IP + slot]
  }

  function ReplyOptions(ip: Ip4, mask: Ip4, kind: Byte): (opts: seq<Opt>)
    ensures forall o :: o in opts ==> Writable(o)
  {
    [Opt(OPT_MSG_TYPE, [kind]), Opt(OPT_SERVER_ID, ip), Opt(OPT_SUBNET_MASK, mask), Opt(OPT_ROUTER, ip),
     Opt(OPT_DNS, ip), Opt(OPT_IP_LEASE_TIME, BigEndian(24 * 60 * 60))]
  }

  // ---------------------------------------------------------------------------------------
  // The server object.

  class DhcpServer {
    const ip: Ip4
    const mask: Ip4
    const lease: array<Lease>

    constructor (ip: Ip4, mask: Ip4)
      ensures this.ip == ip && this.mask == mask && lease.Length == DHCPS_MAX_IP && fresh(lease)
      ensures forall i :: 0 <= i < DHCPS_MAX_IP ==> lease[i] == Lease(NO_MAC, 0)
    {
      this.ip, this.mask := ip, mask;
      lease := new Lease[DHCPS_MAX_IP](_ => Lease(NO_MAC, 0));
    }

    function View(): Server
      requires lease.Length == DHCPS_MAX_IP
      reads lease
    {
      Server(ip, mask, lease[..])
    }

    method Discover(mac: Mac, clock: Clock) returns (yi: nat)
      requires lease.Length == DHCPS_MAX_IP
      modifies lease
      ensures yi == OfferedSlot(old(lease[..]), mac, clock)
      ensures lease[..] == AfterDiscover(old(lease[..]), mac, clock)
    {
      hide Expired, FirstUsable, FirstHeld;
      yi := DHCPS_MAX_IP;
      ghost var t: Table := lease[..];
      ghost var f := FirstUsable(t, clock, 0);
      for i := 0 to DHCPS_MAX_IP
        invariant forall j :: 0 <= j < i ==> t[j].mac != mac
        invariant yi == if f < i then f else DHCPS_MAX_IP
        invariant lease[..] == if f < i && Expired(t[f], clock[f]) then t[f := t[f].(mac := NO_MAC)] else t
      {
        if lease[i].mac == mac {
          yi := i;
          return;
        }
        if yi == DHCPS_MAX_IP {
          if lease[i].mac == NO_MAC {
            yi := i;
          }
          if Expired(lease[i], clock[i]) {
            lease[i] := lease[i].(mac := NO_MAC);
            yi := i;
          }
        }
      }
    }

    /** Takes or renews the slot, if the client may have it. */
    method Request(yi: nat, mac: Mac, now: nat) returns (granted: bool)
      requires lease.Length == DHCPS_MAX_IP && yi < DHCPS_MAX_IP
      modifies lease
      ensures granted == (old(lease[yi].mac) == mac || old(lease[yi].mac) == NO_MAC)
      ensures lease[..] == if granted then old(lease[..])[yi := Lease(mac, Stamp(now))] else old(lease[..])
    {
      if lease[yi].mac == mac {
      } else if lease[yi].mac == NO_MAC {
        lease[yi] := lease[yi].(mac := mac);
      } else {
        return false;
      }
      lease[yi] := lease[yi].(expiry := Stamp(now));
      return true;
    }

    /** Handles a message whose option field is in `opts` and, unless it is ignored, builds the reply
        over it: `op`, `yiaddr`, and `n` bytes of options. */
    method Process(len: nat, chaddr: Mac, opts: array<Byte>, clock: Clock)
      returns (verdict: Verdict, op: Byte, yiaddr: Ip4, n: nat)
      requires lease.Length == DHCPS_MAX_IP && opts.Length == 314
      modifies lease, opts
      ensures (View().table, verdict) == Decide(old(View()), Message(len, chaddr, old(opts[..])), clock)
      ensures verdict.Ignore? ==> opts[..] == old(opts[..])
      ensures !verdict.Ignore? ==>
        && verdict.slot < 8 && op == 2 && yiaddr == [ip[0], ip[1], ip[2], 16 + verdict.slot]
        && n <= 314
        && opts[..n] == Encode(ReplyOptions(ip, mask, if verdict.Offer? then 2 else 5)) + [255]
    {
      hide ReplyOptions, Encode, OfferedSlot, AfterDiscover, Stamp, FindFrom;
      verdict, op, yiaddr, n := Ignore, DHCPOFFER, ip, 0;
      if len < DHCP_MIN_SIZE { return; }
      var msgType := OptFind(opts, OPT_MSG_TYPE);
      if msgType.None? { return; }
      var kind := opts[msgType.value + 2];
      if kind == DHCPDISCOVER {
        var yi := Discover(chaddr, clock);
        if yi == DHCPS_MAX_IP { return; }
        verdict := Offer(yi);
      } else if kind == DHCPREQUEST {
        var o := OptFind(opts, OPT_REQUESTED_IP);
        if o.None? { return; }
        if opts[o.value + 2..o.value + 5] != ip[..3] { return; }
        var yi := (opts[o.value + 5] - DHCPS_BASE_IP) % 256;
        if yi >= DHCPS_MAX_IP { return; }
        var granted := Request(yi, chaddr, clock[0]);
        if !granted { return; }
        verdict := Grant(yi);
      } else {
        return;
      }
      yiaddr := Address(ip, verdict.slot);
      n := BuildReply(opts, ip, mask, if verdict.Offer? then DHCPOFFER else DHCPACK);
    }
  }

  method BuildReply(opts: array<Byte>, ip: Ip4, mask: Ip4, kind: Byte) returns (n: nat)
    requires opts.Length == 314
    modifies opts
    ensures n <= 314 && opts[..n] == Encode(ReplyOptions(ip, mask, kind)) + [OPT_END]
  {
    hide ReplyOptions, Encode, BigEndian;
    n := OptWriteU8(opts, 0, OPT_MSG_TYPE, kind);
    n := OptWriteN(opts, n, OPT_SERVER_ID, ip);
    n := OptWriteN(opts, n, OPT_SUBNET_MASK, mask);
    n := OptWriteN(opts, n, OPT_ROUTER, ip);
    n := OptWriteN(opts, n, OPT_DNS, ip);
    n := OptWriteU32(opts, n, OPT_IP_LEASE_TIME, 24 * 60 * 60);
    opts[n] := OPT_END;
    n := n + 1;
    EncodedReply(ip, mask, kind);
  }

  lemma EncodedReply(ip: Ip4, mask: Ip4, kind: Byte)
    ensures Encode(ReplyOptions(ip, mask, kind)) ==
      [OPT_MSG_TYPE, 1, kind] + ([OPT_SERVER_ID, 4] + ip) + ([OPT_SUBNET_MASK, 4] + mask) + ([OPT_ROUTER, 4] + ip)
      + ([OPT_DNS, 4] + ip) + ([OPT_IP_LEASE_TIME, 4] + BigEndian(24 * 60 * 60))
  {
    hide Encode;
    var o := ReplyOptions(ip, mask, kind);
    EncodeSix(o[0], o[1], o[2], o[3], o[4], o[5]);
    assert o == [o[0], o[1], o[2], o[3], o[4], o[5]];
  }
}
