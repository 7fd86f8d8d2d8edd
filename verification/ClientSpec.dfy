/** The DHCP and IPv4 link-local client of gdhcp/client.c as a function on values:
    every callback of the main loop is one step from a client state to the next. */
module ClientSpec {
  import opened Basics

  const DISCOVER_TIMEOUT := 3
  const DISCOVER_RETRIES: Byte := 10
  const REQUEST_TIMEOUT := 3
  const REQUEST_RETRIES: Byte := 5
  const RESTART_TIMEOUT := 3

  const PROBE_MIN := 1
  const PROBE_NUM: Byte := 3
  const ANNOUNCE_WAIT := 2
  const ANNOUNCE_NUM: Byte := 2
  const ANNOUNCE_INTERVAL := 2
  const MAX_CONFLICTS: Byte := 10
  const DEFEND_INTERVAL := 10

  const LINKLOCAL_ADDR: Ip := 0xa9fe0000

  const ARPOP_REQUEST := 1
  const ARPOP_REPLY := 2

  datatype Phase =
    | InitSelecting | Requesting | Bound | Renewing | Rebinding | Released
    | Probe | Announce | Monitor | Defend

  datatype ListenMode = ListenNone | Listen2 | Listen3 | ListenArp

  /** The callbacks a timer can be armed with. */
  datatype Callback =
    | DiscoverTimeout | RequestTimeout | RestartTimeout
    | RenewTimeout | ReboundTimeout
    | SendProbePacket | ProbeTimeout | AnnounceTimeout | DefendTimeout

  /** A timer of the main loop and the millisecond it is due at. */
  datatype Timer = Timer(callback: Callback, at: int)

  /** What the client does to the outside: packets sent, events reported, and the points
      at which it picks a link-local address and handles a conflict. */
  datatype Action =
    | Discovered(xid: nat, requested: Ip)
    | Selected(xid: nat, ip: Ip, server: Ip)
    | Renewed(xid: nat, ip: Ip)
    | Rebound(xid: nat, ip: Ip)
    | Freed(ip: Ip, server: Ip)
    | Picked(ip: Ip)
    | Probed(ip: Ip)
    | Announced(ip: Ip)
    | Conflict
    | LeaseAvailable(ip: Ip)
    | LeaseLost
    | LinkLocalAvailable(ip: Ip)
    | LinkLocalLost
    | NoLease
    | Stopped

  datatype Client = Client(
    mac: Mac,
    phase: Phase,
    linkLocal: bool,
    xid: nat,
    serverIp: Ip,
    requestedIp: Ip,
    assignedIp: Option<Ip>,
    lastAddress: Option<Ip>,
    leaseSeconds: nat,
    listen: ListenMode,
    retryTimes: Byte,
    ackRetryTimes: Byte,
    conflicts: Byte,
    timeout: nat,
    timers: map<nat, Timer>,
    nextId: nat,
    log: seq<Action>)

  /** What a callback takes from outside: the time in milliseconds, and the values the
      random number generator would give it. */
  datatype Env = Env(now: int, xid: nat, ip: Ip, delay: nat)

  /** The parts of a received DHCP packet the client looks at. */
  datatype Packet = Packet(
    xid: nat, hlen: Byte, mac: Mac, messageType: Option<Byte>,
    serverId: Ip, yiaddr: Ip, leaseTime: Option<U32>)

  datatype Arp = Arp(op: nat, source: Ip, target: Ip)

  /** `g_dhcp_client_new`. */
  function New(mac: Mac): Client {
    Client(mac, InitSelecting, false, 0, 0, 0, None, None, 0, ListenNone, 0, 0, 0, 0, map[], 1, [])
  }

  // ---------------------------------------------------------------- timers and log

  /** `g_timeout_add...` into the `timeout` field. */
  function Arm(c: Client, callback: Callback, at: int): Client {
    c.(timers := c.timers[c.nextId := Timer(callback, at)], timeout := c.nextId, nextId := c.nextId + 1)
  }

  /** `g_source_remove(timeout)`, leaving the field as it is. */
  function Cancel(c: Client): Client {
    c.(timers := c.timers - {c.timeout})
  }

  function Disarm(c: Client): Client {
    Cancel(c).(timeout := 0)
  }

  function Log(c: Client, a: Action): Client {
    c.(log := c.log + [a])
  }

  // ---------------------------------------------------------------- link-local addresses

  /** 169.254.1.0 to 169.254.254.255. */
  predicate InLinkLocal(ip: Ip) {
    LINKLOCAL_ADDR + 0x0100 <= ip <= LINKLOCAL_ADDR + 0xfeff
  }

  function SendProbe(c: Client, env: Env): Client {
    var c := if c.requestedIp == 0 then Log(c.(requestedIp := env.ip), Picked(env.ip)) else c;
    var c := if c.retryTimes == 1 then c.(phase := Probe, listen := ListenArp) else c;
    var c := Log(c, Probed(c.requestedIp));
    var delay := if c.retryTimes < PROBE_NUM then env.delay + PROBE_MIN * 1000 else ANNOUNCE_WAIT * 1000;
    Arm(c, ProbeTimeout, env.now + delay)
  }

  function SendAnnounce(c: Client, env: Env): Client {
    var c := Disarm(Log(c, Announced(c.requestedIp)));
    if c.phase == Defend
    then Arm(c, DefendTimeout, env.now + DEFEND_INTERVAL * 1000)
    else Arm(c, AnnounceTimeout, env.now + ANNOUNCE_INTERVAL * 1000)
  }

  function LinkLocalStart(c: Client, env: Env): Client {
    var c := Disarm(c).(listen := ListenNone, linkLocal := true, requestedIp := env.ip, retryTimes := 1);
    Arm(Log(c, Picked(env.ip)), SendProbePacket, env.now + env.delay)
  }

  function LinkLocalStop(c: Client): Client {
    Cancel(c.(listen := ListenNone)).(phase := Probe, retryTimes := 0, requestedIp := 0, assignedIp := None)
  }

  /** Another claim on the address: restart with a new one, or give up. */
  function Yield(c: Client, env: Env): Client {
    var c := LinkLocalStop(c);
    if c.conflicts < MAX_CONFLICTS
    then Arm(c.(retryTimes := 1), SendProbePacket, env.now + env.delay)
    else Log(c, NoLease)
  }

  predicate Conflicting(c: Client, a: Arp) {
    (a.op == ARPOP_REPLY || a.op == ARPOP_REQUEST) && (a.source == c.requestedIp || a.target == c.requestedIp)
  }

  /** `ipv4ll_recv_arp_packet`. */
  function OnArp(c: Client, env: Env, a: Arp): Client {
    if !Conflicting(c, a) then c
    else
      var source := a.source == c.requestedIp;
      var c := Log(c.(conflicts := Inc8(c.conflicts)), Conflict);
      if c.phase == Monitor then
        if source then SendAnnounce(c.(phase := Defend), env) else c
      else if c.phase == Defend then
        if source then Yield(Log(c, LinkLocalLost), env) else c
      else Yield(c, env)
  }

  function OnProbeTimeout(c: Client, env: Env): Client {
    if c.retryTimes == PROBE_NUM
    then SendAnnounce(c.(phase := Announce, retryTimes := 1), env)
    else SendProbe(c.(retryTimes := Inc8(c.retryTimes)), env)
  }

  function OnAnnounceTimeout(c: Client, env: Env): Client {
    if c.retryTimes != ANNOUNCE_NUM
    then SendAnnounce(c.(retryTimes := Inc8(c.retryTimes)), env)
    else Log(c.(phase := Monitor, assignedIp := Some(c.requestedIp), conflicts := 0), LinkLocalAvailable(c.requestedIp))
  }

  // ---------------------------------------------------------------- DHCP

  function StartRequest(c: Client, env: Env): Client {
    if c.retryTimes == REQUEST_RETRIES then LinkLocalStart(c.(phase := InitSelecting), env)
    else
      var c := if c.retryTimes == 0 then c.(phase := Requesting, listen := Listen2) else c;
      Arm(Log(c, Selected(c.xid, c.requestedIp, c.serverIp)), RequestTimeout, env.now + REQUEST_TIMEOUT * 1000)
  }

  /** The lease time a client takes from an ACK: 3600 if it says none, else its low 28
      bits, but at least 10. */
  function LeaseOf(leaseTime: Option<U32>): (r: nat)
    ensures 10 <= r < 0x1000_0000
  {
    match leaseTime
    case None => 3600
    case Some(l) => if l % 0x1000_0000 < 10 then 10 else l % 0x1000_0000
  }

  /** `g_dhcp_client_start`; sockets are taken to open. */
  function Start(c: Client, env: Env, lastAddress: Option<Ip>): Client {
    if c.retryTimes == DISCOVER_RETRIES then LinkLocalStart(c, env)
    else
      var c := if c.retryTimes == 0
               then c.(assignedIp := None, phase := InitSelecting, listen := Listen2, xid := env.xid) else c;
      var named := lastAddress.Some? && lastAddress.value != 0xffff_ffff;
      var c := if named then c.(lastAddress := lastAddress) else c;
      var addr := if named then lastAddress.value else 0;
      Arm(Log(c, Discovered(c.xid, addr)), DiscoverTimeout, env.now + DISCOVER_TIMEOUT * 1000)
  }

  function Restart(c: Client, env: Env, retryTimes: Byte): Client {
    var c := Disarm(c).(retryTimes := retryTimes, requestedIp := 0, listen := Listen2);
    Start(c, env, c.lastAddress)
  }

  function StartBound(c: Client, env: Env): Client {
    var c := Cancel(c.(phase := Bound));
    Arm(c, RenewTimeout, env.now + c.leaseSeconds / 2 * 1000)
  }

  function OnRenewTimeout(c: Client, env: Env): Client {
    var c := c.(phase := Renewing, leaseSeconds := c.leaseSeconds / 2, listen := Listen3);
    if c.leaseSeconds <= 60
    then Arm(c.(phase := Rebinding), ReboundTimeout, env.now + c.leaseSeconds / 2 * 1000)
    else Arm(Cancel(Log(c, Renewed(c.xid, c.requestedIp))), RenewTimeout, env.now + c.leaseSeconds / 2 * 1000)
  }

  function OnReboundTimeout(c: Client, env: Env): Client {
    var c := c.(listen := Listen2, leaseSeconds := c.leaseSeconds / 2);
    if c.leaseSeconds <= 6
    then Restart(Log(c, LeaseLost), env, 0)
    else Arm(Log(c, Rebound(c.xid, c.requestedIp)), ReboundTimeout, env.now + c.leaseSeconds / 2 * 1000)
  }

  predicate Owned(c: Client, p: Packet) {
    p.xid == c.xid && p.hlen == 6 && p.mac == c.mac && p.messageType.Some?
  }

  function OnAck(c: Client, env: Env, p: Packet): Client {
    var c := Disarm(c.(retryTimes := 0)).(leaseSeconds := LeaseOf(p.leaseTime), listen := ListenNone,
        assignedIp := Some(p.yiaddr));
    StartBound(Log(c, LeaseAvailable(p.yiaddr)), env)
  }

  function OnNak(c: Client, env: Env): Client {
    Arm(Cancel(c.(retryTimes := 0)), RestartTimeout, env.now + RESTART_TIMEOUT * 1000)
  }

  function OnOffer(c: Client, env: Env, p: Packet): Client {
    var c := Disarm(c).(retryTimes := 0, serverIp := p.serverId, requestedIp := p.yiaddr, phase := Requesting);
    StartRequest(c, env)
  }

  /** The packet half of `listener_event`. */
  function OnPacket(c: Client, env: Env, p: Packet): Client {
    if !Owned(c, p) then c
    else
      var ty := p.messageType.value;
      match c.phase
      case InitSelecting => if ty == DHCPOFFER then OnOffer(c, env, p) else c
      case Requesting | Renewing | Rebinding =>
        if ty == DHCPACK then OnAck(c, env, p) else if ty == DHCPNAK then OnNak(c, env) else c
      case _ => c
  }

  /** `g_dhcp_client_stop`. */
  function Stop(c: Client): Client {
    var c := c.(listen := ListenNone);
    var c := if c.phase == Bound || c.phase == Renewing || c.phase == Rebinding
             then Log(c, Freed(c.requestedIp, c.serverIp)) else c;
    Log(Disarm(c), Stopped).(retryTimes := 0, ackRetryTimes := 0, requestedIp := 0, phase := Released,
        leaseSeconds := 0)
  }

  // ---------------------------------------------------------------- steps

  function RunCallback(c: Client, env: Env, callback: Callback): Client {
    match callback
    case DiscoverTimeout => Start(c.(retryTimes := Inc8(c.retryTimes)), env, None)
    case RequestTimeout => StartRequest(c.(retryTimes := Inc8(c.retryTimes)), env)
    case RestartTimeout => Restart(c.(ackRetryTimes := Inc8(c.ackRetryTimes)), env, Inc8(c.ackRetryTimes))
    case RenewTimeout => OnRenewTimeout(c, env)
    case ReboundTimeout => OnReboundTimeout(c, env)
    case SendProbePacket => SendProbe(c, env)
    case ProbeTimeout => OnProbeTimeout(c, env)
    case AnnounceTimeout => OnAnnounceTimeout(c, env)
    case DefendTimeout => c.(conflicts := 0, phase := Monitor)
  }

  /** Dispatch of a due timer: no callback asks to be called again, so that the main loop
      drops the timer when the callback returns. */
  function Fire(c: Client, env: Env, id: nat): Client
    requires id in c.timers
  {
    var c := RunCallback(c, env, c.timers[id].callback);
    c.(timers := c.timers - {id})
  }

  datatype Stimulus =
    | DoStart(lastAddress: Option<Ip>)
    | DoStop
    | Expire(id: nat)
    | Receive(packet: Packet)
    | Hear(arp: Arp)

  /** When the main loop or the application may invoke a callback: a start only while no
      timer is pending, packets only on an open listener of their kind. */
  predicate Enabled(c: Client, s: Stimulus) {
    match s
    case DoStart(_) => c.timers == map[]
    case DoStop => true
    case Expire(id) => id in c.timers
    case Receive(_) => c.listen == Listen2 || c.listen == Listen3
    case Hear(_) => c.listen == ListenArp
  }

  /** Addresses come from `ipv4ll_random_ip`. */
  predicate Proper(env: Env) {
    InLinkLocal(env.ip)
  }

  function Step(c: Client, s: Stimulus, env: Env): Client
    requires Enabled(c, s)
  {
    match s
    case DoStart(last) => Start(c, env, last)
    case DoStop => Stop(c)
    case Expire(id) => Fire(c, env, id)
    case Receive(p) => OnPacket(c, env, p)
    case Hear(a) => OnArp(c, env, a)
  }

  // ---------------------------------------------------------------- runs

  datatype Move = Move(stimulus: Stimulus, env: Env)

  ghost predicate Legal(c: Client, ms: seq<Move>)
    decreases |ms|
  {
    ms == [] ||
    (Enabled(c, ms[0].stimulus) && Proper(ms[0].env) && Legal(Step(c, ms[0].stimulus, ms[0].env), ms[1..]))
  }

  function After(c: Client, ms: seq<Move>): Client
    requires Legal(c, ms)
    decreases |ms|
  {
    if ms == [] then c else After(Step(c, ms[0].stimulus, ms[0].env), ms[1..])
  }
}
