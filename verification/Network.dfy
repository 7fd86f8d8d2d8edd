/** One DHCP server and any number of clients on a network: no two clients ever hold the
    same address. */
module Network {
  import opened Basics
  import opened LeaseTable
  import Server = ServerSpec
  import opened ServerRuns
  import opened ClientSpec
  import opened ClientTimers

  // ---------------------------------------------------------------- the system

  /** A client; the messages it has sent and the server has not handled yet, oldest first;
      the transaction identifiers it has used, and those of the NAKs the server has sent it; and
      until when (in seconds of the server's clock) its last delivered ACK runs. */
  datatype Node = Node(client: Client, outbox: seq<Server.Request>, used: set<nat>, refused: set<nat>, until: int)

  /** The time is in milliseconds. */
  datatype System = System(now: int, table: Table, nodes: map<Mac, Node>)

  function Seconds(now: int): int {
    now / 1000
  }

  /** The packet an action puts on the wire for the server. */
  function ToServer(mac: Mac, a: Action): (r: seq<Server.Request>)
    ensures forall m :: m in r ==> m.mac == mac
  {
    match a
    case Discovered(xid, ip) =>
      var wish := if ip == 0 then None else Some(ip);
      [Server.Request(Server.BOOTREQUEST, Server.ETH_ALEN, Some(DHCPDISCOVER), None, wish, 0, mac, xid)]
    case Selected(xid, ip, server) =>
      [Server.Request(Server.BOOTREQUEST, Server.ETH_ALEN, Some(DHCPREQUEST), Some(server), Some(ip), 0, mac, xid)]
    case Renewed(xid, ip) =>
      [Server.Request(Server.BOOTREQUEST, Server.ETH_ALEN, Some(DHCPREQUEST), None, None, ip, mac, xid)]
    case Rebound(xid, ip) =>
      [Server.Request(Server.BOOTREQUEST, Server.ETH_ALEN, Some(DHCPREQUEST), None, None, ip, mac, xid)]
    case Freed(ip, server) =>
      [Server.Request(Server.BOOTREQUEST, Server.ETH_ALEN, Some(DHCPRELEASE), Some(server), None, ip, mac, 0)]
    case _ => []
  }

  function Outgoing(mac: Mac, acts: seq<Action>): seq<Server.Request> {
    if acts == [] then [] else ToServer(mac, acts[0]) + Outgoing(mac, acts[1..])
  }

  /** The messages a step of the client has sent. */
  function Sent(mac: Mac, c: Client, c': Client): seq<Server.Request> {
    if |c.log| <= |c'.log| then Outgoing(mac, c'.log[|c.log|..]) else []
  }

  /** The address a client holds: from the report of a lease to the report of its loss,
      or to a stop. */
  function Holding(log: seq<Action>): Option<Ip> {
    if log == [] then None
    else match log[|log| - 1]
      case LeaseAvailable(ip) => Some(ip)
      case LeaseLost => None
      case Stopped => None
      case _ => Holding(log[..|log| - 1])
  }

  /** The packet a client receives for the server's answer. */
  function ToClient(cfg: Config, r: Server.Reply): Packet
    requires r.Ack? || r.Nak?
  {
    match r
    case Ack(mac, xid, yiaddr, lease) => Packet(xid, 6, mac, Some(DHCPACK), cfg.serverNip, yiaddr, Some(lease))
    case Nak(mac, xid) => Packet(xid, 6, mac, Some(DHCPNAK), cfg.serverNip, 0, None)
  }

  datatype Happening =
    | Tick(ms: nat)
    | Local(mac: Mac, stimulus: Stimulus, env: Env)
    | Lose(mac: Mac, i: nat)
    | Serve(mac: Mac, delivered: bool, env: Env)
    | Refuse(mac: Mac, xid: nat, env: Env)

  /** What can happen.  Time passes no further than the next pending timer.  A client does
      anything its main loop allows, and may be given any packet that is not an ACK or a NAK
      at any time: offers may come late, twice, or from nowhere.  Messages to the server are
      lost or handled in the order they were sent.  An ACK arrives at once or not at all; a NAK
      that was sent may arrive at any time, any number of times.  A new transaction identifier
      has not been used before. */
  predicate Allowed(sys: System, ev: Happening) {
    match ev
    case Tick(ms) =>
      forall mac, id :: mac in sys.nodes && id in sys.nodes[mac].client.timers ==>
        sys.now + ms <= sys.nodes[mac].client.timers[id].at
    case Local(mac, s, env) =>
      && mac in sys.nodes && ProperEnv(sys.now, sys.nodes[mac], env)
      && LocalAllowed(sys.nodes[mac].client, s, env)
    case Lose(mac, i) => mac in sys.nodes && i < |sys.nodes[mac].outbox|
    case Serve(mac, _, env) =>
      mac in sys.nodes && sys.nodes[mac].outbox != [] && ProperEnv(sys.now, sys.nodes[mac], env)
    case Refuse(mac, xid, env) =>
      && mac in sys.nodes && xid in sys.nodes[mac].refused && ProperEnv(sys.now, sys.nodes[mac], env)
      && (sys.nodes[mac].client.listen == Listen2 || sys.nodes[mac].client.listen == Listen3)
  }

  predicate ProperEnv(now: int, n: Node, env: Env) {
    Proper(env) && env.now == now && env.xid !in n.used
  }

  predicate LocalAllowed(c: Client, s: Stimulus, env: Env) {
    && Enabled(c, s)
    && (s.Expire? ==> c.timers[s.id].at == env.now)
    && (s.Receive? ==> s.packet.messageType != Some(DHCPACK) && s.packet.messageType != Some(DHCPNAK))
  }

  function LocalNode(mac: Mac, n: Node, s: Stimulus, env: Env): Node
    requires Enabled(n.client, s)
  {
    var c' := Step(n.client, s, env);
    n.(client := c', outbox := n.outbox + Sent(mac, n.client, c'), used := n.used + {c'.xid})
  }

  /** The node after the server has handled its oldest message and, if it is acknowledged and
      the ACK arrives, the client has handled that. */
  function ServedNode(cfg: Config, now: int, mac: Mac, n: Node, r: Server.Reply, delivered: bool, env: Env): Node
    requires n.outbox != []
  {
    var n := n.(outbox := n.outbox[1..]);
    if r.Nak? then n.(refused := n.refused + {r.xid})
    else if delivered && r.Ack? && Enabled(n.client, Receive(ToClient(cfg, r))) then
      var n' := LocalNode(mac, n, Receive(ToClient(cfg, r)), env);
      if n'.client.log != n.client.log then n'.(until := Seconds(now) + r.lease) else n'
    else n
  }

  function Next(cfg: Config, sys: System, ev: Happening): System
    requires Allowed(sys, ev)
  {
    match ev
    case Tick(ms) => sys.(now := sys.now + ms)
    case Local(mac, s, env) => sys.(nodes := sys.nodes[mac := LocalNode(mac, sys.nodes[mac], s, env)])
    case Lose(mac, i) =>
      var n := sys.nodes[mac];
      sys.(nodes := sys.nodes[mac := n.(outbox := n.outbox[..i] + n.outbox[i + 1..])])
    case Serve(mac, delivered, env) =>
      var n := sys.nodes[mac];
      var (t', r) := Server.Step(cfg, sys.table, Seconds(sys.now), n.outbox[0]);
      System(sys.now, t', sys.nodes[mac := ServedNode(cfg, sys.now, mac, n, r, delivered, env)])
    case Refuse(mac, xid, env) =>
      var p := ToClient(cfg, Server.Nak(mac, xid));
      sys.(nodes := sys.nodes[mac := LocalNode(mac, sys.nodes[mac], Receive(p), env)])
  }

  /** New clients; a server with any leases loaded. */
  ghost predicate Init(cfg: Config, sys: System) {
    && WellFormed(cfg, sys.table)
    && forall mac :: mac in sys.nodes ==> sys.nodes[mac] == Node(New(mac), [], {0}, {}, 0)
  }

  // ---------------------------------------------------------------- the invariant

  predicate Accepting(p: Phase) {
    p == Requesting || p == Renewing || p == Rebinding
  }

  /** The client is waiting for an answer to a REQUEST or for its lease to run. */
  predicate Pending(c: Client) {
    && c.timeout in c.timers
    && var cb := c.timers[c.timeout].callback;
    cb == RequestTimeout || cb == RenewTimeout || cb == ReboundTimeout
  }

  predicate CurRequest(c: Client, m: Server.Request) {
    Server.PacketType(m) == DHCPREQUEST && m.xid == c.xid
  }

  function Asks(m: Server.Request): Ip {
    if Server.RequestedNip(m) == 0 then m.ciaddr else Server.RequestedNip(m)
  }

  predicate Asking(c: Client, m: Server.Request) {
    CurRequest(c, m) && Asks(m) == c.requestedIp
  }

  /** No REQUEST of this transaction is under way. */
  ghost predicate NoneAsked(c: Client, out: seq<Server.Request>) {
    forall i :: 0 <= i < |out| ==> !CurRequest(c, out[i])
  }

  /** The REQUESTs of this transaction come last, all for the address the client wants. */
  ghost predicate Tidy(c: Client, out: seq<Server.Request>) {
    forall i, j :: 0 <= i <= j < |out| && CurRequest(c, out[i]) ==> Asking(c, out[j])
  }

  /** Every REQUEST of this transaction will be refused. */
  ghost predicate Doomed(t: Table, c: Client, out: seq<Server.Request>) {
    && (forall i, j :: 0 <= i < j < |out| && CurRequest(c, out[j]) ==> Server.PacketType(out[i]) != DHCPDISCOVER)
    && (forall i :: 0 <= i < |out| && CurRequest(c, out[i]) ==> !LeaseIs(t, c.mac, Asks(out[i])))
  }

  predicate LeaseIs(t: Table, mac: Mac, nip: Ip) {
    FindByMac(t, mac).Some? && FindByMac(t, mac).value.nip == nip
  }

  /** The phase goes with the timer. */
  predicate InStep(c: Client) {
    c.timeout in c.timers ==>
      match c.timers[c.timeout].callback
      case RequestTimeout => c.phase == Requesting
      case RenewTimeout => c.phase == Bound || c.phase == Renewing
      case ReboundTimeout => c.phase == Rebinding
      case RestartTimeout => Accepting(c.phase)
      case _ => true
  }

  /** The seconds from a due lease timer to the loss of the lease if nobody answers; `l` is the
      lease counter before the timer fires, and `renewing` tells the two lease timers apart. */
  function Tail(l: nat, renewing: bool): nat
    decreases l, renewing
  {
    var h := l / 2;
    if renewing then h / 2 + Tail(h, h > 60)
    else if h <= 6 then 0
    else h / 2 + Tail(h, false)
  }

  /** The seconds from an ACK to the loss of its lease if nobody answers. */
  function HoldTime(l: nat): nat {
    l / 2 + Tail(l, true)
  }

  /** A client that holds `x` will give it up before the server's lease has expired. */
  ghost predicate Keeping(cfg: Config, now: int, t: Table, n: Node, x: Ip) {
    var c := n.client;
    && Pending(c) && c.phase != Requesting && c.requestedIp == x && c.listen != ListenArp
    && (forall i :: 0 <= i < |n.outbox| ==> Asking(c, n.outbox[i]))
    && Held(t, c.mac, x, n.until) && n.until <= Seconds(now) + cfg.leaseSeconds
    && var timer := c.timers[c.timeout];
    timer.at + 1000 * Tail(c.leaseSeconds, timer.callback == RenewTimeout) < 1000 * (n.until + 1)
  }

  ghost predicate Basic(now: int, mac: Mac, n: Node) {
    var c := n.client;
    && c.mac == mac && SingleTimer(c) && InStep(c) && c.xid in n.used
    && (forall id :: id in c.timers ==> now <= c.timers[id].at)
    && (forall i :: 0 <= i < |n.outbox| ==> n.outbox[i].mac == mac)
    && (forall i :: 0 <= i < |n.outbox| && Server.PacketType(n.outbox[i]) == DHCPREQUEST ==> n.outbox[i].xid in n.used)
  }

  ghost predicate Orderly(t: Table, n: Node) {
    var c := n.client;
    && (Selecting(c) ==> NoneAsked(c, n.outbox))
    && (Pending(c) ==> Tidy(c, n.outbox))
    && (Accepting(c.phase) && !Pending(c) ==> Doomed(t, c, n.outbox))
  }

  predicate Selecting(c: Client) {
    c.phase == InitSelecting && (c.listen == Listen2 || c.listen == Listen3)
  }

  ghost predicate NoDiscover(out: seq<Server.Request>) {
    forall i :: 0 <= i < |out| ==> Server.PacketType(out[i]) != DHCPDISCOVER
  }

  /** A transaction that has been refused once comes to nothing: the client holds no address and
      looks for no offer, and if it still waits for an answer there is no lease to be had and no
      DISCOVER on the way that would bring one about. */
  ghost predicate Futile(t: Table, c: Client, out: seq<Server.Request>) {
    && Holding(c.log).None? && !Selecting(c)
    && (Pending(c) ==> NoDiscover(out) && !LeaseIs(t, c.mac, c.requestedIp))
  }

  ghost predicate Spent(t: Table, n: Node) {
    n.refused <= n.used && (n.client.xid in n.refused ==> Futile(t, n.client, n.outbox))
  }

  ghost predicate NodeOk(cfg: Config, now: int, t: Table, mac: Mac, n: Node) {
    && Basic(now, mac, n)
    && Orderly(t, n)
    && Spent(t, n)
    && (Holding(n.client.log).Some? ==> Keeping(cfg, now, t, n, Holding(n.client.log).value))
  }

  ghost predicate SystemOk(cfg: Config, sys: System) {
    && WellFormed(cfg, sys.table)
    && forall mac :: mac in sys.nodes ==> NodeOk(cfg, sys.now, sys.table, mac, sys.nodes[mac])
  }
}
