/** The lease time from which on addresses are exclusive: runs of the composed system in which
    clients do come to hold addresses, and two of them the same one for shorter leases. */
module NetworkBound {
  import opened Basics
  import opened LeaseTable
  import Server = ServerSpec
  import opened ServerRuns
  import opened ClientSpec
  import opened ClientTimers
  import opened Network
  import opened NetworkSteps
  import opened NetworkSafety

  const ANY_IP: Ip := LINKLOCAL_ADDR + 0x0100

  lemma RunOne(cfg: Config, sys: System, e: Happening, evs: seq<Happening>)
    requires Allowed(sys, e) && Run(cfg, Next(cfg, sys, e), evs)
    ensures Run(cfg, sys, [e] + evs) && Reached(cfg, sys, [e] + evs) == Reached(cfg, Next(cfg, sys, e), evs)
  {
    hide Next, Allowed;
    assert ([e] + evs)[1..] == evs;
  }

  lemma {:induction false} RunJoin(cfg: Config, sys: System, a: seq<Happening>, b: seq<Happening>)
    requires Run(cfg, sys, a) && Run(cfg, Reached(cfg, sys, a), b)
    ensures Run(cfg, sys, a + b) && Reached(cfg, sys, a + b) == Reached(cfg, Reached(cfg, sys, a), b)
    decreases |a|
  {
    hide Next, Allowed;
    if a == [] {
      assert a + b == b;
    } else {
      RunJoin(cfg, Next(cfg, sys, a[0]), a[1..], b);
      RunOne(cfg, sys, a[0], a[1..] + b);
      assert a + b == [a[0]] + (a[1..] + b);
    }
  }

  // ---------------------------------------------------------------- a client comes to hold an address

  /** Time and all nodes but that of `mac` are as they were. */
  ghost predicate Alone(sys: System, mac: Mac, sys': System) {
    && sys'.now == sys.now && mac in sys'.nodes && sys'.nodes.Keys == sys.nodes.Keys
    && forall m :: m in sys.nodes && m != mac ==> sys'.nodes[m] == sys.nodes[m]
  }

  /** The client has asked for `x` and waits for an answer. */
  ghost predicate Asked(mac: Mac, n: Node, out: seq<Server.Request>, x: Ip, phase: Phase) {
    && n.client.mac == mac && n.client.xid == 1 && n.client.phase == phase && n.client.listen == Listen2
    && SingleTimer(n.client) && n.outbox == out && n.used == {0, 1}
    && (phase == Requesting ==> n.client.requestedIp == x)
  }

  /** The client has got `x` for `l` seconds at `now`. */
  ghost predicate Got(mac: Mac, n: Node, now: int, x: Ip, l: nat) {
    var c := n.client;
    && c.mac == mac && c.xid == 1 && c.phase == Bound && c.leaseSeconds == l && Holding(c.log) == Some(x)
    && SingleTimer(c) && c.timeout in c.timers && c.timers[c.timeout] == Timer(RenewTimeout, now + l / 2 * 1000)
    && n.used == {0, 1}
  }

  function Query(mac: Mac, x: Ip): Server.Request {
    var wish := if x == 0 then None else Some(x);
    Server.Request(Server.BOOTREQUEST, Server.ETH_ALEN, Some(DHCPDISCOVER), None, wish, 0, mac, 1)
  }

  function Claimed(cfg: Config, mac: Mac, x: Ip): Server.Request {
    Server.Request(Server.BOOTREQUEST, Server.ETH_ALEN, Some(DHCPREQUEST), Some(cfg.serverNip), Some(x), 0, mac, 1)
  }

  function Idle(mac: Mac): Node {
    Node(New(mac), [], {0}, {}, 0)
  }

  /** The table after `mac` has been given `x` until `until`. */
  ghost predicate Given(t: Table, mac: Mac, x: Ip, until: int, t': Table) {
    forall e :: e in t' <==> e == Entry(until, x, mac) || (e in t && e.nip != x && e.mac != mac)
  }

  lemma Discovers(cfg: Config, mac: Mac, x: Ip, sys: System, e: Happening)
    requires mac in sys.nodes && sys.nodes[mac] == Idle(mac) && x != 0 && x != 0xffff_ffff
    requires e == Local(mac, DoStart(Some(x)), Env(sys.now, 1, ANY_IP, 0))
    ensures Allowed(sys, e)
    ensures var s := Next(cfg, sys, e);
            Alone(sys, mac, s) && Asked(mac, s.nodes[mac], [Query(mac, x)], x, InitSelecting) && s.table == sys.table
  {
    var c := New(mac);
    var c' := Start(c, e.env, Some(x));
    assert c'.log == c.log + [Discovered(1, x)];
    SentOne(mac, c, c', Discovered(1, x));
    StepSingle(c, e.stimulus, e.env);
    assert [] + [Query(mac, x)] == [Query(mac, x)];
  }

  lemma Offers(cfg: Config, mac: Mac, x: Ip, sys: System, e: Happening)
    requires mac in sys.nodes && Asked(mac, sys.nodes[mac], [Query(mac, x)], x, InitSelecting)
    requires WellFormed(cfg, sys.table) && Leasable(cfg, x, mac) && FindByMac(sys.table, mac).None?
    requires RequestedOk(cfg, sys.table, Seconds(sys.now), x) && x != 0
    requires e == Serve(mac, false, Env(sys.now, 2, ANY_IP, 0))
    ensures Allowed(sys, e)
    ensures var s := Next(cfg, sys, e);
            && Alone(sys, mac, s) && Asked(mac, s.nodes[mac], [], x, InitSelecting)
            && WellFormed(cfg, s.table) && Given(sys.table, mac, x, Server.OFFER_TIME, s.table)
  {
    hide Asked, Server.Step, WellFormed, Given, RequestedOk;
    OfferTable(cfg, sys.table, Seconds(sys.now), mac, x);
    Popped(mac, sys.nodes[mac], x);
    assert [Query(mac, x)][1..] == [];
  }

  lemma OfferTable(cfg: Config, t: Table, now: int, mac: Mac, x: Ip)
    requires WellFormed(cfg, t) && Leasable(cfg, x, mac) && FindByMac(t, mac).None? && RequestedOk(cfg, t, now, x) &&
        x != 0
    ensures
      var (t', r) := Server.Step(cfg, t, now, Query(mac, x));
      r.Offer? && WellFormed(cfg, t') && Given(t, mac, x, Server.OFFER_TIME, t')
  {
    hide AddLease, WellFormed, FindFreeOrExpired, RequestedOk;
    assert Server.OfferAddress(cfg, t, now, Query(mac, x)) == x;
    AddLeaseKeeps(cfg, t, now, Server.OFFER_TIME, mac, x);
  }

  lemma AckTable(cfg: Config, t: Table, now: int, mac: Mac, x: Ip)
    requires WellFormed(cfg, t) && LeaseIs(t, mac, x) && Leasable(cfg, x, mac) && x != 0
    ensures
      var (t', r) := Server.Step(cfg, t, now, Claimed(cfg, mac, x));
      r == Server.Ack(mac, 1, x, cfg.leaseSeconds) && WellFormed(cfg, t') &&
          Given(t, mac, x, now + cfg.leaseSeconds, t')
  {
    hide AddLease, WellFormed;
    AddLeaseKeeps(cfg, t, now, 0, mac, x);
  }

  lemma Popped(mac: Mac, n: Node, x: Ip)
    requires Asked(mac, n, [Query(mac, x)], x, InitSelecting)
    ensures Asked(mac, n.(outbox := []), [], x, InitSelecting) && n.outbox == [Query(mac, x)] && n.used == {0, 1}
  {
  }

  lemma Selects(cfg: Config, mac: Mac, x: Ip, sys: System, e: Happening)
    requires mac in sys.nodes && Asked(mac, sys.nodes[mac], [], x, InitSelecting)
    requires e == Local(mac, Receive(Packet(1, 6, mac, Some(DHCPOFFER), cfg.serverNip, x, None)),
        Env(sys.now, 3, ANY_IP, 0))
    ensures Allowed(sys, e)
    ensures var s := Next(cfg, sys, e);
            Alone(sys, mac, s) && Asked(mac, s.nodes[mac], [Claimed(cfg, mac, x)], x, Requesting) &&
                s.table == sys.table
  {
    var c := sys.nodes[mac].client;
    var c' := OnOffer(c, e.env, e.stimulus.packet);
    assert c'.log == c.log + [Selected(1, x, cfg.serverNip)];
    SentOne(mac, c, c', Selected(1, x, cfg.serverNip));
    StepSingle(c, e.stimulus, e.env);
    assert [] + [Claimed(cfg, mac, x)] == [Claimed(cfg, mac, x)];
  }

  lemma Acknowledges(cfg: Config, mac: Mac, x: Ip, sys: System, e: Happening)
    requires mac in sys.nodes && Asked(mac, sys.nodes[mac], [Claimed(cfg, mac, x)], x, Requesting) && x != 0
    requires WellFormed(cfg, sys.table) && LeaseIs(sys.table, mac, x) && Leasable(cfg, x, mac)
    requires e == Serve(mac, true, Env(sys.now, 4, ANY_IP, 0))
    ensures Allowed(sys, e)
    ensures var s := Next(cfg, sys, e);
            && Alone(sys, mac, s) && Got(mac, s.nodes[mac], sys.now, x, LeaseOf(Some(cfg.leaseSeconds)))
            && WellFormed(cfg, s.table) && Given(sys.table, mac, x, Seconds(sys.now) + cfg.leaseSeconds, s.table)
  {
    hide Got, Server.Step, WellFormed, Given, LeaseIs, Enabled;
    AckTable(cfg, sys.table, Seconds(sys.now), mac, x);
    GotIt(cfg, mac, x, sys, e.env);
  }

  lemma GotIt(cfg: Config, mac: Mac, x: Ip, sys: System, env: Env)
    requires mac in sys.nodes && Asked(mac, sys.nodes[mac], [Claimed(cfg, mac, x)], x, Requesting)
    requires env == Env(sys.now, 4, ANY_IP, 0)
    ensures
      var n := sys.nodes[mac];
      var r := Server.Ack(mac, 1, x, cfg.leaseSeconds);
      Enabled(n.client, Receive(ToClient(cfg, r))) &&
      Got(mac, ServedNode(cfg, sys.now, mac, n, r, true, env), sys.now, x, LeaseOf(Some(cfg.leaseSeconds)))
  {
    var n := sys.nodes[mac];
    var c := n.client;
    var p := ToClient(cfg, Server.Ack(mac, 1, x, cfg.leaseSeconds));
    assert OnPacket(c, env, p) == OnAck(c, env, p);
    AckTimers(c, env, p);
    HoldingAdd(c.log, LeaseAvailable(x));
  }

  /** The exchange of DISCOVER, OFFER, REQUEST and ACK: whatever else there is, an idle client
      without a lease that asks for a free or expired address comes to hold it. */
  lemma Acquire(cfg: Config, mac: Mac, x: Ip, sys: System) returns (evs: seq<Happening>)
    requires mac in sys.nodes && sys.nodes[mac] == Idle(mac) && Leasable(cfg, x, mac) && x != 0 && x != 0xffff_ffff
    requires WellFormed(cfg, sys.table) && FindByMac(sys.table, mac).None? &&
        RequestedOk(cfg, sys.table, Seconds(sys.now), x)
    ensures Run(cfg, sys, evs)
    ensures
      var s := Reached(cfg, sys, evs);
      && Alone(sys, mac, s) && Got(mac, s.nodes[mac], sys.now, x, LeaseOf(Some(cfg.leaseSeconds)))
      && WellFormed(cfg, s.table) && Given(sys.table, mac, x, Seconds(sys.now) + cfg.leaseSeconds, s.table)
  {
    hide Next, Allowed, Asked, Got, WellFormed;
    var e1 := Local(mac, DoStart(Some(x)), Env(sys.now, 1, ANY_IP, 0));
    Discovers(cfg, mac, x, sys, e1);
    var s1 := Next(cfg, sys, e1);
    var e2 := Serve(mac, false, Env(sys.now, 2, ANY_IP, 0));
    Offers(cfg, mac, x, s1, e2);
    var s2 := Next(cfg, s1, e2);
    var e3 := Local(mac, Receive(Packet(1, 6, mac, Some(DHCPOFFER), cfg.serverNip, x, None)),
        Env(sys.now, 3, ANY_IP, 0));
    Selects(cfg, mac, x, s2, e3);
    var s3 := Next(cfg, s2, e3);
    var e4 := Serve(mac, true, Env(sys.now, 4, ANY_IP, 0));
    assert LeaseIs(s3.table, mac, x) by { GivenIs(cfg, sys.table, mac, x, Server.OFFER_TIME, s3.table); }
    Acknowledges(cfg, mac, x, s3, e4);
    evs := [e1] + ([e2] + ([e3] + ([e4] + [])));
    RunOne(cfg, s3, e4, []);
    RunOne(cfg, s2, e3, [e4] + []);
    RunOne(cfg, s1, e2, [e3] + ([e4] + []));
    RunOne(cfg, sys, e1, [e2] + ([e3] + ([e4] + [])));
  }

  lemma GivenIs(cfg: Config, t: Table, mac: Mac, x: Ip, until: int, t': Table)
    requires WellFormed(cfg, t') && Given(t, mac, x, until, t')
    ensures LeaseIs(t', mac, x)
  {
    FindsMac(t', Entry(until, x, mac));
  }

  /** A client that asks for a free address comes to hold it. */
  lemma ClientCanHold(cfg: Config, mac: Mac, x: Ip) returns (evs: seq<Happening>)
    requires Leasable(cfg, x, mac) && x != 0xffff_ffff
    ensures
      var sys := System(1000, [], map[mac := Idle(mac)]);
      && Init(cfg, sys) && Run(cfg, sys, evs)
      && mac in Reached(cfg, sys, evs).nodes
      && Holding(Reached(cfg, sys, evs).nodes[mac].client.log) == Some(x)
  {
    hide Next, Allowed;
    evs := Acquire(cfg, mac, x, System(1000, [], map[mac := Idle(mac)]));
  }

  // ---------------------------------------------------------------- leases below seven seconds

  /** The client is rebinding and will lose `x` two seconds after `now`. */
  ghost predicate Late(n: Node, now: int, x: Ip) {
    var c := n.client;
    && Holding(c.log) == Some(x) && SingleTimer(c)
    && c.timeout in c.timers && c.timers[c.timeout] == Timer(ReboundTimeout, now + 2000)
  }

  /** Five seconds after an ACK for less than ten seconds the client does not ask anybody, and
      goes on for another two. */
  lemma Rebinds(cfg: Config, mac: Mac, x: Ip, sys: System, now: int, e: Happening)
    requires mac in sys.nodes && Got(mac, sys.nodes[mac], now, x, 10) && sys.now == now + 5000
    requires e == Local(mac, Expire(sys.nodes[mac].client.timeout), Env(sys.now, 5, ANY_IP, 0))
    ensures Allowed(sys, e)
    ensures var s := Next(cfg, sys, e);
            Alone(sys, mac, s) && Late(s.nodes[mac], sys.now, x) && s.table == sys.table
  {
    var c := sys.nodes[mac].client;
    var c' := Fire(c, e.env, c.timeout);
    StepSingle(c, e.stimulus, e.env);
    assert c'.log == c.log;
  }

  /** Time passes until the one pending timer at most. */
  lemma Passes(cfg: Config, mac: Mac, other: Mac, sys: System, ms: nat)
    requires sys.nodes.Keys == {mac, other} && sys.nodes[other] == Idle(other) && SingleTimer(sys.nodes[mac].client)
    requires var c := sys.nodes[mac].client; c.timeout in c.timers && sys.now + ms <= c.timers[c.timeout].at
    ensures Allowed(sys, Tick(ms)) && Next(cfg, sys, Tick(ms)) == sys.(now := sys.now + ms)
  {
    assert forall m :: m in sys.nodes ==> m in sys.nodes.Keys;
  }

  /** The run up to the moment at which the server's lease has expired and the client still holds
      the address. */
  lemma Outlives(cfg: Config, a: Mac, b: Mac, x: Ip, sys: System) returns (evs: seq<Happening>)
    requires sys.nodes.Keys == {a, b} && a != b && sys.nodes[b] == Idle(b)
    requires Got(a, sys.nodes[a], sys.now, x, 10)
    ensures Run(cfg, sys, evs)
    ensures
      var s := Reached(cfg, sys, evs);
      && s.now == sys.now + 6001 && s.table == sys.table && s.nodes.Keys == {a, b}
      && s.nodes[b] == Idle(b) && Late(s.nodes[a], sys.now + 5000, x)
  {
    hide Next, Allowed;
    Passes(cfg, a, b, sys, 5000);
    var s1 := Next(cfg, sys, Tick(5000));
    var e := Local(a, Expire(sys.nodes[a].client.timeout), Env(s1.now, 5, ANY_IP, 0));
    Rebinds(cfg, a, x, s1, sys.now, e);
    var s2 := Next(cfg, s1, e);
    Passes(cfg, a, b, s2, 1001);
    evs := [Tick(5000)] + ([e] + ([Tick(1001)] + []));
    RunOne(cfg, s2, Tick(1001), []);
    RunOne(cfg, s1, e, [Tick(1001)] + []);
    RunOne(cfg, sys, Tick(5000), [e] + ([Tick(1001)] + []));
  }

  /** With leases of less than seven seconds two clients can come to hold the same address. */
  lemma ShortLeaseShared(cfg: Config, a: Mac, b: Mac, x: Ip) returns (evs: seq<Happening>)
    requires Leasable(cfg, x, a) && Leasable(cfg, x, b) && a != b && x != 0xffff_ffff && cfg.leaseSeconds < 7
    ensures
      var sys := System(1999, [], map[a := Idle(a), b := Idle(b)]);
      Init(cfg, sys) && Run(cfg, sys, evs) && !Exclusion(Reached(cfg, sys, evs))
  {
    hide Run, Reached, Got, Late, Holding;
    var sys := System(1999, [], map[a := Idle(a), b := Idle(b)]);
    var first := Acquire(cfg, a, x, sys);
    var s1 := Reached(cfg, sys, first);
    var wait := Outlives(cfg, a, b, x, s1);
    var s2 := Reached(cfg, s1, wait);
    ExpiredFree(cfg, a, b, x, s1.table, Seconds(s2.now));
    var second := Acquire(cfg, b, x, s2);
    var s3 := Reached(cfg, s2, second);
    RunJoin(cfg, s1, wait, second);
    RunJoin(cfg, sys, first, wait + second);
    evs := first + (wait + second);
    assert Holding(s3.nodes[a].client.log) == Some(x)
        by { assert Late(s3.nodes[a], s1.now + 5000, x); LateHolds(s3.nodes[a], s1.now + 5000, x); }
    assert Holding(s3.nodes[b].client.log) == Some(x) by { GotHolds(b, s3.nodes[b], s2.now, x, 10); }
  }

  lemma LateHolds(n: Node, now: int, x: Ip)
    requires Late(n, now, x)
    ensures Holding(n.client.log) == Some(x)
  {
  }

  lemma GotHolds(mac: Mac, n: Node, now: int, x: Ip, l: nat)
    requires Got(mac, n, now, x, l)
    ensures Holding(n.client.log) == Some(x)
  {
  }

  lemma ExpiredFree(cfg: Config, a: Mac, b: Mac, x: Ip, t: Table, now: int)
    requires WellFormed(cfg, t) && Given([], a, x, 1 + cfg.leaseSeconds, t) && a != b && InRange(cfg, x)
    requires now > 1 + cfg.leaseSeconds
    ensures FindByMac(t, b).None? && RequestedOk(cfg, t, now, x)
  {
  }

  /** Addresses are exclusive in every run if and only if the server grants at least seven
      seconds. */
  lemma ExclusionIff(cfg: Config, a: Mac, b: Mac, x: Ip)
    requires Leasable(cfg, x, a) && Leasable(cfg, x, b) && a != b && x != 0xffff_ffff
    ensures (forall sys, evs :: Init(cfg, sys) && Run(cfg, sys, evs) ==> Exclusion(Reached(cfg, sys, evs)))
            <==> cfg.leaseSeconds >= 7
  {
    hide Run, Reached, Init, Exclusion;
    if cfg.leaseSeconds >= 7 {
      forall sys, evs | Init(cfg, sys) && Run(cfg, sys, evs) ensures Exclusion(Reached(cfg, sys, evs)) {
        MutualExclusion(cfg, sys, evs);
      }
    } else {
      var evs := ShortLeaseShared(cfg, a, b, x);
    }
  }
}
