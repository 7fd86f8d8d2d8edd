/** The composed system: mutual exclusion of addresses over every run. */
module NetworkSafety {
  import opened Basics
  import opened LeaseTable
  import Server = ServerSpec
  import opened ServerRuns
  import opened ClientSpec
  import opened ClientTimers
  import opened Network
  import opened NetworkSteps
  import opened NetworkLocal

  // ---------------------------------------------------------------- the lease times fit

  lemma {:induction false} TailBelow(l: nat, renewing: bool)
    ensures l / 2 + Tail(l, renewing) <= l
    decreases l, renewing
  {
    if l / 2 < l || renewing { TailBelow(l / 2, renewing && l / 2 > 60); }
  }

  /** A client gives an address up no later than the server's lease ends, if nobody answers, if and
      only if the server grants at least seven seconds: the client's mask only shortens a lease, and
      its minimum of ten seconds makes it hold an address for seven. */
  lemma HoldFits(l: U32)
    ensures HoldTime(LeaseOf(Some(l))) <= l <==> l >= 7
  {
    TailBelow(LeaseOf(Some(l)), true);
    assert Tail(10, true) == 2 + Tail(5, false) == 2;
  }

  lemma UniqueLease(t: Table, t': Table, mac: Mac)
    requires Unique(t) && (forall e :: e in t' && e.mac == mac ==> e in t)
    ensures FindByMac(t', mac).Some? ==> FindByMac(t', mac) == FindByMac(t, mac)
  {
    if FindByMac(t', mac).Some? { FindsMac(t, FindByMac(t', mac).value); }
  }

  /** A packet of one client gives no other client a lease. */
  lemma OtherLease(cfg: Config, t: Table, now: int, req: Server.Request, mac: Mac)
    requires WellFormed(cfg, t) && req.mac != mac
    ensures var t' := Server.Step(cfg, t, now, req).0;
            FindByMac(t', mac).Some? ==> FindByMac(t', mac) == FindByMac(t, mac)
  {
    hide Insert, Evict, RequestedOk, FindFreeOrExpired, Unique;
    var lease := FindByMac(t, req.mac);
    var yiaddr := Server.OfferAddress(cfg, t, now, req);
    if Leasable(cfg, yiaddr, req.mac) { AddLeaseKeeps(cfg, t, now, Server.OFFER_TIME, req.mac, yiaddr); }
    if lease.Some? {
      AddLeaseKeeps(cfg, t, now, 0, req.mac, lease.value.nip);
      SetExpireKeeps(cfg, t, lease.value, now % 0x1_0000_0000);
    }
    UniqueLease(t, Server.Step(cfg, t, now, req).0, mac);
  }

  /** A packet other than DISCOVER does not change the address of its sender's lease. */
  lemma OwnLease(cfg: Config, t: Table, now: int, req: Server.Request, nip: Ip)
    requires WellFormed(cfg, t) && Server.PacketType(req) != DHCPDISCOVER
    ensures LeaseIs(Server.Step(cfg, t, now, req).0, req.mac, nip) ==> LeaseIs(t, req.mac, nip)
  {
    hide Insert, Evict, Unique;
    var t' := Server.Step(cfg, t, now, req).0;
    var lease := FindByMac(t, req.mac);
    if LeaseIs(t', req.mac, nip) {
      var e := FindByMac(t', req.mac).value;
      assert e in t' && e.mac == req.mac;
      if lease.Some? {
        AddLeaseKeeps(cfg, t, now, 0, req.mac, lease.value.nip);
        SetExpireKeeps(cfg, t, lease.value, now % 0x1_0000_0000);
        if e in t { SameNip(t, e, lease.value); }
      }
    }
  }

  /** A REQUEST is acknowledged exactly if it asks for the leased address. */
  lemma RequestAnswer(cfg: Config, t: Table, now: int, req: Server.Request)
    requires Server.Step(cfg, t, now, req).1.Ack? || Server.Step(cfg, t, now, req).1.Nak?
    ensures
      var (t', r) := Server.Step(cfg, t, now, req);
      && Server.PacketType(req) == DHCPREQUEST && r.mac == req.mac && r.xid == req.xid
      && (r.Ack? <==> LeaseIs(t, req.mac, Asks(req)))
      && (r.Ack? ==> r.yiaddr == Asks(req) && r.lease == cfg.leaseSeconds)
      && (r.Nak? ==> t' == t)
  {
  }

  // ---------------------------------------------------------------- the other clients

  lemma KeptHeld(cfg: Config, now: int, t: Table, n: Node, x: Ip, req: Server.Request)
    requires WellFormed(cfg, t) && Keeping(cfg, now, t, n, x) && !GivesUp(cfg, req, n.client.mac, x)
    requires now <= n.client.timers[n.client.timeout].at
    ensures Keeping(cfg, now, Server.Step(cfg, t, Seconds(now), req).0, n, x)
  {
    hide Held, Server.Step, GivesUp, WellFormed, Asking;
    assert Seconds(now) <= n.until;
    HeldKept(cfg, t, Seconds(now), req, n.client.mac, x, n.until);
  }

  lemma OtherServed(cfg: Config, now: int, t: Table, mac: Mac, n: Node, req: Server.Request)
    requires WellFormed(cfg, t) && NodeOk(cfg, now, t, mac, n) && req.mac != mac
    ensures NodeOk(cfg, now, Server.Step(cfg, t, Seconds(now), req).0, mac, n)
  {
    hide Server.Step, WellFormed, Keeping, Tidy, NoneAsked, Held, Holding;
    OtherLease(cfg, t, Seconds(now), req, mac);
    assert Spent(Server.Step(cfg, t, Seconds(now), req).0, n);
    if Holding(n.client.log).Some? {
      var x := Holding(n.client.log).value;
      KeepingPending(cfg, now, t, n, x);
      KeptHeld(cfg, now, t, n, x, req);
    }
  }

  lemma KeepingPending(cfg: Config, now: int, t: Table, n: Node, x: Ip)
    requires Keeping(cfg, now, t, n, x)
    ensures Pending(n.client) && LeaseIs(t, n.client.mac, x)
    ensures forall i :: 0 <= i < |n.outbox| ==> Asking(n.client, n.outbox[i])
    ensures n.client.requestedIp == x
  {
  }

  // ---------------------------------------------------------------- the client served

  lemma TailKeeps(c: Client, t: Table, out: seq<Server.Request>)
    requires out != []
    ensures NoneAsked(c, out) ==> NoneAsked(c, out[1..])
    ensures Tidy(c, out) ==> Tidy(c, out[1..])
    ensures Doomed(t, c, out) ==> Doomed(t, c, out[1..])
  {
    hide CurRequest, Asking, LeaseIs;
    var tail := out[1..];
    assert forall i :: 0 <= i < |tail| ==> tail[i] == out[i + 1];
  }

  /** Serving the oldest message keeps a doomed outbox doomed. */
  lemma DoomedServed(cfg: Config, now: int, t: Table, c: Client, out: seq<Server.Request>)
    requires WellFormed(cfg, t) && out != [] && out[0].mac == c.mac && Doomed(t, c, out)
    ensures Doomed(Server.Step(cfg, t, Seconds(now), out[0]).0, c, out[1..])
  {
    hide CurRequest, LeaseIs, Server.Step, WellFormed;
    var t' := Server.Step(cfg, t, Seconds(now), out[0]).0;
    var tail := out[1..];
    assert forall i :: 0 <= i < |tail| ==> tail[i] == out[i + 1];
    forall i | 0 <= i < |tail| && CurRequest(c, tail[i])
      ensures !LeaseIs(t', c.mac, Asks(tail[i]))
    {
      assert CurRequest(c, out[i + 1]);
      if LeaseIs(t', c.mac, Asks(tail[i])) {
        OwnLease(cfg, t, Seconds(now), out[0], Asks(tail[i]));
      }
    }
  }

  /** ... and a refused transaction futile, */
  lemma SpentServed(cfg: Config, now: int, t: Table, n: Node)
    requires WellFormed(cfg, t) && Spent(t, n) && n.outbox != [] && n.outbox[0].mac == n.client.mac
    ensures Spent(Server.Step(cfg, t, Seconds(now), n.outbox[0]).0, n.(outbox := n.outbox[1..]))
  {
    hide LeaseIs, Server.Step, WellFormed, Holding, Pending, Selecting, Server.PacketType;
    var tail := n.outbox[1..];
    assert forall i :: 0 <= i < |tail| ==> tail[i] == n.outbox[i + 1];
    if n.client.xid in n.refused && Pending(n.client) {
      OwnLease(cfg, t, Seconds(now), n.outbox[0], n.client.requestedIp);
    }
  }

  /** ... and the rest of the invariant, whatever the answer. */
  lemma PopKeeps(cfg: Config, now: int, t: Table, mac: Mac, n: Node)
    requires WellFormed(cfg, t) && NodeOk(cfg, now, t, mac, n) && n.outbox != []
    ensures NodeOk(cfg, now, Server.Step(cfg, t, Seconds(now), n.outbox[0]).0, mac, n.(outbox := n.outbox[1..]))
  {
    hide Server.Step, WellFormed, Tidy, NoneAsked, Doomed, Holding, Spent;
    var t' := Server.Step(cfg, t, Seconds(now), n.outbox[0]).0;
    var n' := n.(outbox := n.outbox[1..]);
    var c := n.client;
    TailKeeps(c, t, n.outbox);
    SpentServed(cfg, now, t, n);
    if Accepting(c.phase) && !Pending(c) { DoomedServed(cfg, now, t, c, n.outbox); }
    if Holding(c.log).Some? {
      var x := Holding(c.log).value;
      assert Asking(c, n.outbox[0]);
      KeptHeld(cfg, now, t, n, x, n.outbox[0]);
      assert Keeping(cfg, now, t', n', x);
    }
  }

  /** The ACK that a client accepts answers a REQUEST of its transaction for the address it
      wants, and nothing but such REQUESTs is under way behind it. */
  lemma AckedTidy(cfg: Config, now: int, t: Table, mac: Mac, n: Node)
    requires NodeOk(cfg, now, t, mac, n) && n.outbox != [] && Accepting(n.client.phase)
    requires CurRequest(n.client, n.outbox[0]) && LeaseIs(t, mac, Asks(n.outbox[0]))
    ensures Pending(n.client) && forall i :: 0 <= i < |n.outbox| ==> Asking(n.client, n.outbox[i])
  {
    hide CurRequest, LeaseIs;
    var out := n.outbox;
    assert CurRequest(n.client, out[0]);
    if Pending(n.client) {
      forall i | 0 <= i < |out| ensures Asking(n.client, out[i]) {
        assert 0 <= 0 <= i < |out| && CurRequest(n.client, out[0]);
      }
    }
  }

  lemma AckKeeps(cfg: Config, t': Table, mac: Mac, n1: Node, p: Packet, env: Env)
    requires Basic(env.now, mac, n1) && Spent(t', n1) && n1.client.xid !in n1.refused && Accepting(n1.client.phase)
    requires forall i :: 0 <= i < |n1.outbox| ==> Asking(n1.client, n1.outbox[i])
    requires p.yiaddr == n1.client.requestedIp && p.leaseTime == Some(cfg.leaseSeconds) && cfg.leaseSeconds >= 7
    requires n1.until == Seconds(env.now) + cfg.leaseSeconds && Held(t', mac, p.yiaddr, n1.until)
    ensures Kept(cfg, env.now, t', mac, n1, OnAck(n1.client, env, p))
  {
    hide CurRequest, Held, Tail, Doomed;
    var c := n1.client;
    var c' := OnAck(c, env, p);
    var a := LeaseAvailable(p.yiaddr);
    assert c'.log == c.log + [a];
    SentOne(mac, c, c', a);
    HoldingAdd(c.log, a);
    AckTimers(c, env, p);
    assert n1.outbox + [] == n1.outbox;
    forall i | 0 <= i < |n1.outbox| ensures Asking(c', n1.outbox[i]) {
      SameAsking(c, c', n1.outbox[i]);
    }
    SpentKept(t', mac, n1, c');
    HoldFits(cfg.leaseSeconds);
    AckClock(env.now, c'.leaseSeconds, cfg.leaseSeconds);
  }

  lemma AckClock(now: int, l: nat, granted: nat)
    requires HoldTime(l) <= granted
    ensures now + l / 2 * 1000 + 1000 * Tail(l, true) < 1000 * (Seconds(now) + granted + 1)
  {
  }

  lemma NakKeeps(cfg: Config, t: Table, mac: Mac, n: Node, env: Env)
    requires NodeOk(cfg, env.now, t, mac, n) && Accepting(n.client.phase) && Holding(n.client.log).None?
    requires Doomed(t, n.client, n.outbox)
    ensures Kept(cfg, env.now, t, mac, n, OnNak(n.client, env))
  {
    hide Doomed;
    var c := n.client;
    var c' := OnNak(c, env);
    SentNothing(mac, c, c');
    DoomedAdd(t, c, c', n.outbox, []);
    SpentKept(t, mac, n, c');
  }

  /** Serving a client and delivering an ACK keeps its invariant. */
  lemma ServedKeeps(cfg: Config, now: int, t: Table, mac: Mac, n: Node, delivered: bool, env: Env)
    requires WellFormed(cfg, t) && NodeOk(cfg, now, t, mac, n) && n.outbox != [] && ProperEnv(now, n, env)
    requires cfg.leaseSeconds >= 7
    ensures
      var (t', r) := Server.Step(cfg, t, Seconds(now), n.outbox[0]);
      NodeOk(cfg, now, t', mac, ServedNode(cfg, now, mac, n, r, delivered, env))
  {
    hide Server.Step, WellFormed, NodeOk, OnPacket, LocalNode;
    var (t', r) := Server.Step(cfg, t, Seconds(now), n.outbox[0]);
    PopKeeps(cfg, now, t, mac, n);
    if r.Nak? {
      NakSent(cfg, now, t, mac, n);
    } else if delivered && r.Ack? && Enabled(n.client, Receive(ToClient(cfg, r))) {
      DeliveredKeeps(cfg, now, t, mac, n, env);
    }
  }

  lemma DeliveredKeeps(cfg: Config, now: int, t: Table, mac: Mac, n: Node, env: Env)
    requires WellFormed(cfg, t) && NodeOk(cfg, now, t, mac, n) && n.outbox != [] && ProperEnv(now, n, env)
    requires cfg.leaseSeconds >= 7
    requires
      var (t', r) := Server.Step(cfg, t, Seconds(now), n.outbox[0]);
      r.Ack? && Enabled(n.client, Receive(ToClient(cfg, r)))
    ensures
      var (t', r) := Server.Step(cfg, t, Seconds(now), n.outbox[0]);
      NodeOk(cfg, now, t', mac, ServedNode(cfg, now, mac, n, r, true, env))
  {
    hide Server.Step, WellFormed, NodeOk, OnAck, OnNak, Kept, Basic, Spent;
    var (t', r) := Server.Step(cfg, t, Seconds(now), n.outbox[0]);
    var p := ToClient(cfg, r);
    var n1 := n.(outbox := n.outbox[1..]);
    var c := n.client;
    PopKeeps(cfg, now, t, mac, n);
    RequestAnswer(cfg, t, Seconds(now), n.outbox[0]);
    if !(Owned(c, p) && Accepting(c.phase)) {
      assert OnPacket(c, env, p) == c;
      UnchangedKeeps(cfg, now, t', mac, n1);
      OkIsBasic(cfg, now, t', mac, n1);
      KeptIsOk(cfg, now, t', mac, n1, Receive(p), env);
    } else {
      AckDelivered(cfg, now, t, mac, n, env);
    }
  }

  lemma AckDelivered(cfg: Config, now: int, t: Table, mac: Mac, n: Node, env: Env)
    requires WellFormed(cfg, t) && NodeOk(cfg, now, t, mac, n) && n.outbox != [] && ProperEnv(now, n, env)
    requires cfg.leaseSeconds >= 7
    requires
      var (t', r) := Server.Step(cfg, t, Seconds(now), n.outbox[0]);
      r.Ack? && Enabled(n.client, Receive(ToClient(cfg, r))) && Owned(n.client, ToClient(cfg, r)) &&
          Accepting(n.client.phase)
    ensures
      var (t', r) := Server.Step(cfg, t, Seconds(now), n.outbox[0]);
      NodeOk(cfg, now, t', mac, ServedNode(cfg, now, mac, n, r, true, env))
  {
    hide Server.Step, WellFormed, NodeOk, Kept, LeaseIs, Held, StartBound, Spent;
    var (t', r) := Server.Step(cfg, t, Seconds(now), n.outbox[0]);
    var p := ToClient(cfg, r);
    var n1 := n.(outbox := n.outbox[1..], until := Seconds(now) + cfg.leaseSeconds);
    var c := n.client;
    OkIsBasic(cfg, now, t, mac, n);
    RequestAnswer(cfg, t, Seconds(now), n.outbox[0]);
    AckedTidy(cfg, now, t, mac, n);
    AckHeld(cfg, t, Seconds(now), n.outbox[0]);
    assert Asking(c, n.outbox[0]);
    assert OnPacket(c, env, p) == OnAck(c, env, p);
    PopKeeps(cfg, now, t, mac, n);
    OkIsBasic(cfg, now, t', mac, n.(outbox := n.outbox[1..]));
    NotRefused(t, n);
    assert Spent(t', n1) by { SpentUntil(t', n.(outbox := n.outbox[1..]), n1.until); }
    AckKeeps(cfg, t', mac, n1, p, env);
    KeptIsOk(cfg, now, t', mac, n1, Receive(p), env);
    AckLogs(c, env, p);
    assert ServedNode(cfg, now, mac, n, r, true, env) == LocalNode(mac, n1, Receive(p), env);
  }

  lemma AckLogs(c: Client, env: Env, p: Packet)
    ensures OnAck(c, env, p).log != c.log
  {
    assert |OnAck(c, env, p).log| == |c.log| + 1;
  }

  lemma SpentUntil(t: Table, n: Node, until: int)
    requires Spent(t, n)
    ensures Spent(t, n.(until := until))
  {
  }

  /** A client that waits for the address it has a lease for has not been refused. */
  lemma NotRefused(t: Table, n: Node)
    requires Spent(t, n) && Pending(n.client) && LeaseIs(t, n.client.mac, n.client.requestedIp)
    ensures n.client.xid !in n.refused
  {
  }

  // ---------------------------------------------------------------- refusals

  /** The server refuses a transaction: nothing will come of it. */
  lemma NakSent(cfg: Config, now: int, t: Table, mac: Mac, n: Node)
    requires WellFormed(cfg, t) && NodeOk(cfg, now, t, mac, n) && n.outbox != []
    requires Server.Step(cfg, t, Seconds(now), n.outbox[0]).1.Nak?
    ensures
      var (t', r) := Server.Step(cfg, t, Seconds(now), n.outbox[0]);
      NodeOk(cfg, now, t', mac, n.(outbox := n.outbox[1..], refused := n.refused + {r.xid}))
  {
    hide Server.Step, WellFormed, LeaseIs, Held, Tail;
    PopKeeps(cfg, now, t, mac, n);
    RequestAnswer(cfg, t, Seconds(now), n.outbox[0]);
    if n.outbox[0].xid == n.client.xid { NowFutile(cfg, now, t, mac, n); }
  }

  lemma NowFutile(cfg: Config, now: int, t: Table, mac: Mac, n: Node)
    requires NodeOk(cfg, now, t, mac, n) && n.outbox != []
    requires CurRequest(n.client, n.outbox[0]) && !LeaseIs(t, mac, Asks(n.outbox[0]))
    ensures Futile(t, n.client, n.outbox[1..])
  {
    hide LeaseIs, Held, Tail, Doomed;
    var c, out := n.client, n.outbox;
    if Holding(c.log).Some? {
      KeepingPending(cfg, now, t, n, Holding(c.log).value);
      assert false;
    }
    if Pending(c) {
      assert Asking(c, out[0]);
      forall i | 0 <= i < |out[1..]| ensures Server.PacketType(out[1..][i]) != DHCPDISCOVER {
        assert out[1..][i] == out[i + 1] && Asking(c, out[i + 1]);
      }
    }
  }

  /** A NAK of the transaction, however late, finds nothing to come of it either. */
  lemma NakArrives(cfg: Config, now: int, t: Table, mac: Mac, n: Node, xid: nat, env: Env)
    requires NodeOk(cfg, now, t, mac, n) && ProperEnv(now, n, env) && xid in n.refused
    requires n.client.listen == Listen2 || n.client.listen == Listen3
    ensures NodeOk(cfg, now, t, mac, LocalNode(mac, n, Receive(ToClient(cfg, Server.Nak(mac, xid))), env))
  {
    hide NodeOk, OnAck, OnNak, Kept, Basic, Spent, LocalNode;
    var c := n.client;
    var p := ToClient(cfg, Server.Nak(mac, xid));
    OkIsBasic(cfg, now, t, mac, n);
    if Owned(c, p) && Accepting(c.phase) {
      FutileDoomed(cfg, now, t, mac, n);
      NakKeeps(cfg, t, mac, n, env);
      assert OnPacket(c, env, p) == OnNak(c, env);
    } else {
      assert OnPacket(c, env, p) == c;
      UnchangedKeeps(cfg, now, t, mac, n);
    }
    KeptIsOk(cfg, now, t, mac, n, Receive(p), env);
  }

  lemma FutileDoomed(cfg: Config, now: int, t: Table, mac: Mac, n: Node)
    requires NodeOk(cfg, now, t, mac, n) && n.client.xid in n.refused && Accepting(n.client.phase)
    ensures Doomed(t, n.client, n.outbox) && Holding(n.client.log).None?
  {
    hide Held, Tail, LeaseIs;
    var c, out := n.client, n.outbox;
    if Pending(c) {
      forall i | 0 <= i < |out| && CurRequest(c, out[i]) ensures !LeaseIs(t, c.mac, Asks(out[i])) {
        assert Asking(c, out[i]);
      }
    }
  }

  // ---------------------------------------------------------------- time and loss

  lemma TickKeeps(cfg: Config, now: int, now': int, t: Table, mac: Mac, n: Node)
    requires NodeOk(cfg, now, t, mac, n) && now <= now'
    requires forall id :: id in n.client.timers ==> now' <= n.client.timers[id].at
    ensures NodeOk(cfg, now', t, mac, n)
  {
    hide Orderly, Held, Holding, Asking;
  }

  lemma LoseKeeps(cfg: Config, now: int, t: Table, mac: Mac, n: Node, i: nat)
    requires NodeOk(cfg, now, t, mac, n) && i < |n.outbox|
    ensures NodeOk(cfg, now, t, mac, n.(outbox := n.outbox[..i] + n.outbox[i + 1..]))
  {
    hide Held, Holding, CurRequest, LeaseIs, Asks, Server.PacketType;
    var out := n.outbox[..i] + n.outbox[i + 1..];
    assert forall k :: 0 <= k < |out| ==> out[k] == n.outbox[if k < i then k else k + 1];
    LoseOrderly(t, n.client, n.outbox, out, i);
  }

  lemma LoseOrderly(t: Table, c: Client, out: seq<Server.Request>, out': seq<Server.Request>, i: nat)
    requires i < |out| && |out'| == |out| - 1
    requires forall k :: 0 <= k < |out'| ==> out'[k] == out[if k < i then k else k + 1]
    ensures NoneAsked(c, out) ==> NoneAsked(c, out')
    ensures Tidy(c, out) ==> Tidy(c, out')
    ensures Doomed(t, c, out) ==> Doomed(t, c, out')
  {
    hide CurRequest, Asking, LeaseIs;
  }

  // ---------------------------------------------------------------- the theorem

  /** Every event keeps the invariant. */
  lemma NextKeeps(cfg: Config, sys: System, ev: Happening)
    requires SystemOk(cfg, sys) && Allowed(sys, ev) && cfg.leaseSeconds >= 7
    ensures SystemOk(cfg, Next(cfg, sys, ev))
  {
    hide NodeOk, WellFormed, Server.Step, LocalNode, ServedNode, ProperEnv, LocalAllowed;
    var sys' := Next(cfg, sys, ev);
    if ev.Serve? { StepKeeps(cfg, sys.table, Seconds(sys.now), sys.nodes[ev.mac].outbox[0]); }
    forall mac | mac in sys'.nodes
      ensures NodeOk(cfg, sys'.now, sys'.table, mac, sys'.nodes[mac])
    {
      var n := sys.nodes[mac];
      match ev {
        case Tick(ms) => TickKeeps(cfg, sys.now, sys.now + ms, sys.table, mac, n);
        case Local(m, s, env) => if m == mac { LocalKeeps(cfg, sys.now, sys.table, mac, n, s, env); }
        case Lose(m, i) => if m == mac { LoseKeeps(cfg, sys.now, sys.table, mac, n, i); }
        case Serve(m, delivered, env) =>
          if m == mac {
            ServedKeeps(cfg, sys.now, sys.table, mac, n, delivered, env);
          } else {
            SenderMac(cfg, sys.now, sys.table, m, sys.nodes[m]);
            OtherServed(cfg, sys.now, sys.table, mac, n, sys.nodes[m].outbox[0]);
          }
        case Refuse(m, xid, env) => if m == mac { NakArrives(cfg, sys.now, sys.table, mac, n, xid, env); }
      }
    }
  }

  lemma SenderMac(cfg: Config, now: int, t: Table, mac: Mac, n: Node)
    requires NodeOk(cfg, now, t, mac, n) && n.outbox != []
    ensures n.outbox[0].mac == mac
  {
  }

  lemma InitOk(cfg: Config, sys: System)
    requires Init(cfg, sys)
    ensures SystemOk(cfg, sys)
  {
  }

  ghost predicate Exclusion(sys: System) {
    forall a, b :: a in sys.nodes && b in sys.nodes && a != b && Holding(sys.nodes[a].client.log).Some? ==>
      Holding(sys.nodes[a].client.log) != Holding(sys.nodes[b].client.log)
  }

  lemma OkExcludes(cfg: Config, sys: System)
    requires SystemOk(cfg, sys)
    ensures Exclusion(sys)
  {
    forall a, b | a in sys.nodes && b in sys.nodes && a != b && Holding(sys.nodes[a].client.log).Some?
      ensures Holding(sys.nodes[a].client.log) != Holding(sys.nodes[b].client.log)
    {
      var x := Holding(sys.nodes[a].client.log).value;
      assert NodeOk(cfg, sys.now, sys.table, a, sys.nodes[a]);
      assert NodeOk(cfg, sys.now, sys.table, b, sys.nodes[b]);
      if Holding(sys.nodes[b].client.log) == Some(x) {
        SameNip(sys.table, FindByMac(sys.table, a).value, FindByMac(sys.table, b).value);
      }
    }
  }

  ghost predicate Run(cfg: Config, sys: System, evs: seq<Happening>)
    decreases |evs|
  {
    evs == [] || (Allowed(sys, evs[0]) && Run(cfg, Next(cfg, sys, evs[0]), evs[1..]))
  }

  function Reached(cfg: Config, sys: System, evs: seq<Happening>): System
    requires Run(cfg, sys, evs)
    decreases |evs|
  {
    if evs == [] then sys else Reached(cfg, Next(cfg, sys, evs[0]), evs[1..])
  }

  lemma {:induction false} RunKeepsOk(cfg: Config, sys: System, evs: seq<Happening>)
    requires SystemOk(cfg, sys) && Run(cfg, sys, evs) && cfg.leaseSeconds >= 7
    ensures SystemOk(cfg, Reached(cfg, sys, evs))
    decreases |evs|
  {
    if evs != [] {
      NextKeeps(cfg, sys, evs[0]);
      RunKeepsOk(cfg, Next(cfg, sys, evs[0]), evs[1..]);
    }
  }

  /** With one server granting leases of at least seven seconds and any number of clients, no
      reachable state has two clients holding the same address. */
  lemma MutualExclusion(cfg: Config, sys: System, evs: seq<Happening>)
    requires Init(cfg, sys) && Run(cfg, sys, evs) && cfg.leaseSeconds >= 7
    ensures Exclusion(Reached(cfg, sys, evs))
  {
    InitOk(cfg, sys);
    RunKeepsOk(cfg, sys, evs);
    OkExcludes(cfg, Reached(cfg, sys, evs));
  }
}
