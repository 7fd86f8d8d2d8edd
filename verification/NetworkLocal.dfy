/** Every step a client takes on its own keeps the network's invariant. */
module NetworkLocal {
  import opened Basics
  import opened LeaseTable
  import Server = ServerSpec
  import opened ServerRuns
  import opened ClientSpec
  import opened ClientTimers
  import opened Network
  import opened NetworkSteps

  /** `c'` is `r` up to the timer that the main loop has dropped. */
  ghost predicate Dropped(r: Client, c': Client) {
    && c' == r.(timers := c'.timers)
    && (r.timeout in r.timers ==> r.timeout in c'.timers && c'.timers[r.timeout] == r.timers[r.timeout])
    && (r.timeout !in r.timers ==> r.timeout !in c'.timers)
  }

  /** What is to be shown of a step to `c'` besides the timer discipline. */
  ghost predicate Kept(cfg: Config, now: int, t: Table, mac: Mac, n: Node, c': Client) {
    var n' := n.(client := c', outbox := n.outbox + Sent(mac, n.client, c'), used := n.used + {c'.xid});
    && InStep(c')
    && Orderly(t, n')
    && Spent(t, n')
    && (forall i :: 0 <= i < |Sent(mac, n.client, c')| ==>
          Sent(mac, n.client, c')[i].mac == mac &&
          (Server.PacketType(Sent(mac, n.client, c')[i]) == DHCPREQUEST ==> Sent(mac, n.client, c')[i].xid == c'.xid))
    && (Holding(c'.log).Some? ==> Keeping(cfg, now, t, n', Holding(c'.log).value))
  }

  lemma KeptIsOk(cfg: Config, now: int, t: Table, mac: Mac, n: Node, s: Stimulus, env: Env)
    requires Basic(now, mac, n) && Enabled(n.client, s) && env.now == now
    requires Kept(cfg, now, t, mac, n, Step(n.client, s, env))
    ensures NodeOk(cfg, now, t, mac, LocalNode(mac, n, s, env))
  {
    hide Step, Orderly, Spent, Keeping, InStep, Sent, SingleTimer, Holding, Server.PacketType;
    StepSingle(n.client, s, env);
    StepSane(n.client, s, env);
    var n' := LocalNode(mac, n, s, env);
    var ms := Sent(mac, n.client, n'.client);
    forall i | 0 <= i < |n'.outbox|
      ensures n'.outbox[i].mac == mac
      ensures Server.PacketType(n'.outbox[i]) == DHCPREQUEST ==> n'.outbox[i].xid in n'.used
    {
      if i >= |n.outbox| { assert n'.outbox[i] == ms[i - |n.outbox|]; }
    }
  }

  /** A step in a transaction that may have been refused. */
  ghost predicate Ongoing(mac: Mac, c: Client, c': Client) {
    && c'.xid == c.xid && Holding(c'.log).None?
    && (Selecting(c') ==> Selecting(c))
    && (Pending(c') ==>
          Pending(c) && c'.requestedIp == c.requestedIp && c'.mac == c.mac && NoDiscover(Sent(mac, c, c')))
  }

  lemma SpentKept(t: Table, mac: Mac, n: Node, c': Client)
    requires Spent(t, n)
    requires c'.xid !in n.used || c'.xid !in n.refused || Ongoing(mac, n.client, c')
    ensures Spent(t, n.(client := c', outbox := n.outbox + Sent(mac, n.client, c'), used := n.used + {c'.xid}))
  {
    hide Holding, Sent, Pending, LeaseIs, Server.PacketType;
    if Ongoing(mac, n.client, c') && Pending(c') && c'.xid in n.refused {
      var sent := Sent(mac, n.client, c');
      var out := n.outbox + sent;
      forall i | 0 <= i < |out| ensures Server.PacketType(out[i]) != DHCPDISCOVER {
        assert out[i] == if i < |n.outbox| then n.outbox[i] else sent[i - |n.outbox|];
      }
    }
  }

  // ---------------------------------------------------------------- starting over

  /** A new transaction: nothing on the way belongs to it. */
  lemma FreshKeeps(cfg: Config, now: int, t: Table, mac: Mac, n: Node, c': Client, a: Action, lost: bool)
    requires Basic(now, mac, n) && Spent(t, n)
    requires c'.xid !in n.used && c'.phase == InitSelecting && a.Discovered? && a.xid == c'.xid
    requires c'.timeout in c'.timers && c'.timers[c'.timeout].callback == DiscoverTimeout
    requires c'.log == if lost then n.client.log + [LeaseLost] + [a] else n.client.log + [a]
    requires lost || Holding(n.client.log).None?
    ensures Kept(cfg, now, t, mac, n, c')
  {
    if lost {
      SentTwo(mac, n.client, c', LeaseLost, a);
      HoldingAdd(n.client.log, LeaseLost);
      HoldingAdd(n.client.log + [LeaseLost], a);
    } else {
      SentOne(mac, n.client, c', a);
      HoldingAdd(n.client.log, a);
    }
    assert Sent(mac, n.client, c') == ToServer(mac, a);
    var out := n.outbox + ToServer(mac, a);
    forall i | 0 <= i < |out| ensures !CurRequest(c', out[i]) {
    }
    SpentKept(t, mac, n, c');
  }

  /** The same transaction goes on with another DISCOVER or with no message at all. */
  lemma ContinueKeeps(cfg: Config, now: int, t: Table, mac: Mac, n: Node, c': Client, a: Action)
    requires NodeOk(cfg, now, t, mac, n) && !Pending(n.client)
    requires c'.xid == n.client.xid && c'.mac == mac && c'.phase == n.client.phase
    requires c'.listen == n.client.listen || c'.listen == ListenNone || c'.phase != InitSelecting
    requires c'.timeout in c'.timers && (c'.timers[c'.timeout].callback == DiscoverTimeout ||
        c'.timers[c'.timeout].callback == SendProbePacket)
    requires c'.log == n.client.log + [a] && (a.Picked? || (a.Discovered? && a.xid == c'.xid))
    ensures Kept(cfg, now, t, mac, n, c')
  {
    SentOne(mac, n.client, c', a);
    HoldingAdd(n.client.log, a);
    if Accepting(c'.phase) {
      DoomedAdd(t, n.client, c', n.outbox, ToServer(mac, a));
    }
    SpentKept(t, mac, n, c');
  }

  /** `g_dhcp_client_start` in all its uses. */
  lemma StartKeeps(cfg: Config, now: int, t: Table, mac: Mac, n: Node, d: Client, env: Env, last: Option<Ip>,
          c': Client)
    requires NodeOk(cfg, now, t, mac, n) && !Pending(n.client) && env.xid !in n.used
    requires d.xid == n.client.xid && d.mac == mac && d.phase == n.client.phase && d.log == n.client.log
    requires d.listen == n.client.listen || Accepting(d.phase)
    requires Dropped(Start(d, env, last), c')
    ensures Kept(cfg, now, t, mac, n, c')
  {
    hide Kept, NodeOk, Pending, LinkLocalStart, Holding;
    assert Holding(n.client.log).None? by { NotKeeping(cfg, now, t, mac, n); }
    assert Basic(now, mac, n) && Spent(t, n) by { OkIsBasic(cfg, now, t, mac, n); }
    if d.retryTimes == DISCOVER_RETRIES {
      LinkLocalShape(d, env);
      ContinueKeeps(cfg, now, t, mac, n, c', Picked(env.ip));
    } else {
      hide Dropped, Start;
      SendDiscoverKeeps(cfg, now, t, mac, n, d, env, last, c');
    }
  }

  lemma SendDiscoverKeeps(cfg: Config, now: int, t: Table, mac: Mac, n: Node, d: Client, env: Env, last: Option<Ip>,
          c': Client)
    requires NodeOk(cfg, now, t, mac, n) && !Pending(n.client) && env.xid !in n.used
    requires d.xid == n.client.xid && d.mac == mac && d.phase == n.client.phase && d.log == n.client.log
    requires d.listen == n.client.listen || Accepting(d.phase)
    requires d.retryTimes != DISCOVER_RETRIES && Dropped(Start(d, env, last), c')
    requires Holding(n.client.log).None? && Basic(now, mac, n) && Spent(t, n)
    ensures Kept(cfg, now, t, mac, n, c')
  {
    hide Kept, NodeOk, Pending, LinkLocalStart, Holding, Basic, Spent;
    var r := Start(d, env, last);
    var addr := if last.Some? && last.value != 0xffff_ffff then last.value else 0;
    assert r.log == d.log + [Discovered(r.xid, addr)];
    assert r.timers[r.timeout].callback == DiscoverTimeout;
    if d.retryTimes == 0 {
      FreshKeeps(cfg, now, t, mac, n, c', Discovered(r.xid, addr), false);
    } else {
      ContinueKeeps(cfg, now, t, mac, n, c', Discovered(r.xid, addr));
    }
  }

  lemma LinkLocalShape(d: Client, env: Env)
    ensures
      var r := LinkLocalStart(d, env);
      && r.log == d.log + [Picked(env.ip)] && r.listen == ListenNone && r.phase == d.phase && r.xid == d.xid &&
          r.mac == d.mac
      && r.timeout in r.timers && r.timers[r.timeout].callback == SendProbePacket
  {
  }

  lemma NotKeeping(cfg: Config, now: int, t: Table, mac: Mac, n: Node)
    requires NodeOk(cfg, now, t, mac, n) && (!Pending(n.client) || n.client.phase == Requesting)
    ensures Holding(n.client.log).None?
  {
  }

  lemma OkIsBasic(cfg: Config, now: int, t: Table, mac: Mac, n: Node)
    requires NodeOk(cfg, now, t, mac, n)
    ensures Basic(now, mac, n) && Spent(t, n)
  {
  }

  lemma DoStartKeeps(cfg: Config, t: Table, mac: Mac, n: Node, env: Env, last: Option<Ip>)
    requires NodeOk(cfg, env.now, t, mac, n) && env.xid !in n.used && n.client.timers == map[]
    ensures Kept(cfg, env.now, t, mac, n, Start(n.client, env, last))
  {
    hide Kept, Start;
    StartKeeps(cfg, env.now, t, mac, n, n.client, env, last, Start(n.client, env, last));
  }

  /** The timer that fires is dropped; the one armed by its callback stays. */
  lemma FiredDropped(c: Client, env: Env)
    requires SingleTimer(c) && c.timeout in c.timers
    ensures
      var r := RunCallback(c, env, c.timers[c.timeout].callback);
      Leaves(c, r) || Dropped(r, Fire(c, env, c.timeout))
  {
    hide RunCallback;
    CallbackTimers(c, env, c.timers[c.timeout].callback);
    var r := RunCallback(c, env, c.timers[c.timeout].callback);
    assert Adds(c, r) || Replaces(c, r) ==> r.timeout in r.timers.Keys;
  }

  // ---------------------------------------------------------------- timers

  lemma DiscoverTimeoutKeeps(cfg: Config, t: Table, mac: Mac, n: Node, env: Env)
    requires NodeOk(cfg, env.now, t, mac, n) && env.xid !in n.used
    requires n.client.timeout in n.client.timers && n.client.timers[n.client.timeout].callback == DiscoverTimeout
    ensures Kept(cfg, env.now, t, mac, n, Fire(n.client, env, n.client.timeout))
  {
    hide Kept, Start, Orderly, Keeping;
    var c := n.client;
    var d := c.(retryTimes := Inc8(c.retryTimes));
    FiredDropped(c, env);
    StartTimers(d, env, None);
    StartKeeps(cfg, env.now, t, mac, n, d, env, None, Fire(c, env, c.timeout));
  }

  lemma RestartTimeoutKeeps(cfg: Config, t: Table, mac: Mac, n: Node, env: Env)
    requires NodeOk(cfg, env.now, t, mac, n) && env.xid !in n.used
    requires n.client.timeout in n.client.timers && n.client.timers[n.client.timeout].callback == RestartTimeout
    ensures Kept(cfg, env.now, t, mac, n, Fire(n.client, env, n.client.timeout))
  {
    hide Kept, Start, Orderly, Keeping;
    var c := n.client;
    var ack := Inc8(c.ackRetryTimes);
    var d := Disarm(c.(ackRetryTimes := ack)).(retryTimes := ack, requestedIp := 0, listen := Listen2);
    assert RunCallback(c, env, RestartTimeout) == Start(d, env, d.lastAddress);
    FiredDropped(c, env);
    StartTimers(d, env, d.lastAddress);
    StartKeeps(cfg, env.now, t, mac, n, d, env, d.lastAddress, Fire(c, env, c.timeout));
  }

  /** Another REQUEST for the address the client wants. */
  lemma AskKeeps(cfg: Config, now: int, t: Table, mac: Mac, n: Node, c': Client, a: Action)
    requires NodeOk(cfg, now, t, mac, n) && Pending(n.client) && Holding(n.client.log).None?
    requires c'.xid == n.client.xid && c'.requestedIp == n.client.requestedIp && c'.phase == Requesting
    requires c'.mac == n.client.mac
    requires c'.timeout in c'.timers && c'.timers[c'.timeout].callback == RequestTimeout
    requires c'.log == n.client.log + [a] && a.Selected? && a.xid == c'.xid && a.ip == c'.requestedIp
    ensures Kept(cfg, now, t, mac, n, c')
  {
    hide Keeping, Doomed, Tidy;
    SentOne(mac, n.client, c', a);
    HoldingAdd(n.client.log, a);
    TidyAdd(n.client, c', n.outbox, ToServer(mac, a));
    SpentKept(t, mac, n, c');
  }

  /** No answer: the client turns to link-local addresses. */
  lemma GiveUpKeeps(cfg: Config, now: int, t: Table, mac: Mac, n: Node, c': Client, a: Action)
    requires NodeOk(cfg, now, t, mac, n) && Holding(n.client.log).None?
    requires c'.phase == InitSelecting && c'.listen == ListenNone && c'.xid == n.client.xid
    requires c'.timeout in c'.timers && c'.timers[c'.timeout].callback == SendProbePacket
    requires c'.log == n.client.log + [a] && a.Picked?
    ensures Kept(cfg, now, t, mac, n, c')
  {
    hide Keeping, Doomed, Tidy;
    SentOne(mac, n.client, c', a);
    HoldingAdd(n.client.log, a);
    SpentKept(t, mac, n, c');
  }

  lemma RequestTimeoutKeeps(cfg: Config, t: Table, mac: Mac, n: Node, env: Env)
    requires NodeOk(cfg, env.now, t, mac, n)
    requires n.client.timeout in n.client.timers && n.client.timers[n.client.timeout].callback == RequestTimeout
    ensures Kept(cfg, env.now, t, mac, n, Fire(n.client, env, n.client.timeout))
  {
    hide LinkLocalStart, Keeping, Orderly, Kept, Holding;
    var c := n.client;
    var c' := Fire(c, env, c.timeout);
    var d := c.(retryTimes := Inc8(c.retryTimes));
    FiredDropped(c, env);
    StartRequestTimers(d, env);
    NotKeeping(cfg, env.now, t, mac, n);
    if d.retryTimes == REQUEST_RETRIES {
      LinkLocalShape(d.(phase := InitSelecting), env);
      GiveUpKeeps(cfg, env.now, t, mac, n, c', Picked(env.ip));
    } else {
      AskKeeps(cfg, env.now, t, mac, n, c', Selected(c.xid, c.requestedIp, c.serverIp));
    }
  }

  /** Which lease timer follows which, with the lease counter `l`. */
  predicate Goes(callback: Callback, l: nat, next: Callback) {
    if callback == RenewTimeout then next == (if l > 60 then RenewTimeout else ReboundTimeout)
    else callback == next == ReboundTimeout && l > 6
  }

  /** A client that holds an address keeps doing so after a renewal timer. */
  lemma KeepingOn(cfg: Config, now: int, t: Table, n: Node, n': Node, x: Ip)
    requires Keeping(cfg, now, t, n, x)
    requires
      var c, c' := n.client, n'.client;
      && Pending(c') && c'.phase != Requesting && c'.listen != ListenArp
      && c'.requestedIp == c.requestedIp && c'.xid == c.xid && c'.mac == c.mac
      && c.timers[c.timeout].at == now && c'.leaseSeconds == c.leaseSeconds / 2
      && c'.timers[c'.timeout].at == now + c'.leaseSeconds / 2 * 1000
      && Goes(c.timers[c.timeout].callback, c'.leaseSeconds, c'.timers[c'.timeout].callback)
    requires n'.until == n.until
    requires n'.outbox == n.outbox || (|n'.outbox| == |n.outbox| + 1 && n'.outbox[..|n.outbox|] == n.outbox &&
        Asking(n'.client, n'.outbox[|n.outbox|]))
    ensures Keeping(cfg, now, t, n', x)
  {
    hide Held, CurRequest;
    forall i | 0 <= i < |n'.outbox| ensures Asking(n'.client, n'.outbox[i]) {
      if i < |n.outbox| {
        assert n'.outbox[i] == n.outbox[i];
        SameAsking(n.client, n'.client, n.outbox[i]);
      }
    }
  }

  lemma SameAsking(c: Client, c': Client, m: Server.Request)
    requires c'.requestedIp == c.requestedIp && c'.xid == c.xid
    ensures Asking(c', m) == Asking(c, m)
  {
  }

  lemma LastRenewKeeps(cfg: Config, t: Table, mac: Mac, n: Node, env: Env)
    requires NodeOk(cfg, env.now, t, mac, n)
    requires n.client.timeout in n.client.timers && n.client.timers[n.client.timeout].callback == RenewTimeout
    requires n.client.timers[n.client.timeout].at == env.now
    requires n.client.leaseSeconds / 2 <= 60
    ensures Kept(cfg, env.now, t, mac, n, Fire(n.client, env, n.client.timeout))
  {
    hide Keeping, Doomed, Tidy;
    var c := n.client;
    var c' := Fire(c, env, c.timeout);
    FiredDropped(c, env);
    RenewTimers(c, env);
    var r := OnRenewTimeout(c, env);
    assert r.timeout in r.timers.Keys;
    var n' := n.(client := c', outbox := n.outbox + Sent(mac, c, c'), used := n.used + {c'.xid});
    SentNothing(mac, c, c');
    assert n'.outbox == n.outbox;
    TidyAdd(c, c', n.outbox, []);
    SpentKept(t, mac, n, c');
    if Holding(c.log).Some? {
      KeepingOn(cfg, env.now, t, n, n', Holding(c.log).value);
    }
  }

  lemma RenewAgainKeeps(cfg: Config, t: Table, mac: Mac, n: Node, env: Env)
    requires NodeOk(cfg, env.now, t, mac, n)
    requires n.client.timeout in n.client.timers && n.client.timers[n.client.timeout].callback == RenewTimeout
    requires n.client.timers[n.client.timeout].at == env.now
    requires n.client.leaseSeconds / 2 > 60
    ensures Kept(cfg, env.now, t, mac, n, Fire(n.client, env, n.client.timeout))
  {
    hide Keeping, Doomed, Tidy;
    var c := n.client;
    var c' := Fire(c, env, c.timeout);
    FiredDropped(c, env);
    RenewTimers(c, env);
    var r := OnRenewTimeout(c, env);
    assert r.timeout in r.timers.Keys;
    var n' := n.(client := c', outbox := n.outbox + Sent(mac, c, c'), used := n.used + {c'.xid});
    var a := Renewed(c.xid, c.requestedIp);
    SentOne(mac, c, c', a);
    HoldingAdd(c.log, a);
    TidyAdd(c, c', n.outbox, ToServer(mac, a));
    SpentKept(t, mac, n, c');
    if Holding(c.log).Some? {
      KeepingOn(cfg, env.now, t, n, n', Holding(c.log).value);
    }
  }

  lemma RenewTimeoutKeeps(cfg: Config, t: Table, mac: Mac, n: Node, env: Env)
    requires NodeOk(cfg, env.now, t, mac, n)
    requires n.client.timeout in n.client.timers && n.client.timers[n.client.timeout].callback == RenewTimeout
    requires n.client.timers[n.client.timeout].at == env.now
    ensures Kept(cfg, env.now, t, mac, n, Fire(n.client, env, n.client.timeout))
  {
    hide NodeOk, Kept, Fire;
    if n.client.leaseSeconds / 2 <= 60 {
      LastRenewKeeps(cfg, t, mac, n, env);
    } else {
      RenewAgainKeeps(cfg, t, mac, n, env);
    }
  }

  lemma ReboundTimeoutKeeps(cfg: Config, t: Table, mac: Mac, n: Node, env: Env)
    requires NodeOk(cfg, env.now, t, mac, n) && env.xid !in n.used
    requires n.client.timeout in n.client.timers && n.client.timers[n.client.timeout].callback == ReboundTimeout
    requires n.client.timers[n.client.timeout].at == env.now
    ensures Kept(cfg, env.now, t, mac, n, Fire(n.client, env, n.client.timeout))
  {
    var c := n.client;
    var c' := Fire(c, env, c.timeout);
    FiredDropped(c, env);
    ReboundTimers(c, env);
    var r := OnReboundTimeout(c, env);
    assert r.timeout in r.timers.Keys;
    if c.leaseSeconds / 2 <= 6 {
      LossKeeps(cfg, t, mac, n, env, c');
    } else {
      ReboundKeeps(cfg, t, mac, n, env, c');
    }
  }

  lemma LossKeeps(cfg: Config, t: Table, mac: Mac, n: Node, env: Env, c': Client)
    requires Basic(env.now, mac, n) && Spent(t, n) && env.xid !in n.used && n.client.leaseSeconds / 2 <= 6
    requires Dropped(OnReboundTimeout(n.client, env), c')
    ensures Kept(cfg, env.now, t, mac, n, c')
  {
    hide Kept, LinkLocalStart;
    var c := n.client;
    var r := OnReboundTimeout(c, env);
    var last := c.lastAddress;
    var addr := if last.Some? && last.value != 0xffff_ffff then last.value else 0;
    assert r.log == c.log + [LeaseLost] + [Discovered(env.xid, addr)];
    assert r.timeout in r.timers && r.timers[r.timeout].callback == DiscoverTimeout;
    FreshKeeps(cfg, env.now, t, mac, n, c', Discovered(env.xid, addr), true);
  }

  lemma ReboundKeeps(cfg: Config, t: Table, mac: Mac, n: Node, env: Env, c': Client)
    requires NodeOk(cfg, env.now, t, mac, n) && n.client.leaseSeconds / 2 > 6
    requires n.client.timeout in n.client.timers && n.client.timers[n.client.timeout].callback == ReboundTimeout
    requires n.client.timers[n.client.timeout].at == env.now
    requires Dropped(OnReboundTimeout(n.client, env), c')
    ensures Kept(cfg, env.now, t, mac, n, c')
  {
    hide Keeping, Doomed, Tidy, Restart;
    var c := n.client;
    var a := Rebound(c.xid, c.requestedIp);
    var n' := n.(client := c', outbox := n.outbox + Sent(mac, c, c'), used := n.used + {c'.xid});
    SentOne(mac, c, c', a);
    HoldingAdd(c.log, a);
    TidyAdd(c, c', n.outbox, ToServer(mac, a));
    SpentKept(t, mac, n, c');
    if Holding(c.log).Some? {
      KeepingOn(cfg, env.now, t, n, n', Holding(c.log).value);
    }
  }

  /** Steps of the link-local machine send nothing to the server. */
  lemma SilentKeeps(cfg: Config, now: int, t: Table, mac: Mac, n: Node, c': Client)
    requires NodeOk(cfg, now, t, mac, n) && Holding(n.client.log).None? && Holding(c'.log).None?
    requires Sent(mac, n.client, c') == [] && c'.xid == n.client.xid && c'.mac == mac
    requires !Pending(c') && InStep(c')
    requires
      || (c'.phase == n.client.phase && c'.listen == n.client.listen && !Pending(n.client))
      || (c'.phase != InitSelecting && !Accepting(c'.phase))
    ensures Kept(cfg, now, t, mac, n, c')
  {
    assert n.outbox + [] == n.outbox;
    if Accepting(c'.phase) {
      DoomedAdd(t, n.client, c', n.outbox, []);
    }
    SpentKept(t, mac, n, c');
  }

  lemma SendProbeKeeps(cfg: Config, t: Table, mac: Mac, n: Node, env: Env, d: Client, c': Client)
    requires NodeOk(cfg, env.now, t, mac, n) && !Pending(n.client)
    requires d == n.client.(retryTimes := d.retryTimes) && Dropped(SendProbe(d, env), c')
    ensures Kept(cfg, env.now, t, mac, n, c')
  {
    hide Kept, NodeOk, Holding, Sent;
    var c := n.client;
    var r := SendProbe(d, env);
    assert Holding(c.log).None? by { NotKeeping(cfg, env.now, t, mac, n); }
    assert c.mac == mac by { OkIsBasic(cfg, env.now, t, mac, n); }
    assert r.timeout in r.timers && r.timers[r.timeout].callback == ProbeTimeout;
    if d.requestedIp == 0 {
      assert r.log == c.log + [Picked(env.ip)] + [Probed(env.ip)];
      SentTwo(mac, c, c', Picked(env.ip), Probed(env.ip));
      HoldingAdd(c.log, Picked(env.ip));
      HoldingAdd(c.log + [Picked(env.ip)], Probed(env.ip));
    } else {
      assert r.log == c.log + [Probed(c.requestedIp)];
      SentOne(mac, c, c', Probed(c.requestedIp));
      HoldingAdd(c.log, Probed(c.requestedIp));
    }
    SilentKeeps(cfg, env.now, t, mac, n, c');
  }

  lemma SendAnnounceKeeps(cfg: Config, t: Table, mac: Mac, n: Node, env: Env, d: Client, c': Client)
    requires NodeOk(cfg, env.now, t, mac, n) && Holding(n.client.log).None?
    requires d.phase == Announce || d.phase == Defend ||
        (d.phase == n.client.phase && d.listen == n.client.listen && !Pending(n.client))
    requires d.xid == n.client.xid && d.mac == mac
    requires d.log == n.client.log || d.log == n.client.log + [Conflict]
    requires Dropped(SendAnnounce(d, env), c')
    ensures Kept(cfg, env.now, t, mac, n, c')
  {
    hide Kept, NodeOk, Holding, Sent;
    var c := n.client;
    var r := SendAnnounce(d, env);
    assert r.timeout in r.timers && (r.timers[r.timeout].callback == AnnounceTimeout ||
        r.timers[r.timeout].callback == DefendTimeout);
    HoldingAdd(c.log, Conflict);
    HoldingAdd(d.log, Announced(d.requestedIp));
    if d.log == c.log {
      SentOne(mac, c, c', Announced(d.requestedIp));
    } else {
      SentTwo(mac, c, c', Conflict, Announced(d.requestedIp));
    }
    SilentKeeps(cfg, env.now, t, mac, n, c');
  }

  lemma ClaimTimeoutKeeps(cfg: Config, t: Table, mac: Mac, n: Node, env: Env)
    requires NodeOk(cfg, env.now, t, mac, n)
    requires n.client.timeout in n.client.timers
    requires
      var cb := n.client.timers[n.client.timeout].callback;
      cb == SendProbePacket || cb == ProbeTimeout || cb == AnnounceTimeout || cb == DefendTimeout
    ensures Kept(cfg, env.now, t, mac, n, Fire(n.client, env, n.client.timeout))
  {
    hide Kept, SendProbe, SendAnnounce, Orderly, Keeping;
    var c := n.client;
    var c' := Fire(c, env, c.timeout);
    FiredDropped(c, env);
    NotKeeping(cfg, env.now, t, mac, n);
    var d := c.(retryTimes := Inc8(c.retryTimes));
    match c.timers[c.timeout].callback {
      case SendProbePacket =>
        ProbeTimers(c, env);
        SendProbeKeeps(cfg, t, mac, n, env, c, c');
      case ProbeTimeout =>
        if c.retryTimes == PROBE_NUM {
          AnnounceTimers(c.(phase := Announce, retryTimes := 1), env);
          SendAnnounceKeeps(cfg, t, mac, n, env, c.(phase := Announce, retryTimes := 1), c');
        } else {
          ProbeTimers(d, env);
          SendProbeKeeps(cfg, t, mac, n, env, d, c');
        }
      case AnnounceTimeout =>
        if c.retryTimes != ANNOUNCE_NUM {
          AnnounceTimers(d, env);
          SendAnnounceKeeps(cfg, t, mac, n, env, d, c');
        } else {
          SentOne(mac, c, c', LinkLocalAvailable(c.requestedIp));
          HoldingAdd(c.log, LinkLocalAvailable(c.requestedIp));
          SilentKeeps(cfg, env.now, t, mac, n, c');
        }
      case DefendTimeout =>
        SentNothing(mac, c, c');
        SilentKeeps(cfg, env.now, t, mac, n, c');
    }
  }

  // ---------------------------------------------------------------- the other stimuli

  lemma StopKeeps(cfg: Config, t: Table, mac: Mac, n: Node, env: Env)
    requires NodeOk(cfg, env.now, t, mac, n)
    ensures Kept(cfg, env.now, t, mac, n, Stop(n.client))
  {
    hide Keeping, Doomed, Tidy, NoneAsked, Holding, Sent;
    var c := n.client;
    var c' := Stop(c);
    var a := Freed(c.requestedIp, c.serverIp);
    if c'.log == c.log + [Stopped] {
      SentOne(mac, c, c', Stopped);
    } else {
      assert c'.log == c.log + [a] + [Stopped];
      SentTwo(mac, c, c', a, Stopped);
      HoldingAdd(c.log, a);
    }
    HoldingAdd(c.log, Stopped);
    HoldingAdd(c.log + [a], Stopped);
    SpentKept(t, mac, n, c');
  }

  lemma OfferKeeps(cfg: Config, t: Table, mac: Mac, n: Node, env: Env, p: Packet)
    requires NodeOk(cfg, env.now, t, mac, n) && n.client.phase == InitSelecting
    requires n.client.listen == Listen2 || n.client.listen == Listen3
    ensures Kept(cfg, env.now, t, mac, n, OnOffer(n.client, env, p))
  {
    hide Keeping, Doomed, Tidy;
    var c := n.client;
    var c' := OnOffer(c, env, p);
    var a := Selected(c.xid, p.yiaddr, p.serverId);
    assert c'.log == c.log + [a];
    SentOne(mac, c, c', a);
    HoldingAdd(c.log, a);
    NotBound(cfg, env.now, t, mac, n);
    TidyFirst(c', n.outbox, ToServer(mac, a)[0]);
    SpentKept(t, mac, n, c');
  }

  lemma NotBound(cfg: Config, now: int, t: Table, mac: Mac, n: Node)
    requires NodeOk(cfg, now, t, mac, n)
    requires n.client.phase != Bound && n.client.phase != Renewing && n.client.phase != Rebinding
    ensures Holding(n.client.log).None?
  {
  }

  lemma HearKeeps(cfg: Config, t: Table, mac: Mac, n: Node, env: Env, a: Arp)
    requires NodeOk(cfg, env.now, t, mac, n) && n.client.listen == ListenArp
    ensures Kept(cfg, env.now, t, mac, n, OnArp(n.client, env, a))
  {
    hide Kept, SendAnnounce, Orderly, Yield;
    var c := n.client;
    var c' := OnArp(c, env, a);
    assert Holding(c.log).None?;
    if !Conflicting(c, a) {
      assert c' == c;
      SameKeeps(cfg, env.now, t, mac, n, c');
    } else {
      var d := Log(c.(conflicts := Inc8(c.conflicts)), Conflict);
      HoldingAdd(c.log, Conflict);
      if (c.phase == Monitor || c.phase == Defend) && a.source != c.requestedIp {
        assert c' == d;
        SentOne(mac, c, c', Conflict);
        SameKeeps(cfg, env.now, t, mac, n, c');
      } else if c.phase == Monitor {
        AnnounceTimers(d.(phase := Defend), env);
        assert c'.timeout in c'.timers.Keys;
        SendAnnounceKeeps(cfg, t, mac, n, env, d.(phase := Defend), c');
      } else {
        YieldKeeps(cfg, t, mac, n, env, if c.phase == Defend then Log(d, LinkLocalLost) else d, c');
      }
    }
  }

  lemma SameKeeps(cfg: Config, now: int, t: Table, mac: Mac, n: Node, c': Client)
    requires NodeOk(cfg, now, t, mac, n) && Holding(n.client.log).None? && Holding(c'.log).None?
    requires c' == n.client.(conflicts := c'.conflicts, log := c'.log)
    requires c'.log == n.client.log || c'.log == n.client.log + [Conflict]
    ensures Kept(cfg, now, t, mac, n, c')
  {
    hide Keeping, Doomed, Tidy, Holding, Sent;
    if c'.log == n.client.log { SentNothing(mac, n.client, c'); } else { SentOne(mac, n.client, c', Conflict); }
    assert n.outbox + [] == n.outbox;
    if Pending(c') { TidyAdd(n.client, c', n.outbox, []); }
    if Accepting(c'.phase) && !Pending(c') { DoomedAdd(t, n.client, c', n.outbox, []); }
    SpentKept(t, mac, n, c');
  }

  lemma YieldKeeps(cfg: Config, t: Table, mac: Mac, n: Node, env: Env, d: Client, c': Client)
    requires NodeOk(cfg, env.now, t, mac, n) && Holding(n.client.log).None?
    requires d.xid == n.client.xid && d.mac == mac && SingleTimer(d)
    requires d.log == n.client.log + [Conflict] || d.log == n.client.log + [Conflict] + [LinkLocalLost]
    requires c' == Yield(d, env)
    ensures Kept(cfg, env.now, t, mac, n, c')
  {
    hide Kept, NodeOk, Yield, Holding, Outgoing, Pending, InStep;
    var c := n.client;
    YieldShape(d, env);
    HoldingAdd(c.log, Conflict);
    HoldingAdd(c.log + [Conflict], LinkLocalLost);
    HoldingAdd(d.log, NoLease);
    assert Sent(mac, c, c') == [] by { AllSilent(mac, c'.log[|c.log|..]); }
    SilentKeeps(cfg, env.now, t, mac, n, c');
  }

  lemma YieldShape(d: Client, env: Env)
    requires SingleTimer(d)
    ensures
      var r := Yield(d, env);
      && r.phase == Probe && r.xid == d.xid && r.mac == d.mac && !Pending(r) && InStep(r)
      && (r.log == d.log || r.log == d.log + [NoLease])
  {
    assert LinkLocalStop(d).timers.Keys == {};
  }

  lemma {:induction false} AllSilent(mac: Mac, acts: seq<Action>)
    requires forall i :: 0 <= i < |acts| ==> acts[i] == Conflict || acts[i] == LinkLocalLost || acts[i] == NoLease
    ensures Outgoing(mac, acts) == []
  {
    if acts != [] { AllSilent(mac, acts[1..]); }
  }

  /** Every step a client takes on its own keeps its invariant. */
  lemma LocalKeeps(cfg: Config, now: int, t: Table, mac: Mac, n: Node, s: Stimulus, env: Env)
    requires NodeOk(cfg, now, t, mac, n) && ProperEnv(now, n, env) && LocalAllowed(n.client, s, env)
    ensures NodeOk(cfg, now, t, mac, LocalNode(mac, n, s, env))
  {
    hide Kept, Start, Fire, Stop, OnOffer, OnArp, Orderly, Keeping, LocalNode;
    var c := n.client;
    match s {
      case DoStart(last) => DoStartKeeps(cfg, t, mac, n, env, last);
      case DoStop => StopKeeps(cfg, t, mac, n, env);
      case Expire(id) =>
        match c.timers[id].callback {
          case DiscoverTimeout => DiscoverTimeoutKeeps(cfg, t, mac, n, env);
          case RequestTimeout => RequestTimeoutKeeps(cfg, t, mac, n, env);
          case RestartTimeout => RestartTimeoutKeeps(cfg, t, mac, n, env);
          case RenewTimeout => RenewTimeoutKeeps(cfg, t, mac, n, env);
          case ReboundTimeout => ReboundTimeoutKeeps(cfg, t, mac, n, env);
          case _ => ClaimTimeoutKeeps(cfg, t, mac, n, env);
        }
      case Receive(p) =>
        if Owned(c, p) && c.phase == InitSelecting && p.messageType.value == DHCPOFFER {
          OfferKeeps(cfg, t, mac, n, env, p);
        } else {
          UnchangedKeeps(cfg, now, t, mac, n);
        }
      case Hear(a) => HearKeeps(cfg, t, mac, n, env, a);
    }
    KeptIsOk(cfg, now, t, mac, n, s, env);
  }

  lemma UnchangedKeeps(cfg: Config, now: int, t: Table, mac: Mac, n: Node)
    requires NodeOk(cfg, now, t, mac, n)
    ensures Kept(cfg, now, t, mac, n, n.client)
  {
    SentNothing(mac, n.client, n.client);
    assert n.outbox + [] == n.outbox;
    assert n.used + {n.client.xid} == n.used;
  }
}
