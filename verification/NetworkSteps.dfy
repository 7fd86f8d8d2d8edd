/** What the steps of a client mean for its messages and its lease: the lemmas behind
    `NetworkSafety`. */
module NetworkSteps {
  import opened Basics
  import opened LeaseTable
  import Server = ServerSpec
  import opened ServerRuns
  import opened ClientSpec
  import opened ClientTimers
  import opened Network

  // ---------------------------------------------------------------- small facts

  lemma SentNothing(mac: Mac, c: Client, c': Client)
    requires c'.log == c.log
    ensures Sent(mac, c, c') == []
  {
    assert c'.log[|c.log|..] == [];
  }

  lemma SentOne(mac: Mac, c: Client, c': Client, a: Action)
    requires c'.log == c.log + [a]
    ensures Sent(mac, c, c') == ToServer(mac, a)
  {
    assert c'.log[|c.log|..] == [a];
    assert Outgoing(mac, [a]) == ToServer(mac, a) + Outgoing(mac, []);
  }

  lemma SentTwo(mac: Mac, c: Client, c': Client, a: Action, b: Action)
    requires c'.log == c.log + [a] + [b]
    ensures Sent(mac, c, c') == ToServer(mac, a) + ToServer(mac, b)
  {
    assert c'.log[|c.log|..] == [a, b];
    assert [a, b][1..] == [b];
    assert Outgoing(mac, [b]) == ToServer(mac, b) + Outgoing(mac, []);
    assert Outgoing(mac, [a, b]) == ToServer(mac, a) + Outgoing(mac, [b]);
  }

  lemma HoldingAdd(log: seq<Action>, a: Action)
    ensures Holding(log + [a]) ==
            match a
            case LeaseAvailable(ip) => Some(ip)
            case LeaseLost => None
            case Stopped => None
            case _ => Holding(log)
  {
    assert (log + [a])[..|log|] == log;
  }

  lemma TidyAdd(c: Client, c': Client, out: seq<Server.Request>, ms: seq<Server.Request>)
    requires Tidy(c, out) && c'.xid == c.xid && c'.requestedIp == c.requestedIp
    requires ms == [] || (|ms| == 1 && Asking(c', ms[0]))
    ensures Tidy(c', out + ms)
  {
  }

  lemma TidyFirst(c: Client, out: seq<Server.Request>, m: Server.Request)
    requires NoneAsked(c, out) && Asking(c, m)
    ensures Tidy(c, out + [m])
  {
  }

  lemma DoomedAdd(t: Table, c: Client, c': Client, out: seq<Server.Request>, ms: seq<Server.Request>)
    requires Doomed(t, c, out) && c'.xid == c.xid && c'.mac == c.mac
    requires forall m :: m in ms ==> !CurRequest(c', m)
    ensures Doomed(t, c', out + ms)
  {
  }

  // ---------------------------------------------------------------- timers are not overdue

  /** The hardware address stays; every timer is due later. */
  ghost predicate Sane(c: Client, mac: Mac, now: int) {
    c.mac == mac && forall id :: id in c.timers ==> now <= c.timers[id].at
  }

  lemma LinkLocalStartSane(c: Client, env: Env)
    requires Sane(c, c.mac, env.now)
    ensures Sane(LinkLocalStart(c, env), c.mac, env.now)
  {
  }

  lemma StartSane(c: Client, env: Env, last: Option<Ip>)
    requires Sane(c, c.mac, env.now)
    ensures Sane(Start(c, env, last), c.mac, env.now)
  {
    hide LinkLocalStart;
    LinkLocalStartSane(c, env);
  }

  lemma StartRequestSane(c: Client, env: Env)
    requires Sane(c, c.mac, env.now)
    ensures Sane(StartRequest(c, env), c.mac, env.now)
  {
    hide LinkLocalStart;
    LinkLocalStartSane(c.(phase := InitSelecting), env);
  }

  lemma RestartSane(c: Client, env: Env, n: Byte)
    requires Sane(c, c.mac, env.now)
    ensures Sane(Restart(c, env, n), c.mac, env.now)
  {
    hide Start;
    var d := Disarm(c).(retryTimes := n, requestedIp := 0, listen := Listen2);
    StartSane(d, env, d.lastAddress);
  }

  lemma LeaseTimersSane(c: Client, env: Env)
    requires Sane(c, c.mac, env.now)
    ensures Sane(OnRenewTimeout(c, env), c.mac, env.now) && Sane(OnReboundTimeout(c, env), c.mac, env.now)
  {
    hide Restart;
    RestartSane(Log(c.(listen := Listen2, leaseSeconds := c.leaseSeconds / 2), LeaseLost), env, 0);
  }

  lemma ProbeSane(c: Client, env: Env)
    requires Sane(c, c.mac, env.now)
    ensures Sane(SendProbe(c, env), c.mac, env.now)
  {
  }

  lemma AnnounceSane(c: Client, env: Env)
    requires Sane(c, c.mac, env.now)
    ensures Sane(SendAnnounce(c, env), c.mac, env.now)
  {
  }

  lemma ClaimTimersSane(c: Client, env: Env)
    requires Sane(c, c.mac, env.now)
    ensures Sane(OnProbeTimeout(c, env), c.mac, env.now) && Sane(OnAnnounceTimeout(c, env), c.mac, env.now)
  {
    hide SendProbe, SendAnnounce;
    ProbeSane(c.(retryTimes := Inc8(c.retryTimes)), env);
    AnnounceSane(c.(phase := Announce, retryTimes := 1), env);
    AnnounceSane(c.(retryTimes := Inc8(c.retryTimes)), env);
  }

  lemma CallbackSane(c: Client, env: Env, callback: Callback)
    requires Sane(c, c.mac, env.now)
    ensures Sane(RunCallback(c, env, callback), c.mac, env.now)
  {
    hide Start, StartRequest, Restart, OnRenewTimeout, OnReboundTimeout, SendProbe, OnProbeTimeout, OnAnnounceTimeout;
    StartSane(c.(retryTimes := Inc8(c.retryTimes)), env, None);
    StartRequestSane(c.(retryTimes := Inc8(c.retryTimes)), env);
    RestartSane(c.(ackRetryTimes := Inc8(c.ackRetryTimes)), env, Inc8(c.ackRetryTimes));
    LeaseTimersSane(c, env);
    ProbeSane(c, env);
    ClaimTimersSane(c, env);
  }

  lemma PacketSane(c: Client, env: Env, p: Packet)
    requires Sane(c, c.mac, env.now)
    ensures Sane(OnPacket(c, env, p), c.mac, env.now)
  {
    hide StartRequest;
    var d := Disarm(c).(retryTimes := 0, serverIp := p.serverId, requestedIp := p.yiaddr, phase := Requesting);
    StartRequestSane(d, env);
  }

  lemma ArpSane(c: Client, env: Env, a: Arp)
    requires Sane(c, c.mac, env.now)
    ensures Sane(OnArp(c, env, a), c.mac, env.now)
  {
    hide SendAnnounce;
    AnnounceSane(Log(c.(conflicts := Inc8(c.conflicts)), Conflict).(phase := Defend), env);
  }

  lemma StepSane(c: Client, s: Stimulus, env: Env)
    requires Sane(c, c.mac, env.now) && Enabled(c, s)
    ensures Sane(Step(c, s, env), c.mac, env.now)
  {
    hide Start, RunCallback, OnPacket, OnArp;
    match s {
      case DoStart(last) => StartSane(c, env, last);
      case DoStop =>
      case Expire(id) => CallbackSane(c, env, c.timers[id].callback);
      case Receive(p) => PacketSane(c, env, p);
      case Hear(a) => ArpSane(c, env, a);
    }
  }
}
