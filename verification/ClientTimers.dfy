/** The client never has two timers pending. */
module ClientTimers {
  import opened Basics
  import opened ClientSpec

  /** At most one timer is live, and it is the one in `timeout`. */
  ghost predicate SingleTimer(c: Client) {
    && c.timeout < c.nextId
    && (forall id :: id in c.timers ==> id == c.timeout && id != 0)
  }

  /** A timer is armed on top of the pending ones. */
  ghost predicate Adds(c: Client, c': Client) {
    c'.nextId == c.nextId + 1 && c'.timeout == c.nextId && c'.timers.Keys == c.timers.Keys + {c.nextId}
  }

  /** A timer is armed in the place of the one in `timeout`. */
  ghost predicate Replaces(c: Client, c': Client) {
    c'.nextId == c.nextId + 1 && c'.timeout == c.nextId && c'.timers.Keys == c.timers.Keys - {c.timeout} + {c.nextId}
  }

  ghost predicate Drops(c: Client, c': Client) {
    c'.nextId == c.nextId && (c'.timeout == c.timeout || c'.timeout == 0) &&
        c'.timers.Keys == c.timers.Keys - {c.timeout}
  }

  ghost predicate Leaves(c: Client, c': Client) {
    c'.nextId == c.nextId && c'.timeout == c.timeout && c'.timers == c.timers
  }

  lemma ProbeTimers(c: Client, env: Env)
    ensures Adds(c, SendProbe(c, env))
  {
  }

  lemma AnnounceTimers(c: Client, env: Env)
    ensures Replaces(c, SendAnnounce(c, env))
  {
  }

  lemma LinkLocalStartTimers(c: Client, env: Env)
    ensures Replaces(c, LinkLocalStart(c, env))
  {
  }

  lemma YieldTimers(c: Client, env: Env)
    ensures Replaces(c, Yield(c, env)) || Drops(c, Yield(c, env))
  {
  }

  lemma StartRequestTimers(c: Client, env: Env)
    ensures Adds(c, StartRequest(c, env)) || Replaces(c, StartRequest(c, env))
  {
    hide LinkLocalStart;
    LinkLocalStartTimers(c.(phase := InitSelecting), env);
  }

  lemma StartTimers(c: Client, env: Env, last: Option<Ip>)
    ensures Adds(c, Start(c, env, last)) || Replaces(c, Start(c, env, last))
  {
    hide LinkLocalStart;
    LinkLocalStartTimers(c, env);
  }

  lemma RestartTimers(c: Client, env: Env, n: Byte)
    requires SingleTimer(c)
    ensures Replaces(c, Restart(c, env, n))
  {
    hide Start;
    var d := Disarm(c).(retryTimes := n, requestedIp := 0, listen := Listen2);
    StartTimers(d, env, d.lastAddress);
  }

  lemma RenewTimers(c: Client, env: Env)
    ensures Adds(c, OnRenewTimeout(c, env)) || Replaces(c, OnRenewTimeout(c, env))
  {
  }

  lemma ReboundTimers(c: Client, env: Env)
    requires SingleTimer(c)
    ensures Adds(c, OnReboundTimeout(c, env)) || Replaces(c, OnReboundTimeout(c, env))
  {
    hide Restart;
    RestartTimers(Log(c.(listen := Listen2, leaseSeconds := c.leaseSeconds / 2), LeaseLost), env, 0);
  }

  lemma ProbeTimeoutTimers(c: Client, env: Env)
    ensures Adds(c, OnProbeTimeout(c, env)) || Replaces(c, OnProbeTimeout(c, env))
  {
    hide SendAnnounce, SendProbe;
    AnnounceTimers(c.(phase := Announce, retryTimes := 1), env);
    ProbeTimers(c.(retryTimes := Inc8(c.retryTimes)), env);
  }

  lemma AnnounceTimeoutTimers(c: Client, env: Env)
    ensures Replaces(c, OnAnnounceTimeout(c, env)) || Leaves(c, OnAnnounceTimeout(c, env))
  {
    hide SendAnnounce;
    AnnounceTimers(c.(retryTimes := Inc8(c.retryTimes)), env);
  }

  /** What a callback may do to the timers while its own is still pending. */
  lemma CallbackTimers(c: Client, env: Env, callback: Callback)
    requires SingleTimer(c)
    ensures
      var c' := RunCallback(c, env, callback);
      Adds(c, c') || Replaces(c, c') || Leaves(c, c')
  {
    hide Start, StartRequest, Restart, OnRenewTimeout, OnReboundTimeout, SendProbe, OnProbeTimeout, OnAnnounceTimeout;
    StartTimers(c.(retryTimes := Inc8(c.retryTimes)), env, None);
    StartRequestTimers(c.(retryTimes := Inc8(c.retryTimes)), env);
    RestartTimers(c.(ackRetryTimes := Inc8(c.ackRetryTimes)), env, Inc8(c.ackRetryTimes));
    RenewTimers(c, env);
    ReboundTimers(c, env);
    ProbeTimers(c, env);
    ProbeTimeoutTimers(c, env);
    AnnounceTimeoutTimers(c, env);
  }

  lemma FireSingle(c: Client, env: Env, id: nat)
    requires SingleTimer(c) && id in c.timers
    ensures SingleTimer(Fire(c, env, id))
  {
    hide RunCallback;
    CallbackTimers(c, env, c.timers[id].callback);
    var c' := RunCallback(c, env, c.timers[id].callback);
    forall k | k in c'.timers && k != id ensures k == c'.timeout && k != 0 {
      assert k in c'.timers.Keys;
    }
  }

  lemma OfferTimers(c: Client, env: Env, p: Packet)
    requires SingleTimer(c)
    ensures Replaces(c, OnOffer(c, env, p))
  {
    hide StartRequest;
    var d := Disarm(c).(retryTimes := 0, serverIp := p.serverId, requestedIp := p.yiaddr, phase := Requesting);
    StartRequestTimers(d, env);
  }

  lemma AckTimers(c: Client, env: Env, p: Packet)
    requires SingleTimer(c)
    ensures Replaces(c, OnAck(c, env, p))
  {
  }

  lemma PacketTimers(c: Client, env: Env, p: Packet)
    requires SingleTimer(c)
    ensures Replaces(c, OnPacket(c, env, p)) || Leaves(c, OnPacket(c, env, p))
  {
    hide OnOffer, OnAck;
    OfferTimers(c, env, p);
    AckTimers(c, env, p);
  }

  lemma ArpTimers(c: Client, env: Env, a: Arp)
    ensures var c' := OnArp(c, env, a); Replaces(c, c') || Leaves(c, c') || Drops(c, c')
  {
    hide SendAnnounce, Yield;
    var d := Log(c.(conflicts := Inc8(c.conflicts)), Conflict);
    AnnounceTimers(d.(phase := Defend), env);
    YieldTimers(Log(d, LinkLocalLost), env);
    YieldTimers(d, env);
  }

  /** Every step keeps the timer discipline, whatever its outside choices. */
  lemma StepSingle(c: Client, s: Stimulus, env: Env)
    requires SingleTimer(c) && Enabled(c, s)
    ensures SingleTimer(Step(c, s, env))
    ensures s.DoStop? ==> Step(c, s, env).timers == map[]
  {
    hide Start, Fire, OnPacket, OnArp;
    var c' := Step(c, s, env);
    match s {
      case DoStart(last) => StartTimers(c, env, last);
      case DoStop => assert c'.timers.Keys == {};
      case Expire(id) => FireSingle(c, env, id);
      case Receive(p) => PacketTimers(c, env, p);
      case Hear(a) => ArpTimers(c, env, a);
    }
    if !s.Expire? {
      forall k | k in c'.timers ensures k == c'.timeout && k != 0 {
        assert k in c'.timers.Keys;
      }
    }
  }

  /** In every state of every run at most one timer is live, the one in `timeout`. */
  lemma {:induction false} AlwaysSingleTimer(c: Client, ms: seq<Move>)
    requires SingleTimer(c) && Legal(c, ms)
    ensures SingleTimer(After(c, ms)) && |After(c, ms).timers| <= 1
    decreases |ms|
  {
    if ms == [] {
      assert c.timers.Keys <= {c.timeout};
      SubsetSize(c.timers.Keys, c.timeout);
    } else {
      StepSingle(c, ms[0].stimulus, ms[0].env);
      AlwaysSingleTimer(Step(c, ms[0].stimulus, ms[0].env), ms[1..]);
    }
  }

  lemma SubsetSize(s: set<nat>, x: nat)
    requires s <= {x}
    ensures |s| <= 1
  {
    if x in s { assert s == {x}; } else { assert s == {}; }
  }

  /** A new client starts without one. */
  lemma NewSingle(mac: Mac)
    ensures SingleTimer(New(mac))
  {
  }

  /** A stop leaves no timer behind in any run. */
  lemma StopLeavesNone(c: Client, ms: seq<Move>, env: Env)
    requires SingleTimer(c) && Legal(c, ms)
    ensures Stop(After(c, ms)).timers == map[]
  {
    AlwaysSingleTimer(c, ms);
    StepSingle(After(c, ms), DoStop, env);
  }
}
