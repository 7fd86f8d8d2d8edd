/** When the client reports a link-local address it has claimed it as sections 2.1, 2.2.1
    and 2.4 of RFC 3927 ask: three probes and two announcements, unanswered, for an address
    of the range. */
module LinkLocalClaim {
  import opened Basics
  import opened ClientSpec
  import opened ClientTimers

  function Repeat(a: Action, n: nat): seq<Action> {
    seq(n, _ => a)
  }

  /** The claim of `ip` after `p` probes and `a` announcements. */
  function Claim(ip: Ip, p: nat, a: nat): seq<Action> {
    [Picked(ip)] + Repeat(Probed(ip), p) + Repeat(Announced(ip), a)
  }

  ghost predicate EndsWith(log: seq<Action>, s: seq<Action>) {
    |s| <= |log| && log[|log| - |s|..] == s
  }

  /** The log's last actions are exactly this claim. */
  ghost predicate Claiming(c: Client, p: nat, a: nat) {
    InLinkLocal(c.requestedIp) && EndsWith(c.log, Claim(c.requestedIp, p, a))
  }

  /** Every reported address was claimed just before. */
  ghost predicate ReportsClaimed(log: seq<Action>) {
    forall i :: 0 <= i < |log| && log[i].LinkLocalAvailable? ==>
      && InLinkLocal(log[i].ip)
      && EndsWith(log[..i], Claim(log[i].ip, PROBE_NUM, ANNOUNCE_NUM))
  }

  /** How far the pending timer says the claim has come. */
  ghost predicate ClaimState(c: Client, callback: Callback) {
    match callback
    case SendProbePacket => c.retryTimes == 1 && c.listen == ListenNone && (c.requestedIp == 0 || Claiming(c, 0, 0))
    case ProbeTimeout =>
      c.phase == Probe && c.listen == ListenArp && 1 <= c.retryTimes <= PROBE_NUM && Claiming(c, c.retryTimes, 0)
    case AnnounceTimeout =>
      c.phase == Announce && c.listen == ListenArp && 1 <= c.retryTimes <= ANNOUNCE_NUM &&
          Claiming(c, PROBE_NUM, c.retryTimes)
    case _ => true
  }

  ghost predicate ClaimInv(c: Client) {
    && SingleTimer(c)
    && ReportsClaimed(c.log)
    && (c.timeout in c.timers ==> ClaimState(c, c.timers[c.timeout].callback))
  }

  lemma RepeatOne(a: Action, n: nat)
    ensures Repeat(a, n) + [a] == Repeat(a, n + 1)
  {
  }

  lemma ClaimProbe(ip: Ip, p: nat)
    ensures Claim(ip, p, 0) + [Probed(ip)] == Claim(ip, p + 1, 0)
  {
    RepeatOne(Probed(ip), p);
    assert Repeat(Announced(ip), 0) == [];
  }

  lemma ClaimAnnounce(ip: Ip, p: nat, a: nat)
    ensures Claim(ip, p, a) + [Announced(ip)] == Claim(ip, p, a + 1)
  {
    RepeatOne(Announced(ip), a);
  }

  lemma EndsWithOne(log: seq<Action>, s: seq<Action>, x: Action)
    requires EndsWith(log, s)
    ensures EndsWith(log + [x], s + [x])
  {
  }

  lemma ReportsOther(log: seq<Action>, x: Action)
    requires ReportsClaimed(log) && !x.LinkLocalAvailable?
    ensures ReportsClaimed(log + [x])
  {
    forall i | 0 <= i < |log + [x]| && (log + [x])[i].LinkLocalAvailable?
      ensures EndsWith((log + [x])[..i], Claim((log + [x])[i].ip, PROBE_NUM, ANNOUNCE_NUM))
    {
      assert (log + [x])[..i] == log[..i];
    }
  }

  lemma ReportsNew(log: seq<Action>, ip: Ip)
    requires ReportsClaimed(log) && InLinkLocal(ip) && EndsWith(log, Claim(ip, PROBE_NUM, ANNOUNCE_NUM))
    ensures ReportsClaimed(log + [LinkLocalAvailable(ip)])
  {
    var log' := log + [LinkLocalAvailable(ip)];
    forall i | 0 <= i < |log'| && log'[i].LinkLocalAvailable?
      ensures EndsWith(log'[..i], Claim(log'[i].ip, PROBE_NUM, ANNOUNCE_NUM)) && InLinkLocal(log'[i].ip)
    {
      assert log'[..i] == log[..i];
      if i == |log| { assert log'[..i] == log; }
    }
  }

  // ---------------------------------------------------------------- steps of a claim

  lemma StartClaims(c: Client, env: Env)
    requires ReportsClaimed(c.log) && Proper(env)
    ensures
      var c' := LinkLocalStart(c, env);
      ReportsClaimed(c'.log) && c'.timers[c'.timeout].callback == SendProbePacket && ClaimState(c', SendProbePacket)
  {
    hide ReportsClaimed, EndsWith, Claim;
    PickClaims(c.log, env.ip);
  }

  lemma ProbeClaims(c: Client, env: Env)
    requires ReportsClaimed(c.log) && Proper(env) && c.retryTimes <= PROBE_NUM
    requires
      || (c.retryTimes == 1 && (c.requestedIp == 0 || Claiming(c, 0, 0)))
      || (c.retryTimes > 1 && c.phase == Probe && c.listen == ListenArp && Claiming(c, c.retryTimes - 1, 0))
    ensures
      var c' := SendProbe(c, env);
      ReportsClaimed(c'.log) && c'.timers[c'.timeout].callback == ProbeTimeout && ClaimState(c', ProbeTimeout)
  {
    hide ReportsClaimed, EndsWith, Claim;
    var d := if c.requestedIp == 0 then Log(c.(requestedIp := env.ip), Picked(env.ip)) else c;
    if c.requestedIp == 0 { PickClaims(c.log, env.ip); }
    EndsWithOne(d.log, Claim(d.requestedIp, c.retryTimes - 1, 0), Probed(d.requestedIp));
    ClaimProbe(d.requestedIp, c.retryTimes - 1);
    ReportsOther(d.log, Probed(d.requestedIp));
  }

  lemma PickClaims(log: seq<Action>, ip: Ip)
    requires ReportsClaimed(log)
    ensures ReportsClaimed(log + [Picked(ip)]) && EndsWith(log + [Picked(ip)], Claim(ip, 0, 0))
  {
    ReportsOther(log, Picked(ip));
    assert Claim(ip, 0, 0) == [Picked(ip)];
  }

  lemma AnnounceClaims(c: Client, env: Env)
    requires ReportsClaimed(c.log) && c.phase == Announce && c.listen == ListenArp && 1 <= c.retryTimes <= ANNOUNCE_NUM
    requires Claiming(c, PROBE_NUM, c.retryTimes - 1)
    ensures
      var c' := SendAnnounce(c, env);
      ReportsClaimed(c'.log) && c'.timers[c'.timeout].callback == AnnounceTimeout && ClaimState(c', AnnounceTimeout)
  {
    EndsWithOne(c.log, Claim(c.requestedIp, PROBE_NUM, c.retryTimes - 1), Announced(c.requestedIp));
    ClaimAnnounce(c.requestedIp, PROBE_NUM, c.retryTimes - 1);
    ReportsOther(c.log, Announced(c.requestedIp));
  }

  lemma ProbeTimeoutClaims(c: Client, env: Env)
    requires ReportsClaimed(c.log) && Proper(env) && ClaimState(c, ProbeTimeout)
    ensures
      var c' := OnProbeTimeout(c, env);
      ReportsClaimed(c'.log) && c'.timeout in c'.timers && ClaimState(c', c'.timers[c'.timeout].callback)
  {
    hide SendProbe, SendAnnounce, Claim;
    if c.retryTimes == PROBE_NUM {
      AnnounceTimers(c.(phase := Announce, retryTimes := 1), env);
      AnnounceClaims(c.(phase := Announce, retryTimes := 1), env);
    } else {
      ProbeTimers(c.(retryTimes := Inc8(c.retryTimes)), env);
      ProbeClaims(c.(retryTimes := Inc8(c.retryTimes)), env);
    }
    assert OnProbeTimeout(c, env).timeout in OnProbeTimeout(c, env).timers.Keys;
  }

  lemma AnnounceTimeoutClaims(c: Client, env: Env)
    requires ReportsClaimed(c.log) && ClaimState(c, AnnounceTimeout)
    ensures
      var c' := OnAnnounceTimeout(c, env);
      ReportsClaimed(c'.log) && (Leaves(c, c') ||
          (c'.timeout in c'.timers && ClaimState(c', c'.timers[c'.timeout].callback)))
  {
    hide SendAnnounce, Claim;
    var d := c.(retryTimes := Inc8(c.retryTimes));
    if c.retryTimes != ANNOUNCE_NUM {
      AnnounceTimers(d, env);
      AnnounceClaims(d, env);
      assert SendAnnounce(d, env).timeout in SendAnnounce(d, env).timers.Keys;
    } else {
      ReportsNew(c.log, c.requestedIp);
    }
  }

  // ---------------------------------------------------------------- the other callbacks

  /** The callback leaves a timer that is not part of a claim, or starts a new claim. */
  ghost predicate Fresh(c': Client) {
    ReportsClaimed(c'.log) && c'.timeout in c'.timers && ClaimState(c', c'.timers[c'.timeout].callback)
  }

  lemma StartRequestClaims(c: Client, env: Env)
    requires ReportsClaimed(c.log) && Proper(env)
    ensures Fresh(StartRequest(c, env))
  {
    hide LinkLocalStart, Claim;
    StartClaims(c.(phase := InitSelecting), env);
    LinkLocalStartTimers(c.(phase := InitSelecting), env);
    ReportsOther(c.log, Selected(c.xid, c.requestedIp, c.serverIp));
    assert c.retryTimes == REQUEST_RETRIES ==> StartRequest(c, env).timeout in StartRequest(c, env).timers.Keys;
  }

  lemma StartDhcpClaims(c: Client, env: Env, last: Option<Ip>)
    requires ReportsClaimed(c.log) && Proper(env)
    ensures Fresh(Start(c, env, last))
  {
    hide LinkLocalStart, Claim;
    StartClaims(c, env);
    LinkLocalStartTimers(c, env);
    var c' := Start(c, env, last);
    if c.retryTimes == DISCOVER_RETRIES {
      assert c'.timeout in c'.timers.Keys;
    } else {
      var addr := if last.Some? && last.value != 0xffff_ffff then last.value else 0;
      ReportsOther(c.log, Discovered(c'.xid, addr));
    }
  }

  lemma RestartClaims(c: Client, env: Env, n: Byte)
    requires ReportsClaimed(c.log) && Proper(env)
    ensures Fresh(Restart(c, env, n))
  {
    hide Start, Fresh;
    var d := Disarm(c).(retryTimes := n, requestedIp := 0, listen := Listen2);
    StartDhcpClaims(d, env, d.lastAddress);
  }

  lemma LeaseTimerClaims(c: Client, env: Env)
    requires ReportsClaimed(c.log) && Proper(env)
    ensures Fresh(OnRenewTimeout(c, env)) && Fresh(OnReboundTimeout(c, env))
  {
    hide Restart, Claim;
    ReportsOther(c.log, Renewed(c.xid, c.requestedIp));
    ReportsOther(c.log, Rebound(c.xid, c.requestedIp));
    ReportsOther(c.log, LeaseLost);
    RestartClaims(Log(c.(listen := Listen2, leaseSeconds := c.leaseSeconds / 2), LeaseLost), env, 0);
  }

  lemma CallbackClaims(c: Client, env: Env, callback: Callback)
    requires ReportsClaimed(c.log) && Proper(env) && ClaimState(c, callback)
    ensures
      var c' := RunCallback(c, env, callback);
      ReportsClaimed(c'.log) && (Leaves(c, c') || Fresh(c'))
  {
    hide Start, StartRequest, Restart, OnRenewTimeout, OnReboundTimeout, SendProbe, OnProbeTimeout,
        OnAnnounceTimeout, Claim, ReportsClaimed;
    match callback {
      case DiscoverTimeout => StartDhcpClaims(c.(retryTimes := Inc8(c.retryTimes)), env, None);
      case RequestTimeout => StartRequestClaims(c.(retryTimes := Inc8(c.retryTimes)), env);
      case RestartTimeout => RestartClaims(c.(ackRetryTimes := Inc8(c.ackRetryTimes)), env, Inc8(c.ackRetryTimes));
      case RenewTimeout => LeaseTimerClaims(c, env);
      case ReboundTimeout => LeaseTimerClaims(c, env);
      case SendProbePacket =>
        ProbeClaims(c, env);
        ProbeTimers(c, env);
        assert SendProbe(c, env).timeout in SendProbe(c, env).timers.Keys;
      case ProbeTimeout => ProbeTimeoutClaims(c, env);
      case AnnounceTimeout => AnnounceTimeoutClaims(c, env);
      case DefendTimeout =>
    }
  }

  lemma PacketClaims(c: Client, env: Env, p: Packet)
    requires ReportsClaimed(c.log) && Proper(env)
    ensures
      var c' := OnPacket(c, env, p);
      c' == c || Fresh(c')
  {
    hide StartRequest, Claim;
    ReportsOther(c.log, LeaseAvailable(p.yiaddr));
    var d := Disarm(c).(retryTimes := 0, serverIp := p.serverId, requestedIp := p.yiaddr, phase := Requesting);
    StartRequestClaims(d, env);
  }

  lemma YieldClaims(c: Client, env: Env)
    requires ReportsClaimed(c.log) && SingleTimer(c)
    ensures var c' := Yield(c, env); Fresh(c') || (ReportsClaimed(c'.log) && c'.timers == map[])
  {
    hide Claim;
    ReportsOther(c.log, NoLease);
    assert LinkLocalStop(c).timers.Keys == {};
  }

  /** A conflict over an address that is held. */
  lemma HeldClaims(c: Client, env: Env, a: Arp)
    requires ClaimInv(c) && c.listen == ListenArp && Proper(env) && Conflicting(c, a)
    requires c.phase == Monitor || c.phase == Defend
    ensures ClaimInv(OnArp(c, env, a))
  {
    hide Yield, Claim, ReportsClaimed;
    StepSingle(c, Hear(a), env);
    var d := Log(c.(conflicts := Inc8(c.conflicts)), Conflict);
    ReportsOther(c.log, Conflict);
    if c.phase == Monitor {
      ReportsOther(d.log, Announced(d.requestedIp));
      var s := SendAnnounce(d.(phase := Defend), env);
      assert s.timers[s.timeout].callback == DefendTimeout;
    } else {
      ReportsOther(d.log, LinkLocalLost);
      YieldClaims(Log(d, LinkLocalLost), env);
    }
  }

  lemma ArpClaims(c: Client, env: Env, a: Arp)
    requires ClaimInv(c) && c.listen == ListenArp && Proper(env)
    ensures ClaimInv(OnArp(c, env, a))
  {
    hide Yield, Claim, ReportsClaimed;
    if Conflicting(c, a) {
      if c.phase == Monitor || c.phase == Defend {
        HeldClaims(c, env, a);
      } else {
        StepSingle(c, Hear(a), env);
        ReportsOther(c.log, Conflict);
        YieldClaims(Log(c.(conflicts := Inc8(c.conflicts)), Conflict), env);
      }
    }
  }

  // ---------------------------------------------------------------- runs

  lemma StepClaims(c: Client, s: Stimulus, env: Env)
    requires ClaimInv(c) && Enabled(c, s) && Proper(env)
    ensures ClaimInv(Step(c, s, env))
  {
    hide RunCallback, OnPacket, OnArp, Start, Claim, ReportsClaimed;
    StepSingle(c, s, env);
    match s {
      case DoStart(last) => StartDhcpClaims(c, env, last);
      case DoStop =>
        ReportsOther(c.log, Freed(c.requestedIp, c.serverIp));
        ReportsOther(c.log, Stopped);
        ReportsOther(c.log + [Freed(c.requestedIp, c.serverIp)], Stopped);
      case Expire(id) =>
        CallbackClaims(c, env, c.timers[id].callback);
        CallbackTimers(c, env, c.timers[id].callback);
      case Receive(p) => PacketClaims(c, env, p);
      case Hear(a) => ArpClaims(c, env, a);
    }
  }

  /** In every run of a new client each report of a link-local address comes right after
      picking it, probing it three times and announcing it twice, with nothing in between:
      no conflicting ARP packet, no other address, no restart. */
  lemma {:induction false} ClaimSafety(c: Client, ms: seq<Move>)
    requires ClaimInv(c) && Legal(c, ms)
    ensures ClaimInv(After(c, ms)) && ReportsClaimed(After(c, ms).log)
    decreases |ms|
  {
    if ms != [] {
      StepClaims(c, ms[0].stimulus, ms[0].env);
      ClaimSafety(Step(c, ms[0].stimulus, ms[0].env), ms[1..]);
    }
  }

  lemma NewClaims(mac: Mac)
    ensures ClaimInv(New(mac))
  {
  }
}
