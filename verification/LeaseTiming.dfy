/** How long a client keeps an address after an ACK (section 4.4.5 of RFC 2131): it halves
    its lease counter on every timer, and gives the address up strictly before the lease ends. */
module LeaseTiming {
  import opened Basics
  import opened ClientSpec
  import opened ClientTimers

  /** The lease counter after `n` timers. */
  function Halved(l: nat, n: nat): nat {
    if n == 0 then l else Halved(l, n - 1) / 2
  }

  /** The seconds scheduled by the ACK and the `n` timers after it. */
  function Delays(l: nat, n: nat): nat {
    if n == 0 then l / 2 else Delays(l, n - 1) + Halved(l, n) / 2
  }

  lemma {:induction false} DelaysBelowLease(l: nat, n: nat)
    ensures Delays(l, n) + Halved(l, n) - Halved(l, n) / 2 <= l
    ensures Halved(l, n) > 0 ==> Delays(l, n) < l
  {
    if n > 0 { DelaysBelowLease(l, n - 1); }
  }

  /** And to no less than the lease but for the counter that is left and a second for each halving. */
  lemma {:induction false} DelaysNearLease(l: nat, n: nat)
    ensures Delays(l, n) + Halved(l, n + 1) + n + 1 >= l
    ensures n > 0 ==> Delays(l, n) >= l / 2 + l / 4
  {
    if n > 0 {
      DelaysNearLease(l, n - 1);
      if n == 1 { assert Halved(l, 1) == l / 2 && Halved(l, 1) / 2 == l / 4; }
    }
  }

  lemma {:induction false} HalvedPow2(l: nat, n: nat)
    ensures Halved(l, n) * Pow2(n) <= l
  {
    if n > 0 {
      HalvedPow2(l, n - 1);
      var h, p := Halved(l, n - 1), Pow2(n - 1);
      assert h / 2 * 2 * p <= h * p by {
        assert h / 2 * 2 <= h;
        MulMono(h / 2 * 2, h, p);
      }
    }
  }

  lemma MulMono(a: nat, b: nat, p: nat)
    requires a <= b
    ensures a * p <= b * p
  {
  }

  /** An address was acknowledged for `l` seconds at time `t0`, and `n` timers have fired
      since without an answer. */
  ghost predicate Ticking(c: Client, l: nat, t0: int, n: nat) {
    && SingleTimer(c) && c.timeout in c.timers && l >= 10
    && c.listen != ListenArp
    && c.leaseSeconds == Halved(l, n)
    && var timer := c.timers[c.timeout];
    && timer.at == t0 + 1000 * Delays(l, n)
    && match c.phase
       case Bound => n == 0 && timer.callback == RenewTimeout
       case Renewing => n > 0 && timer.callback == RenewTimeout && c.leaseSeconds > 60
       case Rebinding => n > 0 && timer.callback == ReboundTimeout && c.leaseSeconds >= 5
       case _ => false
  }

  function Rank(p: Phase): nat {
    match p case Bound => 0 case Renewing => 1 case Rebinding => 2 case _ => 3
  }

  ghost predicate Loses(c: Client, m: Move)
    requires Enabled(c, m.stimulus)
  {
    var log := Step(c, m.stimulus, m.env).log;
    |c.log| < |log| && log[|c.log|] == LeaseLost
  }

  /** An ACK starts the clock. */
  lemma AckTicks(c: Client, env: Env, p: Packet)
    requires SingleTimer(c)
    ensures Ticking(OnAck(c, env, p), LeaseOf(p.leaseTime), env.now, 0)
  {
    var c' := OnAck(c, env, p);
    AckTimers(c, env, p);
    assert c'.timeout in c'.timers.Keys;
  }

  /** The lease time that an ACK brings: that of its option, in 28 bits, but at least ten seconds, and
      an hour without the option. The address is reported, all that was pending is dropped, and the
      first renewal is half of that time away. */
  lemma AckKeepsLease(c: Client, env: Env, p: Packet)
    requires SingleTimer(c)
    ensures
      var c' := OnAck(c, env, p);
      && (p.leaseTime == None ==> c'.leaseSeconds == 3600)
      && (p.leaseTime.Some? && 10 <= p.leaseTime.value < 0x1000_0000 ==> c'.leaseSeconds == p.leaseTime.value)
      && (p.leaseTime.Some? && p.leaseTime.value % 0x1000_0000 < 10 ==> c'.leaseSeconds == 10)
      && (p.leaseTime.Some? && p.leaseTime.value % 0x1000_0000 >= 10 ==>
            c'.leaseSeconds == p.leaseTime.value % 0x1000_0000)
      && c'.phase == Bound && c'.assignedIp == Some(p.yiaddr) && c'.listen == ListenNone && c'.retryTimes == 0
      && c'.log == c.log + [LeaseAvailable(p.yiaddr)]
      && c'.timers == map[c'.timeout := Timer(RenewTimeout, env.now + c'.leaseSeconds / 2 * 1000)]
  {
    AckTimers(c, env, p);
    var c' := OnAck(c, env, p);
    assert forall id :: id in c'.timers <==> id == c'.timeout;
  }

  /** A timer that fires on time moves the clock on, through BOUND, RENEWING and REBINDING
      in this order, or reports the loss of the lease before its end. */
  lemma TimerTicks(c: Client, l: nat, t0: int, n: nat, env: Env)
    requires Ticking(c, l, t0, n) && env.now == c.timers[c.timeout].at
    ensures
      var m := Move(Expire(c.timeout), env);
      var c' := Fire(c, env, c.timeout);
      && (if Loses(c, m) then
            && env.now < t0 + 1000 * l && c.phase == Rebinding && c'.phase == InitSelecting
            && n > 0 && Halved(l, n + 1) <= 6
          else Ticking(c', l, t0, n + 1) && Rank(c.phase) <= Rank(c'.phase) && c'.phase != Bound)
  {
    FireSingle(c, env, c.timeout);
    DelaysBelowLease(l, n);
    if c.timers[c.timeout].callback == RenewTimeout {
      RenewTicks(c, l, t0, n, env);
    } else {
      ReboundTicks(c, l, t0, n, env);
    }
  }

  lemma RenewTicks(c: Client, l: nat, t0: int, n: nat, env: Env)
    requires Ticking(c, l, t0, n) && env.now == c.timers[c.timeout].at
    requires c.timers[c.timeout].callback == RenewTimeout
    ensures
      var c' := Fire(c, env, c.timeout);
      && Ticking(c', l, t0, n + 1) && Rank(c.phase) <= Rank(c'.phase) && c'.phase != Bound
      && !Loses(c, Move(Expire(c.timeout), env))
  {
    FireSingle(c, env, c.timeout);
    RenewTimers(c, env);
    assert Halved(l, n + 1) == c.leaseSeconds / 2;
  }

  lemma ReboundTicks(c: Client, l: nat, t0: int, n: nat, env: Env)
    requires Ticking(c, l, t0, n) && env.now == c.timers[c.timeout].at
    requires c.timers[c.timeout].callback == ReboundTimeout
    ensures
      var c' := Fire(c, env, c.timeout);
      if Loses(c, Move(Expire(c.timeout), env)) then c'.phase == InitSelecting && Halved(l, n + 1) <= 6
      else Ticking(c', l, t0, n + 1) && c'.phase == Rebinding
  {
    FireSingle(c, env, c.timeout);
    ReboundTimers(c, env);
    assert Halved(l, n + 1) == c.leaseSeconds / 2;
    var d := c.(listen := Listen2, leaseSeconds := c.leaseSeconds / 2);
    if d.leaseSeconds <= 6 {
      assert OnReboundTimeout(c, env) == Restart(Log(d, LeaseLost), env, 0);
      assert OnReboundTimeout(c, env).log[|c.log|] == LeaseLost;
    }
  }

  // ---------------------------------------------------------------- runs

  /** No ACK or NAK for this client and no stop; timers fire when due. */
  ghost predicate QuietMove(c: Client, m: Move)
    requires Enabled(c, m.stimulus)
  {
    match m.stimulus
    case Expire(id) => m.env.now == c.timers[id].at
    case Receive(p) => !(Owned(c, p) && (p.messageType == Some(DHCPACK) || p.messageType == Some(DHCPNAK)))
    case DoStop => false
    case _ => true
  }

  /** A run that is quiet until the lease is lost, if it is. */
  ghost predicate Quiet(c: Client, ms: seq<Move>)
    requires Legal(c, ms)
    decreases |ms|
  {
    ms == [] ||
    (QuietMove(c, ms[0]) && (Loses(c, ms[0]) || Quiet(Step(c, ms[0].stimulus, ms[0].env), ms[1..])))
  }

  /** When the run reports the loss of the lease. */
  ghost function LossTime(c: Client, ms: seq<Move>): Option<int>
    requires Legal(c, ms)
    decreases |ms|
  {
    if ms == [] then None
    else if Loses(c, ms[0]) then Some(ms[0].env.now)
    else LossTime(Step(c, ms[0].stimulus, ms[0].env), ms[1..])
  }

  /** The phases a run goes through up to the loss of the lease. */
  ghost function Phases(c: Client, ms: seq<Move>): (r: seq<Phase>)
    requires Legal(c, ms)
    ensures r != []
    decreases |ms|
  {
    if ms == [] || Loses(c, ms[0]) then [c.phase]
    else [c.phase] + Phases(Step(c, ms[0].stimulus, ms[0].env), ms[1..])
  }

  /** The timers that fire up to the loss of the lease, the one that reports it among them. */
  ghost function FiringsToLoss(c: Client, ms: seq<Move>): nat
    requires Legal(c, ms)
    decreases |ms|
  {
    if ms == [] then 0
    else (if ms[0].stimulus.Expire? then 1 else 0) +
         (if Loses(c, ms[0]) then 0 else FiringsToLoss(Step(c, ms[0].stimulus, ms[0].env), ms[1..]))
  }

  /** BOUND, RENEWING and REBINDING, in this order. */
  ghost predicate InOrder(ps: seq<Phase>) {
    && (forall i :: 0 <= i < |ps| ==> Rank(ps[i]) <= 2)
    && (forall i, j :: 0 <= i < j < |ps| ==> Rank(ps[i]) <= Rank(ps[j]))
  }

  /** In every run after an ACK for `l` seconds without a further answer the client goes through
      BOUND, RENEWING and REBINDING in this order, and either still holds the address, with all its
      delays inside the lease, or has reported the loss strictly before the lease ended and out of
      REBINDING; in both cases after only logarithmically many timers. */
  lemma {:induction false} LeaseLostInTime(c: Client, l: nat, t0: int, n: nat, ms: seq<Move>)
    requires Ticking(c, l, t0, n) && Legal(c, ms) && Quiet(c, ms)
    ensures InOrder(Phases(c, ms)) && Phases(c, ms)[0] == c.phase
    ensures
      var f := FiringsToLoss(c, ms);
      match LossTime(c, ms)
      case None =>
        && Ticking(After(c, ms), l, t0, n + f)
        && After(c, ms).timers[After(c, ms).timeout].at < t0 + 1000 * l
        && 5 * Pow2(n + f) <= l
      case Some(t) =>
        && t < t0 + 1000 * l && Phases(c, ms)[|Phases(c, ms)| - 1] == Rebinding
        && f > 0 && 5 * Pow2(n + f - 1) <= l
    decreases |ms|
  {
    hide Ticking, LossTime, FiringsToLoss, Legal, Quiet, Phases, InOrder, After, Pow2;
    GoesThrough(c, l, t0, n, ms);
    LostBefore(c, l, t0, n, ms);
  }

  lemma {:induction false} GoesThrough(c: Client, l: nat, t0: int, n: nat, ms: seq<Move>)
    requires Ticking(c, l, t0, n) && Legal(c, ms) && Quiet(c, ms)
    ensures InOrder(Phases(c, ms)) && Phases(c, ms)[0] == c.phase
    ensures LossTime(c, ms).Some? ==> Phases(c, ms)[|Phases(c, ms)| - 1] == Rebinding
    decreases |ms|
  {
    hide Ticking, Step, Loses, Pow2, QuietMove;
    TickingInside(c, l, t0, n);
    if ms != [] {
      var m := ms[0];
      var c' := Step(c, m.stimulus, m.env);
      QuietStep(c, l, t0, n, m);
      if !Loses(c, m) {
        GoesThrough(c', l, t0, if m.stimulus.Expire? then n + 1 else n, ms[1..]);
        InOrderAdd(c.phase, Phases(c', ms[1..]));
      }
    }
  }

  lemma {:induction false} LostBefore(c: Client, l: nat, t0: int, n: nat, ms: seq<Move>)
    requires Ticking(c, l, t0, n) && Legal(c, ms) && Quiet(c, ms)
    ensures
      var f := FiringsToLoss(c, ms);
      match LossTime(c, ms)
      case None =>
        && Ticking(After(c, ms), l, t0, n + f)
        && After(c, ms).timers[After(c, ms).timeout].at < t0 + 1000 * l
        && 5 * Pow2(n + f) <= l
      case Some(t) => t < t0 + 1000 * l && f > 0 && 5 * Pow2(n + f - 1) <= l
    decreases |ms|
  {
    hide Ticking, Step, Loses, Pow2, QuietMove;
    TickingInside(c, l, t0, n);
    if ms != [] {
      var m := ms[0];
      QuietStep(c, l, t0, n, m);
      if !Loses(c, m) {
        LostBefore(Step(c, m.stimulus, m.env), l, t0, if m.stimulus.Expire? then n + 1 else n, ms[1..]);
      }
    }
  }

  lemma InOrderAdd(p: Phase, ps: seq<Phase>)
    requires InOrder(ps) && ps != [] && Rank(p) <= Rank(ps[0])
    ensures InOrder([p] + ps)
  {
    var qs := [p] + ps;
    forall i, j | 0 <= i < j < |qs| ensures Rank(qs[i]) <= Rank(qs[j]) {
      assert qs[j] == ps[j - 1];
      assert Rank(ps[0]) <= Rank(ps[j - 1]);
      assert i > 0 ==> qs[i] == ps[i - 1];
    }
  }

  lemma QuietStep(c: Client, l: nat, t0: int, n: nat, m: Move)
    requires Ticking(c, l, t0, n) && Enabled(c, m.stimulus) && QuietMove(c, m)
    ensures if Loses(c, m) then
              && m.env.now < t0 + 1000 * l && c.phase == Rebinding && m.stimulus.Expire?
              && m.env.now == t0 + 1000 * Delays(l, n) && n > 0 && Halved(l, n + 1) <= 6
            else Ticking(Step(c, m.stimulus, m.env), l, t0, if m.stimulus.Expire? then n + 1 else n)
    ensures !Loses(c, m) ==> Rank(c.phase) <= Rank(Step(c, m.stimulus, m.env).phase)
  {
    hide OnPacket, OnArp, Start, Stop;
    if m.stimulus.Expire? {
      TimerTicks(c, l, t0, n, m.env);
    } else {
      QuietStays(c, l, t0, n, m);
    }
  }

  lemma TickingInside(c: Client, l: nat, t0: int, n: nat)
    requires Ticking(c, l, t0, n)
    ensures c.timeout in c.timers && c.timers[c.timeout].at < t0 + 1000 * l && 5 * Pow2(n) <= l && Rank(c.phase) <= 2
  {
    DelaysBelowLease(l, n);
    HalvedPow2(l, n);
    MulMono(5, Halved(l, n), Pow2(n));
  }

  lemma QuietStays(c: Client, l: nat, t0: int, n: nat, m: Move)
    requires Ticking(c, l, t0, n) && Enabled(c, m.stimulus) && QuietMove(c, m) && !m.stimulus.Expire?
    ensures Step(c, m.stimulus, m.env) == c
  {
  }

  /** Nor is the lease lost early: it is kept for all of its time but six seconds and one for every
      timer that fired, and in any case for three quarters of it. */
  lemma {:induction false} LeaseKept(c: Client, l: nat, t0: int, n: nat, ms: seq<Move>)
    requires Ticking(c, l, t0, n) && Legal(c, ms) && Quiet(c, ms)
    ensures
      match LossTime(c, ms)
      case None => true
      case Some(t) =>
        && t >= t0 + 1000 * (l - 6 - (n + FiringsToLoss(c, ms)))
        && t >= t0 + 1000 * (l / 2 + l / 4)
    decreases |ms|
  {
    hide Ticking, Step, Loses, QuietMove, Delays, Halved;
    if ms != [] {
      QuietStep(c, l, t0, n, ms[0]);
      if Loses(c, ms[0]) {
        DelaysNearLease(l, n);
      } else {
        LeaseKept(Step(c, ms[0].stimulus, ms[0].env), l, t0, if ms[0].stimulus.Expire? then n + 1 else n, ms[1..]);
      }
    }
  }

  /** From the ACK on, for a lease of `l` seconds: a quiet run that reports the loss does so after
      `f` timers, with 5 * 2^(f - 1) <= l, in the last 6 + f seconds of the lease. */
  lemma LeaseUsed(c: Client, env: Env, p: Packet, l: nat, ms: seq<Move>)
    requires SingleTimer(c) && p.leaseTime == Some(l) && 10 <= l < 0x1000_0000
    requires Legal(OnAck(c, env, p), ms) && Quiet(OnAck(c, env, p), ms)
    ensures
      var c' := OnAck(c, env, p);
      match LossTime(c', ms)
      case None => true
      case Some(t) =>
        var f := FiringsToLoss(c', ms);
        && env.now + 1000 * (l - 6 - f) <= t < env.now + 1000 * l
        && env.now + 1000 * (l / 2 + l / 4) <= t
        && f > 0 && 5 * Pow2(f - 1) <= l
  {
    hide Ticking, OnAck, LossTime, FiringsToLoss, Legal, Quiet, Phases, InOrder, After, Pow2;
    AckTicks(c, env, p);
    LeaseLostInTime(OnAck(c, env, p), l, env.now, 0, ms);
    LeaseKept(OnAck(c, env, p), l, env.now, 0, ms);
  }

  // ---------------------------------------------------------------- what is sent

  /** What a timer puts on the wire, by the counter it halves: with more than 60 seconds left the
      client asks its server, from there on without another word it turns to all servers, which it asks
      while more than six are left, and then reports the loss and starts over. */
  lemma TimerSends(c: Client, l: nat, t0: int, n: nat, env: Env)
    requires Ticking(c, l, t0, n)
    ensures
      var c' := Fire(c, env, c.timeout);
      var h := c.leaseSeconds / 2;
      if c.phase != Rebinding then
        if h > 60 then
          c'.log == c.log + [Renewed(c.xid, c.requestedIp)] && c'.phase == Renewing && c'.listen == Listen3
        else c'.log == c.log && c'.phase == Rebinding && c'.listen == Listen3
      else if h > 6 then
        c'.log == c.log + [Rebound(c.xid, c.requestedIp)] && c'.phase == Rebinding && c'.listen == Listen2
      else
        && c'.phase == InitSelecting && c'.listen == Listen2 && c'.assignedIp == None && c'.xid == env.xid
        && c'.log == c.log + [LeaseLost, Discovered(env.xid, match c.lastAddress
                                                         case None => 0
                                                         case Some(ip) => if ip == 0xffff_ffff then 0 else ip)]
        && c'.requestedIp == 0
  {
    hide SingleTimer, Halved, Delays;
  }

  /** A stop sends a RELEASE of the address if and only if the client holds one, and reports the stop;
      what is left of the client are its settings and the count of conflicts. */
  lemma StopSends(c: Client)
    requires SingleTimer(c)
    ensures
      var held := c.phase == Bound || c.phase == Renewing || c.phase == Rebinding;
      Stop(c) == c.(log := c.log + (if held then [Freed(c.requestedIp, c.serverIp)] else []) + [Stopped],
                    phase := Released, listen := ListenNone, retryTimes := 0, ackRetryTimes := 0,
                    requestedIp := 0, leaseSeconds := 0, timers := map[], timeout := 0)
  {
    assert c.timers - {c.timeout} == map[];
  }

  // ---------------------------------------------------------------- NAK

  /** A NAK never reports the loss of the lease, and its restart goes back to INIT_SELECTING
      (and forgets the address) if and only if the 8-bit count of NAKs wraps around: in all
      other cases the client stays in its phase and keeps the address without a lease timer. */
  lemma NakKeepsAddress(c: Client, env: Env, env': Env)
    requires SingleTimer(c) && (c.phase == Requesting || c.phase == Renewing || c.phase == Rebinding)
    ensures
      var c1 := OnNak(c, env);
      && c1.timeout in c1.timers
      && var c2 := Fire(c1, env', c1.timeout);
      && |c2.log| == |c.log| + 1 && c2.log[..|c.log|] == c.log && c2.log[|c.log|] != LeaseLost
      && (if c.ackRetryTimes == 255 then c2.phase == InitSelecting && c2.assignedIp == None
          else c2.phase == c.phase && c2.assignedIp == c.assignedIp)
  {
    hide SingleTimer, Restart;
    var c1 := OnNak(c, env);
    var k := Inc8(c.ackRetryTimes);
    var c2 := c1.(ackRetryTimes := k);
    assert RunCallback(c1, env', RestartTimeout) == Restart(c2, env', k);
    RestartReports(c2, env', k);
  }

  /** A restart reports one thing, and never the loss of the lease; only the count of restarts says
      whether the phase and the address go. */
  lemma RestartReports(c: Client, env: Env, k: Byte)
    requires c.phase == Requesting || c.phase == Renewing || c.phase == Rebinding
    ensures
      var c' := Restart(c, env, k);
      && |c'.log| == |c.log| + 1 && c'.log[..|c.log|] == c.log && c'.log[|c.log|] != LeaseLost
      && (if k == 0 then c'.phase == InitSelecting && c'.assignedIp == None
          else c'.phase == c.phase && c'.assignedIp == c.assignedIp)
  {
  }
}
