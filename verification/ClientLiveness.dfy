/** A client that nobody acknowledges settles: it ends up with a link-local address or
    reports that it has none, after boundedly many timers and packets. */
module ClientLiveness {
  import opened Basics
  import opened ClientSpec
  import opened ClientTimers

  function Discovers(log: seq<Action>): nat {
    if log == [] then 0 else Discovers(log[..|log| - 1]) + (if log[|log| - 1].Discovered? then 1 else 0)
  }

  function Requests(log: seq<Action>): nat {
    if log == [] then 0 else Requests(log[..|log| - 1]) + (if log[|log| - 1].Selected? then 1 else 0)
  }

  function Addresses(log: seq<Action>): nat {
    if log == [] then 0 else Addresses(log[..|log| - 1]) + (if log[|log| - 1].Picked? then 1 else 0)
  }

  lemma Counted(log: seq<Action>, a: Action)
    ensures Discovers(log + [a]) == Discovers(log) + (if a.Discovered? then 1 else 0)
    ensures Requests(log + [a]) == Requests(log) + (if a.Selected? then 1 else 0)
    ensures Addresses(log + [a]) == Addresses(log) + (if a.Picked? then 1 else 0)
  {
    assert (log + [a])[..|log|] == log;
  }

  /** The addresses a client tries at most when its count of conflicts is `k`: it goes on with
      another one as long as the next count, which wraps around at 256, is below ten. */
  function Tries(k: Byte): nat {
    if k == 255 then 11 else if k < MAX_CONFLICTS then 10 - k else 1
  }

  /** An address claimed, or failure reported. */
  predicate Settled(c: Client) {
    c.phase == Monitor || (c.log != [] && c.log[|c.log| - 1] == NoLease)
  }

  /** Since the client was started as `b` it has not sent or tried too much. */
  ghost predicate Bounded(b: Client, c: Client) {
    && Discovers(c.log) <= Discovers(b.log) + 10 && Requests(c.log) <= Requests(b.log) + 5
    && Addresses(c.log) <= Addresses(b.log) + Tries(b.conflicts)
  }

  /** The addresses tried since the start, and those still to try. */
  ghost predicate Tried(b: Client, c: Client, current: nat) {
    Addresses(c.log) + Tries(c.conflicts) == Addresses(b.log) + Tries(b.conflicts) + current
  }

  /** What the pending timer says about how far the client has come. */
  ghost predicate Stage(b: Client, c: Client, callback: Callback) {
    match callback
    case DiscoverTimeout =>
      && c.phase == InitSelecting && c.listen == Listen2 && c.retryTimes < DISCOVER_RETRIES &&
          c.conflicts == b.conflicts
      && Discovers(c.log) == Discovers(b.log) + c.retryTimes + 1 && Requests(c.log) == Requests(b.log) && Tried(b, c, 0)
    case RequestTimeout =>
      && c.phase == Requesting && c.listen == Listen2 && c.retryTimes < REQUEST_RETRIES && c.conflicts == b.conflicts
      && Requests(c.log) == Requests(b.log) + c.retryTimes + 1 && Tried(b, c, 0)
    case SendProbePacket =>
      c.listen == ListenNone && c.retryTimes == 1 && Tried(b, c, if c.requestedIp == 0 then 0 else 1)
    case ProbeTimeout =>
      && c.phase == Probe && c.listen == ListenArp && 1 <= c.retryTimes <= PROBE_NUM && c.requestedIp != 0
      && Tried(b, c, 1)
    case AnnounceTimeout =>
      && c.phase == Announce && c.listen == ListenArp && 1 <= c.retryTimes <= ANNOUNCE_NUM && c.requestedIp != 0
      && Tried(b, c, 1)
    case _ => false
  }

  /** A client on its way: a timer is pending, so that it will go on. */
  ghost predicate Seeking(b: Client, c: Client) {
    && SingleTimer(c) && c.timeout in c.timers
    && c.log != [] && !Settled(c) && Bounded(b, c)
    && Stage(b, c, c.timers[c.timeout].callback)
  }

  /** A bound on the timers still to fire. */
  function Potential(c: Client): int
    requires c.timeout in c.timers
  {
    match c.timers[c.timeout].callback
    case DiscoverTimeout => 15 + 6 * Tries(c.conflicts) - c.retryTimes
    case RequestTimeout => 5 + 6 * Tries(c.conflicts) - c.retryTimes
    case SendProbePacket => 6 * Tries(c.conflicts)
    case ProbeTimeout => 6 * Tries(c.conflicts) - c.retryTimes
    case AnnounceTimeout => 6 * Tries(c.conflicts) - 3 - c.retryTimes
    case _ => 0
  }

  // ---------------------------------------------------------------- steps

  /** The outcome of a step from a client whose bound was `bound`. */
  ghost predicate Onward(b: Client, c': Client, bound: int) {
    Bounded(b, c') && (Settled(c') || (Seeking(b, c') && Potential(c') <= bound))
  }

  ghost predicate Armed(c': Client, callback: Callback) {
    c'.timeout in c'.timers && c'.timers[c'.timeout].callback == callback
  }

  lemma LinkLocalOnward(b: Client, c: Client, env: Env)
    requires SingleTimer(c) && Bounded(b, c) && Tried(b, c, 0) && c.phase != Monitor && Proper(env)
    ensures
      var c' := LinkLocalStart(c, env);
      && SingleTimer(c') && Bounded(b, c') && !Settled(c') && c'.log != [] && c'.conflicts == c.conflicts
      && Armed(c', SendProbePacket) && Stage(b, c', SendProbePacket)
  {
    Counted(c.log, Picked(env.ip));
    LinkLocalStartTimers(c, env);
    var c' := LinkLocalStart(c, env);
    forall k | k in c'.timers ensures k == c'.timeout && k != 0 { assert k in c'.timers.Keys; }
  }

  lemma DiscoverOnward(b: Client, c: Client, env: Env)
    requires Seeking(b, c) && c.timers[c.timeout].callback == DiscoverTimeout && Proper(env)
    ensures Onward(b, Fire(c, env, c.timeout), Potential(c) - 1)
  {
    hide LinkLocalStart, Discovers, Requests, Addresses;
    FireSingle(c, env, c.timeout);
    var d := c.(retryTimes := Inc8(c.retryTimes));
    if d.retryTimes == DISCOVER_RETRIES {
      LinkLocalOnward(b, d, env);
      LinkLocalStartTimers(d, env);
    } else {
      Counted(c.log, Discovered(c.xid, 0));
    }
  }

  lemma RequestOnward(b: Client, c: Client, env: Env)
    requires Seeking(b, c) && c.timers[c.timeout].callback == RequestTimeout && Proper(env)
    ensures Onward(b, Fire(c, env, c.timeout), Potential(c) - 1)
  {
    hide LinkLocalStart, Discovers, Requests, Addresses;
    FireSingle(c, env, c.timeout);
    var d := c.(retryTimes := Inc8(c.retryTimes));
    if d.retryTimes == REQUEST_RETRIES {
      LinkLocalOnward(b, d.(phase := InitSelecting), env);
      LinkLocalStartTimers(d.(phase := InitSelecting), env);
    } else {
      Counted(c.log, Selected(c.xid, c.requestedIp, c.serverIp));
    }
  }

  /** What the first probe of an address leaves. */
  lemma FirstProbe(c: Client, env: Env)
    requires SingleTimer(c) && c.timeout in c.timers && c.timers[c.timeout].callback == SendProbePacket &&
        c.retryTimes == 1
    ensures
      var c' := Fire(c, env, c.timeout);
      && c'.phase == Probe && c'.listen == ListenArp && c'.retryTimes == 1 && c'.conflicts == c.conflicts
      && c'.requestedIp == (if c.requestedIp == 0 then env.ip else c.requestedIp) && Armed(c', ProbeTimeout)
      && c'.log == (if c.requestedIp == 0 then c.log + [Picked(env.ip)] else c.log) + [Probed(c'.requestedIp)]
  {
  }

  lemma ProbeOnward(b: Client, c: Client, env: Env)
    requires Seeking(b, c) && c.timers[c.timeout].callback == SendProbePacket && Proper(env)
    ensures Onward(b, Fire(c, env, c.timeout), Potential(c) - 1)
  {
    hide Discovers, Requests, Addresses, Fire;
    FireSingle(c, env, c.timeout);
    FirstProbe(c, env);
    Counted(c.log, Picked(env.ip));
    Counted(c.log, Probed(c.requestedIp));
    Counted(c.log + [Picked(env.ip)], Probed(env.ip));
  }

  lemma ProbedOnward(b: Client, c: Client, env: Env)
    requires Seeking(b, c) && c.timers[c.timeout].callback == ProbeTimeout && Proper(env)
    requires c.retryTimes != PROBE_NUM
    ensures Onward(b, Fire(c, env, c.timeout), Potential(c) - 1)
  {
    hide Discovers, Requests, Addresses, Tries;
    FireSingle(c, env, c.timeout);
    Counted(c.log, Probed(c.requestedIp));
  }

  lemma LastProbeOnward(b: Client, c: Client, env: Env)
    requires Seeking(b, c) && c.timers[c.timeout].callback == ProbeTimeout && c.retryTimes == PROBE_NUM
    ensures Onward(b, Fire(c, env, c.timeout), Potential(c) - 1)
  {
    hide Discovers, Requests, Addresses, Tries;
    FireSingle(c, env, c.timeout);
    Counted(c.log, Announced(c.requestedIp));
  }

  lemma ProbeTimeoutOnward(b: Client, c: Client, env: Env)
    requires Seeking(b, c) && c.timers[c.timeout].callback == ProbeTimeout && Proper(env)
    ensures Onward(b, Fire(c, env, c.timeout), Potential(c) - 1)
  {
    hide Onward, Potential, Fire;
    if c.retryTimes == PROBE_NUM { LastProbeOnward(b, c, env); } else { ProbedOnward(b, c, env); }
  }

  lemma AnnounceTimeoutOnward(b: Client, c: Client, env: Env)
    requires Seeking(b, c) && c.timers[c.timeout].callback == AnnounceTimeout && Proper(env)
    ensures Onward(b, Fire(c, env, c.timeout), Potential(c) - 1)
  {
    hide Discovers, Requests, Addresses;
    FireSingle(c, env, c.timeout);
    Counted(c.log, Announced(c.requestedIp));
    Counted(c.log, LinkLocalAvailable(c.requestedIp));
  }

  lemma OfferOnward(b: Client, c: Client, env: Env, p: Packet)
    requires Seeking(b, c) && c.timers[c.timeout].callback == DiscoverTimeout
    ensures Onward(b, OnOffer(c, env, p), Potential(c))
  {
    hide Discovers, Requests, Addresses;
    OfferTimers(c, env, p);
    var c' := OnOffer(c, env, p);
    forall k | k in c'.timers ensures k == c'.timeout && k != 0 { assert k in c'.timers.Keys; }
    Counted(c.log, Selected(c.xid, p.yiaddr, p.serverId));
  }

  lemma ConflictOnward(b: Client, c: Client, env: Env, a: Arp)
    requires Seeking(b, c) && c.listen == ListenArp && Conflicting(c, a)
    requires c.phase == Probe || c.phase == Announce
    ensures Onward(b, OnArp(c, env, a), 6 * Tries(c.conflicts) - 6)
  {
    hide Discovers, Requests, Addresses, Tries, SingleTimer;
    StepSingle(c, Hear(a), env);
    TriesNext(c.conflicts);
    Counted(c.log, Conflict);
    if Inc8(c.conflicts) < MAX_CONFLICTS {
      assert OnArp(c, env, a).log == c.log + [Conflict];
    } else {
      Counted(c.log + [Conflict], NoLease);
      assert OnArp(c, env, a).log == c.log + [Conflict] + [NoLease];
    }
  }

  /** Another address is tried as long as there is one left. */
  lemma TriesNext(k: Byte)
    ensures if Inc8(k) < MAX_CONFLICTS then Tries(k) == Tries(Inc8(k)) + 1 else Tries(k) == 1
  {
  }

  // ---------------------------------------------------------------- runs

  /** No ACK or NAK for this client, and the application leaves it alone. */
  ghost predicate CalmMove(c: Client, m: Move) {
    match m.stimulus
    case Receive(p) => !(Owned(c, p) && (p.messageType == Some(DHCPACK) || p.messageType == Some(DHCPNAK)))
    case DoStop => false
    case DoStart(_) => false
    case _ => true
  }

  /** One step: on towards the end, and strictly closer by every timer. */
  lemma StepOnward(b: Client, c: Client, m: Move)
    requires Seeking(b, c) && Enabled(c, m.stimulus) && Proper(m.env) && CalmMove(c, m)
    ensures
      var c' := Step(c, m.stimulus, m.env);
      Onward(b, c', Potential(c) - (if m.stimulus.Expire? then 1 else 0))
  {
    hide Fire, OnOffer, OnArp, Potential, Bounded;
    match m.stimulus {
      case Expire(id) => FireOnward(b, c, m.env);
      case Receive(p) =>
        if Owned(c, p) && c.phase == InitSelecting && p.messageType.value == DHCPOFFER {
          OfferOnward(b, c, m.env, p);
        } else {
          assert OnPacket(c, m.env, p) == c;
        }
      case Hear(a) =>
        if Conflicting(c, a) {
          ConflictOnward(b, c, m.env, a);
          ConflictLowers(b, c);
        } else {
          assert OnArp(c, m.env, a) == c by { Harmless(c, m.env, a); }
        }
    }
  }

  lemma Harmless(c: Client, env: Env, a: Arp)
    requires !Conflicting(c, a)
    ensures OnArp(c, env, a) == c
  {
  }

  lemma ConflictLowers(b: Client, c: Client)
    requires Seeking(b, c) && c.listen == ListenArp
    requires c.phase == Probe || c.phase == Announce
    ensures 6 * Tries(c.conflicts) - 6 <= Potential(c)
  {
  }

  lemma FireOnward(b: Client, c: Client, env: Env)
    requires Seeking(b, c) && Proper(env)
    ensures
      var c' := Fire(c, env, c.timeout);
      Onward(b, c', Potential(c) - 1)
  {
    hide Onward, Potential, Bounded;
    FireSingle(c, env, c.timeout);
    match c.timers[c.timeout].callback {
      case DiscoverTimeout => DiscoverOnward(b, c, env);
      case RequestTimeout => RequestOnward(b, c, env);
      case SendProbePacket => ProbeOnward(b, c, env);
      case ProbeTimeout => ProbeTimeoutOnward(b, c, env);
      case AnnounceTimeout => AnnounceTimeoutOnward(b, c, env);
    }
  }

  /** A run that is calm until the client settles, if it does. */
  ghost predicate Calm(c: Client, ms: seq<Move>)
    requires Legal(c, ms)
    decreases |ms|
  {
    ms == [] || Settled(c) || (CalmMove(c, ms[0]) && Calm(Step(c, ms[0].stimulus, ms[0].env), ms[1..]))
  }

  ghost predicate Settles(c: Client, ms: seq<Move>)
    requires Legal(c, ms)
    decreases |ms|
  {
    Settled(c) || (ms != [] && Settles(Step(c, ms[0].stimulus, ms[0].env), ms[1..]))
  }

  /** A state of the run in which the client has just settled, or its last state. */
  ghost function Outcome(c: Client, ms: seq<Move>): Client
    requires Legal(c, ms)
    decreases |ms|
  {
    if Settled(c) || ms == [] then c else Outcome(Step(c, ms[0].stimulus, ms[0].env), ms[1..])
  }

  function Firings(ms: seq<Move>): nat {
    if ms == [] then 0 else (if ms[0].stimulus.Expire? then 1 else 0) + Firings(ms[1..])
  }

  /** Under every interleaving the client settles before its bound of timers has fired, and as
      long as it has not a timer is pending; up to then it sends at most ten DISCOVERs and five
      REQUESTs and tries no more addresses than its count of conflicts at the start allows. */
  lemma {:induction false} SettlesInTime(b: Client, c: Client, ms: seq<Move>)
    requires Seeking(b, c) && Legal(c, ms) && Calm(c, ms)
    ensures Bounded(b, Outcome(c, ms))
    ensures Settles(c, ms) || (Seeking(b, After(c, ms)) && Firings(ms) + Potential(After(c, ms)) <= Potential(c))
    decreases |ms|
  {
    hide Bounded, Potential, CalmMove;
    if ms != [] {
      var c' := Step(c, ms[0].stimulus, ms[0].env);
      StepOnward(b, c, ms[0]);
      if !Settled(c') {
        SettlesInTime(b, c', ms[1..]);
      }
    }
  }

  /** A client that can be started afresh: a new one, and any after a stop. */
  ghost predicate Startable(c: Client) {
    SingleTimer(c) && c.timers == map[] && c.retryTimes == 0
  }

  lemma StoppedStartable(c: Client, mac: Mac)
    ensures Startable(New(mac)) && New(mac).conflicts == 0
    ensures SingleTimer(c) ==> Startable(Stop(c)) && Stop(c).conflicts == c.conflicts
  {
  }

  /** A start has at most 15 timers to go and six for each address it may try: 75 for a new client. */
  lemma StartSeeks(b: Client, env: Env, last: Option<Ip>)
    requires Startable(b)
    ensures
      var c := Start(b, env, last);
      Seeking(b, c) && Potential(c) == 15 + 6 * Tries(b.conflicts)
  {
    StepSingle(b, DoStart(last), env);
    var addr := if last.Some? && last.value != 0xffff_ffff then last.value else 0;
    Counted(b.log, Discovered(env.xid, addr));
  }

  /** So that any run from a start with more timers than that has settled, and has sent and tried no
      more than its bounds until then: eleven addresses if the stop before left a count of 255
      conflicts, and ten at most otherwise. */
  lemma StartSettles(b: Client, env: Env, last: Option<Ip>, ms: seq<Move>)
    requires Startable(b)
    requires var c := Start(b, env, last); Legal(c, ms) && Calm(c, ms)
    ensures
      var c := Start(b, env, last);
      Bounded(b, Outcome(c, ms)) && (Firings(ms) > 15 + 6 * Tries(b.conflicts) ==> Settles(c, ms))
  {
    hide Start, Bounded, Settles, Outcome, Stage;
    StartSeeks(b, env, last);
    var c := Start(b, env, last);
    SettlesInTime(b, c, ms);
    if !Settles(c, ms) { PotentialPositive(b, After(c, ms)); }
  }

  lemma PotentialPositive(b: Client, c: Client)
    requires Seeking(b, c)
    ensures Potential(c) >= 0
  {
  }
}
