/** How many link-local addresses a client can come to try: the bounds of `ClientLiveness` are
    attained, and a count of 255 conflicts arises. */
module ConflictRuns {
  import opened Basics
  import opened ClientSpec
  import opened ClientTimers
  import opened ClientLiveness

  const ANY_IP: Ip := LINKLOCAL_ADDR + 0x0100
  const ANY := Env(0, 0, ANY_IP, 0)

  // ---------------------------------------------------------------- runs

  /** A calm run from `c` to `d` on which the client does not settle. */
  ghost predicate Leads(c: Client, ms: seq<Move>, d: Client) {
    Legal(c, ms) && Calm(c, ms) && !Settles(c, ms) && After(c, ms) == d
  }

  lemma LeadsOn(c: Client, m: Move, ms: seq<Move>, d: Client)
    requires Enabled(c, m.stimulus) && Proper(m.env) && CalmMove(c, m) && !Settled(c)
    requires Leads(Step(c, m.stimulus, m.env), ms, d)
    ensures Leads(c, [m] + ms, d)
  {
    hide Step, Settled, CalmMove;
    assert ([m] + ms)[1..] == ms;
  }

  lemma {:induction false} LeadsOutcome(c: Client, ms: seq<Move>)
    requires Legal(c, ms) && !Settles(c, ms)
    ensures Outcome(c, ms) == After(c, ms)
    decreases |ms|
  {
    hide Step, Settled;
    if ms != [] { LeadsOutcome(Step(c, ms[0].stimulus, ms[0].env), ms[1..]); }
  }

  ghost predicate Reaches(c: Client, ms: seq<Move>, d: Client) {
    Legal(c, ms) && After(c, ms) == d
  }

  lemma {:induction false} ReachesOn(c: Client, a: seq<Move>, d: Client, b: seq<Move>, e: Client)
    requires Reaches(c, a, d) && Reaches(d, b, e)
    ensures Reaches(c, a + b, e)
    decreases |a|
  {
    hide Step;
    if a == [] {
      assert a + b == b;
    } else {
      assert (a + b)[1..] == a[1..] + b;
      ReachesOn(Step(c, a[0].stimulus, a[0].env), a[1..], d, b, e);
    }
  }

  lemma ReachesOne(c: Client, m: Move)
    requires Enabled(c, m.stimulus) && Proper(m.env)
    ensures Reaches(c, [m], Step(c, m.stimulus, m.env))
  {
    hide Step;
    var d := Step(c, m.stimulus, m.env);
    assert [m][1..] == [] && After(d, []) == d && Legal(d, []);
  }

  // ---------------------------------------------------------------- every bound is attained

  /** The move by which the pending timer fires. */
  function Firing(c: Client): Move {
    Move(Expire(c.timeout), ANY)
  }

  /** A discovery nobody answers goes on, and then turns to link-local addresses. */
  lemma DiscoveryGoesOn(b: Client, c: Client)
    requires Seeking(b, c) && c.timers[c.timeout].callback == DiscoverTimeout
    ensures
      var d := Fire(c, ANY, c.timeout);
      && Seeking(b, d) && d.conflicts == c.conflicts
      && if c.retryTimes == 9 then Armed(d, SendProbePacket)
         else Armed(d, DiscoverTimeout) && d.retryTimes == c.retryTimes + 1
  {
    hide Discovers, Requests, Addresses, Tries, Onward, Fire;
    DiscoverOnward(b, c, ANY);
    DiscoveryShape(c);
    assert Seeking(b, Fire(c, ANY, c.timeout)) by { OnwardSeeks(b, Fire(c, ANY, c.timeout), Potential(c) - 1); }
  }

  lemma OnwardSeeks(b: Client, c: Client, bound: int)
    requires Onward(b, c, bound) && !Settled(c)
    ensures Seeking(b, c)
  {
  }

  lemma DiscoveryShape(c: Client)
    requires SingleTimer(c) && c.timeout in c.timers && c.timers[c.timeout].callback == DiscoverTimeout
    requires c.phase == InitSelecting && c.retryTimes < DISCOVER_RETRIES
    ensures
      var d := Fire(c, ANY, c.timeout);
      && !Settled(d) && d.conflicts == c.conflicts
      && if c.retryTimes == 9 then Armed(d, SendProbePacket)
         else Armed(d, DiscoverTimeout) && d.retryTimes == c.retryTimes + 1
  {
  }

  /** A conflict over an address that is probed makes the client turn to another one, as long as
      there are some to try. */
  lemma ConflictGoesOn(b: Client, c: Client)
    requires Seeking(b, c) && c.timers[c.timeout].callback == ProbeTimeout && Tries(c.conflicts) > 1
    ensures
      var d := OnArp(c, ANY, Arp(ARPOP_REPLY, c.requestedIp, 0));
      Seeking(b, d) && Armed(d, SendProbePacket) && Tries(d.conflicts) == Tries(c.conflicts) - 1
  {
    hide Discovers, Requests, Addresses, Onward;
    var a := Arp(ARPOP_REPLY, c.requestedIp, 0);
    ConflictOnward(b, c, ANY, a);
    ConflictShape(c);
    assert Seeking(b, OnArp(c, ANY, a)) by { OnwardSeeks(b, OnArp(c, ANY, a), 6 * Tries(c.conflicts) - 6); }
  }

  lemma ConflictShape(c: Client)
    requires SingleTimer(c) && c.phase == Probe && Tries(c.conflicts) > 1
    ensures
      var d := OnArp(c, ANY, Arp(ARPOP_REPLY, c.requestedIp, 0));
      !Settled(d) && Armed(d, SendProbePacket) && Tries(d.conflicts) == Tries(c.conflicts) - 1
  {
  }

  /** The first probe of an address. */
  lemma ProbeGoesOn(b: Client, c: Client)
    requires Seeking(b, c) && c.timers[c.timeout].callback == SendProbePacket
    ensures
      var d := Fire(c, ANY, c.timeout);
      Seeking(b, d) && Armed(d, ProbeTimeout) && d.conflicts == c.conflicts
  {
    hide Discovers, Requests, Addresses, Onward, Tries, Fire;
    ProbeOnward(b, c, ANY);
    FirstProbe(c, ANY);
    var d := Fire(c, ANY, c.timeout);
    assert !Settled(d);
    OnwardSeeks(b, d, Potential(c) - 1);
  }

  /** From the claim of an address on, conflict after conflict. */
  lemma {:induction false} TryAll(b: Client, c: Client) returns (ms: seq<Move>, d: Client)
    requires Seeking(b, c) && c.timers[c.timeout].callback == SendProbePacket
    ensures Leads(c, ms, d) && Addresses(d.log) == Addresses(b.log) + Tries(b.conflicts)
    decreases Tries(c.conflicts)
  {
    hide Fire, OnArp, Leads, Bounded, Addresses;
    var c1 := Fire(c, ANY, c.timeout);
    ProbeGoesOn(b, c);
    if Tries(c.conflicts) == 1 {
      d := c1;
      ms := [Firing(c)] + [];
      assert Leads(c1, [], d) by { LeadsNowhere(c1); }
    } else {
      var hear := Move(Hear(Arp(ARPOP_REPLY, c1.requestedIp, 0)), ANY);
      ConflictGoesOn(b, c1);
      var rest;
      rest, d := TryAll(b, Step(c1, hear.stimulus, hear.env));
      LeadsOn(c1, hear, rest, d);
      ms := [Firing(c)] + ([hear] + rest);
    }
    LeadsOn(c, Firing(c), ms[1..], d);
  }

  lemma LeadsNowhere(c: Client)
    requires !Settled(c)
    ensures Leads(c, [], c)
  {
  }

  lemma {:induction false} DiscoverThenTry(b: Client, c: Client) returns (ms: seq<Move>, d: Client)
    requires Seeking(b, c) && c.timers[c.timeout].callback == DiscoverTimeout
    ensures Leads(c, ms, d) && Addresses(d.log) == Addresses(b.log) + Tries(b.conflicts)
    decreases DISCOVER_RETRIES as int - c.retryTimes
  {
    hide Fire, Leads, Bounded, Addresses;
    var c1 := Fire(c, ANY, c.timeout);
    DiscoveryGoesOn(b, c);
    var rest;
    if c.retryTimes == 9 {
      rest, d := TryAll(b, c1);
    } else {
      rest, d := DiscoverThenTry(b, c1);
    }
    ms := [Firing(c)] + rest;
    LeadsOn(c, Firing(c), rest, d);
  }

  /** Whatever the count of conflicts at the start, there is a calm run on which the client tries
      as many addresses as the bound allows. */
  lemma TriesAttained(b: Client, env: Env, last: Option<Ip>) returns (ms: seq<Move>)
    requires Startable(b)
    ensures
      var c := Start(b, env, last);
      Legal(c, ms) && Calm(c, ms) && Addresses(Outcome(c, ms).log) == Addresses(b.log) + Tries(b.conflicts)
  {
    hide Start, Bounded, Addresses, Outcome;
    StartSeeks(b, env, last);
    var c := Start(b, env, last);
    assert c.timers[c.timeout].callback == DiscoverTimeout by { StartArms(b, env, last); }
    var d;
    ms, d := DiscoverThenTry(b, c);
    LeadsOutcome(c, ms);
  }

  lemma StartArms(b: Client, env: Env, last: Option<Ip>)
    requires Startable(b)
    ensures Armed(Start(b, env, last), DiscoverTimeout)
  {
  }

  ghost predicate TenAtMost(b: Client, env: Env, last: Option<Ip>, ms: seq<Move>) {
    var c := Start(b, env, last);
    Legal(c, ms) && Calm(c, ms) ==> Addresses(Outcome(c, ms).log) <= Addresses(b.log) + 10
  }

  /** No calm run from a start tries more than ten addresses if and only if the start does not find
      a count of 255 conflicts. */
  lemma TenIff(b: Client)
    requires Startable(b)
    ensures (forall env, last, ms :: TenAtMost(b, env, last, ms)) <==> b.conflicts != 255
  {
    hide Start, Addresses, Outcome;
    if b.conflicts == 255 {
      var ms := TriesAttained(b, ANY, None);
      assert !TenAtMost(b, ANY, None, ms);
    } else {
      forall env, last, ms ensures TenAtMost(b, env, last, ms) {
        var c := Start(b, env, last);
        if Legal(c, ms) && Calm(c, ms) { StartSettles(b, env, last, ms); }
      }
    }
  }

  // ---------------------------------------------------------------- a count of 255

  /** The client has claimed its address and listens for conflicts. */
  ghost predicate Monitoring(c: Client) {
    c.phase == Monitor && c.listen == ListenArp && c.requestedIp != 0 && SingleTimer(c)
  }

  lemma AnnounceSettles(b: Client, c: Client)
    requires Seeking(b, c) && c.timers[c.timeout].callback == AnnounceTimeout
    ensures
      var d := Fire(c, ANY, c.timeout);
      Settled(d) ==> d.phase == Monitor && d.listen == ListenArp && d.requestedIp != 0 && d.conflicts == 0
  {
    hide Bounded, Tried, SingleTimer;
  }

  lemma OthersGoOn(b: Client, c: Client)
    requires Seeking(b, c) && c.timers[c.timeout].callback != AnnounceTimeout
    ensures !Settled(Fire(c, ANY, c.timeout))
  {
    hide Bounded, Tried, SingleTimer;
  }

  /** A timer that settles the client completes a claim. */
  lemma TimerSettles(b: Client, c: Client)
    requires Seeking(b, c)
    ensures
      var d := Fire(c, ANY, c.timeout);
      Settled(d) ==> Monitoring(d) && d.conflicts == 0
  {
    hide Bounded, Tried, Fire, Settled, SingleTimer;
    FireSingle(c, ANY, c.timeout);
    if c.timers[c.timeout].callback == AnnounceTimeout { AnnounceSettles(b, c); } else { OthersGoOn(b, c); }
  }

  /** A client that only its timers move claims an address. */
  lemma {:induction false} TimersClaim(b: Client, c: Client) returns (ms: seq<Move>, d: Client)
    requires Seeking(b, c)
    ensures Reaches(c, ms, d) && Monitoring(d) && d.conflicts == 0
    decreases Potential(c)
  {
    hide Fire, Bounded, Monitoring, Reaches;
    var c1 := Fire(c, ANY, c.timeout);
    PotentialPositive(b, c);
    FireOnward(b, c, ANY);
    TimerSettles(b, c);
    ReachesOne(c, Firing(c));
    if Settled(c1) {
      ms, d := [Firing(c)], c1;
    } else {
      var rest;
      rest, d := TimersClaim(b, c1);
      ms := [Firing(c)] + rest;
      ReachesOn(c, [Firing(c)], c1, rest, d);
    }
  }

  /** ARP requests for its own address only count as conflicts of a client that monitors it. */
  lemma {:induction false} RequestsCount(c: Client, n: nat) returns (ms: seq<Move>, d: Client)
    requires Monitoring(c) && c.conflicts + n <= 255
    ensures Reaches(c, ms, d) && Monitoring(d) && d.conflicts == c.conflicts + n
    decreases n
  {
    hide Reaches;
    if n == 0 {
      ms, d := [], c;
      assert Reaches(c, [], c) by { ReachesNowhere(c); }
    } else {
      var hear := Move(Hear(Arp(ARPOP_REQUEST, 0, c.requestedIp)), ANY);
      var c1 := Step(c, hear.stimulus, hear.env);
      ReachesOne(c, hear);
      assert Monitoring(c1) && c1.conflicts == c.conflicts + 1;
      var rest;
      rest, d := RequestsCount(c1, n - 1);
      ms := [hear] + rest;
      ReachesOn(c, [hear], c1, rest, d);
    }
  }

  lemma ReachesNowhere(c: Client)
    ensures Reaches(c, [], c)
  {
  }

  /** There is a run of a new client, to a stop, that leaves a count of 255 conflicts. */
  lemma Leaves255(mac: Mac) returns (ms: seq<Move>)
    ensures Legal(New(mac), ms) && Startable(After(New(mac), ms)) && After(New(mac), ms).conflicts == 255
  {
    hide Monitoring, Seeking, Start, Stop, Startable;
    var b := New(mac);
    StoppedStartable(b, mac);
    var go, halt := Move(DoStart(None), ANY), Move(DoStop, ANY);
    var c := Start(b, ANY, None);
    ReachesOne(b, go);
    StartSeeks(b, ANY, None);
    var claim, d := TimersClaim(b, c);
    var count, e := RequestsCount(d, 255);
    StoppedStartable(e, mac);
    assert SingleTimer(e) by { MonitoringSingle(e); }
    ReachesOne(e, halt);
    ReachesOn(d, count, e, [halt], Stop(e));
    ReachesOn(c, claim, d, count + [halt], Stop(e));
    ReachesOn(b, [go], c, claim + (count + [halt]), Stop(e));
    ms := [go] + (claim + (count + [halt]));
  }

  lemma MonitoringSingle(c: Client)
    requires Monitoring(c)
    ensures SingleTimer(c)
  {
  }
}
