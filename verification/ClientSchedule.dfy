/** When a client sends what, if nobody answers: the timetable of a start, of a REQUEST and of the
    claim of a link-local address, to the millisecond. */
module ClientSchedule {
  import opened Basics
  import opened ClientSpec
  import opened ClientTimers

  // ---------------------------------------------------------------- silent runs

  /** The pending timer fires when it is due. */
  ghost predicate OnTime(c: Client, m: Move) {
    c.timeout in c.timers && m.stimulus == Expire(c.timeout) && m.env.now == c.timers[c.timeout].at
  }

  /** Nothing happens but timers that fire when they are due. */
  ghost predicate Silent(c: Client, ms: seq<Move>)
    requires Legal(c, ms)
    decreases |ms|
  {
    ms == [] || (OnTime(c, ms[0]) && Silent(Step(c, ms[0].stimulus, ms[0].env), ms[1..]))
  }

  /** The one pending timer. */
  ghost predicate Due(c: Client, callback: Callback, at: int) {
    SingleTimer(c) && c.timeout in c.timers && c.timers[c.timeout] == Timer(callback, at)
  }

  function Times(a: Action, n: nat): seq<Action> {
    seq(n, _ => a)
  }

  lemma TimesMore(a: Action, n: nat)
    ensures [a] + Times(a, n) == Times(a, n + 1)
  {
  }

  lemma {:induction false} SilentSplit(c: Client, ms: seq<Move>, k: nat)
    requires Legal(c, ms) && Silent(c, ms) && k <= |ms|
    ensures Legal(c, ms[..k]) && Silent(c, ms[..k])
    ensures Legal(After(c, ms[..k]), ms[k..]) && Silent(After(c, ms[..k]), ms[k..])
    ensures After(c, ms) == After(After(c, ms[..k]), ms[k..])
    decreases |ms|
  {
    hide Step, Enabled, OnTime;
    if k == 0 {
      assert ms[..0] == [] && ms[0..] == ms;
    } else {
      var c' := Step(c, ms[0].stimulus, ms[0].env);
      SilentSplit(c', ms[1..], k - 1);
      assert ms[..k][0] == ms[0] && ms[..k][1..] == ms[1..][..k - 1] && ms[1..][k - 1..] == ms[k..];
    }
  }

  // ---------------------------------------------------------------- DISCOVER

  /** The client has sent its DISCOVER `n + 1` times. */
  ghost predicate Discovering(c: Client, n: nat, xid: nat, at: int) {
    && Due(c, DiscoverTimeout, at) && c.retryTimes == n < 10 && c.xid == xid
    && c.phase == InitSelecting && c.listen == Listen2
  }

  /** A link-local address was picked and will be probed. */
  ghost predicate PickedOne(c: Client, ip: Ip, at: int) {
    && Due(c, SendProbePacket, at) && c.linkLocal && c.requestedIp == ip && c.retryTimes == 1
    && c.listen == ListenNone
  }

  /** The address that a DISCOVER asks for: the one that is named, unless it is no address. */
  function Wish(last: Option<Ip>): Ip {
    if last.Some? && last.value != 0xffff_ffff then last.value else 0
  }

  /** A start without a pending timer: a new transaction, and a DISCOVER for the address that was had
      last, if one is named; it is remembered. */
  lemma StartDiscovers(b: Client, env: Env, last: Option<Ip>)
    requires SingleTimer(b) && b.timers == map[] && b.retryTimes == 0
    ensures
      var c := Start(b, env, last);
      && Discovering(c, 0, env.xid, env.now + 3000) && c.assignedIp == None && c.conflicts == b.conflicts
      && c.log == b.log + [Discovered(env.xid, Wish(last))]
      && c.lastAddress == if last.Some? && last.value != 0xffff_ffff then last else b.lastAddress
  {
    StartTimers(b, env, last);
  }

  lemma DiscoverAgain(c: Client, n: nat, xid: nat, at: int, env: Env)
    requires Discovering(c, n, xid, at)
    ensures
      var c' := Fire(c, env, c.timeout);
      && c'.conflicts == c.conflicts
      && if n < 9 then Discovering(c', n + 1, xid, env.now + 3000) && c'.log == c.log + [Discovered(xid, 0)]
         else PickedOne(c', env.ip, env.now + env.delay) && c'.log == c.log + [Picked(env.ip)]
  {
    FireSingle(c, env, c.timeout);
  }

  /** Without an answer the DISCOVER is sent again every three seconds, nine times. */
  lemma {:induction false} DiscoverRun(c: Client, n: nat, xid: nat, at: int, ms: seq<Move>)
    requires Discovering(c, n, xid, at) && Legal(c, ms) && Silent(c, ms) && n + |ms| < 10
    ensures
      var d := After(c, ms);
      && Discovering(d, n + |ms|, xid, at + 3000 * |ms|) && d.conflicts == c.conflicts
      && d.log == c.log + Times(Discovered(xid, 0), |ms|)
    decreases |ms|
  {
    hide Discovering, Fire, Due;
    if ms == [] {
      assert c.log + Times(Discovered(xid, 0), 0) == c.log;
    } else {
      assert c.timeout in c.timers && c.timers[c.timeout].at == at by { DiscoveringDue(c, n, xid, at); }
      DiscoverAgain(c, n, xid, at, ms[0].env);
      var c' := Fire(c, ms[0].env, c.timeout);
      DiscoverRun(c', n + 1, xid, at + 3000, ms[1..]);
      TimesMore(Discovered(xid, 0), |ms| - 1);
      assert c.log + [Discovered(xid, 0)] + Times(Discovered(xid, 0), |ms| - 1) ==
             c.log + ([Discovered(xid, 0)] + Times(Discovered(xid, 0), |ms| - 1));
    }
  }

  lemma DiscoveringDue(c: Client, n: nat, xid: nat, at: int)
    requires Discovering(c, n, xid, at)
    ensures c.timeout in c.timers && c.timers[c.timeout].at == at
  {
  }

  // ---------------------------------------------------------------- REQUEST

  /** The client has sent its REQUEST `n + 1` times. */
  ghost predicate RequestingFor(c: Client, n: nat, xid: nat, ip: Ip, server: Ip, at: int) {
    && Due(c, RequestTimeout, at) && c.retryTimes == n < 5
    && c.xid == xid && c.requestedIp == ip && c.serverIp == server
    && c.phase == Requesting && c.listen == Listen2
  }

  /** An OFFER in SELECTING is answered by a REQUEST for what was offered, to who offered it. */
  lemma OfferRequests(c: Client, env: Env, p: Packet)
    requires SingleTimer(c) && c.phase == InitSelecting && p.messageType == Some(DHCPOFFER)
    requires p.xid == c.xid && p.hlen == 6 && p.mac == c.mac
    ensures
      var d := OnPacket(c, env, p);
      && RequestingFor(d, 0, c.xid, p.yiaddr, p.serverId, env.now + 3000)
      && d.log == c.log + [Selected(c.xid, p.yiaddr, p.serverId)]
  {
    OfferTimers(c, env, p);
    var d := OnOffer(c, env, p);
    assert d.timeout in d.timers.Keys;
  }

  lemma RequestAgain(c: Client, n: nat, xid: nat, ip: Ip, server: Ip, at: int, env: Env)
    requires RequestingFor(c, n, xid, ip, server, at)
    ensures
      var d := Fire(c, env, c.timeout);
      if n < 4 then
        RequestingFor(d, n + 1, xid, ip, server, env.now + 3000) && d.log == c.log + [Selected(xid, ip, server)]
      else PickedOne(d, env.ip, env.now + env.delay) && d.log == c.log + [Picked(env.ip)]
  {
    FireSingle(c, env, c.timeout);
  }

  /** Without an answer the REQUEST is sent again every three seconds, four times. */
  lemma {:induction false} RequestRun(c: Client, n: nat, xid: nat, ip: Ip, server: Ip, at: int, ms: seq<Move>)
    requires RequestingFor(c, n, xid, ip, server, at) && Legal(c, ms) && Silent(c, ms) && n + |ms| < 5
    ensures
      var d := After(c, ms);
      && RequestingFor(d, n + |ms|, xid, ip, server, at + 3000 * |ms|)
      && d.log == c.log + Times(Selected(xid, ip, server), |ms|)
    decreases |ms|
  {
    hide RequestingFor, Fire, Due;
    var a := Selected(xid, ip, server);
    if ms == [] {
      assert c.log + Times(a, 0) == c.log;
    } else {
      assert c.timeout in c.timers && c.timers[c.timeout].at == at by { RequestingDue(c, n, xid, ip, server, at); }
      RequestAgain(c, n, xid, ip, server, at, ms[0].env);
      var c' := Fire(c, ms[0].env, c.timeout);
      RequestRun(c', n + 1, xid, ip, server, at + 3000, ms[1..]);
      TimesMore(a, |ms| - 1);
      assert c.log + [a] + Times(a, |ms| - 1) == c.log + ([a] + Times(a, |ms| - 1));
    }
  }

  lemma RequestingDue(c: Client, n: nat, xid: nat, ip: Ip, server: Ip, at: int)
    requires RequestingFor(c, n, xid, ip, server, at)
    ensures c.timeout in c.timers && c.timers[c.timeout].at == at
  {
  }

  // ---------------------------------------------------------------- the claim

  /** `n` probes have been sent. */
  ghost predicate Probing(c: Client, n: nat, ip: Ip, at: int) {
    Due(c, ProbeTimeout, at) && c.retryTimes == n && c.requestedIp == ip && c.phase == Probe && c.listen == ListenArp
  }

  /** `n` announcements have been sent. */
  ghost predicate Announcing(c: Client, n: nat, ip: Ip, at: int) {
    && Due(c, AnnounceTimeout, at) && c.retryTimes == n && c.requestedIp == ip && c.phase == Announce
    && c.listen == ListenArp
  }

  lemma FirstProbe(c: Client, ip: Ip, at: int, env: Env)
    requires PickedOne(c, ip, at) && ip != 0
    ensures
      var d := Fire(c, env, c.timeout);
      Probing(d, 1, ip, env.now + env.delay + 1000) && d.log == c.log + [Probed(ip)]
  {
    FireSingle(c, env, c.timeout);
  }

  lemma NextProbe(c: Client, n: nat, ip: Ip, at: int, env: Env)
    requires Probing(c, n, ip, at) && ip != 0 && 1 <= n <= 2
    ensures
      var d := Fire(c, env, c.timeout);
      && Probing(d, n + 1, ip, env.now + (if n == 1 then env.delay + 1000 else 2000))
      && d.log == c.log + [Probed(ip)]
  {
    FireSingle(c, env, c.timeout);
  }

  lemma FirstAnnouncement(c: Client, ip: Ip, at: int, env: Env)
    requires Probing(c, 3, ip, at)
    ensures
      var d := Fire(c, env, c.timeout);
      Announcing(d, 1, ip, env.now + 2000) && d.log == c.log + [Announced(ip)]
  {
    FireSingle(c, env, c.timeout);
  }

  lemma SecondAnnouncement(c: Client, ip: Ip, at: int, env: Env)
    requires Announcing(c, 1, ip, at)
    ensures
      var d := Fire(c, env, c.timeout);
      Announcing(d, 2, ip, env.now + 2000) && d.log == c.log + [Announced(ip)]
  {
    FireSingle(c, env, c.timeout);
  }

  lemma Claimed(c: Client, ip: Ip, at: int, env: Env)
    requires Announcing(c, 2, ip, at)
    ensures
      var d := Fire(c, env, c.timeout);
      && d.phase == Monitor && d.requestedIp == ip && d.assignedIp == Some(ip) && d.conflicts == 0
      && d.timers == map[] && d.log == c.log + [LinkLocalAvailable(ip)]
  {
    FireSingle(c, env, c.timeout);
    assert c.timers - {c.timeout} == map[];
  }

  lemma OneTimer(c: Client, callback: Callback, at: int, ms: seq<Move>) returns (d: Client)
    requires Due(c, callback, at) && Legal(c, ms) && Silent(c, ms) && ms != []
    ensures d == Fire(c, ms[0].env, c.timeout) && Legal(d, ms[1..]) && Silent(d, ms[1..])
    ensures After(c, ms) == After(d, ms[1..]) && ms[0].env.now == at && Proper(ms[0].env)
  {
    d := Fire(c, ms[0].env, c.timeout);
  }

  /** What is sent and reported for an address that nobody contests. */
  function ClaimOf(ip: Ip): seq<Action> {
    [Probed(ip), Probed(ip), Probed(ip), Announced(ip), Announced(ip), LinkLocalAvailable(ip)]
  }

  /** Three probes, two announcements and the report, eight seconds and two random delays after the
      first probe is due. */
  lemma ClaimRun(c: Client, ip: Ip, at: int, ms: seq<Move>)
    requires PickedOne(c, ip, at) && ip != 0 && Legal(c, ms) && Silent(c, ms) && |ms| == 6
    ensures
      var d := After(c, ms);
      && d.phase == Monitor && d.assignedIp == Some(ip) && d.conflicts == 0 && d.timers == map[]
      && d.log == c.log + ClaimOf(ip)
      && ms[5].env.now == at + 8000 + ms[0].env.delay + ms[1].env.delay
  {
    hide Due, Fire, Legal, Silent, After;
    FirstProbe(c, ip, at, ms[0].env);
    var c1 := OneTimer(c, SendProbePacket, at, ms);
    var r1 := ms[1..];
    var at1 := at + ms[0].env.delay + 1000;
    NextProbe(c1, 1, ip, at1, r1[0].env);
    var c2 := OneTimer(c1, ProbeTimeout, at1, r1);
    var r2 := r1[1..];
    var at2 := at1 + r1[0].env.delay + 1000;
    NextProbe(c2, 2, ip, at2, r2[0].env);
    var c3 := OneTimer(c2, ProbeTimeout, at2, r2);
    assert r1[0] == ms[1] && r2[1..] == ms[3..];
    ClaimEnds(c3, ip, at2 + 2000, ms[3..]);
    assert c.log + [Probed(ip)] + [Probed(ip)] + [Probed(ip)] +
           [Announced(ip), Announced(ip), LinkLocalAvailable(ip)] == c.log + ClaimOf(ip);
  }

  lemma ClaimEnds(c: Client, ip: Ip, at: int, ms: seq<Move>)
    requires Probing(c, 3, ip, at) && Legal(c, ms) && Silent(c, ms) && |ms| == 3
    ensures
      var d := After(c, ms);
      && d.phase == Monitor && d.assignedIp == Some(ip) && d.conflicts == 0 && d.timers == map[]
      && d.log == c.log + [Announced(ip), Announced(ip), LinkLocalAvailable(ip)] && ms[2].env.now == at + 4000
  {
    hide Due, Fire, Legal, Silent, After;
    FirstAnnouncement(c, ip, at, ms[0].env);
    var c1 := OneTimer(c, ProbeTimeout, at, ms);
    var r1 := ms[1..];
    SecondAnnouncement(c1, ip, at + 2000, r1[0].env);
    var c2 := OneTimer(c1, AnnounceTimeout, at + 2000, r1);
    var r2 := r1[1..];
    Claimed(c2, ip, at + 4000, r2[0].env);
    var c3 := OneTimer(c2, AnnounceTimeout, at + 4000, r2);
    assert r2[0] == ms[2] && r2[1..] == [];
    assert After(c3, []) == c3 by { NoMove(c3); }
  }

  lemma NoMove(c: Client)
    ensures Legal(c, []) && After(c, []) == c
  {
  }

  /** A start that nobody answers, on a network where nobody contests the address: ten DISCOVERs three
      seconds apart, then a link-local address, probed three times, announced twice and reported
      thirty-eight seconds and three random delays after the start. */
  lemma SilentStart(b: Client, env: Env, last: Option<Ip>, ms: seq<Move>)
    requires SingleTimer(b) && b.timers == map[] && b.retryTimes == 0
    requires Legal(Start(b, env, last), ms) && Silent(Start(b, env, last), ms) && |ms| == 16
    ensures
      var d := After(Start(b, env, last), ms);
      var ip := ms[9].env.ip;
      && d.phase == Monitor && d.assignedIp == Some(ip) && InLinkLocal(ip) && d.conflicts == 0 && d.timers == map[]
      && d.log ==
         b.log + [Discovered(env.xid, Wish(last))] + Times(Discovered(env.xid, 0), 9) + [Picked(ip)] + ClaimOf(ip)
      && ms[15].env.now == env.now + 38_000 + ms[9].env.delay + ms[10].env.delay + ms[11].env.delay
  {
    hide Due, Fire, Legal, Silent, After, Start, Discovering;
    var c := Start(b, env, last);
    StartDiscovers(b, env, last);
    SilentSplit(c, ms, 9);
    DiscoverRun(c, 0, env.xid, env.now + 3000, ms[..9]);
    var c9, r9 := After(c, ms[..9]), ms[9..];
    PickRun(c9, env.xid, env.now + 30_000, r9);
    assert r9[0] == ms[9] && r9[1] == ms[10] && r9[2] == ms[11] && r9[6] == ms[15];
  }

  lemma PickRun(c: Client, xid: nat, at: int, ms: seq<Move>)
    requires Discovering(c, 9, xid, at) && Legal(c, ms) && Silent(c, ms) && |ms| == 7
    ensures
      var d := After(c, ms);
      var ip := ms[0].env.ip;
      && d.phase == Monitor && d.assignedIp == Some(ip) && InLinkLocal(ip) && d.conflicts == 0 && d.timers == map[]
      && d.log == c.log + [Picked(ip)] + ClaimOf(ip)
      && ms[6].env.now == at + 8000 + ms[0].env.delay + ms[1].env.delay + ms[2].env.delay
  {
    hide Due, Fire, Legal, Silent, After;
    DiscoverAgain(c, 9, xid, at, ms[0].env);
    var c' := OneTimer(c, DiscoverTimeout, at, ms);
    ClaimRun(c', ms[0].env.ip, at + ms[0].env.delay, ms[1..]);
  }

  /** The addresses are 169.254.1.0 to 169.254.254.255 (section 2.1 of RFC 3927). */
  lemma LinkLocalOctets(ip: Ip)
    ensures InLinkLocal(ip) <==>
            ip / 0x100_0000 == 169 && ip / 0x1_0000 % 256 == 254 && 1 <= ip / 0x100 % 256 <= 254
  {
  }

  // ---------------------------------------------------------------- packets that are not looked at

  /** A packet of another transaction, for another client, of another kind of hardware or without a
      message type changes nothing. */
  lemma ForeignIgnored(c: Client, env: Env, p: Packet)
    requires p.xid != c.xid || p.mac != c.mac || p.hlen != 6 || p.messageType == None
    ensures OnPacket(c, env, p) == c
  {
  }

  /** Nor does one of a type that the state of the client does not wait for: an OFFER is looked at in
      SELECTING only, an ACK or NAK in REQUESTING, RENEWING and REBINDING only, and others never. */
  lemma UnexpectedIgnored(c: Client, env: Env, p: Packet)
    requires p.messageType == Some(DHCPOFFER) ==> c.phase != InitSelecting
    requires p.messageType == Some(DHCPACK) || p.messageType == Some(DHCPNAK) ==>
             c.phase != Requesting && c.phase != Renewing && c.phase != Rebinding
    ensures OnPacket(c, env, p) == c
  {
  }

  // ---------------------------------------------------------------- after a NAK

  /** A NAK of the transaction leaves a client that waits for an answer with one timer, three seconds
      away. What the client then does: a DISCOVER for the address it had last, within the old
      transaction, but a new one when the count of NAKs has wrapped around; and instead a link-local
      address when the count comes to ten. */
  lemma NakRestarts(c: Client, env: Env, p: Packet, env': Env)
    requires SingleTimer(c) && (c.phase == Requesting || c.phase == Renewing || c.phase == Rebinding)
    requires p.xid == c.xid && p.hlen == 6 && p.mac == c.mac && p.messageType == Some(DHCPNAK)
    ensures
      var d := OnPacket(c, env, p);
      var e := Fire(d, env', d.timeout);
      && Due(d, RestartTimeout, env.now + 3000) && d.log == c.log && d.phase == c.phase && d.retryTimes == 0
      && if c.ackRetryTimes == 9 then PickedOne(e, env'.ip, env'.now + env'.delay) && e.log == c.log + [Picked(env'.ip)]
         else
           && Due(e, DiscoverTimeout, env'.now + 3000) && e.retryTimes == e.ackRetryTimes == Inc8(c.ackRetryTimes)
           && e.xid == (if c.ackRetryTimes == 255 then env'.xid else c.xid)
           && e.log == c.log + [Discovered(e.xid, Wish(c.lastAddress))] && e.requestedIp == 0 && e.listen == Listen2
  {
    var d := OnNak(c, env);
    assert d.timeout in d.timers.Keys;
    NakDue(c, env);
    FireSingle(d, env', d.timeout);
    assert RunCallback(d, env', RestartTimeout).timeout in RunCallback(d, env', RestartTimeout).timers;
  }

  lemma NakDue(c: Client, env: Env)
    requires SingleTimer(c)
    ensures Due(OnNak(c, env), RestartTimeout, env.now + 3000)
  {
  }
}
