/** What a client does about a conflict over its link-local address (section 2.5 of RFC 3927). */
module LinkLocalDefence {
  import opened Basics
  import opened ClientSpec
  import opened ClientTimers

  /** An ARP packet, a request or a reply, whose sender claims the address of the client. */
  predicate ClaimsSource(c: Client, a: Arp) {
    (a.op == 1 || a.op == 2) && a.source == c.requestedIp
  }

  /** One that asks for or answers to the address only. */
  predicate NamesTarget(c: Client, a: Arp) {
    (a.op == 1 || a.op == 2) && a.source != c.requestedIp && a.target == c.requestedIp
  }

  /** All others are not looked at. */
  lemma OthersIgnored(c: Client, env: Env, a: Arp)
    requires !ClaimsSource(c, a) && !NamesTarget(c, a)
    ensures OnArp(c, env, a) == c
  {
  }

  /** A client that holds an address counts one that only names it, and does nothing else. */
  lemma NamedCounts(c: Client, env: Env, a: Arp)
    requires NamesTarget(c, a) && (c.phase == Monitor || c.phase == Defend)
    ensures OnArp(c, env, a) == c.(conflicts := Inc8(c.conflicts), log := c.log + [Conflict])
  {
  }

  /** A client that monitors its address defends it: it announces it once more, keeps it, and is in
      DEFEND for ten seconds. */
  lemma Defends(c: Client, env: Env, a: Arp)
    requires SingleTimer(c) && ClaimsSource(c, a) && c.phase == Monitor
    ensures
      var d := OnArp(c, env, a);
      && d.phase == Defend && d.requestedIp == c.requestedIp && d.assignedIp == c.assignedIp && d.listen == c.listen
      && d.conflicts == Inc8(c.conflicts) && d.log == c.log + [Conflict, Announced(c.requestedIp)]
      && d.timers == map[d.timeout := Timer(DefendTimeout, env.now + 10_000)]
  {
    StepTimers(c, env, a);
  }

  lemma StepTimers(c: Client, env: Env, a: Arp)
    requires SingleTimer(c) && ClaimsSource(c, a) && c.phase == Monitor
    ensures
      var d := OnArp(c, env, a);
      d.timers == map[d.timeout := Timer(DefendTimeout, env.now + 10_000)]
  {
    var d := OnArp(c, env, a);
    assert forall id :: id in d.timers <==> id == d.timeout;
  }

  /** After these it monitors the address as before, and has forgotten the conflicts. */
  lemma DefenceHeld(c: Client, env: Env)
    requires SingleTimer(c) && c.timeout in c.timers && c.timers[c.timeout].callback == DefendTimeout
    ensures Fire(c, env, c.timeout) == c.(phase := Monitor, conflicts := 0, timers := map[])
  {
    assert c.timers - {c.timeout} == map[];
  }

  /** A second claim meanwhile makes it give the address up: it reports the loss and, unless there were
      too many conflicts, takes up another address; else it reports failure. */
  lemma DefenceLost(c: Client, env: Env, a: Arp, env': Env)
    requires SingleTimer(c) && ClaimsSource(c, a) && c.phase == Defend && c.listen == ListenArp
    ensures
      var d := OnArp(c, env, a);
      && d.phase == Probe && d.requestedIp == 0 && d.assignedIp == None && d.listen == ListenNone
      && if Inc8(c.conflicts) < 10 then
           && d.log == c.log + [Conflict, LinkLocalLost]
           && d.timers == map[d.timeout := Timer(SendProbePacket, env.now + env.delay)]
           && var e := Fire(d, env', d.timeout);
           && e.requestedIp == env'.ip && e.phase == Probe && e.listen == ListenArp
           && e.log == d.log + [Picked(env'.ip), Probed(env'.ip)]
         else d.log == c.log + [Conflict, LinkLocalLost, NoLease] && d.timers == map[]
  {
    hide SingleTimer;
    YieldTimer(c, env, a);
    var d := OnArp(c, env, a);
  }

  lemma YieldTimer(c: Client, env: Env, a: Arp)
    requires SingleTimer(c) && ClaimsSource(c, a) && c.phase == Defend
    ensures
      var d := OnArp(c, env, a);
      d.timers == if Inc8(c.conflicts) < 10 then map[d.timeout := Timer(SendProbePacket, env.now + env.delay)]
                  else map[]
  {
    assert c.timers - {c.timeout} == map[];
  }
}
