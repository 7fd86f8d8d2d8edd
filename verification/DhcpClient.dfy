/** The client object of gdhcp/client.c.  Every method is one C function and updates the
    fields that function updates; `View()` ties it to `ClientSpec`, and what the application and
    the main loop may call keeps `Valid()`.  Arming a timer adds it to
    the pending timers of the main loop under a new source id; `g_source_remove` takes out
    the one whose id is in `timeout`. */
module DhcpClient {
  import opened Basics
  import Spec = ClientSpec
  import opened ClientSpec
  import opened ClientTimers
  import opened LinkLocalClaim

  /** The members of the C struct that only some callbacks touch. */
  datatype Session = Session(
    linkLocal: bool, xid: nat, serverIp: Ip, assignedIp: Option<Ip>, lastAddress: Option<Ip>,
    leaseSeconds: nat, ackRetryTimes: Byte, conflicts: Byte)

  /** The main loop's pending timers and the next source id it will hand out. */
  datatype MainLoop = MainLoop(timers: map<nat, Timer>, nextId: nat) {
    function Add(callback: Callback, at: int): MainLoop {
      MainLoop(timers[nextId := Timer(callback, at)], nextId + 1)
    }

    function Remove(id: nat): MainLoop {
      this.(timers := timers - {id})
    }
  }

  class GDhcpClient {
    const mac: Mac
    var phase: Phase
    var listen: ListenMode
    var requestedIp: Ip
    var retryTimes: Byte
    var timeout: nat
    var session: Session
    var loop: MainLoop
    /** Packets sent and events reported so far. */
    ghost var log: seq<Action>

    ghost function View(): Client
      reads this
    {
      Client(mac, phase, session.linkLocal, session.xid, session.serverIp, requestedIp, session.assignedIp,
             session.lastAddress, session.leaseSeconds, listen, retryTimes, session.ackRetryTimes,
             session.conflicts, timeout, loop.timers, loop.nextId, log)
    }

    /** At most one timer is pending, the one in `timeout`; it tells how far a claim of a link-local
        address has come; and every link-local address reported so far had been claimed in full. */
    ghost predicate Valid()
      reads this
    {
      SingleTimer(View()) && ClaimInv(View())
    }

    /** `g_dhcp_client_new`. */
    constructor (mac: Mac)
      ensures Valid() && View() == New(mac)
    {
      this.mac := mac;
      phase, listen, requestedIp, retryTimes, timeout := InitSelecting, ListenNone, 0, 0, 0;
      session := Session(false, 0, 0, None, None, 0, 0, 0);
      loop := MainLoop(map[], 1);
      log := [];
      new;
      NewClaims(mac);
    }

    // -------------------------------------------------------------- link-local addresses

    /** `send_probe_packet`. */
    method SendProbePacket(env: Env)
      modifies this
      ensures View() == SendProbe(old(View()), env)
    {
      if requestedIp == 0 {
        requestedIp := env.ip;
        log := log + [Picked(env.ip)];
      }
      if retryTimes == 1 {
        phase := Probe;
        listen := ListenArp;
      }
      log := log + [Probed(requestedIp)];
      var delay: int;
      if retryTimes < PROBE_NUM {
        delay := env.delay + PROBE_MIN * 1000;
      } else {
        delay := ANNOUNCE_WAIT * 1000;
      }
      loop, timeout := loop.Add(ProbeTimeout, env.now + delay), loop.nextId;
    }

    /** `send_announce_packet`. */
    method SendAnnouncePacket(env: Env)
      modifies this
      ensures View() == SendAnnounce(old(View()), env)
    {
      log := log + [Announced(requestedIp)];
      loop, timeout := loop.Remove(timeout), 0;
      if phase == Defend {
        loop, timeout := loop.Add(DefendTimeout, env.now + DEFEND_INTERVAL * 1000), loop.nextId;
      } else {
        loop, timeout := loop.Add(AnnounceTimeout, env.now + ANNOUNCE_INTERVAL * 1000), loop.nextId;
      }
    }

    /** `ipv4ll_start`. */
    method Ipv4llStart(env: Env)
      modifies this
      ensures View() == LinkLocalStart(old(View()), env)
    {
      loop, timeout := loop.Remove(timeout), 0;
      listen := ListenNone;
      session := session.(linkLocal := true);
      retryTimes := 0;
      requestedIp := 0;
      requestedIp := env.ip;
      log := log + [Picked(env.ip)];
      retryTimes := retryTimes + 1;
      loop, timeout := loop.Add(Callback.SendProbePacket, env.now + env.delay), loop.nextId;
    }

    /** `ipv4ll_stop`. */
    method Ipv4llStop()
      modifies this
      ensures View() == LinkLocalStop(old(View()))
    {
      listen := ListenNone;
      loop := loop.Remove(timeout);
      phase := Probe;
      retryTimes := 0;
      requestedIp := 0;
      session := session.(assignedIp := None);
    }

    /** The end of `ipv4ll_recv_arp_packet`: restart with another address, or give up. */
    method GiveWay(env: Env)
      modifies this
      ensures View() == Yield(old(View()), env)
    {
      Ipv4llStop();
      if session.conflicts < MAX_CONFLICTS {
        retryTimes := retryTimes + 1;
        loop, timeout := loop.Add(Callback.SendProbePacket, env.now + env.delay), loop.nextId;
      } else {
        log := log + [NoLease];
      }
    }

    /** `ipv4ll_recv_arp_packet`. */
    method Ipv4llRecvArpPacket(env: Env, arp: Arp)
      modifies this
      ensures View() == OnArp(old(View()), env, arp)
    {
      hide SendAnnounce, Yield;
      if arp.op != ARPOP_REPLY && arp.op != ARPOP_REQUEST {
        return;
      }
      var source := arp.source == requestedIp;
      var target := arp.target == requestedIp;
      if !source && !target {
        return;
      }
      session := session.(conflicts := Inc8(session.conflicts));
      log := log + [Conflict];
      if phase == Monitor {
        if !source {
          return;
        }
        phase := Defend;
        SendAnnouncePacket(env);
        return;
      }
      if phase == Defend {
        if !source {
          return;
        }
        log := log + [LinkLocalLost];
      }
      GiveWay(env);
    }

    /** `ipv4ll_probe_timeout`. */
    method Ipv4llProbeTimeout(env: Env)
      modifies this
      ensures View() == OnProbeTimeout(old(View()), env)
    {
      if retryTimes == PROBE_NUM {
        phase := Announce;
        retryTimes := 0;
        retryTimes := retryTimes + 1;
        SendAnnouncePacket(env);
        return;
      }
      retryTimes := Inc8(retryTimes);
      SendProbePacket(env);
    }

    /** `ipv4ll_announce_timeout`. */
    method Ipv4llAnnounceTimeout(env: Env)
      modifies this
      ensures View() == OnAnnounceTimeout(old(View()), env)
    {
      if retryTimes != ANNOUNCE_NUM {
        retryTimes := Inc8(retryTimes);
        SendAnnouncePacket(env);
        return;
      }
      phase := Monitor;
      session := session.(assignedIp := Some(requestedIp));
      log := log + [LinkLocalAvailable(requestedIp)];
      session := session.(conflicts := 0);
    }

    // -------------------------------------------------------------- DHCP

    /** `start_request`. */
    method StartRequest(env: Env)
      modifies this
      ensures View() == Spec.StartRequest(old(View()), env)
    {
      if retryTimes == REQUEST_RETRIES {
        phase := InitSelecting;
        Ipv4llStart(env);
        return;
      }
      if retryTimes == 0 {
        phase := Requesting;
        listen := Listen2;
      }
      log := log + [Selected(session.xid, requestedIp, session.serverIp)];
      loop, timeout := loop.Add(RequestTimeout, env.now + REQUEST_TIMEOUT * 1000), loop.nextId;
    }

    /** `g_dhcp_client_start`, as the client itself calls it too. */
    method SendDiscover(env: Env, lastAddress: Option<Ip>)
      modifies this
      ensures View() == Spec.Start(old(View()), env, lastAddress)
    {
      if retryTimes == DISCOVER_RETRIES {
        Ipv4llStart(env);
        return;
      }
      if retryTimes == 0 {
        session := session.(assignedIp := None);
        phase := InitSelecting;
        listen := Listen2;
        session := session.(xid := env.xid);
      }
      var addr: Ip := 0;
      if lastAddress.Some? && lastAddress.value != 0xffff_ffff {
        addr := lastAddress.value;
        session := session.(lastAddress := lastAddress);
      }
      log := log + [Discovered(session.xid, addr)];
      loop, timeout := loop.Add(DiscoverTimeout, env.now + DISCOVER_TIMEOUT * 1000), loop.nextId;
    }

    /** `restart_dhcp`. */
    method RestartDhcp(env: Env, retryTimes: Byte)
      modifies this
      ensures View() == Restart(old(View()), env, retryTimes)
    {
      loop, timeout := loop.Remove(timeout), 0;
      this.retryTimes := retryTimes;
      requestedIp := 0;
      listen := Listen2;
      SendDiscover(env, session.lastAddress);
    }

    /** `start_rebound_timeout`. */
    method StartReboundTimeout(env: Env)
      modifies this
      ensures View() == OnReboundTimeout(old(View()), env)
    {
      listen := Listen2;
      session := session.(leaseSeconds := session.leaseSeconds / 2);
      if session.leaseSeconds <= 6 {
        log := log + [LeaseLost];
        RestartDhcp(env, 0);
      } else {
        log := log + [Rebound(session.xid, requestedIp)];
        loop, timeout := loop.Add(ReboundTimeout, env.now + session.leaseSeconds / 2 * 1000), loop.nextId;
      }
    }

    /** `start_renew_timeout` and `start_rebound`. */
    method StartRenewTimeout(env: Env)
      modifies this
      ensures View() == OnRenewTimeout(old(View()), env)
    {
      phase := Renewing;
      session := session.(leaseSeconds := session.leaseSeconds / 2);
      listen := Listen3;
      if session.leaseSeconds <= 60 {
        phase := Rebinding;
        loop, timeout := loop.Add(ReboundTimeout, env.now + session.leaseSeconds / 2 * 1000), loop.nextId;
      } else {
        log := log + [Renewed(session.xid, requestedIp)];
        loop := loop.Remove(timeout);
        loop, timeout := loop.Add(RenewTimeout, env.now + session.leaseSeconds / 2 * 1000), loop.nextId;
      }
    }

    /** `start_bound`. */
    method StartBound(env: Env)
      modifies this
      ensures View() == Spec.StartBound(old(View()), env)
    {
      phase := Bound;
      loop := loop.Remove(timeout);
      loop, timeout := loop.Add(RenewTimeout, env.now + session.leaseSeconds / 2 * 1000), loop.nextId;
    }

    /** The packet half of `listener_event`. */
    method HandlePacket(env: Env, p: Packet)
      modifies this
      ensures View() == OnPacket(old(View()), env, p)
    {
      hide OnOffer, OnAck, OnNak;
      if p.xid != session.xid || p.hlen != 6 || p.mac != mac || p.messageType.None? {
        return;
      }
      var ty := p.messageType.value;
      match phase {
        case InitSelecting =>
          if ty == DHCPOFFER {
            HandleOffer(env, p);
          }
        case Requesting | Renewing | Rebinding =>
          if ty == DHCPACK {
            HandleAck(env, p);
          } else if ty == DHCPNAK {
            HandleNak(env);
          }
        case _ =>
      }
    }

    method HandleOffer(env: Env, p: Packet)
      modifies this
      ensures View() == OnOffer(old(View()), env, p)
    {
      hide Spec.StartRequest;
      loop, timeout := loop.Remove(timeout), 0;
      retryTimes := 0;
      session := session.(serverIp := p.serverId);
      requestedIp := p.yiaddr;
      phase := Requesting;
      StartRequest(env);
    }

    method HandleAck(env: Env, p: Packet)
      modifies this
      ensures View() == OnAck(old(View()), env, p)
    {
      hide Spec.StartBound;
      retryTimes := 0;
      loop, timeout := loop.Remove(timeout), 0;
      session := session.(leaseSeconds := LeaseOf(p.leaseTime));
      listen := ListenNone;
      session := session.(assignedIp := Some(p.yiaddr));
      log := log + [LeaseAvailable(p.yiaddr)];
      StartBound(env);
    }

    method HandleNak(env: Env)
      modifies this
      ensures View() == OnNak(old(View()), env)
    {
      retryTimes := 0;
      loop := loop.Remove(timeout);
      loop, timeout := loop.Add(RestartTimeout, env.now + RESTART_TIMEOUT * 1000), loop.nextId;
    }

    /** The callback a due timer was armed with, after which the main loop drops the timer. */
    method RunTimer(env: Env, id: nat)
      requires id in loop.timers
      modifies this
      ensures View() == Fire(old(View()), env, id)
    {
      hide Spec.Start, Spec.StartRequest, Restart, OnRenewTimeout, OnReboundTimeout, SendProbe, OnProbeTimeout,
          OnAnnounceTimeout;
      match loop.timers[id].callback {
        case DiscoverTimeout =>
          retryTimes := Inc8(retryTimes);
          SendDiscover(env, None);
        case RequestTimeout =>
          retryTimes := Inc8(retryTimes);
          StartRequest(env);
        case RestartTimeout =>
          session := session.(ackRetryTimes := Inc8(session.ackRetryTimes));
          RestartDhcp(env, session.ackRetryTimes);
        case RenewTimeout =>
          StartRenewTimeout(env);
        case ReboundTimeout =>
          StartReboundTimeout(env);
        case SendProbePacket =>
          SendProbePacket(env);
        case ProbeTimeout =>
          Ipv4llProbeTimeout(env);
        case AnnounceTimeout =>
          Ipv4llAnnounceTimeout(env);
        case DefendTimeout =>
          session := session.(conflicts := 0);
          phase := Monitor;
      }
      loop := loop.Remove(id);
    }

    // -------------------------------------------------------------- what others call

    /** The application starts the client, while no timer is pending. */
    method Start(env: Env, lastAddress: Option<Ip>)
      requires Valid() && loop.timers == map[] && Proper(env)
      modifies this
      ensures Valid() && View() == Spec.Start(old(View()), env, lastAddress)
    {
      hide ClaimInv, SingleTimer, Spec.Start;
      StepClaims(View(), DoStart(lastAddress), env);
      StepSingle(View(), DoStart(lastAddress), env);
      SendDiscover(env, lastAddress);
    }

    /** `g_dhcp_client_stop`. */
    method Stop()
      requires Valid()
      modifies this
      ensures Valid() && loop.timers == map[] && View() == Spec.Stop(old(View()))
    {
      hide ClaimInv, SingleTimer, Spec.Stop;
      StepClaims(View(), DoStop, Env(0, 0, LINKLOCAL_ADDR + 0x0100, 0));
      StepSingle(View(), DoStop, Env(0, 0, LINKLOCAL_ADDR + 0x0100, 0));
      Release();
    }

    method Release()
      modifies this
      ensures View() == Spec.Stop(old(View()))
    {
      listen := ListenNone;
      if phase == Bound || phase == Renewing || phase == Rebinding {
        log := log + [Freed(requestedIp, session.serverIp)];
      }
      loop, timeout := loop.Remove(timeout), 0;
      log := log + [Stopped];
      retryTimes := 0;
      session := session.(ackRetryTimes := 0);
      requestedIp := 0;
      phase := Released;
      session := session.(leaseSeconds := 0);
    }

    /** The main loop dispatches a due timer. */
    method Dispatch(env: Env, id: nat)
      requires Valid() && id in loop.timers && Proper(env)
      modifies this
      ensures Valid() && View() == Fire(old(View()), env, id)
    {
      hide ClaimInv, SingleTimer, Fire;
      StepClaims(View(), Expire(id), env);
      StepSingle(View(), Expire(id), env);
      RunTimer(env, id);
    }

    /** `listener_event`: the socket is read as its mode tells, as a DHCP packet or as an ARP packet. */
    method ListenerEvent(env: Env, p: Packet, arp: Arp)
      requires Valid() && Proper(env)
      modifies this
      ensures Valid()
      ensures View() == match old(listen)
              case ListenNone => old(View())
              case ListenArp => OnArp(old(View()), env, arp)
              case _ => OnPacket(old(View()), env, p)
    {
      hide ClaimInv, SingleTimer, OnArp, OnPacket;
      if listen == ListenNone {
        return;
      }
      if listen == ListenArp {
        StepClaims(View(), Hear(arp), env);
        StepSingle(View(), Hear(arp), env);
        Ipv4llRecvArpPacket(env, arp);
        return;
      }
      StepClaims(View(), Receive(p), env);
      StepSingle(View(), Receive(p), env);
      HandlePacket(env, p);
    }
  }

  /** `ipv4ll_random_ip`: the rejection loop over the generator's values `rand`, whose
      first acceptable value comes at index `n`. */
  method RandomLinkLocalIp(rand: nat -> nat, n: nat) returns (ip: Ip)
    requires rand(n) % 0x1_0000 <= 0xffff - 0x0200
    ensures InLinkLocal(ip)
    ensures exists k :: 0 <= k <= n && ip == LINKLOCAL_ADDR + 0x0100 + rand(k) % 0x1_0000
                        && forall j :: 0 <= j < k ==> rand(j) % 0x1_0000 > 0xffff - 0x0200
  {
    var k := 0;
    var tmp := rand(k) % 0x1_0000;
    while tmp > 0xffff - 0x0200
      invariant k <= n && tmp == rand(k) % 0x1_0000
      invariant forall j :: 0 <= j < k ==> rand(j) % 0x1_0000 > 0xffff - 0x0200
      decreases n - k
    {
      k := k + 1;
      tmp := rand(k) % 0x1_0000;
    }
    ip := LINKLOCAL_ADDR + 0x0100 + tmp;
  }
}
