/** What the DHCP server guarantees over whole runs of packets. */
module ServerRuns {
  import opened Basics
  import opened LeaseTable
  import opened ServerSpec

  datatype Event = Event(now: int, req: Request)

  /** The tables and the answers of a run. */
  function TableAfter(cfg: Config, t: Table, evs: seq<Event>): Table
    decreases |evs|
  {
    if evs == [] then t else TableAfter(cfg, Step(cfg, t, evs[0].now, evs[0].req).0, evs[1..])
  }

  function Replies(cfg: Config, t: Table, evs: seq<Event>): (rs: seq<Reply>)
    ensures |rs| == |evs|
    decreases |evs|
  {
    if evs == [] then []
    else
      var (t', r) := Step(cfg, t, evs[0].now, evs[0].req);
      [r] + Replies(cfg, t', evs[1..])
  }

  ghost predicate Monotone(evs: seq<Event>) {
    forall i, j :: 0 <= i < j < |evs| ==> evs[i].now <= evs[j].now
  }

  predicate Grants(r: Reply, nip: Ip) {
    (r.Ack? || r.Offer?) && r.yiaddr == nip
  }

  /** A request of type `ty` from an Ethernet client. */
  predicate IsPacket(req: Request, ty: Byte) {
    req.op == 1 && req.hlen == 6 && req.messageType == Some(ty)
  }

  /** The packet names this server, or none. */
  predicate ForMe(cfg: Config, req: Request) {
    req.serverId == None || req.serverId == Some(cfg.serverNip)
  }

  /** A message by which client `mac` puts its lease of `nip` at risk: a DISCOVER, or a DECLINE or
      RELEASE of that address that names this server. */
  predicate GivesUp(cfg: Config, req: Request, mac: Mac, nip: Ip) {
    && req.mac == mac
    && (|| (IsPacket(req, DHCPDISCOVER) && ForMe(cfg, req))
        || (IsPacket(req, DHCPDECLINE) && req.serverId == Some(cfg.serverNip) && req.requestedIp == Some(nip))
        || (IsPacket(req, DHCPRELEASE) && req.serverId == Some(cfg.serverNip) && req.ciaddr == nip))
  }

  /** `mac` has the lease of `nip`, at least until `until`. */
  predicate Held(t: Table, mac: Mac, nip: Ip, until: int) {
    var lease := FindByMac(t, mac);
    lease.Some? && lease.value.nip == nip && lease.value.expire >= until
  }

  lemma FindsMac(t: Table, e: Entry)
    requires Unique(t) && e in t
    ensures FindByMac(t, e.mac) == Some(e)
  {
    SameNip(t, e, FindByMac(t, e.mac).value);
  }

  // ---------------------------------------------------------------- one packet

  /** Every packet keeps the table's invariant. */
  lemma StepKeeps(cfg: Config, t: Table, now: int, req: Request)
    requires WellFormed(cfg, t)
    ensures WellFormed(cfg, Step(cfg, t, now, req).0)
  {
    if Addressed(cfg, req) {
      var lease := FindByMac(t, req.mac);
      var ty := PacketType(req);
      if ty == DHCPDISCOVER {
        var yiaddr := OfferAddress(cfg, t, now, req);
        if Leasable(cfg, yiaddr, req.mac) { AddLeaseKeeps(cfg, t, now, OFFER_TIME, req.mac, yiaddr); }
      } else if ty == DHCPREQUEST && lease.Some? {
        AddLeaseKeeps(cfg, t, now, 0, req.mac, lease.value.nip);
      } else if ty == DHCPDECLINE && lease.Some? {
        RemoveLeaseKeeps(cfg, t, lease.value.nip);
      } else if ty == DHCPRELEASE && lease.Some? {
        SetExpireKeeps(cfg, t, lease.value, now % 0x1_0000_0000);
      }
    }
  }

  lemma AddKeepsOrder(cfg: Config, t: Table, now: int, expire: nat, mac: Mac, nip: Ip)
    requires SortedByExpiry(t) && Expiries31(t) && Leasable(cfg, nip, mac)
    requires 0 <= NewExpiry(cfg, now, expire) < 0x8000_0000
    ensures
      var t' := AddLease(cfg, t, now, expire, mac, nip).value;
      SortedByExpiry(t') && Expiries31(t')
  {
    EvictKeepsOrder(t, nip, mac);
    InsertKeepsOrder(Evict(t, nip, mac), Entry(NewExpiry(cfg, now, expire), nip, mac));
  }

  /** ... and, as long as expiries fit in 31 bits, its order. */
  lemma StepKeepsOrder(cfg: Config, t: Table, now: int, req: Request)
    requires WellFormed(cfg, t) && SortedByExpiry(t) && Expiries31(t)
    requires 0 <= now && now + cfg.leaseSeconds < 0x8000_0000
    ensures SortedByExpiry(Step(cfg, t, now, req).0) && Expiries31(Step(cfg, t, now, req).0)
  {
    if Addressed(cfg, req) {
      var lease := FindByMac(t, req.mac);
      var ty := PacketType(req);
      if ty == DHCPDISCOVER {
        var yiaddr := OfferAddress(cfg, t, now, req);
        if Leasable(cfg, yiaddr, req.mac) { AddKeepsOrder(cfg, t, now, OFFER_TIME, req.mac, yiaddr); }
      } else if ty == DHCPREQUEST && lease.Some? {
        AddKeepsOrder(cfg, t, now, 0, req.mac, lease.value.nip);
      } else if ty == DHCPDECLINE && lease.Some? {
        RemoveKeepsOrder(t, lease.value.nip);
      } else if ty == DHCPRELEASE && lease.Some? {
        RemoveKeepsOrder(t, lease.value.nip);
        InsertKeepsOrder(RemoveLease(t, lease.value.nip), lease.value.(expire := now % 0x1_0000_0000));
      }
    }
  }

  /** An ACK leaves the client with the acknowledged lease. */
  lemma AckHeld(cfg: Config, t: Table, now: int, req: Request)
    requires WellFormed(cfg, t)
    requires Step(cfg, t, now, req).1.Ack?
    ensures
      var (t', r) := Step(cfg, t, now, req);
      r.mac == req.mac && r.lease == cfg.leaseSeconds && Held(t', r.mac, r.yiaddr, now + r.lease)
  {
    var (t', r) := Step(cfg, t, now, req);
    AddLeaseKeeps(cfg, t, now, 0, req.mac, r.yiaddr);
    FindsMac(t', Entry(now + cfg.leaseSeconds, r.yiaddr, req.mac));
  }

  /** No packet of anyone else, and none of its own but a DISCOVER and a DECLINE or RELEASE of the
      address, takes a running lease away. */
  lemma HeldKept(cfg: Config, t: Table, now: int, req: Request, mac: Mac, nip: Ip, until: int)
    requires WellFormed(cfg, t) && Held(t, mac, nip, until) && !GivesUp(cfg, req, mac, nip)
    requires now <= until <= now + cfg.leaseSeconds
    ensures Held(Step(cfg, t, now, req).0, mac, nip, until)
  {
    var t' := Step(cfg, t, now, req).0;
    var e := FindByMac(t, mac).value;
    StepKeeps(cfg, t, now, req);
    if Addressed(cfg, req) {
      var lease := FindByMac(t, req.mac);
      var ty := PacketType(req);
      if req.mac == mac {
        if Step(cfg, t, now, req).1.Ack? { AckHeld(cfg, t, now, req); }
      } else {
        KeptByOther(cfg, t, now, req, e);
        FindsMac(t', e);
      }
    }
  }

  lemma KeptByOther(cfg: Config, t: Table, now: int, req: Request, e: Entry)
    requires WellFormed(cfg, t) && e in t && !Expired(e, now) && req.mac != e.mac
    ensures e in Step(cfg, t, now, req).0
    ensures !Grants(Step(cfg, t, now, req).1, e.nip)
  {
    hide Insert, Evict, RequestedOk, FindFreeOrExpired, Unique;
    var lease := FindByMac(t, req.mac);
    if lease.Some? && lease.value.nip == e.nip { SameNip(t, e, lease.value); }
    if Addressed(cfg, req) {
      var ty := PacketType(req);
      if ty == DHCPDISCOVER {
        var yiaddr := OfferAddress(cfg, t, now, req);
        if lease.None? { OfferedNotHeld(cfg, t, now, yiaddr, e); }
        if Leasable(cfg, yiaddr, req.mac) { AddLeaseKeeps(cfg, t, now, OFFER_TIME, req.mac, yiaddr); }
      } else if ty == DHCPREQUEST && lease.Some? {
        AddLeaseKeeps(cfg, t, now, 0, req.mac, lease.value.nip);
      } else if ty == DHCPRELEASE && lease.Some? {
        SetExpireKeeps(cfg, t, lease.value, now % 0x1_0000_0000);
      }
    }
  }

  // ---------------------------------------------------------------- whole runs

  /** Every table of every run is well formed. */
  lemma {:induction false} RunKeeps(cfg: Config, t: Table, evs: seq<Event>)
    requires WellFormed(cfg, t)
    ensures WellFormed(cfg, TableAfter(cfg, t, evs))
    decreases |evs|
  {
    if evs != [] {
      StepKeeps(cfg, t, evs[0].now, evs[0].req);
      RunKeeps(cfg, Step(cfg, t, evs[0].now, evs[0].req).0, evs[1..]);
    }
  }

  /** ... and ordered by expiry, for runs that end while expiries fit in 31 bits. */
  lemma {:induction false} RunKeepsOrder(cfg: Config, t: Table, evs: seq<Event>)
    requires WellFormed(cfg, t) && SortedByExpiry(t) && Expiries31(t)
    requires forall i :: 0 <= i < |evs| ==> 0 <= evs[i].now && evs[i].now + cfg.leaseSeconds < 0x8000_0000
    ensures SortedByExpiry(TableAfter(cfg, t, evs)) && Expiries31(TableAfter(cfg, t, evs))
    decreases |evs|
  {
    if evs != [] {
      StepKeeps(cfg, t, evs[0].now, evs[0].req);
      StepKeepsOrder(cfg, t, evs[0].now, evs[0].req);
      RunKeepsOrder(cfg, Step(cfg, t, evs[0].now, evs[0].req).0, evs[1..]);
    }
  }

  /** While a lease is held, a run without messages that give it up grants its address
      to nobody else. */
  lemma {:induction false} NotGrantedWhileHeld(cfg: Config, t: Table, evs: seq<Event>, mac: Mac, nip: Ip, until: int,
          j: nat)
    requires WellFormed(cfg, t) && Held(t, mac, nip, until)
    requires j < |evs| && evs[j].req.mac != mac
    requires forall k :: 0 <= k <= j ==> evs[k].now <= until <= evs[k].now + cfg.leaseSeconds
    requires forall k :: 0 <= k < j ==> !GivesUp(cfg, evs[k].req, mac, nip)
    ensures !Grants(Replies(cfg, t, evs)[j], nip)
    decreases j
  {
    hide Step, WellFormed, GivesUp, Grants;
    var (t', r) := Step(cfg, t, evs[0].now, evs[0].req);
    if j == 0 {
      KeptByOther(cfg, t, evs[0].now, evs[0].req, FindByMac(t, mac).value);
    } else {
      StepKeeps(cfg, t, evs[0].now, evs[0].req);
      HeldKept(cfg, t, evs[0].now, evs[0].req, mac, nip, until);
      NotGrantedWhileHeld(cfg, t', evs[1..], mac, nip, until, j - 1);
    }
  }

  /** Answer `i` acknowledges an address, and answer `j` grants it to another client before the
      lease has run out. */
  predicate GrantedTwice(evs: seq<Event>, rs: seq<Reply>, i: nat, j: nat)
    requires i < j < |evs| == |rs|
  {
    && rs[i].Ack?
    && evs[j].req.mac != rs[i].mac
    && evs[j].now <= evs[i].now + rs[i].lease
    && Grants(rs[j], rs[i].yiaddr)
  }

  /** Exclusivity: an address acknowledged to one client is neither acknowledged nor
      offered to another before the lease has run out, unless the client has put it at
      risk itself by a DISCOVER, or by a DECLINE or RELEASE of that address, in between. */
  lemma {:induction false} Exclusive(cfg: Config, t: Table, evs: seq<Event>, i: nat, j: nat)
    requires WellFormed(cfg, t) && Monotone(evs) && i < j < |evs|
    ensures
      var rs := Replies(cfg, t, evs);
      GrantedTwice(evs, rs, i, j) ==> exists k :: i < k < j && GivesUp(cfg, evs[k].req, rs[i].mac, rs[i].yiaddr)
    decreases |evs|
  {
    hide Step, WellFormed, GivesUp, Grants, Held;
    var (t', r) := Step(cfg, t, evs[0].now, evs[0].req);
    var rest := evs[1..];
    assert forall k :: 0 <= k < |rest| ==> rest[k] == evs[k + 1];
    StepKeeps(cfg, t, evs[0].now, evs[0].req);
    if GrantedTwice(evs, Replies(cfg, t, evs), i, j) {
      if i > 0 {
        Exclusive(cfg, t', rest, i - 1, j - 1);
        var ack := Replies(cfg, t', rest)[i - 1];
        var k :| i - 1 < k < j - 1 && GivesUp(cfg, rest[k].req, ack.mac, ack.yiaddr);
        assert evs[k + 1] == rest[k];
      } else {
        AckHeld(cfg, t, evs[0].now, evs[0].req);
        if forall k :: 0 < k < j ==> !GivesUp(cfg, evs[k].req, r.mac, r.yiaddr) {
          NotGrantedWhileHeld(cfg, t', rest, r.mac, r.yiaddr, evs[0].now + r.lease, j - 1);
        }
      }
    }
  }

  // ---------------------------------------------------------------- what is offered

  /** A DISCOVER of a client that has no lease. */
  predicate Newcomer(cfg: Config, t: Table, req: Request) {
    && IsPacket(req, DHCPDISCOVER) && ForMe(cfg, req) && FindByMac(t, req.mac).None?
    && req.mac != MAC_ANY && req.mac != MAC_BCAST
  }

  /** A newcomer is offered the address it names if and only if that is in range and free or
      expired. */
  lemma WishGrantedIff(cfg: Config, t: Table, now: int, req: Request)
    requires WellFormed(cfg, t) && Newcomer(cfg, t, req)
    ensures
      var r := Step(cfg, t, now, req).1;
      r.Offer? && r.yiaddr == RequestedNip(req) <==> RequestedOk(cfg, t, now, RequestedNip(req))
  {
    hide FindFreeOrExpired, RequestedOk, Insert, Evict;
    AllocatedOk(cfg, t, now);
    assert RequestedOk(cfg, t, now, RequestedNip(req)) ==> InRange(cfg, RequestedNip(req))
        by { WishInRange(cfg, t, now, RequestedNip(req)); }
  }

  lemma WishInRange(cfg: Config, t: Table, now: int, nip: Ip)
    ensures RequestedOk(cfg, t, now, nip) ==> InRange(cfg, nip)
  {
  }

  /** So also an address ending in .0 or .255, which the scan passes over as not to be handed
      out. */
  lemma BroadcastOffered()
    ensures
      var cfg := Config(0x0a00_0001, 0x0a00_00ff, 0x0a00_0001, 3600);
      var req := Request(BOOTREQUEST, ETH_ALEN, Some(DHCPDISCOVER), None, Some(0x0a00_00ff), 0, 2, 7);
      Step(cfg, [], 1000, req).1 == Offer(2, 7, 0x0a00_00ff, 3600) && !Usable(0x0a00_00ff)
  {
    var cfg := Config(0x0a00_0001, 0x0a00_00ff, 0x0a00_0001, 3600);
    var req := Request(BOOTREQUEST, ETH_ALEN, Some(DHCPDISCOVER), None, Some(0x0a00_00ff), 0, 2, 7);
    assert RequestedOk(cfg, [], 1000, 0x0a00_00ff);
  }

  /** A newcomer is offered something if and only if its wish is granted, or some lease has
      expired or some usable address is free, and the scan does not wrap around. */
  lemma OfferedIff(cfg: Config, t: Table, now: int, req: Request)
    requires WellFormed(cfg, t) && SortedByExpiry(t) && Newcomer(cfg, t, req)
    ensures Step(cfg, t, now, req).1.Offer? <==>
            || RequestedOk(cfg, t, now, RequestedNip(req))
            || (InTime(cfg, t) && (SomeFree(cfg, t) || exists e :: e in t && Expired(e, now)))
  {
    hide FindFreeOrExpired, RequestedOk, Insert, Evict, SomeFree, Unique;
    AllocatorExact(cfg, t, now);
    assert RequestedOk(cfg, t, now, RequestedNip(req)) ==> InRange(cfg, RequestedNip(req))
        by { WishInRange(cfg, t, now, RequestedNip(req)); }
  }

  /** On a range up to 255.255.255.255 whose one usable address has an expired lease a newcomer
      gets no answer, although that lease could be had. */
  lemma OfferLost()
    ensures
      var cfg := Config(0xffff_fffe, IP_MAX, 1, 3600);
      var t := [Entry(300, 0xffff_fffe, 1)];
      var req := Request(BOOTREQUEST, ETH_ALEN, Some(DHCPDISCOVER), None, None, 0, 2, 7);
      WellFormed(cfg, t) && Expired(t[0], 1000) && Step(cfg, t, 1000, req) == (t, Silent)
  {
    var cfg := Config(0xffff_fffe, IP_MAX, 1, 3600);
    var t := [Entry(300, 0xffff_fffe, 1)];
    assert WellFormed(cfg, t) && t[0] == Entry(300, 0xffff_fffe, 1);
    assert FindByNip(t, 0xffff_fffe).Some?;
    ScanWraps(cfg, t);
  }

  /** An offer reserves its address only until the absolute time 300: another client
      without a lease that asks for it by name is offered it again if and only if that
      time has passed. */
  lemma OfferReservesUntil300(cfg: Config, t: Table, now: int, reqA: Request, now': int, reqB: Request)
    requires WellFormed(cfg, t)
    requires var (t', r) := Step(cfg, t, now, reqA);
             && r.Offer? && reqB.requestedIp == Some(r.yiaddr) && FindByMac(t', reqB.mac).None?
    requires IsPacket(reqB, DHCPDISCOVER) && ForMe(cfg, reqB) && reqB.mac != MAC_ANY && reqB.mac != MAC_BCAST
    ensures
      var (t', r) := Step(cfg, t, now, reqA);
      Grants(Step(cfg, t', now', reqB).1, r.yiaddr) <==> now' > OFFER_TIME
  {
    var (t', r) := Step(cfg, t, now, reqA);
    var e := Entry(OFFER_TIME, r.yiaddr, reqA.mac);
    AddLeaseKeeps(cfg, t, now, OFFER_TIME, reqA.mac, r.yiaddr);
    FindsMac(t', e);
    if now' > OFFER_TIME {
      SameNip(t', e, FindByNip(t', r.yiaddr).value);
      assert RequestedOk(cfg, t', now', r.yiaddr);
    } else {
      KeptByOther(cfg, t', now', reqB, e);
    }
  }

  /** The exception is real: a DISCOVER of the holder, such as one delayed by the network,
      lets another client be acknowledged the held address while the lease still runs. */
  lemma DiscoverGivesAway(cfg: Config, t: Table, now: int, mac: Mac, nip: Ip, until: int, reqA: Request,
          reqB: Request, reqB': Request)
    requires WellFormed(cfg, t) && Held(t, mac, nip, until) && OFFER_TIME < now <= until
    requires IsPacket(reqA, DHCPDISCOVER) && ForMe(cfg, reqA) && reqA.mac == mac
    requires IsPacket(reqB, DHCPDISCOVER) && ForMe(cfg, reqB) && reqB.requestedIp == Some(nip)
    requires IsPacket(reqB', DHCPREQUEST) && ForMe(cfg, reqB') && reqB'.requestedIp == Some(nip)
    requires reqB.mac == reqB'.mac != mac && reqB.mac != MAC_ANY && reqB.mac != MAC_BCAST &&
        FindByMac(t, reqB.mac).None?
    ensures Replies(cfg, t, [Event(now, reqA), Event(now, reqB), Event(now, reqB')])[2] ==
        Ack(reqB.mac, reqB'.xid, nip, cfg.leaseSeconds)
  {
    hide Step, AddLease, RequestedOk, WellFormed;
    var evs := [Event(now, reqA), Event(now, reqB), Event(now, reqB')];
    assert evs[1..] == [Event(now, reqB), Event(now, reqB')] && evs[1..][1..] == [Event(now, reqB')];
    assert InRange(cfg, nip) by { HeldInRange(cfg, t, mac, nip, until); }
    DiscoverResets(cfg, t, now, reqA);
    var (t1, r1) := Step(cfg, t, now, reqA);
    DiscoverTakes(cfg, t1, now, nip, reqB);
    var (t2, r2) := Step(cfg, t1, now, reqB);
    RequestAcked(cfg, t2, now, nip, reqB');
    var (t3, r3) := Step(cfg, t2, now, reqB');
    assert Replies(cfg, t2, evs[1..][1..]) == [r3] + Replies(cfg, t3, evs[1..][1..][1..]);
    assert Replies(cfg, t1, evs[1..]) == [r2] + Replies(cfg, t2, evs[1..][1..]);
  }

  lemma HeldInRange(cfg: Config, t: Table, mac: Mac, nip: Ip, until: int)
    requires WellFormed(cfg, t) && Held(t, mac, nip, until)
    ensures InRange(cfg, nip)
  {
  }

  /** A DISCOVER of a client with a lease turns the lease into an offer. */
  lemma DiscoverResets(cfg: Config, t: Table, now: int, req: Request)
    requires WellFormed(cfg, t) && IsPacket(req, DHCPDISCOVER) && ForMe(cfg, req) && FindByMac(t, req.mac).Some?
    ensures
      var t' := Step(cfg, t, now, req).0;
      && WellFormed(cfg, t')
      && FindByNip(t', FindByMac(t, req.mac).value.nip) ==
          Some(Entry(OFFER_TIME, FindByMac(t, req.mac).value.nip, req.mac))
      && forall mac :: mac != req.mac && FindByMac(t, mac).None? ==> FindByMac(t', mac).None?
  {
    hide Insert, Evict, Unique;
    var nip := FindByMac(t, req.mac).value.nip;
    AddLeaseKeeps(cfg, t, now, OFFER_TIME, req.mac, nip);
    var t' := Step(cfg, t, now, req).0;
    assert Entry(OFFER_TIME, nip, req.mac) in t';
    SameNip(t', Entry(OFFER_TIME, nip, req.mac), FindByNip(t', nip).value);
  }

  /** A client without a lease that asks for an expired one gets its address. */
  lemma DiscoverTakes(cfg: Config, t: Table, now: int, nip: Ip, req: Request)
    requires WellFormed(cfg, t) && IsPacket(req, DHCPDISCOVER) && ForMe(cfg, req) &&
        req.requestedIp == Some(nip)
    requires FindByMac(t, req.mac).None? && Leasable(cfg, nip, req.mac)
    requires FindByNip(t, nip).Some? && Expired(FindByNip(t, nip).value, now)
    ensures
      var t' := Step(cfg, t, now, req).0;
      WellFormed(cfg, t') && FindByMac(t', req.mac) == Some(Entry(OFFER_TIME, nip, req.mac))
  {
    AddLeaseKeeps(cfg, t, now, OFFER_TIME, req.mac, nip);
    FindsMac(Step(cfg, t, now, req).0, Entry(OFFER_TIME, nip, req.mac));
  }

  lemma RequestAcked(cfg: Config, t: Table, now: int, nip: Ip, req: Request)
    requires IsPacket(req, DHCPREQUEST) && ForMe(cfg, req) && req.requestedIp == Some(nip) && nip != 0
    requires FindByMac(t, req.mac).Some? && FindByMac(t, req.mac).value.nip == nip
    ensures Step(cfg, t, now, req).1 == Ack(req.mac, req.xid, nip, cfg.leaseSeconds)
  {
  }
}
