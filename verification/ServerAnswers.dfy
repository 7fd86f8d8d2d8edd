/** What the DHCP server answers to a packet and what it does to the table, by the fields of the
    packet. */
module ServerAnswers {
  import opened Basics
  import opened LeaseTable
  import opened ServerSpec
  import opened ServerRuns

  /** The lease of the client that sends the packet. */
  ghost predicate Has(t: Table, mac: Mac, nip: Ip) {
    exists e :: e in t && e.mac == mac && e.nip == nip
  }

  ghost predicate HasAny(t: Table, mac: Mac) {
    exists e :: e in t && e.mac == mac
  }

  lemma Finds(t: Table, mac: Mac, nip: Ip)
    requires Unique(t)
    ensures Has(t, mac, nip) <==> FindByMac(t, mac).Some? && FindByMac(t, mac).value.nip == nip
    ensures HasAny(t, mac) <==> FindByMac(t, mac).Some?
  {
    if e :| e in t && e.mac == mac && e.nip == nip { SameNip(t, e, FindByMac(t, mac).value); }
  }

  // ---------------------------------------------------------------- packets not meant for the server

  /** A packet that names another server, such as the REQUEST of a client that has chosen another
      offer, is not answered and changes nothing. */
  lemma OtherServerIgnored(cfg: Config, t: Table, now: int, req: Request, server: Ip)
    requires req.serverId == Some(server) && server != cfg.serverNip
    ensures Step(cfg, t, now, req) == (t, Silent)
  {
  }

  /** Neither is one that is no request, or of another kind of hardware, or without a message type
      from 1 to 8. */
  lemma MalformedIgnored(cfg: Config, t: Table, now: int, req: Request)
    requires req.op != 1 || req.hlen != 6 || req.messageType == None || !(1 <= req.messageType.value <= 8)
    ensures Step(cfg, t, now, req) == (t, Silent)
  {
  }

  // ---------------------------------------------------------------- one packet, by its type

  /** The entry of a DECLINE: it names this server and the leased address. */
  predicate Declines(cfg: Config, req: Request, e: Entry) {
    req.serverId == Some(cfg.serverNip) && req.requestedIp == Some(e.nip) && e.mac == req.mac
  }

  /** A DECLINE that names this server and the leased address removes exactly that lease, the others
      keeping their places; any other changes nothing. None is answered. */
  lemma DeclineExact(cfg: Config, t: Table, now: int, req: Request)
    requires Unique(t) && IsPacket(req, 4)
    ensures
      var (t', r) := Step(cfg, t, now, req);
      && r == Silent
      && (forall i :: 0 <= i < |t| && Declines(cfg, req, t[i]) ==> t' == t[..i] + t[i + 1..])
      && ((forall e :: e in t ==> !Declines(cfg, req, e)) ==> t' == t)
  {
    hide RemoveLease, Unique;
    forall i | 0 <= i < |t| && Declines(cfg, req, t[i])
      ensures Step(cfg, t, now, req).0 == t[..i] + t[i + 1..]
    {
      FindsMac(t, t[i]);
      RemoveLeaseAt(t, i);
    }
  }

  /** The entry of a RELEASE: it names this server and carries the leased address. */
  predicate Releases(cfg: Config, req: Request, e: Entry) {
    req.serverId == Some(cfg.serverNip) && req.ciaddr == e.nip && e.mac == req.mac
  }

  /** A RELEASE that names this server and carries the leased address leaves that lease with the
      present time, in 32 bits, as its expiry, and touches no other; any other changes nothing. None is
      answered. */
  lemma ReleaseExact(cfg: Config, t: Table, now: int, req: Request)
    requires WellFormed(cfg, t) && IsPacket(req, 7)
    ensures
      var (t', r) := Step(cfg, t, now, req);
      && r == Silent
      && (forall e :: e in t && Releases(cfg, req, e) ==>
            |t'| == |t| && forall x :: x in t' <==> x == e.(expire := now % 0x1_0000_0000) || (x in t && x != e))
      && ((forall e :: e in t ==> !Releases(cfg, req, e)) ==> t' == t)
  {
    hide RemoveLease, Insert, Unique;
    var t' := Step(cfg, t, now, req).0;
    forall e | e in t && Releases(cfg, req, e)
      ensures |t'| == |t| && forall x :: x in t' <==> x == e.(expire := now % 0x1_0000_0000) || (x in t && x != e)
    {
      FindsMac(t, e);
      SetExpireKeeps(cfg, t, e, now % 0x1_0000_0000);
      forall x | x in t && x.nip == e.nip ensures x == e { SameNip(t, x, e); }
      RemovedSize(t, e);
      InsertContents(RemoveLease(t, e.nip), e.(expire := now % 0x1_0000_0000));
    }
  }

  lemma RemovedSize(t: Table, e: Entry)
    requires Unique(t) && e in t
    ensures |RemoveLease(t, e.nip)| == |t| - 1
  {
    hide Unique, RemoveLease;
    var i :| 0 <= i < |t| && t[i] == e;
    RemoveLeaseAt(t, i);
  }

  /** The address a REQUEST asks for: the option, or without one, or with an empty one, that of the
      header. */
  function Asked(req: Request): Ip {
    match req.requestedIp
    case None => req.ciaddr
    case Some(x) => if x == 0 then req.ciaddr else x
  }

  /** A REQUEST is acknowledged if and only if it asks for the client's lease, and refused if and
      only if it asks for another address and either names this server or the client has no lease; in
      all other cases it is not answered. Only an ACK changes the table: it renews the lease for the
      configured time, from now on, and touches no other. */
  lemma RequestExact(cfg: Config, t: Table, now: int, req: Request)
    requires WellFormed(cfg, t) && IsPacket(req, 3) && ForMe(cfg, req)
    ensures
      var (t', r) := Step(cfg, t, now, req);
      var x := Asked(req);
      if Has(t, req.mac, x) then
        && r == Ack(req.mac, req.xid, x, cfg.leaseSeconds)
        && forall e :: e in t' <==> e == Entry(now + cfg.leaseSeconds, x, req.mac) || (e in t && e.mac != req.mac)
      else if x != 0 && (req.serverId == Some(cfg.serverNip) || !HasAny(t, req.mac)) then
        r == Nak(req.mac, req.xid) && t' == t
      else r == Silent && t' == t
  {
    hide Insert, Evict, Unique;
    var x := Asked(req);
    Finds(t, req.mac, x);
    if Has(t, req.mac, x) {
      AddLeaseKeeps(cfg, t, now, 0, req.mac, x);
      var lease := FindByMac(t, req.mac).value;
      forall e | e in t && (e.nip == x || e.mac == req.mac) ensures e == lease { SameNip(t, e, lease); }
    }
  }

  /** A DISCOVER of a client with a lease is offered its address again, whatever it asks for; the
      lease becomes one that ends at the absolute time 300. */
  lemma KnownOffered(cfg: Config, t: Table, now: int, req: Request, e: Entry)
    requires WellFormed(cfg, t) && IsPacket(req, 1) && ForMe(cfg, req) && e in t && e.mac == req.mac
    ensures
      var (t', r) := Step(cfg, t, now, req);
      && r == Offer(req.mac, req.xid, e.nip, cfg.leaseSeconds)
      && forall x :: x in t' <==> x == Entry(300, e.nip, req.mac) || (x in t && x != e)
  {
    hide Insert, Evict, Unique;
    FindsMac(t, e);
    AddLeaseKeeps(cfg, t, now, OFFER_TIME, req.mac, e.nip);
    forall x | x in t && (x.nip == e.nip || x.mac == req.mac) ensures x == e { SameNip(t, x, e); }
  }

  /** The address a DISCOVER names is in range, and no lease of it runs. */
  ghost predicate Available(cfg: Config, t: Table, now: int, nip: Ip) {
    nip != 0 && cfg.startIp <= nip <= cfg.endIp && forall e :: e in t && e.nip == nip ==> e.expire < now
  }

  lemma AvailableIff(cfg: Config, t: Table, now: int, nip: Ip)
    requires Unique(t)
    ensures Available(cfg, t, now, nip) <==> RequestedOk(cfg, t, now, nip)
  {
    var lease := FindByNip(t, nip);
    forall e | e in t && e.nip == nip ensures lease == Some(e) { SameNip(t, e, lease.value); }
  }

  /** A DISCOVER of a client without a lease: it is offered the address it names if that is available,
      else the one the allocator yields, and the client is entered with that address until the absolute
      time 300, at the cost of the expired lease of it; without an address, or for a hardware address of
      all zeros or ones, there is no answer and no change. */
  lemma NewcomerExact(cfg: Config, t: Table, now: int, req: Request)
    requires WellFormed(cfg, t) && IsPacket(req, 1) && ForMe(cfg, req) && !HasAny(t, req.mac)
    ensures
      var (t', r) := Step(cfg, t, now, req);
      var x := if req.requestedIp.Some? && Available(cfg, t, now, req.requestedIp.value) then req.requestedIp.value
               else FindFreeOrExpired(cfg, t, now);
      if x != 0 && cfg.startIp <= x <= cfg.endIp && req.mac != 0 && req.mac != 0xffff_ffff_ffff then
        && r == Offer(req.mac, req.xid, x, cfg.leaseSeconds)
        && forall e :: e in t' <==> e == Entry(300, x, req.mac) || (e in t && e.nip != x)
      else r == Silent && t' == t
  {
    hide Insert, Evict, Unique, RequestedOk, FindFreeOrExpired;
    Finds(t, req.mac, 0);
    AvailableIff(cfg, t, now, RequestedNip(req));
    var x := OfferAddress(cfg, t, now, req);
    if Leasable(cfg, x, req.mac) { AddLeaseKeeps(cfg, t, now, OFFER_TIME, req.mac, x); }
  }

  /** An INFORM is answered without a lease; the types that only servers send are not answered. */
  lemma OthersExact(cfg: Config, t: Table, now: int, req: Request, ty: Byte)
    requires IsPacket(req, ty) && ForMe(cfg, req) && (ty == 2 || ty == 5 || ty == 6 || ty == 8)
    ensures Step(cfg, t, now, req) == (t, if ty == 8 then InformAck(req.mac, req.xid) else Silent)
  {
  }
}
