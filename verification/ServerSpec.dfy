/** One packet of the DHCP server as a function from the lease table before it to
    the table after it and the answer sent. */
module ServerSpec {
  import opened Basics
  import opened LeaseTable

  const OFFER_TIME: nat := 300

  const BOOTREQUEST: Byte := 1
  const ETH_ALEN: Byte := 6

  /** The parts of a received packet the server looks at. */
  datatype Request = Request(
    op: Byte, hlen: Byte, messageType: Option<Byte>, serverId: Option<Ip>,
    requestedIp: Option<Ip>, ciaddr: Ip, mac: Mac, xid: nat)

  datatype Reply =
    | Silent
    | Offer(mac: Mac, xid: nat, yiaddr: Ip, lease: U32)
    | Ack(mac: Mac, xid: nat, yiaddr: Ip, lease: U32)
    | Nak(mac: Mac, xid: nat)
    | InformAck(mac: Mac, xid: nat)

  /** `check_packet_type`: the message type, or 0 for a packet to be ignored. */
  function PacketType(req: Request): (r: Byte)
    ensures r != 0 <==> req.op == BOOTREQUEST && req.hlen == ETH_ALEN &&
                        req.messageType.Some? && DHCPDISCOVER <= req.messageType.value <= DHCPINFORM
    ensures r != 0 ==> req.messageType == Some(r)
  {
    if req.hlen != ETH_ALEN || req.op != BOOTREQUEST then 0
    else match req.messageType
      case None => 0
      case Some(t) => if DHCPDISCOVER <= t <= DHCPINFORM then t else 0
  }

  function RequestedNip(req: Request): Ip {
    if req.requestedIp.Some? then req.requestedIp.value else 0
  }

  predicate Addressed(cfg: Config, req: Request) {
    PacketType(req) != 0 && (req.serverId.None? || req.serverId.value == cfg.serverNip)
  }

  /** The address an answer to DISCOVER would carry; 0 for none. */
  function OfferAddress(cfg: Config, t: Table, now: int, req: Request): Ip {
    var lease := FindByMac(t, req.mac);
    if lease.Some? then lease.value.nip
    else if RequestedOk(cfg, t, now, RequestedNip(req)) then RequestedNip(req)
    else FindFreeOrExpired(cfg, t, now)
  }

  function OnDiscover(cfg: Config, t: Table, now: int, req: Request): (Table, Reply) {
    var yiaddr := OfferAddress(cfg, t, now, req);
    if yiaddr == 0 then (t, Silent)
    else match AddLease(cfg, t, now, OFFER_TIME, req.mac, yiaddr)
      case None => (t, Silent)
      case Some(t') => (t', Offer(req.mac, req.xid, yiaddr, cfg.leaseSeconds))
  }

  function OnRequest(cfg: Config, t: Table, now: int, req: Request): (Table, Reply) {
    var lease := FindByMac(t, req.mac);
    var nip := if RequestedNip(req) == 0 then req.ciaddr else RequestedNip(req);
    if nip == 0 then (t, Silent)
    else if lease.Some? && nip == lease.value.nip then
      var t' := AddLease(cfg, t, now, 0, req.mac, nip);
      (if t'.Some? then t'.value else t, Ack(req.mac, req.xid, nip, cfg.leaseSeconds))
    else if req.serverId.Some? || lease.None? then (t, Nak(req.mac, req.xid))
    else (t, Silent)
  }

  function OnDecline(t: Table, req: Request): Table {
    var lease := FindByMac(t, req.mac);
    if req.serverId.Some? && req.requestedIp.Some? && lease.Some? && RequestedNip(req) == lease.value.nip
    then RemoveLease(t, lease.value.nip)
    else t
  }

  function OnRelease(t: Table, now: int, req: Request): Table {
    var lease := FindByMac(t, req.mac);
    if req.serverId.Some? && lease.Some? && req.ciaddr == lease.value.nip
    then SetExpire(t, lease.value, now % 0x1_0000_0000)
    else t
  }

  /** Finding an address for a client without a lease comes to an end. */
  predicate OfferEnds(cfg: Config, t: Table, now: int, req: Request) {
    RequestedOk(cfg, t, now, RequestedNip(req)) || ScanAnswer(t, cfg.startIp, cfg.endIp).Some?
  }

  /** Handling the packet comes to an end. */
  predicate Ends(cfg: Config, t: Table, now: int, req: Request) {
    Addressed(cfg, req) && PacketType(req) == DHCPDISCOVER && FindByMac(t, req.mac).None? ==>
        OfferEnds(cfg, t, now, req)
  }

  /** `listener_event`. */
  function Step(cfg: Config, t: Table, now: int, req: Request): (Table, Reply) {
    if !Addressed(cfg, req) then (t, Silent)
    else
      var ty := PacketType(req);
      if ty == DHCPDISCOVER then OnDiscover(cfg, t, now, req)
      else if ty == DHCPREQUEST then OnRequest(cfg, t, now, req)
      else if ty == DHCPDECLINE then (OnDecline(t, req), Silent)
      else if ty == DHCPRELEASE then (OnRelease(t, now, req), Silent)
      else if ty == DHCPINFORM then (t, InformAck(req.mac, req.xid))
      else (t, Silent)
  }
}
