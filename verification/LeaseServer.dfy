/** The DHCP server of gdhcp/server.c: one set of lease records, reachable through an
    expiry-sorted list and through a hash by address, and the packet handlers that
    update both in place.  Every handler is proved against `LeaseTable` and `ServerSpec`. */
module LeaseServer {
  import opened Basics
  import opened LeaseTable
  import opened ServerSpec

  class Lease {
    var expire: int
    var nip: Ip
    var mac: Mac

    constructor ()
    {
      expire, nip, mac := 0, 0, 0;
    }

    function Value(): Entry
      reads this
    {
      Entry(expire, nip, mac)
    }
  }

  /** The records of the list hold the entries of the table. */
  ghost predicate Holds(ls: seq<Lease>, t: Table)
    reads ls
  {
    && |ls| == |t|
    && forall i :: 0 <= i < |ls| ==> ls[i].Value() == t[i]
  }

  /** The hash finds exactly the listed records, each under its own address. */
  ghost predicate Linked(ls: seq<Lease>, hash: map<Ip, Lease>, t: Table) {
    && |ls| == |t|
    && Unique(t)
    && (forall i :: 0 <= i < |ls| ==> t[i].nip in hash && hash[t[i].nip] == ls[i])
    && (forall k :: k in hash ==> exists i :: 0 <= i < |t| && t[i].nip == k)
  }

  lemma {:induction false} ListRemoveAt<T>(s: seq<T>, x: T) returns (i: nat)
    requires x in s
    ensures i < |s| && s[i] == x
    ensures ListRemove(s, x) == s[..i] + s[i + 1..]
  {
    if s[0] == x {
      i := 0;
    } else {
      var k := ListRemoveAt(s[1..], x);
      i := k + 1;
    }
  }

  /** `u` is `t` with one more element, at `k`. */
  ghost predicate Grown<T>(t: seq<T>, u: seq<T>, k: nat) {
    && |u| == |t| + 1 && k <= |t|
    && forall j :: 0 <= j < |u| && j != k ==> u[j] == t[if j < k then j else j - 1]
  }

  lemma InsertGrows<T>(s: seq<T>, x: T, k: nat)
    requires k <= |s|
    ensures Grown(s, s[..k] + [x] + s[k..], k)
    ensures (s[..k] + [x] + s[k..])[k] == x
  {
  }

  lemma RemoveGrows<T>(s: seq<T>, k: nat)
    requires k < |s|
    ensures Grown(s[..k] + s[k + 1..], s, k)
  {
  }

  lemma LinkedShrink(ls: seq<Lease>, hash: map<Ip, Lease>, t: Table, r: seq<Lease>, u: Table, k: nat)
    requires Linked(ls, hash, t) && Grown(r, ls, k) && Grown(u, t, k)
    ensures Linked(r, hash - {t[k].nip}, u)
  {
    forall j | 0 <= j < |r|
      ensures u[j].nip in hash && u[j].nip != t[k].nip && hash[u[j].nip] == r[j]
    {
      var j' := if j < k then j else j + 1;
      assert ls[j'] == r[j] && t[j'] == u[j];
    }
    forall n | n in hash && n != t[k].nip
      ensures exists j :: 0 <= j < |u| && u[j].nip == n
    {
      var j :| 0 <= j < |t| && t[j].nip == n;
      assert u[if j < k then j else j - 1].nip == n;
    }
    UniqueShrink(t, u, k);
  }

  lemma UniqueShrink(t: Table, u: Table, k: nat)
    requires Unique(t) && Grown(u, t, k)
    ensures Unique(u)
  {
    forall i, j | 0 <= i < j < |u|
      ensures u[i].nip != u[j].nip && u[i].mac != u[j].mac
    {
      var i' := if i < k then i else i + 1;
      var j' := if j < k then j else j + 1;
      assert u[i] == t[i'] && u[j] == t[j'];
    }
  }

  lemma LinkedGrow(ls: seq<Lease>, hash: map<Ip, Lease>, t: Table, r: seq<Lease>, u: Table, k: nat)
    requires Linked(ls, hash, t) && Grown(ls, r, k) && Grown(t, u, k) && Unique(u)
    ensures Linked(r, hash[u[k].nip := r[k]], u)
  {
    var h := hash[u[k].nip := r[k]];
    forall j | 0 <= j < |r|
      ensures u[j].nip in h && h[u[j].nip] == r[j]
    {
      if j != k {
        assert u[j].nip != u[k].nip;
      }
    }
    forall n | n in h
      ensures exists j :: 0 <= j < |u| && u[j].nip == n
    {
      if n == u[k].nip {
      } else {
        var j :| 0 <= j < |t| && t[j].nip == n;
        assert u[if j < k then j else j + 1].nip == n;
      }
    }
  }

  lemma HoldsShrink(ls: seq<Lease>, t: Table, r: seq<Lease>, u: Table, k: nat)
    requires Holds(ls, t) && Unique(t) && Grown(r, ls, k) && Grown(u, t, k)
    ensures Holds(r, u)
    ensures forall l :: l in r <==> l in ls && l != ls[k]
  {
    forall j | 0 <= j < |r| ensures r[j] in ls && r[j] != ls[k] && r[j].Value() == u[j] {
      var j' := if j < k then j else j + 1;
      assert r[j] == ls[j'] && u[j] == t[j'] && t[j'].nip != t[k].nip;
    }
    forall l | l in ls && l != ls[k] ensures l in r {
      var j :| 0 <= j < |ls| && ls[j] == l;
      assert r[if j < k then j else j - 1] == l;
    }
  }

  lemma HoldsGrow(ls: seq<Lease>, t: Table, r: seq<Lease>, u: Table, k: nat)
    requires Holds(ls, t) && Grown(ls, r, k) && Grown(t, u, k) && r[k].Value() == u[k]
    ensures Holds(r, u)
    ensures forall l :: l in r <==> l in ls || l == r[k]
  {
    forall j | 0 <= j < |r| ensures r[j].Value() == u[j] && (r[j] in ls || r[j] == r[k]) {
      if j != k {
        var j' := if j < k then j else j - 1;
        assert r[j] == ls[j'] && u[j] == t[j'];
      }
    }
    forall l | l in ls ensures l in r {
      var j :| 0 <= j < |ls| && ls[j] == l;
      assert r[if j < k then j else j + 1] == l;
    }
  }

  /** Unlinking a record from both structures keeps them in step. */
  lemma LinkedRemove(ls: seq<Lease>, hash: map<Ip, Lease>, t: Table, x: Lease)
    requires Linked(ls, hash, t) && Holds(ls, t) && x in ls
    ensures Linked(ListRemove(ls, x), hash - {x.nip}, RemoveLease(t, x.nip))
    ensures Holds(ListRemove(ls, x), RemoveLease(t, x.nip))
    ensures forall l :: l in ListRemove(ls, x) <==> l in ls && l != x
  {
    var i := ListRemoveAt(ls, x);
    RemoveLeaseAt(t, i);
    var r, u := ListRemove(ls, x), RemoveLease(t, x.nip);
    RemoveGrows(ls, i);
    RemoveGrows(t, i);
    LinkedShrink(ls, hash, t, r, u, i);
    HoldsShrink(ls, t, r, u, i);
  }

  /** So does linking a record whose address and hardware address are new. */
  lemma LinkedInsert(ls: seq<Lease>, hash: map<Ip, Lease>, t: Table, x: Lease, e: Entry, r: seq<Lease>)
    requires Linked(ls, hash, t) && Holds(ls, t) && x.Value() == e
    requires forall y :: y in t ==> y.nip != e.nip && y.mac != e.mac
    requires var k := InsertPos(t, e); r == ls[..k] + [x] + ls[k..]
    ensures Linked(r, hash[e.nip := x], Insert(t, e)) && Holds(r, Insert(t, e))
    ensures forall l :: l in r <==> l in ls || l == x
  {
    var k := InsertPos(t, e);
    InsertGrows(ls, x, k);
    InsertGrows(t, e, k);
    InsertUnique(t, e);
    LinkedGrow(ls, hash, t, r, Insert(t, e), k);
    HoldsGrow(ls, t, r, Insert(t, e), k);
  }

  /** Taking out the lease of an address and then the lease of a hardware address
      is one eviction. */
  lemma {:induction false} EvictTwice(t: Table, nip: Ip, mac: Mac, m: Entry)
    requires Unique(t) && m in t && m.mac == mac
    ensures Evict(t, nip, mac) == RemoveLease(RemoveLease(t, nip), m.nip)
  {
    assert Unique(t[1..]);
    if t[0] == m {
      forall e | e in t[1..] ensures e.nip != m.nip && e.mac != mac {
        var i :| 0 <= i < |t[1..]| && t[1..][i] == e;
        assert t[i + 1] == e;
      }
      EvictNoMac(t[1..], nip, mac);
      RemoveAbsent(RemoveLease(t[1..], nip), m.nip);
    } else {
      EvictTwice(t[1..], nip, mac, m);
      FirstDiffers(t, m);
    }
  }

  lemma FirstDiffers(t: Table, m: Entry)
    requires Unique(t) && m in t && t[0] != m
    ensures t[0].mac != m.mac && t[0].nip != m.nip
  {
    var i :| 0 <= i < |t| && t[i] == m;
  }

  lemma {:induction false} EvictNoMac(t: Table, nip: Ip, mac: Mac)
    requires forall e :: e in t ==> e.mac != mac
    ensures Evict(t, nip, mac) == RemoveLease(t, nip)
  {
    if t != [] { EvictNoMac(t[1..], nip, mac); }
  }

  class DhcpServer {
    var cfg: Config
    var leaseList: seq<Lease>
    var nipLeaseHash: map<Ip, Lease>
    /** The entries of the listed records, in list order. */
    ghost var table: Table

    ghost predicate Valid()
      reads this, leaseList
    {
      Linked(leaseList, nipLeaseHash, table) && Holds(leaseList, table)
    }

    constructor (cfg: Config)
      ensures Valid() && table == [] && this.cfg == cfg && leaseList == []
    {
      this.cfg := cfg;
      leaseList := [];
      nipLeaseHash := map[];
      table := [];
    }

    /** `find_lease_by_mac`. */
    method FindLeaseByMac(mac: Mac) returns (lease: Lease?)
      requires Valid()
      ensures lease == null <==> FindByMac(table, mac).None?
      ensures lease != null ==> lease in leaseList && FindByMac(table, mac) == Some(lease.Value())
    {
      for i := 0 to |leaseList|
        invariant FindByMac(table, mac) == FindByMac(table[i..], mac)
      {
        assert table[i..][1..] == table[i + 1..];
        if leaseList[i].mac == mac {
          return leaseList[i];
        }
      }
      return null;
    }

    /** `find_lease_by_nip`: the hash answers what a search of the list would. */
    method FindLeaseByNip(nip: Ip) returns (lease: Lease?)
      requires Valid()
      ensures lease == null <==> FindByNip(table, nip).None?
      ensures lease != null ==> lease in leaseList && FindByNip(table, nip) == Some(lease.Value())
    {
      if nip in nipLeaseHash {
        lease := nipLeaseHash[nip];
        ghost var i :| 0 <= i < |table| && table[i].nip == nip;
        SameNip(table, table[i], FindByNip(table, nip).value);
      } else {
        lease := null;
      }
    }

    /** `remove_lease`, and the unlinking in `get_lease`: out of the list and out of the hash. */
    method RemoveLease(lease: Lease)
      requires Valid() && lease in leaseList
      modifies this`leaseList, this`nipLeaseHash, this`table
      ensures Valid() && lease !in leaseList
      ensures table == LeaseTable.RemoveLease(old(table), lease.nip)
      ensures forall l :: l in old(leaseList) && l != lease ==> l in leaseList
      ensures forall l :: l in leaseList ==> l in old(leaseList)
    {
      LinkedRemove(leaseList, nipLeaseHash, table, lease);
      ghost var i := ListRemoveAt(leaseList, lease);
      table := LeaseTable.RemoveLease(table, lease.nip);
      leaseList := ListRemove(leaseList, lease);
      nipLeaseHash := nipLeaseHash - {lease.nip};
    }

    /** `get_lease`: clears the leases in the way and hands out a record to fill in. */
    method GetLease(yiaddr: Ip, mac: Mac) returns (lease: Lease?)
      requires Valid()
      modifies this`leaseList, this`nipLeaseHash, this`table
      ensures Valid()
      ensures lease == null <==> !Leasable(cfg, yiaddr, mac)
      ensures lease == null ==> table == old(table) && leaseList == old(leaseList)
      ensures lease != null ==> table == Evict(old(table), yiaddr, mac)
      ensures lease != null ==> lease !in leaseList && (lease in old(leaseList) || fresh(lease))
      ensures forall l :: l in leaseList ==> l in old(leaseList)
    {
      hide Linked, Holds, Unique;
      if yiaddr == 0 || yiaddr < cfg.startIp || yiaddr > cfg.endIp || mac == MAC_BCAST || mac == MAC_ANY {
        return null;
      }
      var leaseMac := FindLeaseByMac(mac);
      var leaseNip := FindLeaseByNip(yiaddr);
      if leaseNip != null {
        TakeNip(yiaddr, mac, leaseNip, leaseMac);
        lease := leaseNip;
      } else if leaseMac != null {
        TakeMac(yiaddr, mac, leaseMac);
        lease := leaseMac;
      } else {
        RemoveAbsent(table, yiaddr);
        EvictNoMac(table, yiaddr, mac);
        lease := new Lease();
      }
    }

    /** The record of the address is taken, and that of the hardware address, if it is another
        one, goes. */
    method TakeNip(yiaddr: Ip, mac: Mac, leaseNip: Lease, leaseMac: Lease?)
      requires Valid() && leaseNip in leaseList && leaseNip.nip == yiaddr
      requires leaseMac == null <==> FindByMac(table, mac).None?
      requires leaseMac != null ==> leaseMac in leaseList && FindByMac(table, mac) == Some(leaseMac.Value())
      modifies this`leaseList, this`nipLeaseHash, this`table
      ensures Valid() && table == Evict(old(table), yiaddr, mac) && leaseNip !in leaseList
      ensures forall l :: l in leaseList ==> l in old(leaseList)
    {
      ghost var t := table;
      assert Unique(t);
      hide Linked, Holds, Unique;
      RemoveLease(leaseNip);
      if leaseMac == null {
        EvictNoMac(t, yiaddr, mac);
      } else {
        EvictTwice(t, yiaddr, mac, leaseMac.Value());
        if leaseNip != leaseMac {
          RemoveLease(leaseMac);
        } else {
          RemoveAbsent(LeaseTable.RemoveLease(t, yiaddr), yiaddr);
        }
      }
    }

    /** The address is free, and the record of the hardware address is taken. */
    method TakeMac(yiaddr: Ip, mac: Mac, leaseMac: Lease)
      requires Valid() && FindByNip(table, yiaddr).None?
      requires leaseMac in leaseList && FindByMac(table, mac) == Some(leaseMac.Value())
      modifies this`leaseList, this`nipLeaseHash, this`table
      ensures Valid() && table == Evict(old(table), yiaddr, mac) && leaseMac !in leaseList
      ensures forall l :: l in leaseList ==> l in old(leaseList)
    {
      assert Unique(table);
      hide Linked, Holds, Unique;
      RemoveAbsent(table, yiaddr);
      EvictTwice(table, yiaddr, mac, leaseMac.Value());
      RemoveLease(leaseMac);
    }

    /** The index at which `g_list_insert_sorted` stops. */
    method SortedPosition(lease: Lease) returns (k: nat)
      requires Holds(leaseList, table)
      ensures k == InsertPos(table, lease.Value()) && k <= |leaseList|
    {
      k := 0;
      while k < |leaseList| && ToInt32(leaseList[k].expire - lease.expire) > 0
        invariant k <= |leaseList|
        invariant forall i :: 0 <= i < k ==> CompareExpire(lease.Value(), table[i]) > 0
      {
        k := k + 1;
      }
    }

    /** `g_list_insert_sorted` of a record no listed lease is in the way of. */
    method ListInsertSorted(lease: Lease, ghost hash: map<Ip, Lease>)
      requires Linked(leaseList, hash, table) && Holds(leaseList, table)
      requires forall e :: e in table ==> e.nip != lease.nip && e.mac != lease.mac
      modifies this`leaseList, this`table
      ensures Linked(leaseList, hash[lease.nip := lease], table) && Holds(leaseList, table)
      ensures table == Insert(old(table), lease.Value())
      ensures forall l :: l in leaseList <==> l in old(leaseList) || l == lease
    {
      hide Linked, Holds, Unique;
      var k := SortedPosition(lease);
      var r := leaseList[..k] + [lease] + leaseList[k..];
      LinkedInsert(leaseList, hash, table, lease, lease.Value(), r);
      leaseList := r;
      table := Insert(table, lease.Value());
    }

    /** Filling in a record that is not listed leaves the listed ones alone. */
    method FillIn(lease: Lease, mac: Mac, nip: Ip, expire: int)
      requires Holds(leaseList, table) && lease !in leaseList
      modifies lease
      ensures Holds(leaseList, table) && lease.Value() == Entry(expire, nip, mac)
    {
      lease.mac, lease.nip, lease.expire := mac, nip, expire;
    }

    /** `add_lease`. */
    method AddLease(now: int, expire: nat, chaddr: Mac, yiaddr: Ip) returns (lease: Lease?)
      requires Valid()
      modifies this`leaseList, this`nipLeaseHash, this`table, leaseList
      ensures Valid()
      ensures forall l :: l in leaseList ==> l in old(leaseList) || fresh(l)
      ensures var r := LeaseTable.AddLease(cfg, old(table), now, expire, chaddr, yiaddr);
              if r.Some? then lease != null && table == r.value else lease == null && table == old(table)
    {
      hide Linked, Holds;
      lease := GetLease(yiaddr, chaddr);
      if lease == null {
        return;
      }
      FillIn(lease, chaddr, yiaddr, if expire == 0 then now + cfg.leaseSeconds else expire);
      ghost var e := Entry(NewExpiry(cfg, now, expire), yiaddr, chaddr);
      assert lease.Value() == e;
      assert LeaseTable.AddLease(cfg, old(table), now, expire, chaddr, yiaddr) == Some(Insert(table, e));
      ListInsertSorted(lease, nipLeaseHash);
      nipLeaseHash := nipLeaseHash[lease.nip := lease];
    }

    /** `is_expired_lease`. */
    static method IsExpired(lease: Lease, now: int) returns (r: bool)
      ensures r == Expired(lease.Value(), now)
    {
      r := lease.expire < now;
    }

    /** `find_free_or_expired_nip`, on a table on which its loop ends. */
    method FindFreeOrExpiredNip(now: int) returns (nip: Ip)
      requires Valid() && ScanAnswer(table, cfg.startIp, cfg.endIp).Some?
      ensures nip == FindFreeOrExpired(cfg, table, now)
    {
      var ip := ScanLoop();
      if ip != 0 {
        return ip;
      }
      if |leaseList| == 0 {
        return 0;
      }
      var last := leaseList[|leaseList| - 1];
      var expired := IsExpired(last, now);
      nip := if expired then last.nip else 0;
    }

    /** Its loop over the addresses, with the counter that wraps around; 0 when it runs past the
        range. */
    method ScanLoop() returns (r: Ip)
      requires Valid() && ScanAnswer(table, cfg.startIp, cfg.endIp).Some?
      ensures ScanAnswer(table, cfg.startIp, cfg.endIp) == Some(r)
    {
      hide Linked, Holds, FirstFree;
      var ip: Ip := cfg.startIp;
      ghost var wrapped := false;
      while ip <= cfg.endIp
        invariant wrapped ==> cfg.endIp == IP_MAX && FirstFree(table, cfg.startIp, cfg.endIp) == 0
        invariant wrapped ==> FirstFree(table, ip, IP_MAX) == FirstFree(table, 0, IP_MAX)
        invariant !wrapped ==> FirstFree(table, ip, cfg.endIp) == FirstFree(table, cfg.startIp, cfg.endIp)
        decreases !wrapped, IP_MAX - ip
      {
        FirstFreeStep(table, ip, cfg.endIp);
        if ip % 256 != 0 && ip % 256 != 255 {
          var lease := FindLeaseByNip(ip);
          if lease == null {
            return ip;
          }
        }
        if ip == IP_MAX { wrapped := true; }
        ip := (ip + 1) % 0x1_0000_0000;
      }
      FirstFreePast(table, ip, cfg.endIp);
      return 0;
    }

    /** `check_requested_nip`. */
    method CheckRequestedNip(now: int, requestedNip: Ip) returns (ok: bool)
      requires Valid()
      ensures ok == RequestedOk(cfg, table, now, requestedNip)
    {
      if requestedNip == 0 || requestedNip < cfg.startIp || requestedNip > cfg.endIp {
        return false;
      }
      var lease := FindLeaseByNip(requestedNip);
      if lease == null {
        return true;
      }
      ok := IsExpired(lease, now);
    }

    /** `lease_set_expire`: the record moves in the list; the hash is left as it is. */
    method LeaseSetExpire(lease: Lease, expire: int)
      requires Valid() && lease in leaseList
      modifies this`leaseList, this`table, lease
      ensures Valid() && table == SetExpire(old(table), old(lease.Value()), expire)
      ensures forall l :: l in leaseList ==> l in old(leaseList)
    {
      hide Linked, Holds, Insert;
      LinkedRemove(leaseList, nipLeaseHash, table, lease);
      MacGone(lease);
      ghost var hash := nipLeaseHash - {lease.nip};
      leaseList := ListRemove(leaseList, lease);
      table := LeaseTable.RemoveLease(table, lease.nip);
      FillIn(lease, lease.mac, lease.nip, expire);
      assert forall e :: e in table ==> e.nip != lease.nip && e.mac != lease.mac;
      ListInsertSorted(lease, hash);
      assert hash[lease.nip := lease] == nipLeaseHash;
    }

    /** `send_offer`. */
    method SendOffer(now: int, req: Request, found: Lease?) returns (reply: Reply)
      requires Valid() && (found == null ==> OfferEnds(cfg, table, now, req))
      requires found == null <==> FindByMac(table, req.mac).None?
      requires found != null ==> found in leaseList && FindByMac(table, req.mac) == Some(found.Value())
      modifies this`leaseList, this`nipLeaseHash, this`table, leaseList
      ensures Valid() && (table, reply) == OnDiscover(cfg, old(table), now, req)
      ensures forall l :: l in leaseList ==> l in old(leaseList) || fresh(l)
    {
      hide Linked, Holds, Insert, Evict;
      var yiaddr: Ip;
      var requested := if req.requestedIp.Some? then req.requestedIp.value else 0;
      if found != null {
        yiaddr := found.nip;
      } else {
        var ok := CheckRequestedNip(now, requested);
        if ok {
          yiaddr := requested;
        } else {
          yiaddr := FindFreeOrExpiredNip(now);
        }
      }
      if yiaddr == 0 {
        return Silent;
      }
      var lease := AddLease(now, OFFER_TIME, req.mac, yiaddr);
      if lease == null {
        return Silent;
      }
      reply := Offer(req.mac, req.xid, yiaddr, cfg.leaseSeconds);
    }

    /** The `DHCPREQUEST` case of `listener_event`, with `send_ACK` and `send_NAK`. */
    method SendAckOrNak(now: int, req: Request, found: Lease?) returns (reply: Reply)
      requires Valid()
      requires found == null <==> FindByMac(table, req.mac).None?
      requires found != null ==> found in leaseList && FindByMac(table, req.mac) == Some(found.Value())
      modifies this`leaseList, this`nipLeaseHash, this`table, leaseList
      ensures Valid() && (table, reply) == OnRequest(cfg, old(table), now, req)
      ensures forall l :: l in leaseList ==> l in old(leaseList) || fresh(l)
    {
      hide Linked, Holds, FindByMac, LeaseTable.AddLease;
      var requested: Ip := if req.requestedIp.Some? then req.requestedIp.value else 0;
      if requested == 0 {
        requested := req.ciaddr;
        if requested == 0 {
          return Silent;
        }
      }
      if found != null && requested == found.nip {
        reply := Ack(req.mac, req.xid, requested, cfg.leaseSeconds);
        var _ := AddLease(now, 0, req.mac, requested);
      } else if req.serverId.Some? || found == null {
        reply := Nak(req.mac, req.xid);
      } else {
        reply := Silent;
      }
    }

    /** `listener_event`. */
    method ListenerEvent(now: int, req: Request) returns (reply: Reply)
      requires Valid() && Ends(cfg, table, now, req)
      modifies this`leaseList, this`nipLeaseHash, this`table, leaseList
      ensures Valid() && (table, reply) == Step(cfg, old(table), now, req)
      ensures forall l :: l in leaseList ==> l in old(leaseList) || fresh(l)
    {
      hide Linked, Holds, FindByMac, OnDiscover, OnRequest, LeaseTable.RemoveLease, SetExpire, OfferEnds;
      reply := Silent;
      var ty := PacketType(req);
      if ty == 0 {
        return;
      }
      if req.serverId.Some? && req.serverId.value != cfg.serverNip {
        return;
      }
      var lease := FindLeaseByMac(req.mac);
      if ty == DHCPDISCOVER {
        reply := SendOffer(now, req, lease);
      } else if ty == DHCPREQUEST {
        reply := SendAckOrNak(now, req, lease);
      } else if ty == DHCPDECLINE {
        if req.serverId.Some? && req.requestedIp.Some? && lease != null && req.requestedIp.value == lease.nip {
          RemoveLease(lease);
        }
      } else if ty == DHCPRELEASE {
        if req.serverId.Some? && lease != null && req.ciaddr == lease.nip {
          LeaseSetExpire(lease, now % 0x1_0000_0000);
        }
      } else if ty == DHCPINFORM {
        reply := InformAck(req.mac, req.xid);
      }
    }

    lemma MacGone(lease: Lease)
      requires Valid() && lease in leaseList
      ensures forall e :: e in LeaseTable.RemoveLease(table, lease.nip) ==> e.mac != lease.mac
      ensures lease.nip in nipLeaseHash && nipLeaseHash[lease.nip] == lease
    {
      var i :| 0 <= i < |leaseList| && leaseList[i] == lease;
      forall e | e in LeaseTable.RemoveLease(table, lease.nip) ensures e.mac != lease.mac {
        if e.mac == lease.mac { SameNip(table, e, table[i]); }
      }
    }
  }
}
