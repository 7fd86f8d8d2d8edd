/** The lease table of the DHCP server as a value: the list the server keeps, in
    list order.  The imperative server in `LeaseServer` is proved against the
    functions of this module. */
module LeaseTable {
  import opened Basics

  datatype Entry = Entry(expire: int, nip: Ip, mac: Mac)

  type Table = seq<Entry>

  const IP_MAX: Ip := 0xffff_ffff

  datatype Config = Config(startIp: Ip, endIp: Ip, serverNip: Ip, leaseSeconds: U32)

  // ---------------------------------------------------------------- invariants

  /** No two leases share an address or a hardware address. */
  ghost predicate Unique(t: Table) {
    forall i, j :: 0 <= i < j < |t| ==> t[i].nip != t[j].nip && t[i].mac != t[j].mac
  }

  predicate InRange(cfg: Config, nip: Ip) {
    nip != 0 && cfg.startIp <= nip <= cfg.endIp
  }

  predicate Leasable(cfg: Config, nip: Ip, mac: Mac) {
    InRange(cfg, nip) && mac != MAC_BCAST && mac != MAC_ANY
  }

  /** What every operation on the table keeps. */
  ghost predicate WellFormed(cfg: Config, t: Table) {
    && Unique(t)
    && forall e :: e in t ==> Leasable(cfg, e.nip, e.mac)
  }

  /** The order the server relies on when it takes the last lease for the oldest. */
  ghost predicate SortedByExpiry(t: Table) {
    forall i, j :: 0 <= i < j < |t| ==> t[i].expire >= t[j].expire
  }

  // ---------------------------------------------------------------- lookups

  function FindByMac(t: Table, mac: Mac): (r: Option<Entry>)
    ensures r.Some? ==> r.value in t && r.value.mac == mac
    ensures r.None? ==> forall e :: e in t ==> e.mac != mac
  {
    if t == [] then None else if t[0].mac == mac then Some(t[0]) else FindByMac(t[1..], mac)
  }

  function FindByNip(t: Table, nip: Ip): (r: Option<Entry>)
    ensures r.Some? ==> r.value in t && r.value.nip == nip
    ensures r.None? ==> forall e :: e in t ==> e.nip != nip
  {
    if t == [] then None else if t[0].nip == nip then Some(t[0]) else FindByNip(t[1..], nip)
  }

  predicate Expired(e: Entry, now: int) {
    e.expire < now
  }

  // ---------------------------------------------------------------- updates

  /** Everything but the leases of one address or one hardware address. */
  function Evict(t: Table, nip: Ip, mac: Mac): (r: Table)
    ensures |r| <= |t|
    ensures forall e :: e in r <==> e in t && e.nip != nip && e.mac != mac
  {
    if t == [] then []
    else if t[0].nip == nip || t[0].mac == mac then Evict(t[1..], nip, mac)
    else [t[0]] + Evict(t[1..], nip, mac)
  }

  /** The comparison `compare_expire` reports, narrowed to a C `int`. */
  function CompareExpire(a: Entry, b: Entry): int {
    ToInt32(b.expire - a.expire)
  }

  /** Where `g_list_insert_sorted` puts a new element. */
  function InsertPos(t: Table, e: Entry): (k: nat)
    ensures k <= |t|
    ensures forall i :: 0 <= i < k ==> CompareExpire(e, t[i]) > 0
    ensures k < |t| ==> CompareExpire(e, t[k]) <= 0
  {
    if t == [] || CompareExpire(e, t[0]) <= 0 then 0
    else
      var k := InsertPos(t[1..], e);
      assert forall i :: 1 <= i < |t| ==> t[i] == t[1..][i - 1];
      k + 1
  }

  function Insert(t: Table, e: Entry): Table {
    t[..InsertPos(t, e)] + [e] + t[InsertPos(t, e)..]
  }

  /** `add_lease`: refused, or the new lease replaces every lease in its way. */
  function AddLease(cfg: Config, t: Table, now: int, expire: nat, mac: Mac, nip: Ip): (r: Option<Table>)
    ensures r.Some? <==> Leasable(cfg, nip, mac)
  {
    if !Leasable(cfg, nip, mac) then None
    else Some(Insert(Evict(t, nip, mac), Entry(NewExpiry(cfg, now, expire), nip, mac)))
  }

  function NewExpiry(cfg: Config, now: int, expire: nat): int {
    if expire == 0 then now + cfg.leaseSeconds else expire
  }

  /** `remove_lease` and `lease_set_expire` on the lease of one address. */
  function RemoveLease(t: Table, nip: Ip): (r: Table)
    ensures |r| <= |t|
    ensures forall e :: e in r <==> e in t && e.nip != nip
  {
    if t == [] then []
    else if t[0].nip == nip then RemoveLease(t[1..], nip)
    else [t[0]] + RemoveLease(t[1..], nip)
  }

  function SetExpire(t: Table, lease: Entry, expire: int): Table {
    Insert(RemoveLease(t, lease.nip), lease.(expire := expire))
  }

  // ---------------------------------------------------------------- allocation

  /** Addresses ending in .0 and .255 are never handed out by the scan. */
  predicate Usable(nip: Ip) {
    nip % 256 != 0 && nip % 256 != 255
  }

  predicate Free(t: Table, nip: Ip) {
    Usable(nip) && FindByNip(t, nip).None?
  }

  ghost predicate SomeFree(cfg: Config, t: Table) {
    exists ip: Ip :: cfg.startIp <= ip <= cfg.endIp && Free(t, ip)
  }

  /** The first free address at or after `ip`, or 0. */
  function FirstFree(t: Table, ip: nat, endIp: Ip): (r: Ip)
    decreases endIp + 1 - ip
  {
    if ip > endIp then 0 else if Free(t, ip) then ip else FirstFree(t, ip + 1, endIp)
  }

  /** What the scan for a free address answers.  Its 32-bit counter passes a range that ends at
      255.255.255.255 by wrapping around: the scan then goes through all addresses, and without
      a free one it does not end. */
  function ScanAnswer(t: Table, startIp: Ip, endIp: Ip): Option<Ip> {
    var ip := FirstFree(t, startIp, endIp);
    if ip != 0 || endIp < IP_MAX then Some(ip)
    else
      var ip := FirstFree(t, 0, IP_MAX);
      if ip != 0 then Some(ip) else None
  }

  /** `find_free_or_expired_nip`; 0 also stands for a scan that does not end. */
  function FindFreeOrExpired(cfg: Config, t: Table, now: int): Ip {
    match ScanAnswer(t, cfg.startIp, cfg.endIp)
    case None => 0
    case Some(ip) =>
      if ip != 0 then ip
      else if t != [] && Expired(t[|t| - 1], now) then t[|t| - 1].nip
      else 0
  }

  /** `check_requested_nip`. */
  predicate RequestedOk(cfg: Config, t: Table, now: int, nip: Ip) {
    && InRange(cfg, nip)
    && var lease := FindByNip(t, nip);
    lease.None? || Expired(lease.value, now)
  }

  // ---------------------------------------------------------------- lemmas

  lemma InsertContents(t: Table, e: Entry)
    ensures |Insert(t, e)| == |t| + 1
    ensures multiset(Insert(t, e)) == multiset(t) + multiset{e}
    ensures forall x :: x in Insert(t, e) <==> x == e || x in t
  {
    var k := InsertPos(t, e);
    assert t == t[..k] + t[k..];
  }

  lemma {:induction false} EvictUnique(t: Table, nip: Ip, mac: Mac)
    requires Unique(t)
    ensures Unique(Evict(t, nip, mac))
  {
    if t != [] {
      assert Unique(t[1..]);
      EvictUnique(t[1..], nip, mac);
      forall e | e in Evict(t[1..], nip, mac)
        ensures e.nip != t[0].nip && e.mac != t[0].mac
      {
        var i :| 0 <= i < |t[1..]| && t[1..][i] == e;
        assert t[i + 1] == e;
      }
    }
  }

  lemma {:induction false} RemoveUnique(t: Table, nip: Ip)
    requires Unique(t)
    ensures Unique(RemoveLease(t, nip))
  {
    if t != [] {
      assert Unique(t[1..]);
      RemoveUnique(t[1..], nip);
      forall e | e in RemoveLease(t[1..], nip)
        ensures e.nip != t[0].nip && e.mac != t[0].mac
      {
        var i :| 0 <= i < |t[1..]| && t[1..][i] == e;
        assert t[i + 1] == e;
      }
    }
  }

  lemma InsertUnique(t: Table, e: Entry)
    requires Unique(t)
    requires forall x :: x in t ==> x.nip != e.nip && x.mac != e.mac
    ensures Unique(Insert(t, e))
  {
    var k := InsertPos(t, e);
    var r := Insert(t, e);
    forall i, j | 0 <= i < j < |r|
      ensures r[i].nip != r[j].nip && r[i].mac != r[j].mac
    {
      var i' := if i < k then i else i - 1;
      var j' := if j < k then j else j - 1;
      assert i != k ==> r[i] == t[i'] && r[i] in t;
      assert j != k ==> r[j] == t[j'] && r[j] in t;
    }
  }

  /** `add_lease` keeps addresses and hardware addresses unique and gives the
      client exactly the lease asked for, at the cost of the leases it displaced. */
  lemma AddLeaseKeeps(cfg: Config, t: Table, now: int, expire: nat, mac: Mac, nip: Ip)
    requires WellFormed(cfg, t) && Leasable(cfg, nip, mac)
    ensures
      var t' := AddLease(cfg, t, now, expire, mac, nip).value;
      && WellFormed(cfg, t')
      && (forall e :: e in t' <==>
                      || e == Entry(NewExpiry(cfg, now, expire), nip, mac)
                      || (e in t && e.nip != nip && e.mac != mac))
  {
    var t1 := Evict(t, nip, mac);
    var e := Entry(NewExpiry(cfg, now, expire), nip, mac);
    EvictUnique(t, nip, mac);
    InsertUnique(t1, e);
    InsertContents(t1, e);
  }

  lemma RemoveLeaseKeeps(cfg: Config, t: Table, nip: Ip)
    requires WellFormed(cfg, t)
    ensures WellFormed(cfg, RemoveLease(t, nip))
  {
    RemoveUnique(t, nip);
  }

  lemma SameNip(t: Table, a: Entry, b: Entry)
    requires Unique(t) && a in t && b in t && (a.nip == b.nip || a.mac == b.mac)
    ensures a == b
  {
    var i :| 0 <= i < |t| && t[i] == a;
    var j :| 0 <= j < |t| && t[j] == b;
  }

  lemma SetExpireKeeps(cfg: Config, t: Table, lease: Entry, expire: int)
    requires WellFormed(cfg, t) && lease in t
    ensures WellFormed(cfg, SetExpire(t, lease, expire))
    ensures forall e :: e in SetExpire(t, lease, expire) <==>
                        e == lease.(expire := expire) || (e in t && e.nip != lease.nip)
  {
    var t1 := RemoveLease(t, lease.nip);
    RemoveUnique(t, lease.nip);
    forall x | x in t1
      ensures x.nip != lease.nip && x.mac != lease.mac
    {
      if x.mac == lease.mac { SameNip(t, x, lease); }
    }
    InsertUnique(t1, lease.(expire := expire));
    InsertContents(t1, lease.(expire := expire));
  }

  /** Of a table without doublets exactly one entry is removed, and the others keep their places. */
  lemma RemoveLeaseAt(t: Table, i: nat)
    requires Unique(t) && i < |t|
    ensures RemoveLease(t, t[i].nip) == t[..i] + t[i + 1..]
  {
    hide Unique;
    var nip := t[i].nip;
    OthersDiffer(t, i);
    assert t == t[..i] + t[i..];
    RemoveAfter(t[..i], t[i..], nip);
    assert t[i..][0] == t[i] && t[i..][1..] == t[i + 1..];
    RemoveAbsent(t[i + 1..], nip);
  }

  lemma OthersDiffer(t: Table, i: nat)
    requires Unique(t) && i < |t|
    ensures forall e :: e in t[..i] || e in t[i + 1..] ==> e.nip != t[i].nip
  {
  }

  lemma {:induction false} RemoveAfter(a: Table, t: Table, nip: Ip)
    requires forall e :: e in a ==> e.nip != nip
    ensures RemoveLease(a + t, nip) == a + RemoveLease(t, nip)
  {
    hide RemoveLease;
    if a == [] {
      assert a + t == t && a + RemoveLease(t, nip) == RemoveLease(t, nip);
    } else {
      assert a[0] in a && a == [a[0]] + a[1..];
      RemoveAfter(a[1..], t, nip);
      assert (a + t)[1..] == a[1..] + t;
      RemoveKeepsFirst(a + t, nip);
      assert [a[0]] + (a[1..] + RemoveLease(t, nip)) == a + RemoveLease(t, nip);
    }
  }

  lemma RemoveKeepsFirst(t: Table, nip: Ip)
    requires t != [] && t[0].nip != nip
    ensures RemoveLease(t, nip) == [t[0]] + RemoveLease(t[1..], nip)
  {
  }

  lemma {:induction false} RemoveAbsent(t: Table, nip: Ip)
    requires forall e :: e in t ==> e.nip != nip
    ensures RemoveLease(t, nip) == t
  {
    if t != [] { RemoveAbsent(t[1..], nip); }
  }

  // ---------------------------------------------------------------- expiry order

  ghost predicate Within31(a: Entry, b: Entry) {
    -0x8000_0000 <= b.expire - a.expire < 0x8000_0000
  }

  /** The narrowed comparison of two leases has the right sign. */
  ghost predicate Agrees(a: Entry, b: Entry) {
    CompareExpire(a, b) <= 0 <==> b.expire <= a.expire
  }

  /** It has exactly when the difference of the expiries and its low 32 bits, read as a signed
      number, are both positive or both not. */
  lemma ComparatorExact(a: Entry, b: Entry)
    ensures
      var d := b.expire - a.expire;
      Agrees(a, b) <==> (0 < d <==> 0 < d % 0x1_0000_0000 < 0x8000_0000)
  {
    var d := b.expire - a.expire;
    var m := d % 0x1_0000_0000;
    assert ToInt32(d) == if m < 0x8000_0000 then m else m - 0x1_0000_0000 by { Narrowed(d); }
  }

  lemma Narrowed(d: int)
    ensures ToInt32(d) == var m := d % 0x1_0000_0000; if m < 0x8000_0000 then m else m - 0x1_0000_0000
  {
    var m, q := d % 0x1_0000_0000, d / 0x1_0000_0000;
    assert d + 0x8000_0000 == 0x1_0000_0000 * q + (m + 0x8000_0000);
  }

  /** So it is right within 2^31 seconds, and from there up to 2^32 wrong. */
  lemma ComparatorWithin31(a: Entry, b: Entry)
    requires -0x1_0000_0000 < b.expire - a.expire < 0x1_0000_0000
    ensures Agrees(a, b) <==> Within31(a, b)
  {
    var d := b.expire - a.expire;
    ComparatorExact(a, b);
    if d < 0 { assert d % 0x1_0000_0000 == d + 0x1_0000_0000; }
  }

  /** Inserting keeps the order if and only if the comparison was right about every lease that
      the insertion looked at. */
  lemma InsertSortedIff(t: Table, e: Entry)
    requires SortedByExpiry(t)
    ensures SortedByExpiry(Insert(t, e)) <==>
            forall i :: 0 <= i <= InsertPos(t, e) && i < |t| ==> Agrees(e, t[i])
  {
    hide SortedByExpiry, InsertPos, Insert, Agrees;
    if forall i :: 0 <= i <= InsertPos(t, e) && i < |t| ==> Agrees(e, t[i]) {
      RightInsertSorted(t, e);
    }
    if SortedByExpiry(Insert(t, e)) {
      forall i | 0 <= i <= InsertPos(t, e) && i < |t| ensures Agrees(e, t[i]) { SortedInsertRight(t, e, i); }
    }
  }

  lemma RightInsertSorted(t: Table, e: Entry)
    requires SortedByExpiry(t) && forall i :: 0 <= i <= InsertPos(t, e) && i < |t| ==> Agrees(e, t[i])
    ensures SortedByExpiry(Insert(t, e))
  {
    hide CompareExpire, InsertPos;
    var k := InsertPos(t, e);
    assert forall i :: 0 <= i < k ==> t[i].expire > e.expire;
    assert k < |t| ==> t[k].expire <= e.expire;
  }

  lemma InsertPlaces(t: Table, e: Entry, i: nat)
    requires i < |t|
    ensures
      var k, r := InsertPos(t, e), Insert(t, e);
      |r| == |t| + 1 && r[k] == e && (if i < k then r[i] == t[i] else r[i + 1] == t[i])
  {
    hide InsertPos;
  }

  lemma SortedInsertRight(t: Table, e: Entry, i: nat)
    requires SortedByExpiry(Insert(t, e)) && i <= InsertPos(t, e) && i < |t|
    ensures Agrees(e, t[i])
  {
    hide InsertPos, Insert, SortedByExpiry;
    InsertPlaces(t, e, i);
    var k, r := InsertPos(t, e), Insert(t, e);
    if i < k { SortedAt(r, i, k); } else { SortedAt(r, k, k + 1); }
    assert ToInt32(0) == 0;
  }

  lemma SortedAt(t: Table, i: nat, j: nat)
    requires SortedByExpiry(t) && i < j < |t|
    ensures t[i].expire >= t[j].expire
  {
  }

  /** The order is lost once two expiries are 2^31 seconds apart: an offered lease
      (expiry 300) sorts in front of a lease that ends in the year 2038. */
  lemma InsertLosesOrder()
    ensures
      var late := Entry(0x8000_0000 + 300, 1, 1);
      var offered := Entry(300, 2, 2);
      SortedByExpiry([late]) && !SortedByExpiry(Insert([late], offered))
  {
    var late := Entry(0x8000_0000 + 300, 1, 1);
    var offered := Entry(300, 2, 2);
    ComparatorWithin31(offered, late);
    assert InsertPos([late], offered) == 0;
    var r := Insert([late], offered);
    assert r[0] == offered && r[1] == late;
  }

  /** All expiries fit in 31 bits: the condition under which runs keep the order. */
  ghost predicate Expiries31(t: Table) {
    forall e :: e in t ==> 0 <= e.expire < 0x8000_0000
  }

  lemma InsertKeepsOrder(t: Table, e: Entry)
    requires SortedByExpiry(t) && Expiries31(t) && 0 <= e.expire < 0x8000_0000
    ensures SortedByExpiry(Insert(t, e)) && Expiries31(Insert(t, e))
  {
    InsertSortedIff(t, e);
    InsertContents(t, e);
    forall x | x in t ensures Agrees(e, x) { ComparatorWithin31(e, x); }
  }

  lemma {:induction false} EvictKeepsOrder(t: Table, nip: Ip, mac: Mac)
    requires SortedByExpiry(t)
    ensures SortedByExpiry(Evict(t, nip, mac))
  {
    if t != [] {
      assert SortedByExpiry(t[1..]);
      EvictKeepsOrder(t[1..], nip, mac);
      forall e | e in Evict(t[1..], nip, mac)
        ensures t[0].expire >= e.expire
      {
        var i :| 0 <= i < |t[1..]| && t[1..][i] == e;
        assert t[i + 1] == e;
      }
    }
  }

  lemma {:induction false} RemoveKeepsOrder(t: Table, nip: Ip)
    requires SortedByExpiry(t)
    ensures SortedByExpiry(RemoveLease(t, nip))
  {
    if t != [] {
      assert SortedByExpiry(t[1..]);
      RemoveKeepsOrder(t[1..], nip);
      forall e | e in RemoveLease(t[1..], nip)
        ensures t[0].expire >= e.expire
      {
        var i :| 0 <= i < |t[1..]| && t[1..][i] == e;
        assert t[i + 1] == e;
      }
    }
  }

  // ---------------------------------------------------------------- allocator

  lemma {:induction false} FirstFreeIsLowest(t: Table, ip: nat, endIp: Ip)
    ensures
      var r := FirstFree(t, ip, endIp);
      if r == 0 then forall x: Ip :: ip <= x <= endIp ==> !Free(t, x)
      else ip <= r <= endIp && Free(t, r) && forall x: Ip :: ip <= x < r ==> !Free(t, x)
    decreases endIp + 1 - ip
  {
    if ip <= endIp && !Free(t, ip) {
      FirstFreeIsLowest(t, ip + 1, endIp);
    }
  }

  lemma FirstFreeStep(t: Table, ip: Ip, endIp: Ip)
    requires ip <= endIp
    ensures FirstFree(t, ip, endIp) ==
            if Free(t, ip) then ip else if ip == IP_MAX then 0 else FirstFree(t, ip + 1, endIp)
  {
  }

  lemma FirstFreePast(t: Table, ip: Ip, endIp: Ip)
    requires ip > endIp
    ensures FirstFree(t, ip, endIp) == 0
  {
  }

  lemma FirstFreeWithin(t: Table, ip: nat, endIp: Ip)
    ensures FirstFree(t, ip, endIp) != 0 ==> ip <= FirstFree(t, ip, endIp) <= endIp
    ensures ip <= endIp && Free(t, ip) ==> ip != 0
  {
    FirstFreeIsLowest(t, ip, endIp);
  }

  /** One turn after the other of the scan's loop on its 32-bit counter: the address it returns,
      0 when it runs past the range, and none as long as it goes on after `turns` turns. */
  function Scan(t: Table, ip: Ip, endIp: Ip, turns: nat): Option<Ip>
    decreases turns
  {
    if turns == 0 then None
    else if ip > endIp then Some(0)
    else if Free(t, ip) then Some(ip)
    else Scan(t, (ip + 1) % 0x1_0000_0000, endIp, turns - 1)
  }

  ghost predicate ScanEndsWith(t: Table, ip: Ip, endIp: Ip, r: Ip) {
    exists turns :: Scan(t, ip, endIp, turns) == Some(r)
  }

  /** Up to the end of the range the loop does what `FirstFree` says. */
  lemma {:induction false} ScanPass(t: Table, ip: Ip, endIp: Ip, turns: nat)
    ensures
      var f := FirstFree(t, ip, endIp);
      if f != 0 then
        if turns <= f - ip then Scan(t, ip, endIp, turns) == None else Scan(t, ip, endIp, turns) == Some(f)
      else if endIp < IP_MAX || ip > endIp then
        Scan(t, ip, endIp, turns) == if turns == 0 || (ip <= endIp && turns <= endIp + 1 - ip) then None else Some(0)
      else
        Scan(t, ip, endIp, turns) == if turns <= IP_MAX + 1 - ip then None
            else Scan(t, 0, endIp, turns - (IP_MAX + 1 - ip))
    decreases turns
  {
    hide Free;
    FirstFreeWithin(t, ip, endIp);
    if turns > 0 && ip <= endIp && !Free(t, ip) && ip < IP_MAX {
      ScanPass(t, ip + 1, endIp, turns - 1);
    }
  }

  /** A range of all addresses without a free one is scanned for ever. */
  lemma {:induction false} ScanForEver(t: Table, turns: nat)
    requires FirstFree(t, 0, IP_MAX) == 0
    ensures Scan(t, 0, IP_MAX, turns) == None
  {
    ScanPass(t, 0, IP_MAX, turns);
    if turns > IP_MAX + 1 { ScanForEver(t, turns - (IP_MAX + 1)); }
  }

  /** The loop ends with the answer of `ScanAnswer`, and not at all if there is none. */
  lemma ScanExact(t: Table, startIp: Ip, endIp: Ip, r: Ip)
    ensures ScanEndsWith(t, startIp, endIp, r) <==> ScanAnswer(t, startIp, endIp) == Some(r)
  {
    var f := FirstFree(t, startIp, endIp);
    FirstFreeIsLowest(t, startIp, endIp);
    forall turns: nat ensures Scan(t, startIp, endIp, turns).None? ||
        Scan(t, startIp, endIp, turns) == ScanAnswer(t, startIp, endIp) {
      ScanBefore(t, startIp, endIp, turns);
    }
    var enough: nat := 2 * (IP_MAX + 2);
    if ScanAnswer(t, startIp, endIp).Some? { ScanEnough(t, startIp, endIp, enough); }
  }

  lemma ScanBefore(t: Table, startIp: Ip, endIp: Ip, turns: nat)
    ensures Scan(t, startIp, endIp, turns).None? || Scan(t, startIp, endIp, turns) == ScanAnswer(t, startIp, endIp)
  {
    ScanPass(t, startIp, endIp, turns);
    if FirstFree(t, startIp, endIp) == 0 && endIp == IP_MAX && turns > IP_MAX + 1 - startIp {
      var rest := turns - (IP_MAX + 1 - startIp);
      ScanPass(t, 0, IP_MAX, rest);
      if FirstFree(t, 0, IP_MAX) == 0 { ScanForEver(t, rest); }
    }
  }

  lemma ScanEnough(t: Table, startIp: Ip, endIp: Ip, turns: nat)
    requires ScanAnswer(t, startIp, endIp).Some? && turns >= 2 * (IP_MAX + 2)
    ensures Scan(t, startIp, endIp, turns) == ScanAnswer(t, startIp, endIp)
  {
    FirstFreeIsLowest(t, startIp, endIp);
    FirstFreeIsLowest(t, 0, IP_MAX);
    ScanPass(t, startIp, endIp, turns);
    if FirstFree(t, startIp, endIp) == 0 && endIp == IP_MAX {
      ScanPass(t, 0, IP_MAX, turns - (IP_MAX + 1 - startIp));
    }
  }

  /** The loop finds the lowest free address of the range, or runs past the range without one, if
      and only if the range ends below 255.255.255.255 or has a free address. */
  lemma ScanRightIff(cfg: Config, t: Table)
    ensures ScanEndsWith(t, cfg.startIp, cfg.endIp, FirstFree(t, cfg.startIp, cfg.endIp)) <==>
            cfg.endIp < IP_MAX || SomeFree(cfg, t)
  {
    FirstFreeIsLowest(t, cfg.startIp, cfg.endIp);
    ScanExact(t, cfg.startIp, cfg.endIp, FirstFree(t, cfg.startIp, cfg.endIp));
  }

  /** In the other cases it comes round to the address 0.0.0.1, which is not in the range, or, on
      a range that has this one too, does not end. */
  lemma ScanWraps(cfg: Config, t: Table)
    requires WellFormed(cfg, t) && cfg.endIp == IP_MAX && !SomeFree(cfg, t)
    ensures ScanAnswer(t, cfg.startIp, cfg.endIp) == if cfg.startIp > 1 then Some(1) else None
    ensures !InRange(cfg, 1) <==> cfg.startIp > 1
  {
    hide FirstFree, Unique;
    FirstFreeIsLowest(t, cfg.startIp, cfg.endIp);
    FirstFreeIsLowest(t, 0, IP_MAX);
    if cfg.startIp > 1 {
      assert FindByNip(t, 1).None?;
      assert Free(t, 1) && !Free(t, 0);
    }
  }

  /** The scan has its answer: the range ends in time, or has a free address. */
  ghost predicate InTime(cfg: Config, t: Table) {
    cfg.endIp < IP_MAX || SomeFree(cfg, t)
  }

  /** Soundness and completeness of the allocator on an ordered table: the lowest
      unleased usable address in range, else the address of a lease that expired no later
      than any other, and 0 exactly when every usable address is leased and none is expired;
      but when the scan wraps around, no address of the range at all. */
  lemma AllocatorExact(cfg: Config, t: Table, now: int)
    requires WellFormed(cfg, t) && SortedByExpiry(t)
    ensures !InTime(cfg, t) ==> !InRange(cfg, FindFreeOrExpired(cfg, t, now))
    ensures
      var nip := FindFreeOrExpired(cfg, t, now);
      InTime(cfg, t) ==>
      && (nip == 0 <==> !SomeFree(cfg, t) && forall e :: e in t ==> !Expired(e, now))
      && (SomeFree(cfg, t) ==>
            && InRange(cfg, nip) && Free(t, nip)
            && forall ip: Ip :: cfg.startIp <= ip < nip ==> !Free(t, ip))
      && (!SomeFree(cfg, t) && nip != 0 ==>
            && InRange(cfg, nip)
            && exists e :: e in t && e.nip == nip && Expired(e, now) && forall x :: x in t ==> e.expire <= x.expire)
  {
    FirstFreeIsLowest(t, cfg.startIp, cfg.endIp);
    if !InTime(cfg, t) { ScanWraps(cfg, t); }
    if t != [] {
      var last := t[|t| - 1];
      assert last in t && Leasable(cfg, last.nip, last.mac);
      forall x | x in t
        ensures last.expire <= x.expire
      {
        var i :| 0 <= i < |t| && t[i] == x;
      }
    }
  }

  /** An address the server is ready to offer is never one that somebody still holds. */
  lemma OfferedNotHeld(cfg: Config, t: Table, now: int, nip: Ip, e: Entry)
    requires WellFormed(cfg, t) && e in t && !Expired(e, now)
    requires nip == FindFreeOrExpired(cfg, t, now) || RequestedOk(cfg, t, now, nip)
    ensures nip != e.nip
  {
    FirstFreeIsLowest(t, cfg.startIp, cfg.endIp);
    FirstFreeIsLowest(t, 0, IP_MAX);
    if nip == e.nip {
      assert Leasable(cfg, e.nip, e.mac);
      if RequestedOk(cfg, t, now, nip) {
        SameNip(t, e, FindByNip(t, nip).value);
      } else {
        SameNip(t, e, t[|t| - 1]);
      }
    }
  }

  /** In time, the allocator's answer is an address the server would also offer by name. */
  lemma AllocatedOk(cfg: Config, t: Table, now: int)
    requires WellFormed(cfg, t)
    ensures
      var nip := FindFreeOrExpired(cfg, t, now);
      InRange(cfg, nip) ==> RequestedOk(cfg, t, now, nip)
  {
    FirstFreeIsLowest(t, cfg.startIp, cfg.endIp);
    FirstFreeIsLowest(t, 0, IP_MAX);
    var nip := FindFreeOrExpired(cfg, t, now);
    if InRange(cfg, nip) && FindByNip(t, nip).Some? {
      SameNip(t, FindByNip(t, nip).value, t[|t| - 1]);
    }
  }
}
