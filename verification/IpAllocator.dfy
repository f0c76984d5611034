/** Allocating container addresses: a walk around the bridge's subnet from the last
    address handed out, and the pool of virtual interfaces on top of it.

    An IPv4 address is its 32-bit number.  Incrementing goes through a big integer and
    keeps only its significant bytes, so a result with a leading zero octet, or one past
    255.255.255.255, is no four-byte address any more.  The neighbour table, the bridge's
    own addresses and the answers to a ping are inputs.
 */
module IpAllocator {
  import opened Options

  const IPV4_LIMIT: nat := 0x1_0000_0000
  const FIRST_OCTET: nat := 0x100_0000

  datatype Subnet = Subnet(base: nat, size: nat)

  predicate IsSubnet(n: Subnet) {
    n.size > 0 && n.base + n.size <= IPV4_LIMIT
  }

  // The address behind the network address keeps its four bytes.
  predicate Walkable(n: Subnet) {
    n.base + 1 >= FIRST_OCTET
  }

  predicate Contains(n: Subnet, ip: nat) {
    n.base <= ip < n.base + n.size
  }

  // The bytes of an address: its number, and whether they are four.
  datatype Addr = Addr(value: nat, four: bool)

  // Bytes that are not four read as zero.
  function IncreaseIP(ip: Addr): Addr {
    var v := (if ip.four then ip.value else 0) + 1;
    Addr(v, FIRST_OCTET <= v < IPV4_LIMIT)
  }

  // The bytes needed for a number without leading zeros.
  function ByteLength(v: nat): nat {
    if v == 0 then 0 else 1 + ByteLength(v / 256)
  }

  // An increment adds one to a four-byte address and one to nothing otherwise, and it is
  // a four-byte address again exactly when the number needs four bytes.
  lemma IncreaseMeaning(ip: Addr)
    ensures ip.four ==> IncreaseIP(ip).value == ip.value + 1
    ensures !ip.four ==> IncreaseIP(ip) == Addr(1, false)
    ensures IncreaseIP(ip).four <==> ByteLength(IncreaseIP(ip).value) == 4
  {
    FourBytes(IncreaseIP(ip).value);
  }

  lemma FourBytes(v: nat)
    ensures ByteLength(v) == 4 <==> 0x100_0000 <= v < 0x1_0000_0000
  {
    var a, b, c := v / 256, v / 256 / 256, v / 256 / 256 / 256;
    assert ByteLength(v) == if v == 0 then 0 else 1 + ByteLength(a);
    assert ByteLength(a) == if a == 0 then 0 else 1 + ByteLength(b);
    assert ByteLength(b) == if b == 0 then 0 else 1 + ByteLength(c);
    assert ByteLength(c) == if c == 0 then 0 else 1 + ByteLength(c / 256);
  }

  // Not broadcast, unspecified, loopback, multicast or link-local.
  predicate GlobalUnicast(ip: nat) {
    && ip < IPV4_LIMIT
    && ip != 0xFFFF_FFFF && ip != 0
    && ip / 0x100_0000 != 127
    && ip / 0x1000_0000 != 14
    && ip / 0x1_0000 != 0xA9FE
  }

  // The host part of an address of the block is its distance from the base; with all
  // host bits set the address is the subnet's broadcast address.
  predicate IsUnicastIP(n: Subnet, ip: nat)
    requires Contains(n, ip)
  {
    ip - n.base != n.size - 1 && GlobalUnicast(ip)
  }

  // What the host knows: the bridge's own addresses, the neighbour table, and which
  // addresses answer a ping.
  datatype Host = Host(bridge: seq<nat>, neighbours: set<nat>, answers: nat -> bool)

  // An address that may be given to a container.
  predicate Suitable(n: Subnet, h: Host, ip: nat) {
    && Contains(n, ip) && ip != n.base && IsUnicastIP(n, ip)
    && ip !in h.bridge && ip !in h.neighbours && !h.answers(ip)
  }

  // The same, as ranges of numbers: strictly inside the subnet, neither loopback
  // (127.0.0.0/8), link-local (169.254.0.0/16) nor multicast (224.0.0.0/4), not
  // 255.255.255.255, and used by nobody the host knows of.
  lemma SuitableIff(n: Subnet, h: Host, ip: nat)
    requires IsSubnet(n)
    ensures Suitable(n, h, ip) <==>
              && n.base < ip < n.base + n.size - 1
              && !(0x7F00_0000 <= ip <= 0x7FFF_FFFF) && !(0xA9FE_0000 <= ip <= 0xA9FE_FFFF) && !(0xE000_0000 <= ip <= 0xEFFF_FFFF)
              && ip != 0xFFFF_FFFF
              && !(ip in h.bridge || ip in h.neighbours || h.answers(ip))
  {
  }

  // ---------------------------------------------------------------------------
  // The walk

  // Addresses the walk from `start` has left behind when it stands at ip: it goes up
  // to the end of the subnet and continues behind the network address.
  predicate Passed(n: Subnet, start: nat, ip: nat, a: nat) {
    if ip >= start then start <= a < ip
    else start <= a < n.base + n.size || n.base < a < ip
  }

  datatype Turn = Found(ip: nat) | Failed | GoOn(at: Addr)

  // One turn of the walk, and where it stands after k of them.
  function TurnAt(n: Subnet, h: Host, lastIP: nat, ip: Addr): Turn {
    if ip.four && Suitable(n, h, ip.value) then Found(ip.value)
    else
      var next := IncreaseIP(if ip.four && Contains(n, ip.value) then ip else Addr(n.base, true));
      if next == IncreaseIP(Addr(lastIP, true)) then Failed else GoOn(next)
  }

  function Turns(n: Subnet, h: Host, lastIP: nat, k: nat): Turn {
    if k == 0 then GoOn(IncreaseIP(Addr(lastIP, true))) else
      var t := Turns(n, h, lastIP, k - 1);
      if t.GoOn? then TurnAt(n, h, lastIP, t.at) else t
  }

  // The walk tests every address once; it returns the first suitable one in ring
  // order and fails exactly when the subnet has none.
  method AllocateIP(n: Subnet, h: Host, lastIP: nat) returns (r: Option<nat>)
    requires IsSubnet(n) && Walkable(n) && Contains(n, lastIP)
    ensures r.Some? ==>
              && Suitable(n, h, r.value)
              && r.value != n.base && r.value != n.base + n.size - 1
              && forall a :: Passed(n, lastIP + 1, r.value, a) ==> !Suitable(n, h, a)
    ensures r.None? <==> forall a :: !Suitable(n, h, a)
    ensures exists k: nat :: Turns(n, h, lastIP, k) == if r.Some? then Found(r.value) else Failed
  {
    var start := IncreaseIP(Addr(lastIP, true));
    var ip := start;
    ghost var end := n.base + n.size;
    ghost var k: nat := 0;
    while true
      invariant start.value == lastIP + 1 && n.base < ip.value <= end
      invariant ip.four <==> FIRST_OCTET <= ip.value < IPV4_LIMIT
      invariant forall a :: Passed(n, start.value, ip.value, a) ==> !Suitable(n, h, a)
      invariant Turns(n, h, lastIP, k) == GoOn(ip)
      decreases if ip.value >= start.value then end - ip.value + start.value - n.base else start.value - ip.value
    {
      k := k + 1;
      ghost var tested := ip.value;
      if !ip.four || !Contains(n, ip.value) {
        ip := Addr(n.base, true);
      } else if ip.value in h.bridge {
      } else if !IsUnicastIP(n, ip.value) {
      } else if ip.value !in h.neighbours {
        if !h.answers(ip.value) {
          assert Suitable(n, h, ip.value);
          assert Turns(n, h, lastIP, k) == Found(ip.value);
          return Some(ip.value);
        }
      }
      assert !Suitable(n, h, tested);
      ip := IncreaseIP(ip);
      if ip == start {
        PassedAll(n, h, start.value, tested);
        assert Turns(n, h, lastIP, k) == Failed;
        break;
      }
    }
    return None;
  }

  // Coming back to the start means that every address has been tested.
  lemma PassedAll(n: Subnet, h: Host, start: nat, tested: nat)
    requires n.base < start <= n.base + n.size && n.base < tested <= n.base + n.size
    requires if tested == n.base + n.size then start == n.base + 1 else start == tested + 1
    requires !Suitable(n, h, tested)
    requires forall a :: Passed(n, start, tested, a) ==> !Suitable(n, h, a)
    ensures forall a :: !Suitable(n, h, a)
  {
    forall a: nat
      ensures !Suitable(n, h, a)
    {
      assert Suitable(n, h, a) ==> n.base < a < n.base + n.size;
      assert n.base < a < n.base + n.size ==> a == tested || Passed(n, start, tested, a);
    }
  }

  // In a subnet that starts with a zero octet the walk cannot fail: from anywhere but
  // the network address it finds an address with a non-zero first octet above the last
  // one, or it goes on for ever.
  lemma {:induction false} ZeroOctetNeverFails(n: Subnet, h: Host, lastIP: nat, k: nat)
    requires IsSubnet(n) && !Walkable(n) && Contains(n, lastIP) && lastIP != n.base
    ensures !Turns(n, h, lastIP, k).Failed?
    ensures (forall a :: lastIP < a && FIRST_OCTET <= a ==> !Suitable(n, h, a)) ==> Turns(n, h, lastIP, k).GoOn?
  {
    ZeroOctetWalk(n, h, lastIP, k);
  }

  lemma {:induction false} ZeroOctetWalk(n: Subnet, h: Host, lastIP: nat, k: nat)
    requires IsSubnet(n) && !Walkable(n) && Contains(n, lastIP) && lastIP != n.base
    ensures var t := Turns(n, h, lastIP, k);
            || (t.Found? && lastIP < t.ip && FIRST_OCTET <= t.ip && Suitable(n, h, t.ip))
            || (t.GoOn? && (t.at == Addr(n.base + 1, false) || (t.at.value > lastIP && (t.at.four ==> FIRST_OCTET <= t.at.value))))
  {
    if k > 0 {
      ZeroOctetWalk(n, h, lastIP, k - 1);
    }
  }

  // From the network address itself it fails at once, whatever is free.
  lemma ZeroOctetFailsAtOnce(n: Subnet, h: Host)
    requires IsSubnet(n) && !Walkable(n)
    ensures Turns(n, h, n.base, 1) == Failed
  {
    assert Turns(n, h, n.base, 0) == GoOn(Addr(n.base + 1, false));
  }

  // ---------------------------------------------------------------------------
  // The interfaces

  datatype Veth = Veth(pid: int, ip: nat)

  function AddressList(vs: seq<Veth>): seq<nat> {
    seq(|vs|, i requires 0 <= i < |vs| => vs[i].ip)
  }

  function Addresses(vs: seq<Veth>): multiset<nat> {
    multiset(AddressList(vs))
  }

  lemma AddressesConcat(a: seq<Veth>, b: seq<Veth>)
    ensures Addresses(a + b) == Addresses(a) + Addresses(b)
  {
    assert AddressList(a + b) == AddressList(a) + AddressList(b);
  }

  lemma AddressesOne(v: Veth)
    ensures Addresses([v]) == multiset{v.ip}
  {
    assert AddressList([v]) == [v.ip];
  }

  lemma FromPool(veth: seq<Veth>, pool: seq<Veth>)
    requires pool != []
    ensures Addresses(veth + [pool[0]]) + Addresses(pool[1..]) == Addresses(veth) + Addresses(pool)
  {
    hide Addresses;
    AddressesConcat(veth, [pool[0]]);
    AddressesConcat([pool[0]], pool[1..]);
    assert pool == [pool[0]] + pool[1..];
  }

  lemma ToPool(veth: seq<Veth>, pool: seq<Veth>, k: nat)
    requires k < |veth|
    ensures Addresses(veth[..k] + veth[k + 1..]) + Addresses(pool + [veth[k].(pid := 0)])
         == Addresses(veth) + Addresses(pool)
  {
    hide Addresses;
    var v := veth[k];
    AddressesConcat(veth[..k], [v] + veth[k + 1..]);
    AddressesConcat([v], veth[k + 1..]);
    AddressesConcat(veth[..k], veth[k + 1..]);
    AddressesConcat(pool, [v.(pid := 0)]);
    AddressesOne(v);
    AddressesOne(v.(pid := 0));
    assert veth == veth[..k] + ([v] + veth[k + 1..]);
  }

  class ContainerNetwork {
    const net: Subnet
    var lastIP: nat
    var veth: seq<Veth>
    var vethPool: seq<Veth>

    ghost predicate Valid()
      reads this
    {
      IsSubnet(net) && Walkable(net) && Contains(net, lastIP)
    }

    ghost function Owned(): multiset<nat>
      reads this
    {
      Addresses(veth) + Addresses(vethPool)
    }

    constructor (net: Subnet, bridgeIP: nat)
      requires IsSubnet(net) && Walkable(net) && Contains(net, bridgeIP)
      ensures Valid() && Owned() == multiset{} && this.net == net && lastIP == bridgeIP
    {
      this.net := net;
      lastIP, veth, vethPool := bridgeIP, [], [];
    }

    // Reuse the oldest free interface, or allocate an address for a new one.  Only a
    // new address moves the walk on, and it is suitable when it is chosen.
    method GetNewVeth(h: Host) returns (r: Option<Veth>)
      requires Valid()
      modifies this
      ensures Valid()
      ensures old(vethPool) != [] ==>
                r == Some(old(vethPool)[0]) && Owned() == old(Owned()) && lastIP == old(lastIP)
      ensures old(vethPool) == [] && r.Some? ==>
                && Suitable(net, h, r.value.ip) && lastIP == r.value.ip
                && Owned() == old(Owned()) + multiset{r.value.ip}
      ensures r.Some? ==> veth == old(veth) + [r.value]
      ensures r.None? ==>
                && (forall a :: !Suitable(net, h, a))
                && veth == old(veth) && vethPool == old(vethPool) && lastIP == old(lastIP)
    {
      hide Addresses, Suitable;
      if |vethPool| > 0 {
        var v := vethPool[0];
        FromPool(veth, vethPool);
        veth := veth + [v];
        vethPool := vethPool[1..];
        return Some(v);
      }
      var ip := AllocateIP(net, h, lastIP);
      if ip.None? {
        return None;
      }
      lastIP := ip.value;
      var v := Veth(0, ip.value);
      AddressesConcat(veth, [v]);
      AddressesOne(v);
      veth := veth + [v];
      return Some(v);
    }

    // Give back the first interface of a process; its address stays owned.
    method DeleteVeth(pid: int) returns (ok: bool, ghost k: nat)
      requires Valid()
      modifies this
      ensures Valid() && lastIP == old(lastIP)
      ensures Owned() == old(Owned())
      ensures k <= |old(veth)| && forall j :: 0 <= j < k ==> old(veth)[j].pid != pid
      ensures ok == (k < |old(veth)|)
      ensures ok ==> old(veth)[k].pid == pid
                     && veth == old(veth)[..k] + old(veth)[k + 1..]
                     && vethPool == old(vethPool) + [old(veth)[k].(pid := 0)]
      ensures !ok ==> veth == old(veth) && vethPool == old(vethPool)
    {
      hide Addresses;
      for i := 0 to |veth|
        invariant veth == old(veth) && vethPool == old(vethPool) && lastIP == old(lastIP)
        invariant forall j :: 0 <= j < i ==> veth[j].pid != pid
      {
        if veth[i].pid == pid {
          ToPool(veth, vethPool, i);
          vethPool := vethPool + [veth[i].(pid := 0)];
          veth := veth[..i] + veth[i + 1..];
          return true, i;
        }
      }
      return false, |veth|;
    }
  }
}
