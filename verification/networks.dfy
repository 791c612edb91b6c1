/** The configured router segments and how a device is placed on one of them. */
module Networks {
  import opened Options

  datatype Network = Network(parentInterface: string, vlanId: Option<int>, subnetId: int, routerId: string,
                             vlanInterface: string)

  /** The upload device of a segment: named after its VLAN, or after its subnet when untagged. */
  datatype Ifb = VlanIfb(vlanId: int) | LanIfb(subnetId: int)

  datatype Ip = Ip(a: int, b: int, c: int, d: int)

  /** The first two octets every segment shares, and the segments. */
  datatype Config = Config(a: int, b: int, networks: seq<Network>)

  datatype ConfigError = InterfaceTwice | SubnetTwice | RouterTwice

  function IfbOf(n: Network): Ifb {
    if n.vlanId.Some? then VlanIfb(n.vlanId.value) else LanIfb(n.subnetId)
  }

  predicate Clash(m: Network, n: Network) {
    m.vlanInterface == n.vlanInterface || m.subnetId == n.subnetId || m.routerId == n.routerId
  }

  predicate Accepted(networks: seq<Network>) {
    forall i, j :: 0 <= i < j < |networks| ==> !Clash(networks[i], networks[j])
  }

  /** The uniqueness check made when the configuration is read. */
  method CheckNetworks(networks: seq<Network>) returns (r: Result<(), ConfigError>)
    ensures r.Ok? <==> Accepted(networks)
    ensures r.Err? ==> exists i, j :: 0 <= i < j < |networks| && Accepted(networks[..j])
                         && (r.error == InterfaceTwice ==> networks[i].vlanInterface == networks[j].vlanInterface)
                         && (r.error == SubnetTwice ==> networks[i].subnetId == networks[j].subnetId)
                         && (r.error == RouterTwice ==> networks[i].routerId == networks[j].routerId)
  {
    var interfaces: set<string> := {};
    var subnets: set<int> := {};
    var routers: set<string> := {};
    var k := 0;
    while k < |networks|
      invariant k <= |networks|
      invariant interfaces == set i | 0 <= i < k :: networks[i].vlanInterface
      invariant subnets == set i | 0 <= i < k :: networks[i].subnetId
      invariant routers == set i | 0 <= i < k :: networks[i].routerId
      invariant Accepted(networks[..k])
    {
      var n := networks[k];
      if n.vlanInterface in interfaces {
        var i :| 0 <= i < k && networks[i].vlanInterface == n.vlanInterface;
        assert Clash(networks[i], n);
        return Err(InterfaceTwice);
      }
      if n.subnetId in subnets {
        var i :| 0 <= i < k && networks[i].subnetId == n.subnetId;
        assert Clash(networks[i], n);
        return Err(SubnetTwice);
      }
      if n.routerId in routers {
        var i :| 0 <= i < k && networks[i].routerId == n.routerId;
        assert Clash(networks[i], n);
        return Err(RouterTwice);
      }
      forall i | 0 <= i < k
        ensures !Clash(networks[i], n)
      {
        assert networks[i].vlanInterface in interfaces && networks[i].subnetId in subnets
               && networks[i].routerId in routers;
      }
      interfaces := interfaces + {n.vlanInterface};
      subnets := subnets + {n.subnetId};
      routers := routers + {n.routerId};
      k := k + 1;
    }
    assert networks[..k] == networks;
    return Ok(());
  }

  /**
   * The check does not cover the upload devices. On an accepted configuration their names
   * are distinct exactly when no VLAN ID is used on two parent interfaces.
   */
  lemma UploadDevicesDistinctExactlyWhen(networks: seq<Network>)
    requires Accepted(networks)
    ensures (forall i, j :: 0 <= i < j < |networks| ==> IfbOf(networks[i]) != IfbOf(networks[j]))
            <==> (forall i, j :: 0 <= i < j < |networks| && networks[i].vlanId.Some? ==>
                    networks[i].vlanId != networks[j].vlanId)
  {
    forall i, j | 0 <= i < j < |networks|
      ensures IfbOf(networks[i]) == IfbOf(networks[j])
              <==> networks[i].vlanId.Some? && networks[i].vlanId == networks[j].vlanId
    {
      assert !Clash(networks[i], networks[j]);
    }
  }

  /** Two ports carrying the same VLAN ID pass the check and share one upload device. */
  lemma UploadDevicesCanCollide()
    ensures exists networks :: Accepted(networks) && |networks| == 2 && IfbOf(networks[0]) == IfbOf(networks[1])
  {
    var networks := [Network("eth0", Some(10), 10, "a", "eth0.10"), Network("eth1", Some(10), 11, "b", "eth1.10")];
    assert networks[0].vlanInterface[3] != networks[1].vlanInterface[3];
    assert networks[0].routerId[0] != networks[1].routerId[0];
    assert Accepted(networks);
  }

  predicate InSubnet(c: Config, ip: Ip, n: Network) {
    ip.a == c.a && ip.b == c.b && ip.c == n.subnetId
  }

  function FindById(networks: seq<Network>, routerId: string): (r: Option<Network>)
    ensures r.Some? ==> r.value in networks && r.value.routerId == routerId
    ensures r.None? ==> forall n :: n in networks ==> n.routerId != routerId
  {
    if networks == [] then None
    else if networks[0].routerId == routerId then Some(networks[0])
    else FindById(networks[1..], routerId)
  }

  function FindByIp(c: Config, networks: seq<Network>, ip: Ip): (r: Option<Network>)
    ensures r.Some? ==> r.value in networks && InSubnet(c, ip, r.value)
    ensures r.None? ==> forall n :: n in networks ==> !InSubnet(c, ip, n)
  {
    if networks == [] then None
    else if InSubnet(c, ip, networks[0]) then Some(networks[0])
    else FindByIp(c, networks[1..], ip)
  }

  /** By router ID when known, else by address, else the only segment of a single-segment box. */
  function FindRouter(c: Config, routerId: Option<string>, ip: Option<Ip>): (r: Option<Network>)
    ensures r.Some? ==> r.value in c.networks
  {
    var byId := if routerId.Some? then FindById(c.networks, routerId.value) else None;
    var byIp := if ip.Some? then FindByIp(c, c.networks, ip.value) else None;
    if byId.Some? then byId
    else if byIp.Some? then byIp
    else if |c.networks| == 1 then Some(c.networks[0])
    else None
  }

  /** Who a device belongs to: the segment named, else the one its address is in, else the only one. */
  ghost predicate BelongsTo(c: Config, routerId: Option<string>, ip: Option<Ip>, n: Network) {
    var named := routerId.Some? && exists m :: m in c.networks && m.routerId == routerId.value;
    var addressed := ip.Some? && ip.value.a == c.a && ip.value.b == c.b
                     && exists m :: m in c.networks && m.subnetId == ip.value.c;
    n in c.networks
    && if named then n.routerId == routerId.value
       else if addressed then n.subnetId == ip.value.c
       else |c.networks| == 1
  }

  /** On an accepted configuration that is one segment at most, and the one found. */
  lemma FindsWhereItBelongs(c: Config, routerId: Option<string>, ip: Option<Ip>, n: Network)
    requires Accepted(c.networks)
    ensures FindRouter(c, routerId, ip) == Some(n) <==> BelongsTo(c, routerId, ip, n)
  {
    hide Accepted, FindById, FindByIp;
    var found := FindRouter(c, routerId, ip);
    if BelongsTo(c, routerId, ip, n) && found.Some? {
      if |c.networks| == 1 {
        assert c.networks[0] == n == found.value;
      } else {
        AcceptedAreUnique(c.networks, found.value, n);
      }
    }
  }

  ghost predicate SameNetworks(a: seq<Network>, b: seq<Network>) {
    |a| == |b| && forall n :: n in a <==> n in b
  }

  lemma ReorderedAreSame(a: seq<Network>, b: seq<Network>)
    requires multiset(a) == multiset(b)
    ensures SameNetworks(a, b)
  {
    assert |a| == |multiset(a)| == |b|;
    assert forall n :: n in a <==> n in multiset(a);
    assert forall n :: n in b <==> n in multiset(b);
  }

  /** Segments of one name, or of one subnet, are one segment. */
  lemma AcceptedAreUnique(networks: seq<Network>, m: Network, n: Network)
    requires Accepted(networks) && m in networks && n in networks && Clash(m, n)
    ensures m == n
  {
    var i :| 0 <= i < |networks| && networks[i] == m;
    var j :| 0 <= j < |networks| && networks[j] == n;
    assert Clash(networks[i], networks[j]) && Clash(networks[j], networks[i]);
  }

  lemma FindByIdIgnoresOrder(a: seq<Network>, b: seq<Network>, routerId: string)
    requires Accepted(a) && SameNetworks(a, b)
    ensures FindById(a, routerId) == FindById(b, routerId)
  {
    hide Accepted, FindById;
    var x, y := FindById(a, routerId), FindById(b, routerId);
    if x.Some? && y.Some? { AcceptedAreUnique(a, x.value, y.value); }
  }

  lemma FindByIpIgnoresOrder(c: Config, a: seq<Network>, b: seq<Network>, ip: Ip)
    requires Accepted(a) && SameNetworks(a, b)
    ensures FindByIp(c, a, ip) == FindByIp(c, b, ip)
  {
    hide Accepted, FindByIp;
    var x, y := FindByIp(c, a, ip), FindByIp(c, b, ip);
    if x.Some? && y.Some? { AcceptedAreUnique(a, x.value, y.value); }
  }

  /** Where the networks are listed does not matter to a lookup, only which they are. */
  lemma FindByIpIgnoresList(c: Config, d: Config, networks: seq<Network>, ip: Ip)
    requires c.a == d.a && c.b == d.b
    ensures FindByIp(c, networks, ip) == FindByIp(d, networks, ip)
  {
  }

  /** On an accepted configuration the answer does not depend on the order of the segments. */
  lemma PlacementIgnoresOrder(c: Config, networks: seq<Network>, routerId: Option<string>, ip: Option<Ip>)
    requires Accepted(c.networks) && multiset(networks) == multiset(c.networks)
    ensures FindRouter(c, routerId, ip) == FindRouter(c.(networks := networks), routerId, ip)
  {
    hide Accepted, FindById, FindByIp;
    ReorderedAreSame(c.networks, networks);
    if routerId.Some? { FindByIdIgnoresOrder(c.networks, networks, routerId.value); }
    if ip.Some? {
      FindByIpIgnoresOrder(c, c.networks, networks, ip.value);
      FindByIpIgnoresList(c, c.(networks := networks), networks, ip.value);
    }
    if |networks| == 1 { assert networks[0] in networks && networks[0] in c.networks; }
  }
}
