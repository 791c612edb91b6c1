/**
 * The generated firewall and what it does to packets, under first-match evaluation.
 * Packets are IPv4; the ruleset's text is a list of rules per chain.
 */
module Firewall {
  import opened Options
  import opened Networks

  datatype Protocol = Tcp | Udp | OtherProtocol

  datatype Packet = Packet(
    iif: string,
    oif: string,
    sourceMac: string,
    protocol: Protocol,
    dport: int,
    established: bool)

  datatype Match =
    | InInterface(iface: string)
    | OutInterface(iface: string)
    | Authorized
    | NotAuthorized
    | Port(protocol: Protocol, ports: set<int>)
    | Established

  datatype Verdict = Accept | Drop | Dnat(gateway: Ip, port: int) | Masquerade

  datatype Rule = Rule(matches: seq<Match>, verdict: Verdict)

  datatype Ruleset = Ruleset(forward: seq<Rule>, input: seq<Rule>, prerouting: seq<Rule>, postrouting: seq<Rule>)

  // ---- First-match evaluation ----

  predicate Holds(m: Match, p: Packet, authorized: set<string>) {
    match m
    case InInterface(iface) => p.iif == iface
    case OutInterface(iface) => p.oif == iface
    case Authorized => p.sourceMac in authorized
    case NotAuthorized => p.sourceMac !in authorized
    case Port(protocol, ports) => p.protocol == protocol && p.dport in ports
    case Established => p.established
  }

  predicate Applies(r: Rule, p: Packet, authorized: set<string>) {
    forall i :: 0 <= i < |r.matches| ==> Holds(r.matches[i], p, authorized)
  }

  /** The verdict of a chain whose policy is accept. */
  function Evaluate(rules: seq<Rule>, p: Packet, authorized: set<string>): Verdict {
    if rules == [] then Accept
    else if Applies(rules[0], p, authorized) then rules[0].verdict
    else Evaluate(rules[1..], p, authorized)
  }

  // ---- The generator ----

  function GatewayOf(c: Config, n: Network): Ip { Ip(c.a, c.b, n.subnetId, 1) }

  function AllowRule(wan: string, n: Network): Rule {
    Rule([InInterface(n.vlanInterface), OutInterface(wan), Authorized], Accept)
  }

  function CutRule(n: Network): Rule { Rule([InInterface(n.vlanInterface)], Drop) }

  function InputRules(n: Network, portalPort: int, controlPort: int): seq<Rule> {
    [Rule([InInterface(n.vlanInterface), Port(Tcp, {controlPort})], Drop),
     Rule([InInterface(n.vlanInterface), Port(Udp, {53, 67})], Accept),
     Rule([InInterface(n.vlanInterface), Port(Tcp, {53})], Accept),
     Rule([InInterface(n.vlanInterface), Port(Tcp, {portalPort})], Accept)]
  }

  function PortalRule(c: Config, n: Network, portalPort: int): Rule {
    Rule([InInterface(n.vlanInterface), Port(Tcp, {80}), NotAuthorized], Dnat(GatewayOf(c, n), portalPort))
  }

  const SHORTCUT := Rule([Established], Accept)

  function AllowRules(wan: string, networks: seq<Network>): seq<Rule> {
    seq(|networks|, i requires 0 <= i < |networks| => AllowRule(wan, networks[i]))
  }

  function CutRules(networks: seq<Network>): seq<Rule> {
    seq(|networks|, i requires 0 <= i < |networks| => CutRule(networks[i]))
  }

  function PortalRules(c: Config, networks: seq<Network>, portalPort: int): seq<Rule> {
    seq(|networks|, i requires 0 <= i < |networks| => PortalRule(c, networks[i], portalPort))
  }

  function AllInputRules(networks: seq<Network>, portalPort: int, controlPort: int): seq<Rule> {
    if networks == [] then []
    else
      AllInputRules(networks[..|networks| - 1], portalPort, controlPort)
      + InputRules(networks[|networks| - 1], portalPort, controlPort)
  }

  function RulesetOf(c: Config, wan: string, portalPort: int, controlPort: int): Ruleset {
    Ruleset(AllowRules(wan, c.networks) + CutRules(c.networks) + [SHORTCUT],
            [SHORTCUT] + AllInputRules(c.networks, portalPort, controlPort),
            PortalRules(c, c.networks, portalPort),
            [Rule([OutInterface(wan)], Masquerade)])
  }

  method GenerateRuleset(c: Config, wan: string, portalPort: int, controlPort: int) returns (r: Ruleset)
    ensures r == RulesetOf(c, wan, portalPort, controlPort)
  {
    var networks := c.networks;
    var forward: seq<Rule> := [];
    var i := 0;
    while i < |networks|
      invariant i <= |networks| && forward == AllowRules(wan, networks)[..i]
    {
      forward := forward + [Rule([InInterface(networks[i].vlanInterface), OutInterface(wan), Authorized], Accept)];
      i := i + 1;
    }
    i := 0;
    while i < |networks|
      invariant i <= |networks| && forward == AllowRules(wan, networks) + CutRules(networks)[..i]
    {
      forward := forward + [Rule([InInterface(networks[i].vlanInterface)], Drop)];
      i := i + 1;
    }
    forward := forward + [SHORTCUT];
    var input := [SHORTCUT];
    i := 0;
    while i < |networks|
      invariant i <= |networks| && input == [SHORTCUT] + AllInputRules(networks[..i], portalPort, controlPort)
    {
      assert networks[..i + 1][..i] == networks[..i];
      var iface := InInterface(networks[i].vlanInterface);
      input := input + [Rule([iface, Port(Tcp, {controlPort})], Drop),
                        Rule([iface, Port(Udp, {53, 67})], Accept),
                        Rule([iface, Port(Tcp, {53})], Accept),
                        Rule([iface, Port(Tcp, {portalPort})], Accept)];
      i := i + 1;
    }
    assert networks[..i] == networks;
    var prerouting: seq<Rule> := [];
    i := 0;
    while i < |networks|
      invariant i <= |networks| && prerouting == PortalRules(c, networks, portalPort)[..i]
    {
      prerouting := prerouting + [Rule([InInterface(networks[i].vlanInterface), Port(Tcp, {80}), NotAuthorized],
                                       Dnat(GatewayOf(c, networks[i]), portalPort))];
      i := i + 1;
    }
    r := Ruleset(forward, input, prerouting, [Rule([OutInterface(wan)], Masquerade)]);
  }

  /** The chains rule by rule, with the segments in their order. */
  lemma ChainsAre(c: Config, wan: string, portalPort: int, controlPort: int, i: nat)
    requires i < |c.networks|
    ensures var r, n := RulesetOf(c, wan, portalPort, controlPort), |c.networks|;
            var iface := InInterface(c.networks[i].vlanInterface);
            |r.forward| == 2 * n + 1 && |r.input| == 1 + 4 * n && |r.prerouting| == n
            && r.forward[i] == Rule([iface, OutInterface(wan), Authorized], Accept)
            && r.forward[n + i] == Rule([iface], Drop)
            && r.forward[2 * n] == Rule([Established], Accept) == r.input[0]
            && r.input[1 + 4 * i..5 + 4 * i]
               == [Rule([iface, Port(Tcp, {controlPort})], Drop), Rule([iface, Port(Udp, {53, 67})], Accept),
                   Rule([iface, Port(Tcp, {53})], Accept), Rule([iface, Port(Tcp, {portalPort})], Accept)]
            && r.prerouting[i]
               == Rule([iface, Port(Tcp, {80}), NotAuthorized],
                       Dnat(Ip(c.a, c.b, c.networks[i].subnetId, 1), portalPort))
            && r.postrouting == [Rule([OutInterface(wan)], Masquerade)]
  {
    hide AllInputRules;
    InputRulesAt(c.networks, portalPort, controlPort, i);
    var rules := AllInputRules(c.networks, portalPort, controlPort);
    assert ([SHORTCUT] + rules)[1 + 4 * i..5 + 4 * i] == rules[4 * i..4 * i + 4];
  }

  lemma {:induction false} InputRulesAt(networks: seq<Network>, portalPort: int, controlPort: int, i: nat)
    requires i < |networks|
    ensures |AllInputRules(networks, portalPort, controlPort)| == 4 * |networks|
    ensures AllInputRules(networks, portalPort, controlPort)[4 * i..4 * i + 4]
            == InputRules(networks[i], portalPort, controlPort)
  {
    hide InputRules;
    var n := |networks| - 1;
    var before, last := AllInputRules(networks[..n], portalPort, controlPort),
                        InputRules(networks[n], portalPort, controlPort);
    assert |last| == 4 by { FourInputRules(networks[n], portalPort, controlPort); }
    if n > 0 { InputRulesAt(networks[..n], portalPort, controlPort, if i < n then i else 0); }
    assert |before| == 4 * n;
    FourOf(before, last, i);
  }

  lemma FourInputRules(n: Network, portalPort: int, controlPort: int)
    ensures |InputRules(n, portalPort, controlPort)| == 4
  {
  }

  lemma FourOf<T>(before: seq<T>, last: seq<T>, i: nat)
    requires 4 * i <= |before| && |last| == 4 && (4 * i < |before| ==> 4 * i + 4 <= |before|)
    ensures (before + last)[4 * i..4 * i + 4] == if 4 * i < |before| then before[4 * i..4 * i + 4] else last
  {
  }

  // ---- What the ruleset means ----

  ghost predicate FromSegment(networks: seq<Network>, p: Packet) {
    exists i :: 0 <= i < |networks| && networks[i].vlanInterface == p.iif
  }

  lemma {:induction false} EvaluateConcat(a: seq<Rule>, b: seq<Rule>, p: Packet, authorized: set<string>)
    ensures Evaluate(a + b, p, authorized) ==
            if exists i :: 0 <= i < |a| && Applies(a[i], p, authorized) then Evaluate(a, p, authorized)
            else Evaluate(b, p, authorized)
  {
    if a == [] {
      assert a + b == b;
    } else {
      assert (a + b)[1..] == a[1..] + b;
      EvaluateConcat(a[1..], b, p, authorized);
      if !Applies(a[0], p, authorized) {
        assert forall i :: 0 < i < |a| ==> a[i] == a[1..][i - 1];
        assert forall i :: 0 <= i < |a| - 1 ==> a[1..][i] == a[i + 1];
      }
    }
  }

  /** A chain whose rules all give one verdict gives it exactly when some rule applies. */
  lemma {:induction false} UniformChain(rules: seq<Rule>, verdict: Verdict, p: Packet, authorized: set<string>)
    requires forall i :: 0 <= i < |rules| ==> rules[i].verdict == verdict
    ensures Evaluate(rules, p, authorized) ==
            if exists i :: 0 <= i < |rules| && Applies(rules[i], p, authorized) then verdict else Accept
  {
    if rules != [] {
      UniformChain(rules[1..], verdict, p, authorized);
      if !Applies(rules[0], p, authorized) {
        assert forall i :: 0 < i < |rules| ==> rules[i] == rules[1..][i - 1];
        assert forall i :: 0 <= i < |rules| - 1 ==> rules[1..][i] == rules[i + 1];
      }
    }
  }

  lemma AllowRuleApplies(wan: string, networks: seq<Network>, p: Packet, authorized: set<string>)
    ensures (exists i :: 0 <= i < |networks| && Applies(AllowRules(wan, networks)[i], p, authorized))
            <==> FromSegment(networks, p) && p.oif == wan && p.sourceMac in authorized
  {
    forall i | 0 <= i < |networks|
      ensures Applies(AllowRules(wan, networks)[i], p, authorized) <==>
                networks[i].vlanInterface == p.iif && p.oif == wan && p.sourceMac in authorized
    {
      var ms := AllowRules(wan, networks)[i].matches;
      assert Applies(AllowRules(wan, networks)[i], p, authorized) <==>
          Holds(ms[0], p, authorized) && Holds(ms[1], p, authorized) && Holds(ms[2], p, authorized);
    }
  }

  lemma CutRuleApplies(networks: seq<Network>, p: Packet, authorized: set<string>)
    ensures (exists i :: 0 <= i < |networks| && Applies(CutRules(networks)[i], p, authorized))
            <==> FromSegment(networks, p)
  {
    forall i | 0 <= i < |networks|
      ensures Applies(CutRules(networks)[i], p, authorized) <==> networks[i].vlanInterface == p.iif
    {
      var ms := CutRules(networks)[i].matches;
      assert Applies(CutRules(networks)[i], p, authorized) <==> Holds(ms[0], p, authorized);
    }
  }

  /**
   * Forwarding: a packet from a segment passes exactly when it leaves by the WAN and its
   * MAC is authorized, whatever the state of its connection; all other traffic passes.
   */
  lemma ForwardIsTheWalledGarden(c: Config, wan: string, portalPort: int, controlPort: int, p: Packet,
                                 authorized: set<string>)
    ensures Evaluate(RulesetOf(c, wan, portalPort, controlPort).forward, p, authorized) ==
            if FromSegment(c.networks, p) && !(p.oif == wan && p.sourceMac in authorized) then Drop else Accept
  {
    var allow, cut := AllowRules(wan, c.networks), CutRules(c.networks);
    EvaluateConcat(allow + cut, [SHORTCUT], p, authorized);
    EvaluateConcat(allow, cut, p, authorized);
    UniformChain(allow, Accept, p, authorized);
    UniformChain(cut, Drop, p, authorized);
    AllowRuleApplies(wan, c.networks, p, authorized);
    CutRuleApplies(c.networks, p, authorized);
    UniformChain([SHORTCUT], Accept, p, authorized);
    if FromSegment(c.networks, p) {
      var i :| 0 <= i < |c.networks| && Applies(cut[i], p, authorized);
      assert (allow + cut)[|allow| + i] == cut[i];
    }
  }

  predicate ToControl(p: Packet, controlPort: int) { p.protocol == Tcp && p.dport == controlPort }

  lemma {:induction false} InputOfSegments(networks: seq<Network>, portalPort: int, controlPort: int, p: Packet,
                                           authorized: set<string>)
    ensures Evaluate(AllInputRules(networks, portalPort, controlPort), p, authorized) ==
            if FromSegment(networks, p) && ToControl(p, controlPort) then Drop else Accept
    ensures ToControl(p, controlPort) ==>
              ((exists i :: 0 <= i < |AllInputRules(networks, portalPort, controlPort)|
                            && Applies(AllInputRules(networks, portalPort, controlPort)[i], p, authorized))
               <==> FromSegment(networks, p))
  {
    if networks != [] {
      var n := |networks| - 1;
      var before := AllInputRules(networks[..n], portalPort, controlPort);
      var rules := InputRules(networks[n], portalPort, controlPort);
      InputOfSegments(networks[..n], portalPort, controlPort, p, authorized);
      InputOfSegment(networks[n], portalPort, controlPort, p, authorized);
      EvaluateConcat(before, rules, p, authorized);
      assert FromSegment(networks, p) <==> FromSegment(networks[..n], p) || networks[n].vlanInterface == p.iif by {
        if FromSegment(networks[..n], p) {
          var i :| 0 <= i < n && networks[..n][i].vlanInterface == p.iif;
          assert networks[i].vlanInterface == p.iif;
        }
        if FromSegment(networks, p) {
          var i :| 0 <= i < |networks| && networks[i].vlanInterface == p.iif;
          if i < n { assert networks[..n][i].vlanInterface == p.iif; }
        }
      }
      forall i | 0 <= i < |before|
        ensures (before + rules)[i] == before[i]
      {
      }
      forall i | 0 <= i < |rules|
        ensures (before + rules)[|before| + i] == rules[i]
      {
      }
    }
  }

  lemma InputOfSegment(n: Network, portalPort: int, controlPort: int, p: Packet, authorized: set<string>)
    ensures var rules := InputRules(n, portalPort, controlPort);
            Evaluate(rules, p, authorized)
            == (if n.vlanInterface == p.iif && ToControl(p, controlPort) then Drop else Accept)
            && (ToControl(p, controlPort) ==>
                  ((exists i :: 0 <= i < |rules| && Applies(rules[i], p, authorized)) <==> n.vlanInterface == p.iif))
  {
    var rules := InputRules(n, portalPort, controlPort);
    forall i | 0 <= i < 4
      ensures Applies(rules[i], p, authorized)
              <==> Holds(rules[i].matches[0], p, authorized) && Holds(rules[i].matches[1], p, authorized)
    {
    }
    UniformChain(rules[1..], Accept, p, authorized);
  }

  /** Input: only new connections from a segment to the control port are dropped. */
  lemma ControlPortIsClosed(c: Config, wan: string, portalPort: int, controlPort: int, p: Packet,
                            authorized: set<string>)
    ensures Evaluate(RulesetOf(c, wan, portalPort, controlPort).input, p, authorized) ==
            if !p.established && FromSegment(c.networks, p) && ToControl(p, controlPort) then Drop else Accept
  {
    var rest := AllInputRules(c.networks, portalPort, controlPort);
    InputOfSegments(c.networks, portalPort, controlPort, p, authorized);
    assert ([SHORTCUT] + rest)[1..] == rest;
    assert Applies(SHORTCUT, p, authorized) <==> Holds(SHORTCUT.matches[0], p, authorized);
  }

  lemma {:induction false} PortalOfSegments(c: Config, networks: seq<Network>, portalPort: int, p: Packet,
                                            authorized: set<string>, i: nat)
    requires i < |networks| && networks[i].vlanInterface == p.iif
    requires forall j :: 0 <= j < i ==> networks[j].vlanInterface != p.iif
    requires p.protocol == Tcp && p.dport == 80 && p.sourceMac !in authorized
    ensures Evaluate(PortalRules(c, networks, portalPort), p, authorized) == Dnat(GatewayOf(c, networks[i]), portalPort)
  {
    var rules := PortalRules(c, networks, portalPort);
    PortalRuleApplies(c, networks[0], portalPort, p, authorized);
    if i > 0 {
      assert rules[1..] == PortalRules(c, networks[1..], portalPort);
      PortalOfSegments(c, networks[1..], portalPort, p, authorized, i - 1);
    }
  }

  lemma PortalRuleApplies(c: Config, n: Network, portalPort: int, p: Packet, authorized: set<string>)
    ensures Applies(PortalRule(c, n, portalPort), p, authorized) <==>
              n.vlanInterface == p.iif && p.protocol == Tcp && p.dport == 80 && p.sourceMac !in authorized
  {
    var ms := PortalRule(c, n, portalPort).matches;
    assert Applies(PortalRule(c, n, portalPort), p, authorized) <==>
        Holds(ms[0], p, authorized) && Holds(ms[1], p, authorized) && Holds(ms[2], p, authorized);
  }

  lemma {:induction false} NoPortalRuleApplies(c: Config, networks: seq<Network>, portalPort: int, p: Packet,
                                               authorized: set<string>)
    requires !FromSegment(networks, p) || p.protocol != Tcp || p.dport != 80 || p.sourceMac in authorized
    ensures Evaluate(PortalRules(c, networks, portalPort), p, authorized) == Accept
  {
    if networks != [] {
      var rules := PortalRules(c, networks, portalPort);
      PortalRuleApplies(c, networks[0], portalPort, p, authorized);
      assert rules[1..] == PortalRules(c, networks[1..], portalPort);
      assert forall i :: 0 <= i < |networks| - 1 ==> networks[1..][i] == networks[i + 1];
      NoPortalRuleApplies(c, networks[1..], portalPort, p, authorized);
    }
  }

  /**
   * Port 80 leads to the packet's own segment's gateway exactly when its MAC is not
   * authorized; no other packet is redirected.
   */
  lemma PortalCatchesTheUnauthorized(c: Config, wan: string, portalPort: int, controlPort: int, p: Packet,
                                     authorized: set<string>, i: nat)
    requires Accepted(c.networks) && i < |c.networks|
    ensures var verdict := Evaluate(RulesetOf(c, wan, portalPort, controlPort).prerouting, p, authorized);
            (verdict == Dnat(Ip(c.a, c.b, c.networks[i].subnetId, 1), portalPort) <==>
               p.iif == c.networks[i].vlanInterface && p.protocol == Tcp && p.dport == 80 && p.sourceMac !in authorized)
            && (verdict != Accept ==>
                  FromSegment(c.networks, p) && p.protocol == Tcp && p.dport == 80 && p.sourceMac !in authorized)
  {
    if FromSegment(c.networks, p) && p.protocol == Tcp && p.dport == 80 && p.sourceMac !in authorized {
      var k :| 0 <= k < |c.networks| && c.networks[k].vlanInterface == p.iif;
      forall j | 0 <= j < |c.networks| && j != k
        ensures c.networks[j].vlanInterface != p.iif && c.networks[j].subnetId != c.networks[k].subnetId
      {
        if j < k { assert !Clash(c.networks[j], c.networks[k]); } else { assert !Clash(c.networks[k], c.networks[j]); }
      }
      PortalOfSegments(c, c.networks, portalPort, p, authorized, k);
    } else {
      NoPortalRuleApplies(c, c.networks, portalPort, p, authorized);
    }
  }
}
