/**
 * The gateway from end to end: which packets of a segment pass after the agent has synced
 * to the API's list, in terms of the API's tables.
 */
module WalledGarden {
  import opened Options
  import opened Networks
  import opened ClassIds
  import opened Admission
  import AdmissionRuns
  import ApiList
  import Entitlement
  import EntitlementRuns
  import Firewall
  import Syncs

  /** An open session of this MAC on a voucher that is active and not past its end. */
  ghost predicate HasTime(db: Entitlement.Db, i: nat, now: int, mac: string) {
    i < |db.sessions| && db.sessions[i].endedAt == None
    && db.sessions[i].voucher < |db.vouchers| && db.vouchers[db.sessions[i].voucher].status == Entitlement.ACTIVE
    && (db.vouchers[db.sessions[i].voucher].expiresAt.Some? ==>
          db.vouchers[db.sessions[i].voucher].expiresAt.value > now)
    && db.sessions[i].device < |db.devices| && db.devices[db.sessions[i].device].mac == mac
  }

  /**
   * Who may pass after a sync: a device with a live session that belongs to a segment; and,
   * of those let through before, one whose live session belongs to none, and one admitted
   * since the sync began.
   */
  ghost predicate MayPass(c: Config, db: Entitlement.Db, details: nat -> ApiList.Details, now: int,
                          g: Box, startedAt: int, mac: string)
  {
    (exists i: nat :: HasTime(db, i, now, mac) && FindRouter(c, details(i).routerId, details(i).ip).Some?)
    || (mac in g.firewall && exists i: nat :: HasTime(db, i, now, mac))
    || (mac in g.firewall && mac in g.registry && g.registry[mac].admittedAt >= startedAt)
  }

  /** In a reachable state the list holds the sessions with time left, and no others. */
  lemma ListHoldsWhoHasTime(es: seq<EntitlementRuns.Event>, details: nat -> ApiList.Details, now: int, c: Config,
                            mac: string)
    ensures var db := EntitlementRuns.After(EntitlementRuns.INITIAL, es);
            var sessions := ApiList.ActiveSessions(db, details, now);
            (mac in Entitled(sessions) <==> exists i: nat :: HasTime(db, i, now, mac))
            && (Syncs.ListsPlaceable(c, sessions, mac)
                <==> exists i: nat ::
                       HasTime(db, i, now, mac) && FindRouter(c, details(i).routerId, details(i).ip).Some?)
  {
    hide EntitlementRuns.After;
    var db := EntitlementRuns.After(EntitlementRuns.INITIAL, es);
    var ids, sessions := ApiList.ListedFrom(db, |db.sessions|, now), ApiList.ActiveSessions(db, details, now);
    forall i: nat | HasTime(db, i, now, mac)
      ensures exists k :: 0 <= k < |ids| && ids[k] == i && sessions[k].mac == mac
    {
      ApiList.DeviceFilterIsRedundant(es, i, now);
      assert ApiList.IsLive(db, i, now);
      assert i in ids;
    }
    forall k | 0 <= k < |sessions| && sessions[k].mac == mac
      ensures HasTime(db, ids[k], now, mac)
    {
      assert ids[k] in ids;
    }
  }

  lemma FirewallAfterSync(es: seq<EntitlementRuns.Event>, details: nat -> ApiList.Details, listedAt: int,
                          c: Config, g: Box, startedAt: int, now: int, order: seq<string>, mac: string)
    requires AdmissionRuns.Inv(g) && AdmissionRuns.Backed(g)
    requires var db := EntitlementRuns.After(EntitlementRuns.INITIAL, es);
             var sessions := ApiList.ActiveSessions(db, details, listedAt);
             |g.registry.Keys + Entitled(sessions)| <= CAPACITY
             && Syncs.IsRevocationOrder(c, g, sessions, startedAt, now, order)
    ensures var db := EntitlementRuns.After(EntitlementRuns.INITIAL, es);
            mac in Sync(c, g, ApiList.ActiveSessions(db, details, listedAt), now, order).firewall
            <==> MayPass(c, db, details, listedAt, g, startedAt, mac)
  {
    ListHoldsWhoHasTime(es, details, listedAt, c, mac);
    assert mac in g.firewall ==> mac in g.registry;
    var sessions := ApiList.ActiveSessions(EntitlementRuns.After(EntitlementRuns.INITIAL, es), details, listedAt);
    Syncs.LetThroughAfterSync(c, g, sessions, startedAt, now, order, mac);
  }

  /**
   * After a sync to the list of any reachable state, a packet from a segment is forwarded
   * exactly when it leaves by the WAN and its device may pass; a request to port 80 is
   * turned to the segment's own portal exactly when its device may not.
   */
  lemma PassesExactlyWhenEntitled(es: seq<EntitlementRuns.Event>, details: nat -> ApiList.Details, listedAt: int,
                                  c: Config, g: Box, startedAt: int, now: int, order: seq<string>,
                                  wan: string, portalPort: int, controlPort: int, p: Firewall.Packet, i: nat)
    requires AdmissionRuns.Inv(g) && AdmissionRuns.Backed(g)
    requires var db := EntitlementRuns.After(EntitlementRuns.INITIAL, es);
             var sessions := ApiList.ActiveSessions(db, details, listedAt);
             |g.registry.Keys + Entitled(sessions)| <= CAPACITY
             && Syncs.IsRevocationOrder(c, g, sessions, startedAt, now, order)
    requires Accepted(c.networks) && i < |c.networks| && c.networks[i].vlanInterface == p.iif
    ensures var db := EntitlementRuns.After(EntitlementRuns.INITIAL, es);
            var rules := Firewall.RulesetOf(c, wan, portalPort, controlPort);
            var through := Sync(c, g, ApiList.ActiveSessions(db, details, listedAt), now, order).firewall;
            var mayPass := MayPass(c, db, details, listedAt, g, startedAt, p.sourceMac);
            (Firewall.Evaluate(rules.forward, p, through) == Firewall.Accept <==> p.oif == wan && mayPass)
            && (Firewall.Evaluate(rules.prerouting, p, through)
                == Firewall.Dnat(Ip(c.a, c.b, c.networks[i].subnetId, 1), portalPort)
                <==> p.protocol == Firewall.Tcp && p.dport == 80 && !mayPass)
  {
    hide *;
    var db := EntitlementRuns.After(EntitlementRuns.INITIAL, es);
    var through := Sync(c, g, ApiList.ActiveSessions(db, details, listedAt), now, order).firewall;
    FirewallAfterSync(es, details, listedAt, c, g, startedAt, now, order, p.sourceMac);
    Firewall.ForwardIsTheWalledGarden(c, wan, portalPort, controlPort, p, through);
    Firewall.PortalCatchesTheUnauthorized(c, wan, portalPort, controlPort, p, through, i);
    ComesFrom(c.networks, p, i);
  }

  lemma ComesFrom(networks: seq<Network>, p: Firewall.Packet, i: nat)
    requires i < |networks| && networks[i].vlanInterface == p.iif
    ensures Firewall.FromSegment(networks, p)
  {
  }
}
