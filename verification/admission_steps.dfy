/** What each command of the gateway does, field by field. */
module AdmissionSteps {
  import opened Options
  import opened Networks
  import opened ClassIds
  import opened Admission
  import opened Sets
  import AdmissionRuns

  // ---- Admission ----

  /** Registered on this router, at these speeds, until about this time. */
  predicate IsServedAlready(g: Box, mac: Mac, router: string, req: Request) {
    mac in g.registry && g.registry[mac].router == router
    && g.registry[mac].downKbps == req.downKbps && g.registry[mac].upKbps == req.upKbps
    && -300_000 < g.registry[mac].expiresAt - req.expiresAt < 300_000
  }

  /** The device's entry once placed: it keeps its age and reading only where it stays on its router. */
  function EntryAfter(g: Box, router: string, req: Request, now: int): Entry {
    if req.mac in g.registry && g.registry[req.mac].router == router
    then g.registry[req.mac].(expiresAt := req.expiresAt, downKbps := req.downKbps, upKbps := req.upKbps)
    else Entry(router, req.expiresAt, req.downKbps, req.upKbps, now, ZERO)
  }

  /**
   * An admission without a segment, or of a device that is served already, changes nothing.
   * Any other opens the firewall first. A placed device is registered with what was asked
   * and has a class on its router; its old class goes when the router changes, and stays
   * with its counters when it does not. Out of IDs, only the firewall has changed.
   */
  lemma AdmitDoes(c: Config, g: Box, req: Request, force: bool, now: int)
    requires AdmissionRuns.Inv(g)
    ensures var (g', r) := Admit(c, g, req, force, now);
            var found, mac := FindRouter(c, req.routerId, req.ip), req.mac;
            if found == None then r == NotPlaceable && g' == g
            else
              var router := found.value.routerId;
              if IsServedAlready(g, mac, router, req) && !force then r == Placed && g' == g
              else
                AllowedIn(g, g', mac) && (r == OutOfIds ==> OnlyAllowed(g, g'))
                && (r != OutOfIds ==> r == Placed && IsPlaced(g, g', router, req, now))
  {
    hide FindRouter, AdmissionRuns.Inv, Admit, IsPlaced, AllowedIn, OnlyAllowed;
    if AdmissionRuns.Acts(c, g, req, force) {
      if req.mac !in g.registry {
        NewIsPlaced(c, g, req, force, now);
      } else if g.registry[req.mac].router == FindRouter(c, req.routerId, req.ip).value.routerId {
        AgainIsPlaced(c, g, req, force, now);
      } else {
        MovedIsPlaced(c, g, req, force, now);
      }
    } else {
      IdleAdmission(c, g, req, force, now);
    }
  }

  lemma IdleAdmission(c: Config, g: Box, req: Request, force: bool, now: int)
    requires !AdmissionRuns.Acts(c, g, req, force)
    ensures Admit(c, g, req, force, now)
            == (g, if FindRouter(c, req.routerId, req.ip) == None then NotPlaceable else Placed)
  {
    hide FindRouter;
  }

  /** The device's key, before and after. */
  function KeyOf(g: Box, mac: Mac): (string, nat)
    requires mac in g.registry && mac in g.ids.minorByMac
  {
    (g.registry[mac].router, g.ids.minorByMac[mac])
  }

  /** The device is registered and has a class; no other device is touched. */
  ghost predicate IsPlaced(g: Box, g': Box, router: string, req: Request, now: int) {
    var mac := req.mac;
    var stays := mac in g.registry && g.registry[mac].router == router;
    g'.registry == g.registry[mac := EntryAfter(g, router, req, now)]
    && mac in g'.ids.minorByMac
    && g'.ids.minorByMac == g.ids.minorByMac[mac := g'.ids.minorByMac[mac]]
    && (if stays then g'.classes == g.classes && g'.ids == g.ids
        else g'.classes == (if mac in g.registry && mac in g.ids.minorByMac then g.classes - {KeyOf(g, mac)}
                            else g.classes)[KeyOf(g', mac) := ZERO])
    && g'.dropped == if mac in g.registry && !stays
                     then g.dropped[mac := Plus(Of(g.dropped, mac), Unreported(g, mac))] else g.dropped
  }

  lemma SameKey(g: Box, mac: Mac)
    requires AdmissionRuns.Inv(g) && mac in g.registry
    ensures mac in g.ids.minorByMac && Unreported(Allow(g, mac), mac) == Unreported(g, mac)
  {
    AdmissionRuns.FirewallIsNotMetered(g, Allow(g, mac));
  }

  function Allow(g: Box, mac: Mac): Box { AdmissionRuns.Allowed(g, mac) }

  lemma NewIsPlaced(c: Config, g: Box, req: Request, force: bool, now: int)
    requires AdmissionRuns.Inv(g) && AdmissionRuns.Acts(c, g, req, force) && req.mac !in g.registry
    ensures var (g', r) := Admit(c, g, req, force, now);
            var router := FindRouter(c, req.routerId, req.ip).value.routerId;
            AllowedIn(g, g', req.mac) && (r == OutOfIds ==> OnlyAllowed(g, g'))
            && (r != OutOfIds ==> r == Placed && IsPlaced(g, g', router, req, now))
  {
    AdmissionRuns.AdmitNew(c, g, req, force, now);
    AllocateDoes(g.ids, req.mac);
    var router := FindRouter(c, req.routerId, req.ip).value.routerId;
    if Allocate(g.ids, req.mac).1.Some? { AdmissionRuns.NewClassStartsAtZero(g, req.mac, router); }
    hide FindRouter, Allocate, Admit;
  }

  lemma AllocateDoes(ids: Ids, mac: Mac)
    requires mac !in ids.minorByMac
    ensures var (ids', minor) := Allocate(ids, mac);
            ids'.minorByMac == if minor.Some? then ids.minorByMac[mac := minor.value] else ids.minorByMac
  {
  }

  /** What every admission that acts does. */
  ghost predicate AllowedIn(g: Box, g': Box, mac: Mac) {
    g'.firewall == g.firewall + {mac} && g'.writes == g.writes + 1
    && g'.counted == g.counted && g'.reported == g.reported
  }

  /** And nothing else. */
  ghost predicate OnlyAllowed(g: Box, g': Box) {
    g'.registry == g.registry && g'.classes == g.classes && g'.dropped == g.dropped
    && g'.ids.minorByMac == g.ids.minorByMac
  }

  lemma AgainIsPlaced(c: Config, g: Box, req: Request, force: bool, now: int)
    requires AdmissionRuns.Inv(g) && AdmissionRuns.Acts(c, g, req, force) && req.mac in g.registry
    requires g.registry[req.mac].router == FindRouter(c, req.routerId, req.ip).value.routerId
    ensures var (g', r) := Admit(c, g, req, force, now);
            AllowedIn(g, g', req.mac) && r == Placed
            && IsPlaced(g, g', FindRouter(c, req.routerId, req.ip).value.routerId, req, now)
  {
    AdmissionRuns.AdmitAgain(c, g, req, force, now);
    SameKey(g, req.mac);
    hide FindRouter, Admit, AdmissionRuns.Inv;
  }

  lemma MovedIsPlaced(c: Config, g: Box, req: Request, force: bool, now: int)
    requires AdmissionRuns.Inv(g) && AdmissionRuns.Acts(c, g, req, force) && req.mac in g.registry
    requires g.registry[req.mac].router != FindRouter(c, req.routerId, req.ip).value.routerId
    ensures var (g', r) := Admit(c, g, req, force, now);
            AllowedIn(g, g', req.mac) && r == Placed
            && IsPlaced(g, g', FindRouter(c, req.routerId, req.ip).value.routerId, req, now)
  {
    hide FindRouter, Admit, AdmissionRuns.Inv, Allocate, RemoveShaping, Matches;
    var router, mac := FindRouter(c, req.routerId, req.ip).value.routerId, req.mac;
    AdmissionRuns.AdmitMoved(c, g, req, force, now);
    BareIs(g, mac);
    NoClassThere(g, mac, router);
  }

  /** Its class deleted, a device gets its own ID again. */
  lemma BareIs(g: Box, mac: Mac)
    requires AdmissionRuns.Inv(g) && mac in g.registry
    ensures mac in g.ids.minorByMac
    ensures var bare := RemoveShaping(Allow(g, mac), g.registry[mac].router, mac);
            var (ids, minor) := Allocate(bare.ids, mac);
            minor == Some(g.ids.minorByMac[mac]) && ids.minorByMac == g.ids.minorByMac
            && bare == Allow(g, mac).(ids := bare.ids, classes := g.classes - {KeyOf(g, mac)},
                                      dropped := g.dropped[mac := Plus(Of(g.dropped, mac), Unreported(g, mac))])
  {
    SameKey(g, mac);
    FreedIsNextGiven(g.ids, mac, mac);
    hide AdmissionRuns.Inv, Allocate;
    assert (g.ids.minorByMac - {mac})[mac := g.ids.minorByMac[mac]] == g.ids.minorByMac;
  }

  /** Its ID has no class on any other router. */
  lemma NoClassThere(g: Box, mac: Mac, router: string)
    requires AdmissionRuns.Inv(g) && mac in g.registry && router != g.registry[mac].router
    ensures mac in g.ids.minorByMac && (router, g.ids.minorByMac[mac]) !in g.classes
  {
    var key := (router, g.ids.minorByMac[mac]);
    assert !AdmissionRuns.IsOwned(g, key);
  }

  // ---- Revocation and metering ----

  /** A revocation takes the device out of the firewall and, when registered, out of everything else. */
  lemma RevokeDoes(g: Box, mac: Mac)
    requires AdmissionRuns.Inv(g)
    ensures var g' := Revoke(g, mac);
            g'.firewall == g.firewall - {mac} && g'.writes == g.writes + 1
            && g'.registry == g.registry - {mac} && g'.ids.minorByMac == g.ids.minorByMac - {mac}
            && g'.counted == g.counted && g'.reported == g.reported
            && (mac !in g.registry ==> g'.classes == g.classes && g'.ids == g.ids && g'.dropped == g.dropped)
            && (mac in g.registry ==>
                  mac in g.ids.minorByMac && g'.classes == g.classes - {KeyOf(g, mac)}
                  && g'.dropped == g.dropped[mac := Plus(Of(g.dropped, mac), Unreported(g, mac))])
  {
    if mac in g.registry {
      var closed := g.(firewall := g.firewall - {mac}, writes := g.writes + 1);
      AdmissionRuns.FirewallIsNotMetered(g, closed);
    }
  }

  /** Both counters are reported from where they were read last, and are read now. */
  lemma ReportDoes(g: Box, mac: Mac)
    requires AdmissionRuns.Inv(g) && mac in g.registry
    ensures mac in g.ids.minorByMac && KeyOf(g, mac) in g.classes
    ensures var counter, e := g.classes[KeyOf(g, mac)], g.registry[mac];
            var b := Of(g.reported, mac);
            counter.down >= e.last.down && counter.up >= e.last.up
            && Report(g, mac)
               == g.(registry := g.registry[mac := e.(last := counter)],
                     reported := g.reported[mac := Bytes(b.down + (counter.down - e.last.down),
                                                         b.up + (counter.up - e.last.up))])
  {
    assert AdmissionRuns.Metered(g, mac);
  }

  /** What a registered device moves is counted, and is all of it in its next report. */
  lemma TrafficDoes(g: Box, mac: Mac, b: Bytes)
    requires AdmissionRuns.Inv(g) && mac in g.registry
    ensures var g' := Traffic(g, mac, b);
            Of(g'.counted, mac) == Plus(Of(g.counted, mac), b)
            && Unreported(g', mac) == Plus(Unreported(g, mac), b)
            && Of(Report(g', mac).reported, mac) == Plus(Of(g.reported, mac), Plus(Unreported(g, mac), b))
            && Unreported(Report(g', mac), mac) == ZERO
  {
    assert AdmissionRuns.Metered(g, mac);
  }

  /** An expiry sweep removes exactly the devices whose time is up. */
  lemma ExpiryDoes(g: Box, now: int, order: seq<Mac>)
    requires AdmissionRuns.Inv(g) && IsListing(order, Overdue(g, now))
    ensures var g' := RevokeAll(g, order);
            g'.registry == (map mac | mac in g.registry && g.registry[mac].expiresAt > now :: g.registry[mac])
            && (forall mac ::
                  mac in g'.firewall
                  <==> mac in g.firewall && (mac in g.registry ==> g.registry[mac].expiresAt > now))
  {
    AdmissionRuns.RevokeAllRemoves(g, order);
    forall mac: Mac
      ensures mac in order <==> mac in g.registry && g.registry[mac].expiresAt <= now
    {
      if mac in g.registry && g.registry[mac].expiresAt <= now { assert mac in Overdue(g, now); }
      if mac in order { assert mac in Overdue(g, now); }
    }
    hide RevokeAll, AdmissionRuns.Inv, Overdue;
  }

  // ---- The sync ----

  /** The listed requests that can be placed and whose device the firewall did not let through. */
  ghost function LetBackIn(c: Config, g: Box, sessions: seq<Request>): set<nat> {
    set i: nat | i < |sessions| && FindRouter(c, sessions[i].routerId, sessions[i].ip).Some?
                 && sessions[i].mac !in g.firewall
  }

  lemma LetBackInOneMore(c: Config, g: Box, sessions: seq<Request>)
    requires sessions != []
    ensures var before, req := sessions[..|sessions| - 1], sessions[|sessions| - 1];
            |LetBackIn(c, g, sessions)|
            == |LetBackIn(c, g, before)|
               + if FindRouter(c, req.routerId, req.ip).Some? && req.mac !in g.firewall then 1 else 0
  {
    hide FindRouter;
    var n := |sessions| - 1;
    var before, req := sessions[..n], sessions[n];
    if FindRouter(c, req.routerId, req.ip).Some? && req.mac !in g.firewall {
      assert LetBackIn(c, g, sessions) == LetBackIn(c, g, before) + {n};
    } else {
      assert LetBackIn(c, g, sessions) == LetBackIn(c, g, before);
    }
  }

  /** With room for everyone, a sync counts as restored exactly these requests. */
  lemma {:induction false} RestoredCounts(c: Config, g: Box, sessions: seq<Request>, now: int)
    requires AdmissionRuns.Inv(g) && |g.registry.Keys + Entitled(sessions)| <= CAPACITY
    ensures Restored(c, g, sessions, g.firewall, now) == |LetBackIn(c, g, sessions)|
    decreases |sessions|
  {
    hide AdmissionRuns.Inv, Admit, FindRouter, LetBackIn, Entitled, AdmissionRuns.Admitted;
    if sessions == [] {
      NobodyLetBackIn(c, g);
    } else {
      var before, req := sessions[..|sessions| - 1], sessions[|sessions| - 1];
      AdmissionRuns.EntitledGrows(sessions);
      SubsetIsSmaller(g.registry.Keys + Entitled(before), g.registry.Keys + Entitled(sessions));
      RestoredCounts(c, g, before, now);
      LetBackInOneMore(c, g, sessions);
      AdmissionRuns.AdmitAllServes(c, g, before, now);
      var g1 := AdmitAll(c, g, before, g.firewall, now);
      AdmissionRuns.AdmittedBounds(c, g, g1, before);
      AdmissionRuns.RoomMeansPlaced(c, g1, req, req.mac !in g.firewall, now, g.registry.Keys + Entitled(sessions));
    }
  }

  lemma NobodyLetBackIn(c: Config, g: Box)
    ensures LetBackIn(c, g, []) == {}
  {
  }
}
