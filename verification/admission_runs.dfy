/** What the gateway keeps over every run, and what a sync achieves. */
module AdmissionRuns {
  import opened Options
  import opened Networks
  import opened ClassIds
  import opened Sets
  import opened Admission

  // ---- Metering ----

  ghost predicate Owns(g: Box, mac: Mac, key: (string, nat)) {
    mac in g.registry && ClassOf(g, mac) == Some(key)
  }

  ghost predicate IsOwned(g: Box, key: (string, nat)) {
    exists mac :: Owns(g, mac, key)
  }

  /** A registered MAC has a counter, which never runs behind what was last read. */
  ghost predicate Metered(g: Box, mac: Mac) {
    CounterOf(g, mac).Some?
    && g.registry[mac].last.down <= CounterOf(g, mac).value.down
    && g.registry[mac].last.up <= CounterOf(g, mac).value.up
  }

  /** Registered MACs are exactly those with a class ID, and the classes are exactly theirs. */
  ghost predicate Shaped(g: Box) {
    NoTwoShare(g.ids)
    && g.registry.Keys == g.ids.minorByMac.Keys
    && (forall mac :: mac in g.registry ==> Metered(g, mac))
    && (forall key :: key in g.classes ==> IsOwned(g, key))
  }

  /** Every byte a MAC's classes counted was reported once, is waiting to be, or was lost with its class. */
  ghost predicate Conserved(g: Box, mac: Mac) {
    Of(g.counted, mac).down == Of(g.reported, mac).down + Unreported(g, mac).down + Of(g.dropped, mac).down
    && Of(g.counted, mac).up == Of(g.reported, mac).up + Unreported(g, mac).up + Of(g.dropped, mac).up
  }

  ghost predicate Inv(g: Box) {
    Sound(g.ids) && Shaped(g) && forall mac: Mac :: Conserved(g, mac)
  }

  /** Nothing that concerns this MAC's meter changed. */
  ghost predicate SameMeter(g: Box, g': Box, mac: Mac) {
    (mac in g'.registry <==> mac in g.registry)
    && ClassOf(g', mac) == ClassOf(g, mac) && CounterOf(g', mac) == CounterOf(g, mac)
    && (mac in g.registry ==> g'.registry[mac].last == g.registry[mac].last)
    && Of(g'.counted, mac) == Of(g.counted, mac)
    && Of(g'.reported, mac) == Of(g.reported, mac)
    && Of(g'.dropped, mac) == Of(g.dropped, mac)
  }

  lemma SameMeterConserves(g: Box, g': Box, mac: Mac)
    requires SameMeter(g, g', mac)
    ensures Conserved(g, mac) ==> Conserved(g', mac)
    ensures mac in g.registry && Metered(g, mac) ==> Metered(g', mac)
  {
  }

  /** When one MAC's meter changes and all others stay, it is enough to look at that one. */
  lemma OneMeterChanged(g: Box, g': Box, mac: Mac)
    requires Inv(g) && Sound(g'.ids) && g'.registry.Keys == g'.ids.minorByMac.Keys
    requires forall m :: m != mac ==> SameMeter(g, g', m)
    requires Conserved(g', mac) && (mac in g'.registry ==> Metered(g', mac))
    requires forall key :: key in g'.classes ==> Owns(g', mac, key) || (key in g.classes && !Owns(g, mac, key))
    ensures Inv(g')
  {
    forall m: Mac
      ensures Conserved(g', m)
      ensures m in g'.registry ==> Metered(g', m)
    {
      if m != mac {
        assert SameMeter(g, g', m);
        assert Conserved(g, m);
        SameMeterConserves(g, g', m);
      }
    }
    forall key | key in g'.classes
      ensures IsOwned(g', key)
    {
      if !Owns(g', mac, key) {
        assert IsOwned(g, key);
        var m :| Owns(g, m, key);
        assert SameMeter(g, g', m);
        assert Owns(g', m, key);
      }
    }
  }

  lemma ClassesAreDistinct(g: Box, a: Mac, b: Mac)
    requires Shaped(g) && a in g.registry && b in g.registry && a != b
    ensures g.ids.minorByMac[a] != g.ids.minorByMac[b]
  {
  }

  lemma CreditAdds(ledger: map<Mac, Bytes>, mac: Mac, b: Bytes, m: Mac)
    ensures var after := Of(Credit(ledger, mac, b), m);
            if m == mac then after.down == Of(ledger, m).down + b.down && after.up == Of(ledger, m).up + b.up
            else after == Of(ledger, m)
  {
  }

  /** Deleting a class moves what it had not reported into the ledger of lost bytes. */
  lemma RemoveShapingKeeps(g: Box, mac: Mac)
    requires Inv(g) && mac in g.registry
    ensures Inv(RemoveShaping(g, g.registry[mac].router, mac).(registry := g.registry - {mac}))
  {
    var g' := RemoveShaping(g, g.registry[mac].router, mac).(registry := g.registry - {mac});
    RemoveStaysSound(g.ids, mac);
    forall m | m != mac ensures SameMeter(g, g', m) { RemovalSparesOthers(g, mac, m); }
    RemovalConserves(g, mac);
    OneMeterChanged(g, g', mac);
  }

  lemma RemovalConserves(g: Box, mac: Mac)
    requires Conserved(g, mac) && mac in g.registry && mac in g.ids.minorByMac
    ensures Conserved(RemoveShaping(g, g.registry[mac].router, mac).(registry := g.registry - {mac}), mac)
  {
    var g' := RemoveShaping(g, g.registry[mac].router, mac).(registry := g.registry - {mac});
    CreditAdds(g.dropped, mac, Unreported(g, mac), mac);
    assert Unreported(g', mac) == ZERO;
  }

  lemma RemovalSparesOthers(g: Box, mac: Mac, m: Mac)
    requires Shaped(g) && mac in g.registry && m != mac
    ensures SameMeter(g, RemoveShaping(g, g.registry[mac].router, mac).(registry := g.registry - {mac}), m)
  {
    CreditAdds(g.dropped, mac, Unreported(g, mac), m);
    if m in g.registry { ClassesAreDistinct(g, m, mac); }
  }

  lemma RevokeKeeps(g: Box, mac: Mac)
    requires Inv(g)
    ensures Inv(Revoke(g, mac))
  {
    hide Inv, RemoveShaping;
    var closed := g.(firewall := g.firewall - {mac}, writes := g.writes + 1);
    FirewallIsNotMetered(g, closed);
    if mac in g.registry { RemoveShapingKeeps(closed, mac); }
  }

  /** The firewall and the command count do not matter to metering. */
  lemma FirewallIsNotMetered(g: Box, g': Box)
    requires Inv(g) && g' == g.(firewall := g'.firewall, writes := g'.writes)
    ensures Inv(g')
  {
    forall m: Mac ensures SameMeter(g, g', m) { }
    var mac: Mac := "";
    assert Conserved(g, mac);
    SameMeterConserves(g, g', mac);
    OneMeterChanged(g, g', mac);
  }

  lemma OwnedIsLive(g: Box, key: (string, nat))
    requires Shaped(g) && key in g.classes
    ensures IsLive(g.ids, key.1)
  {
    assert IsOwned(g, key);
  }

  /** A new class starts at zero, even under an ID that once belonged to another MAC. */
  lemma NewClassStartsAtZero(g: Box, mac: Mac, router: string)
    requires Sound(g.ids) && Shaped(g) && mac !in g.registry && Allocate(g.ids, mac).1.Some?
    ensures (router, Allocate(g.ids, mac).1.value) !in g.classes
  {
    var minor := Allocate(g.ids, mac).1.value;
    assert !IsLive(g.ids, minor) by {
      if g.ids.free != [] { assert minor in g.ids.free; }
    }
    if (router, minor) in g.classes { OwnedIsLive(g, (router, minor)); }
  }

  lemma AddClassKeeps(g: Box, mac: Mac, e: Entry)
    requires Inv(g) && mac !in g.registry && Allocate(g.ids, mac).1.Some? && e.last == ZERO
    ensures var (ids, minor) := Allocate(g.ids, mac);
            Inv(g.(ids := ids, classes := ReplaceClass(g.classes, (e.router, minor.value)),
                   registry := g.registry[mac := e]))
  {
    var (ids, minor) := Allocate(g.ids, mac);
    var g' := g.(ids := ids, classes := ReplaceClass(g.classes, (e.router, minor.value)),
                 registry := g.registry[mac := e]);
    AllocateStaysSound(g.ids, mac);
    NewClassStartsAtZero(g, mac, e.router);
    assert Conserved(g, mac);
    assert CounterOf(g', mac) == Some(ZERO);
    forall m | m != mac
      ensures SameMeter(g, g', m)
    {
      if m in g.registry { assert Metered(g, m); }
    }
    OneMeterChanged(g, g', mac);
  }

  /** Rewriting an entry on the same router keeps its class and its counters. */
  lemma RefreshKeeps(g: Box, mac: Mac, e: Entry)
    requires Inv(g) && mac in g.registry && e.router == g.registry[mac].router && e.last == g.registry[mac].last
    ensures Inv(g.(registry := g.registry[mac := e]))
  {
    var g' := g.(registry := g.registry[mac := e]);
    forall m: Mac ensures SameMeter(g, g', m) { }
    assert Conserved(g, mac) && Metered(g, mac);
    SameMeterConserves(g, g', mac);
    OneMeterChanged(g, g', mac);
  }

  lemma FailedAllocationKeeps(g: Box, mac: Mac)
    requires Inv(g) && Allocate(g.ids, mac).1 == None
    ensures Inv(g.(ids := Allocate(g.ids, mac).0))
  {
    var g' := g.(ids := Allocate(g.ids, mac).0);
    AllocateStaysSound(g.ids, mac);
    assert g'.ids.minorByMac == g.ids.minorByMac;
    forall m: Mac ensures SameMeter(g, g', m) { }
    assert Conserved(g, mac);
    assert mac in g.registry ==> Metered(g, mac);
    SameMeterConserves(g, g', mac);
    OneMeterChanged(g, g', mac);
  }

  /** A device that changes routers frees an ID before it needs one. */
  lemma MovedHasAnId(g: Box, mac: Mac)
    requires Inv(g) && mac in g.registry
    ensures Allocate(Remove(g.ids, mac), mac).1.Some?
    ensures RemoveShaping(g, g.registry[mac].router, mac).ids == Remove(g.ids, mac)
            && mac !in Remove(g.ids, mac).minorByMac
  {
    assert IsLive(g.ids, g.ids.minorByMac[mac]);
  }

  /** A device moves to another router: its class is deleted there and made anew here. */
  lemma MoveKeeps(g: Box, mac: Mac, e: Entry)
    requires Inv(g) && mac in g.registry && e.last == ZERO
    ensures var bare := RemoveShaping(g, g.registry[mac].router, mac);
            var (ids, minor) := Allocate(bare.ids, mac);
            minor.Some?
            && Inv(bare.(ids := ids, classes := ReplaceClass(bare.classes, (e.router, minor.value)),
                         registry := g.registry[mac := e]))
  {
    hide Inv, RemoveShaping, Allocate, Remove, ReplaceClass;
    MovedHasAnId(g, mac);
    RemoveShapingKeeps(g, mac);
    var bare := RemoveShaping(g, g.registry[mac].router, mac).(registry := g.registry - {mac});
    AddClassKeeps(bare, mac, e);
    assert bare.registry[mac := e] == g.registry[mac := e];
  }

  /** The firewall is opened before anything else is set up. */
  function Allowed(g: Box, mac: Mac): Box { g.(firewall := g.firewall + {mac}, writes := g.writes + 1) }

  /** An admission that has something to do. */
  predicate Acts(c: Config, g: Box, req: Request, force: bool) {
    var found := FindRouter(c, req.routerId, req.ip);
    found.Some?
    && !(req.mac in g.registry && Admission.Matches(g.registry[req.mac], found.value.routerId, req) && !force)
  }

  lemma AdmitNew(c: Config, g: Box, req: Request, force: bool, now: int)
    requires Inv(g) && Acts(c, g, req, force) && req.mac !in g.registry
    ensures var router := FindRouter(c, req.routerId, req.ip).value.routerId;
            var e := Entry(router, req.expiresAt, req.downKbps, req.upKbps, now, ZERO);
            var (ids, minor) := Allocate(g.ids, req.mac);
            Admit(c, g, req, force, now)
            == if minor == None then (Allowed(g, req.mac).(ids := ids), OutOfIds)
               else (Allowed(g, req.mac).(ids := ids, classes := ReplaceClass(g.classes, (e.router, minor.value)),
                                          registry := g.registry[req.mac := e]), Placed)
  {
    hide FindRouter, Allocate, ReplaceClass, RemoveShaping;
  }

  lemma AdmitAgain(c: Config, g: Box, req: Request, force: bool, now: int)
    requires Inv(g) && Acts(c, g, req, force) && req.mac in g.registry
    requires g.registry[req.mac].router == FindRouter(c, req.routerId, req.ip).value.routerId
    ensures var was := g.registry[req.mac];
            Admit(c, g, req, force, now)
            == (Allowed(g, req.mac).(registry := g.registry[req.mac :=
                  Entry(was.router, req.expiresAt, req.downKbps, req.upKbps, was.admittedAt, was.last)]), Placed)
  {
    hide FindRouter, RemoveShaping;
    assert Metered(g, req.mac);
  }

  lemma AdmitMoved(c: Config, g: Box, req: Request, force: bool, now: int)
    requires Inv(g) && Acts(c, g, req, force) && req.mac in g.registry
    requires g.registry[req.mac].router != FindRouter(c, req.routerId, req.ip).value.routerId
    ensures var router := FindRouter(c, req.routerId, req.ip).value.routerId;
            var e := Entry(router, req.expiresAt, req.downKbps, req.upKbps, now, ZERO);
            var bare := RemoveShaping(Allowed(g, req.mac), g.registry[req.mac].router, req.mac);
            var (ids, minor) := Allocate(bare.ids, req.mac);
            minor.Some?
            && Admit(c, g, req, force, now)
               == (bare.(ids := ids, classes := ReplaceClass(bare.classes, (e.router, minor.value)),
                         registry := g.registry[req.mac := e]), Placed)
  {
    hide Inv, FindRouter, Allocate, Remove, RemoveShaping, ReplaceClass, Admission.Matches;
    FirewallIsNotMetered(g, Allowed(g, req.mac));
    MovedHasAnId(Allowed(g, req.mac), req.mac);
  }

  lemma AdmitKeeps(c: Config, g: Box, req: Request, force: bool, now: int)
    requires Inv(g)
    ensures Inv(Admit(c, g, req, force, now).0)
  {
    if Acts(c, g, req, force) {
      hide Inv, Admit, FindRouter, RemoveShaping, Allocate, ReplaceClass, Acts;
      var router, mac := FindRouter(c, req.routerId, req.ip).value.routerId, req.mac;
      var e := Entry(router, req.expiresAt, req.downKbps, req.upKbps, now, ZERO);
      var allowed := Allowed(g, mac);
      FirewallIsNotMetered(g, allowed);
      if mac !in g.registry {
        AdmitNew(c, g, req, force, now);
        if Allocate(g.ids, mac).1.Some? {
          AddClassKeeps(allowed, mac, e);
        } else {
          FailedAllocationKeeps(allowed, mac);
        }
      } else if g.registry[mac].router == router {
        AdmitAgain(c, g, req, force, now);
        var was := g.registry[mac];
        RefreshKeeps(allowed, mac, Entry(router, req.expiresAt, req.downKbps, req.upKbps, was.admittedAt, was.last));
      } else {
        AdmitMoved(c, g, req, force, now);
        MoveKeeps(allowed, mac, e);
      }
    }
  }

  lemma ReportKeeps(g: Box, mac: Mac)
    requires Inv(g)
    ensures Inv(Report(g, mac))
  {
    if mac in g.registry {
      assert Metered(g, mac);
      ReportSettles(g, mac);
      forall m | m != mac ensures SameMeter(g, Report(g, mac), m) { ReportSparesOthers(g, mac, m); }
      ReportFrame(g, mac);
      SettledKeeps(g, Report(g, mac), mac);
    }
  }

  lemma ReportFrame(g: Box, mac: Mac)
    requires CounterOf(g, mac).Some?
    ensures var g' := Report(g, mac);
            g'.ids == g.ids && g'.registry.Keys == g.registry.Keys && g'.classes == g.classes
            && ClassOf(g', mac) == ClassOf(g, mac)
  {
  }

  lemma SettledKeeps(g: Box, g': Box, mac: Mac)
    requires Inv(g) && mac in g.registry && Metered(g', mac) && forall m :: m != mac ==> SameMeter(g, g', m)
    requires g'.ids == g.ids && g'.registry.Keys == g.registry.Keys && g'.classes == g.classes
             && ClassOf(g', mac) == ClassOf(g, mac)
    requires Unreported(g', mac) == ZERO && g'.counted == g.counted && g'.dropped == g.dropped
    requires Of(g'.reported, mac).down == Of(g.reported, mac).down + Unreported(g, mac).down
    requires Of(g'.reported, mac).up == Of(g.reported, mac).up + Unreported(g, mac).up
    ensures Inv(g')
  {
    assert Conserved(g, mac);
    SettlingConserves(g, g', mac);
    assert forall key :: Owns(g', mac, key) <==> Owns(g, mac, key);
    OneMeterChanged(g, g', mac);
  }

  /** A report carries exactly what was unreported, and leaves nothing unreported. */
  lemma ReportSettles(g: Box, mac: Mac)
    requires CounterOf(g, mac).Some?
    ensures var g' := Report(g, mac);
            Unreported(g', mac) == ZERO && Metered(g', mac)
            && Of(g'.reported, mac).down == Of(g.reported, mac).down + Unreported(g, mac).down
            && Of(g'.reported, mac).up == Of(g.reported, mac).up + Unreported(g, mac).up
            && g'.counted == g.counted && g'.dropped == g.dropped
  {
  }

  lemma ReportSparesOthers(g: Box, mac: Mac, m: Mac)
    requires CounterOf(g, mac).Some? && m != mac
    ensures SameMeter(g, Report(g, mac), m)
  {
    CreditAdds(g.reported, mac, Unreported(g, mac), m);
  }

  lemma SettlingConserves(g: Box, g': Box, mac: Mac)
    requires Conserved(g, mac) && Unreported(g', mac) == ZERO && g'.counted == g.counted && g'.dropped == g.dropped
    requires Of(g'.reported, mac).down == Of(g.reported, mac).down + Unreported(g, mac).down
    requires Of(g'.reported, mac).up == Of(g.reported, mac).up + Unreported(g, mac).up
    ensures Conserved(g', mac)
  {
  }

  lemma TrafficSparesOthers(g: Box, mac: Mac, b: Bytes, m: Mac)
    requires Shaped(g) && m != mac
    ensures SameMeter(g, Traffic(g, mac, b), m)
  {
    if m in g.registry && mac in g.registry { ClassesAreDistinct(g, m, mac); }
  }

  lemma TrafficKeeps(g: Box, mac: Mac, b: Bytes)
    requires Inv(g)
    ensures Inv(Traffic(g, mac, b))
  {
    var g' := Traffic(g, mac, b);
    forall m | m != mac ensures SameMeter(g, g', m) { TrafficSparesOthers(g, mac, b, m); }
    assert Conserved(g, mac);
    assert ClassOf(g', mac) == ClassOf(g, mac);
    assert mac in g.registry ==> Metered(g, mac);
    OneMeterChanged(g, g', mac);
  }

  lemma RebuiltKeeps(g: Box, ids: Ids)
    requires Inv(g) && Sound(ids) && ids.minorByMac == map[]
    ensures Inv(Rebuilt(g, ids))
  {
    var g' := Rebuilt(g, ids);
    assert Shaped(g');
    forall m: Mac
      ensures Conserved(g', m)
    {
      assert Conserved(g, m);
    }
  }

  // ---- Runs ----

  datatype Event =
    | Admitting(req: Request, force: bool, now: int)
    | Revoking(mac: Mac)
    | Metering(mac: Mac)
    | Flowing(mac: Mac, bytes: Bytes)
    | TimingOut(mac: Mac)            // the kernel drops a firewall element whose time is up
    | Restarting(order: seq<Mac>)    // bootstrapped again in the same process
    | Rebooting

  ghost predicate Enabled(g: Box, e: Event) {
    e.Restarting? ==> IsListing(e.order, g.ids.minorByMac.Keys)
  }

  ghost function Next(c: Config, g: Box, e: Event): Box
    requires Enabled(g, e)
  {
    match e
    case Admitting(req, force, now) => Admit(c, g, req, force, now).0
    case Revoking(mac) => Revoke(g, mac)
    case Metering(mac) => Report(g, mac)
    case Flowing(mac, bytes) => Traffic(g, mac, bytes)
    case TimingOut(mac) => g.(firewall := g.firewall - {mac})
    case Restarting(order) => Bootstrap(g, order)
    case Rebooting => Reboot(g)
  }

  ghost predicate IsRun(c: Config, g: Box, es: seq<Event>)
    decreases |es|
  {
    es == [] || (Enabled(g, es[0]) && IsRun(c, Next(c, g, es[0]), es[1..]))
  }

  ghost function After(c: Config, g: Box, es: seq<Event>): Box
    requires IsRun(c, g, es)
    decreases |es|
  {
    if es == [] then g else After(c, Next(c, g, es[0]), es[1..])
  }

  lemma StepKeepsInv(c: Config, g: Box, e: Event)
    requires Inv(g) && Enabled(g, e)
    ensures Inv(Next(c, g, e))
  {
    match e
    case Admitting(req, force, now) => AdmitKeeps(c, g, req, force, now);
    case Revoking(mac) => RevokeKeeps(g, mac);
    case Metering(mac) => ReportKeeps(g, mac);
    case Flowing(mac, bytes) => TrafficKeeps(g, mac, bytes);
    case TimingOut(mac) => FirewallIsNotMetered(g, Next(c, g, e));
    case Restarting(order) =>
      RebuildStaysSound(g.ids, order);
      RebuiltKeeps(g, Rebuild(g.ids, order));
    case Rebooting => RebuiltKeeps(g, NO_IDS);
  }

  lemma {:induction false} RunKeepsInv(c: Config, g: Box, es: seq<Event>)
    requires Inv(g) && IsRun(c, g, es)
    ensures Inv(After(c, g, es))
    decreases |es|
  {
    if es != [] {
      StepKeepsInv(c, g, es[0]);
      RunKeepsInv(c, Next(c, g, es[0]), es[1..]);
    }
  }

  /**
   * In any run of admissions, speed and router changes, revocations, reports, traffic and
   * restarts, each byte is billed at most once, and the ones never billed are accounted for.
   */
  lemma BytesAreConserved(c: Config, es: seq<Event>, mac: Mac)
    requires IsRun(c, EMPTY, es)
    ensures var g := After(c, EMPTY, es);
            Conserved(g, mac)
            && Of(g.reported, mac).down <= Of(g.counted, mac).down
            && Of(g.reported, mac).up <= Of(g.counted, mac).up
  {
    RunKeepsInv(c, EMPTY, es);
    assert Conserved(After(c, EMPTY, es), mac);
  }

  // ---- The firewall and the registry ----

  /** Every device the firewall lets through is registered. */
  ghost predicate Backed(g: Box) { g.firewall <= g.registry.Keys }

  lemma BackedAdmissionExactlyWhen(c: Config, g: Box, req: Request, force: bool, now: int)
    requires Inv(g) && Backed(g)
    ensures Backed(Admit(c, g, req, force, now).0) <==> Admit(c, g, req, force, now).1 != OutOfIds
  {
    if Admit(c, g, req, force, now).1 == OutOfIds {
      if req.mac in g.registry { MovedHasAnId(g, req.mac); }
      assert req.mac in Admit(c, g, req, force, now).0.firewall;
    }
    hide Inv;
  }

  /**
   * The firewall stays within the registry at every step except one: an admission that
   * finds no class ID left has already opened the firewall, and leaves it open.
   */
  lemma BackedSurvivesExactlyWhen(c: Config, g: Box, e: Event)
    requires Inv(g) && Backed(g) && Enabled(g, e)
    ensures Backed(Next(c, g, e)) <==> !(e.Admitting? && Admit(c, g, e.req, e.force, e.now).1 == OutOfIds)
  {
    if e.Admitting? {
      BackedAdmissionExactlyWhen(c, g, e.req, e.force, e.now);
    } else {
      hide Inv, Admit;
    }
  }

  /** An admission runs out of IDs exactly for a new, placeable MAC while every ID is live. */
  lemma OutOfIdsExactlyWhen(c: Config, g: Box, req: Request, force: bool, now: int)
    requires Inv(g)
    ensures Admit(c, g, req, force, now).1 == OutOfIds <==>
              FindRouter(c, req.routerId, req.ip).Some? && req.mac !in g.registry && AllLive(g.ids)
  {
    FailsExactlyWhenFull(g.ids, req.mac);
    if req.mac in g.registry { MovedHasAnId(g, req.mac); }
  }

  lemma {:induction false} AfterOneMore(c: Config, g: Box, es: seq<Event>, e: Event)
    requires IsRun(c, g, es) && Enabled(After(c, g, es), e)
    ensures IsRun(c, g, es + [e]) && After(c, g, es + [e]) == Next(c, After(c, g, es), e)
    decreases |es|
  {
    hide Next, Enabled;
    if es == [] {
      assert [e][1..] == [];
    } else {
      AfterOneMore(c, Next(c, g, es[0]), es[1..], e);
      assert (es + [e])[1..] == es[1..] + [e];
    }
  }

  function HexDigit(d: nat): char
    requires d < 16
  {
    if d < 10 then ('0' as int + d) as char else ('A' as int + d - 10) as char
  }

  predicate IsHex(c: char) { '0' <= c <= '9' || 'A' <= c <= 'F' || 'a' <= c <= 'f' }

  /** Six pairs of hex digits with colons between them. */
  predicate IsMacAddress(mac: Mac) {
    |mac| == 17 && forall i :: 0 <= i < 17 ==> if i % 3 == 2 then mac[i] == ':' else IsHex(mac[i])
  }

  /** The i-th MAC address of a range of 65,536. */
  function GuestMac(i: nat): (mac: Mac)
    requires i < 65_536
    ensures IsMacAddress(mac)
  {
    "02:4E:00:00:" + [HexDigit(i / 16 / 16 / 16), HexDigit(i / 16 / 16 % 16)] + ":"
    + [HexDigit(i / 16 % 16), HexDigit(i % 16)]
  }

  lemma HexDigitsDiffer(a: nat, b: nat)
    requires a < 16 && b < 16 && HexDigit(a) == HexDigit(b)
    ensures a == b
  {
  }

  lemma SameDigits(i: nat, j: nat)
    requires i % 16 == j % 16 && i / 16 == j / 16
    ensures i == j
  {
  }

  lemma GuestMacsDiffer(i: nat, j: nat)
    requires i < 65_536 && j < 65_536 && GuestMac(i) == GuestMac(j)
    ensures i == j
  {
    var a, b := GuestMac(i), GuestMac(j);
    assert a[12] == HexDigit(i / 16 / 16 / 16) && a[13] == HexDigit(i / 16 / 16 % 16);
    assert a[15] == HexDigit(i / 16 % 16) && a[16] == HexDigit(i % 16);
    assert b[12] == HexDigit(j / 16 / 16 / 16) && b[13] == HexDigit(j / 16 / 16 % 16);
    assert b[15] == HexDigit(j / 16 % 16) && b[16] == HexDigit(j % 16);
    hide GuestMac, HexDigit;
    HexDigitsDiffer(i / 16 / 16 / 16, j / 16 / 16 / 16);
    HexDigitsDiffer(i / 16 / 16 % 16, j / 16 / 16 % 16);
    HexDigitsDiffer(i / 16 % 16, j / 16 % 16);
    HexDigitsDiffer(i % 16, j % 16);
    SameDigits(i / 16 / 16, j / 16 / 16);
    SameDigits(i / 16, j / 16);
    SameDigits(i, j);
  }

  /** The i-th of a crowd of devices, all on the first segment. */
  function Guest(c: Config, i: nat): Request
    requires c.networks != [] && i < 65_536
  {
    Request(GuestMac(i), Some(c.networks[0].routerId), None, 1, 1, 0)
  }

  function Crowd(c: Config, n: nat): seq<Event>
    requires c.networks != [] && n <= 65_536
  {
    if n == 0 then [] else Crowd(c, n - 1) + [Admitting(Guest(c, n - 1), false, 0)]
  }

  lemma AdmitNewcomer(c: Config, g: Box, i: nat)
    requires c.networks != [] && i < 65_536 && Inv(g) && Backed(g) && GuestMac(i) !in g.registry
             && |g.registry| < CAPACITY
    ensures var g' := Admit(c, g, Guest(c, i), false, 0).0;
            Backed(g') && g'.registry.Keys == g.registry.Keys + {GuestMac(i)} && |g'.registry| == |g.registry| + 1
  {
    hide GuestMac;
    var req := Guest(c, i);
    OutOfIdsExactlyWhen(c, g, req, false, 0);
    if AllLive(g.ids) { FullMeansCapacity(g.ids); }
    AdmitNew(c, g, req, false, 0);
    BackedSurvivesExactlyWhen(c, g, Admitting(req, false, 0));
    hide Inv, Admit, Allocate, FindRouter, AllLive;
    var g' := Admit(c, g, req, false, 0).0;
    assert g'.registry.Keys == g.registry.Keys + {req.mac};
  }

  /** Every registered MAC is one of the first n guests'. */
  ghost predicate OnlyGuests(g: Box, n: nat)
    requires n <= 65_536
  {
    forall mac :: mac in g.registry ==> exists i: nat :: i < n && mac == GuestMac(i)
  }

  lemma NewcomerIsNew(g: Box, n: nat)
    requires n < 65_536 && OnlyGuests(g, n)
    ensures GuestMac(n) !in g.registry
  {
    if GuestMac(n) in g.registry {
      var i: nat :| i < n && GuestMac(n) == GuestMac(i);
      GuestMacsDiffer(n, i);
    }
  }

  ghost predicate Filled(c: Config, n: nat)
    requires c.networks != [] && n <= CAPACITY
  {
    IsRun(c, EMPTY, Crowd(c, n))
    && var g := After(c, EMPTY, Crowd(c, n));
       Inv(g) && Backed(g) && |g.registry| == n && OnlyGuests(g, n)
  }

  lemma NobodyFills(c: Config)
    requires c.networks != []
    ensures Filled(c, 0)
  {
  }

  lemma NextFills(c: Config, g: Box, n: nat)
    requires c.networks != [] && n < CAPACITY && Inv(g) && Backed(g) && |g.registry| == n && OnlyGuests(g, n)
    ensures var e := Admitting(Guest(c, n), false, 0);
            Inv(Next(c, g, e)) && Backed(Next(c, g, e))
            && |Next(c, g, e).registry| == n + 1 && OnlyGuests(Next(c, g, e), n + 1)
  {
    hide GuestMac, Inv, Backed, Admit;
    NewcomerIsNew(g, n);
    AdmitNewcomer(c, g, n);
    StepKeepsInv(c, g, Admitting(Guest(c, n), false, 0));
  }

  lemma CrowdNext(c: Config, n: nat)
    requires c.networks != [] && n < 65_536
    ensures Crowd(c, n + 1) == Crowd(c, n) + [Admitting(Guest(c, n), false, 0)]
  {
  }

  lemma FilledNext(c: Config, n: nat)
    requires c.networks != [] && n < CAPACITY && Filled(c, n)
    ensures Filled(c, n + 1)
  {
    hide Crowd, Guest, GuestMac, Inv, Backed, Next, After, IsRun, OnlyGuests;
    var g, e := After(c, EMPTY, Crowd(c, n)), Admitting(Guest(c, n), false, 0);
    NextFills(c, g, n);
    AfterOneMore(c, EMPTY, Crowd(c, n), e);
    CrowdNext(c, n);
  }

  lemma {:induction false} CrowdFills(c: Config, n: nat)
    requires c.networks != [] && n <= CAPACITY
    ensures Filled(c, n)
  {
    hide Filled;
    if n == 0 {
      NobodyFills(c);
    } else {
      CrowdFills(c, n - 1);
      FilledNext(c, n - 1);
    }
  }

  /**
   * One device more than there are IDs is let through without being registered, on any configuration
   * with a segment.
   */
  lemma FirewallCanOutgrowRegistry(c: Config)
    requires c.networks != []
    ensures IsRun(c, EMPTY, Crowd(c, CAPACITY + 1)) && !Backed(After(c, EMPTY, Crowd(c, CAPACITY + 1)))
  {
    hide GuestMac;
    CrowdFills(c, CAPACITY);
    CrowdNext(c, CAPACITY);
    hide Crowd, Guest, Admit, After, IsRun;
    var g, e := After(c, EMPTY, Crowd(c, CAPACITY)), Admitting(Guest(c, CAPACITY), false, 0);
    NewcomerIsNew(g, CAPACITY);
    AfterOneMore(c, EMPTY, Crowd(c, CAPACITY), e);
    assert |g.ids.minorByMac.Keys| == |g.registry.Keys| == CAPACITY;
    CapacityMeansFull(g.ids);
    OutOfIdsExactlyWhen(c, g, e.req, e.force, e.now);
    BackedSurvivesExactlyWhen(c, g, e);
  }

  lemma FullLeavesNoRoom(ids: Ids, mac: Mac, everyone: set<Mac>)
    requires Sound(ids) && AllLive(ids) && mac !in ids.minorByMac && ids.minorByMac.Keys + {mac} <= everyone
    ensures |everyone| > CAPACITY
  {
    FullMeansCapacity(ids);
    assert everyone == (ids.minorByMac.Keys + {mac}) + (everyone - (ids.minorByMac.Keys + {mac}));
  }

  /** So with room for everyone there is always an ID. */
  lemma RoomMeansPlaced(c: Config, g: Box, req: Request, force: bool, now: int, everyone: set<Mac>)
    requires Inv(g) && g.registry.Keys + {req.mac} <= everyone && |everyone| <= CAPACITY
    ensures Admit(c, g, req, force, now).1 == if FindRouter(c, req.routerId, req.ip).Some? then Placed else NotPlaceable
  {
    OutOfIdsExactlyWhen(c, g, req, force, now);
    if AllLive(g.ids) && req.mac !in g.registry { FullLeavesNoRoom(g.ids, req.mac, everyone); }
  }

  // ---- Convergence of a sync ----

  predicate Placeable(c: Config, req: Request) { FindRouter(c, req.routerId, req.ip).Some? }

  /** The device is let through and registered as the request asks. */
  ghost predicate Serves(c: Config, g: Box, req: Request) {
    Placeable(c, req) && req.mac in g.firewall && req.mac in g.registry
    && Admission.Matches(g.registry[req.mac], FindRouter(c, req.routerId, req.ip).value.routerId, req)
  }

  /** No later request in the list concerns the same MAC and can be placed. */
  ghost predicate IsLast(c: Config, sessions: seq<Request>, i: nat)
    requires i < |sessions|
  {
    Placeable(c, sessions[i])
    && forall j :: i < j < |sessions| && sessions[j].mac == sessions[i].mac ==> !Placeable(c, sessions[j])
  }

  lemma AdmitOnlyAdds(c: Config, g: Box, req: Request, force: bool, now: int, mac: Mac)
    ensures var g' := Admit(c, g, req, force, now).0;
            g.firewall <= g'.firewall
            && g.registry.Keys <= g'.registry.Keys <= g.registry.Keys + {req.mac}
            && (mac in g.registry && mac != req.mac ==> g'.registry[mac] == g.registry[mac])
  {
  }

  /** The state a list of admissions leaves: nothing lost, everyone listed last served. */
  ghost predicate Admitted(c: Config, g: Box, g': Box, sessions: seq<Request>) {
    g.firewall <= g'.firewall
    && g.registry.Keys <= g'.registry.Keys <= g.registry.Keys + Entitled(sessions)
    && (forall mac :: mac in g.registry && mac !in Entitled(sessions) ==> g'.registry[mac] == g.registry[mac])
    && (forall i :: 0 <= i < |sessions| && IsLast(c, sessions, i) ==> Serves(c, g', sessions[i]))
    && (Backed(g) ==> Backed(g'))
  }

  lemma AdmitServes(c: Config, g: Box, req: Request, inFirewall: set<Mac>, now: int, everyone: set<Mac>)
    requires Inv(g) && g.registry.Keys + {req.mac} <= everyone && |everyone| <= CAPACITY
    requires inFirewall <= g.firewall
    ensures var g' := Admit(c, g, req, req.mac !in inFirewall, now).0;
            (Placeable(c, req) ==> Serves(c, g', req)) && (!Placeable(c, req) ==> g' == g)
            && (Backed(g) ==> Backed(g'))
  {
    RoomMeansPlaced(c, g, req, req.mac !in inFirewall, now, everyone);
  }

  /** One admission out of a list, with room for everyone in it. */
  ghost predicate OneAdmitted(c: Config, g: Box, g': Box, req: Request) {
    g.firewall <= g'.firewall
    && g.registry.Keys <= g'.registry.Keys <= g.registry.Keys + {req.mac}
    && (forall mac :: mac in g.registry && mac != req.mac ==> g'.registry[mac] == g.registry[mac])
    && (if Placeable(c, req) then Serves(c, g', req) else g' == g)
    && (Backed(g) ==> Backed(g'))
  }

  lemma AdmitOne(c: Config, g: Box, req: Request, inFirewall: set<Mac>, now: int, everyone: set<Mac>)
    requires Inv(g) && g.registry.Keys + {req.mac} <= everyone && |everyone| <= CAPACITY && inFirewall <= g.firewall
    ensures var g' := Admit(c, g, req, req.mac !in inFirewall, now).0;
            OneAdmitted(c, g, g', req)
  {
    var g' := Admit(c, g, req, req.mac !in inFirewall, now).0;
    AdmitServes(c, g, req, inFirewall, now, everyone);
    forall mac: Mac
      ensures mac in g.registry && mac != req.mac ==> g'.registry[mac] == g.registry[mac]
    {
      AdmitOnlyAdds(c, g, req, req.mac !in inFirewall, now, mac);
    }
    AdmitOnlyAdds(c, g, req, req.mac !in inFirewall, now, req.mac);
  }

  /** One more request in the list. */
  lemma AdmitOneMore(c: Config, g: Box, g1: Box, g2: Box, sessions: seq<Request>)
    requires sessions != [] && Admitted(c, g, g1, sessions[..|sessions| - 1])
    requires OneAdmitted(c, g1, g2, sessions[|sessions| - 1])
    ensures Admitted(c, g, g2, sessions)
  {
    var n := |sessions| - 1;
    var before, req := sessions[..n], sessions[n];
    assert Entitled(sessions) == Entitled(before) + {req.mac};
    forall i | 0 <= i < |sessions| && IsLast(c, sessions, i)
      ensures Serves(c, g2, sessions[i])
    {
      if i < n {
        LastBefore(c, sessions, i);
        assert before[i] == sessions[i];
        assert Serves(c, g1, sessions[i]);
      }
    }
  }

  lemma LastBefore(c: Config, sessions: seq<Request>, i: nat)
    requires i < |sessions| - 1 && IsLast(c, sessions, i)
    ensures IsLast(c, sessions[..|sessions| - 1], i)
  {
    var before := sessions[..|sessions| - 1];
    forall j | i < j < |before| && before[j].mac == before[i].mac
      ensures !Placeable(c, before[j])
    {
      assert before[j] == sessions[j];
    }
  }

  lemma NobodyAdmitted(c: Config, g: Box)
    ensures Admitted(c, g, g, [])
  {
    assert Entitled([]) == {};
  }

  lemma AdmittedBounds(c: Config, g: Box, g': Box, sessions: seq<Request>)
    requires Admitted(c, g, g', sessions)
    ensures g.firewall <= g'.firewall && g'.registry.Keys <= g.registry.Keys + Entitled(sessions)
  {
  }

  lemma EntitledGrows(sessions: seq<Request>)
    requires sessions != []
    ensures Entitled(sessions) == Entitled(sessions[..|sessions| - 1]) + {sessions[|sessions| - 1].mac}
  {
  }

  lemma AdmitAllStep(c: Config, g: Box, g1: Box, sessions: seq<Request>, now: int)
    requires sessions != [] && Inv(g1) && Admitted(c, g, g1, sessions[..|sessions| - 1])
    requires |g.registry.Keys + Entitled(sessions)| <= CAPACITY
    ensures var req := sessions[|sessions| - 1];
            var g2 := Admit(c, g1, req, req.mac !in g.firewall, now).0;
            Inv(g2) && Admitted(c, g, g2, sessions)
  {
    hide *;
    var before, req := sessions[..|sessions| - 1], sessions[|sessions| - 1];
    EntitledGrows(sessions);
    AdmittedBounds(c, g, g1, before);
    AdmitKeeps(c, g1, req, req.mac !in g.firewall, now);
    AdmitOne(c, g1, req, g.firewall, now, g.registry.Keys + Entitled(sessions));
    AdmitOneMore(c, g, g1, Admit(c, g1, req, req.mac !in g.firewall, now).0, sessions);
  }

  lemma {:induction false} AdmitAllServes(c: Config, g: Box, sessions: seq<Request>, now: int)
    requires Inv(g) && |g.registry.Keys + Entitled(sessions)| <= CAPACITY
    ensures Inv(AdmitAll(c, g, sessions, g.firewall, now))
    ensures Admitted(c, g, AdmitAll(c, g, sessions, g.firewall, now), sessions)
    decreases |sessions|
  {
    hide Inv, Admit, Admitted, Entitled;
    if sessions == [] {
      NobodyAdmitted(c, g);
    } else {
      var before := sessions[..|sessions| - 1];
      EntitledGrows(sessions);
      SubsetIsSmaller(g.registry.Keys + Entitled(before), g.registry.Keys + Entitled(sessions));
      AdmitAllServes(c, g, before, now);
      AdmitAllStep(c, g, AdmitAll(c, g, before, g.firewall, now), sessions, now);
    }
  }

  lemma {:induction false} RevokeAllRemoves(g: Box, order: seq<Mac>)
    requires Inv(g)
    ensures var g' := RevokeAll(g, order);
            Inv(g')
            && (forall mac :: mac in g'.registry <==> mac in g.registry && mac !in order)
            && (forall mac :: mac in g'.registry ==> g'.registry[mac] == g.registry[mac])
            && (forall mac :: mac in g'.firewall <==> mac in g.firewall && mac !in order)
            && g'.writes == g.writes + |order|
  {
    if order != [] {
      RevokeAllRemoves(g, order[..|order| - 1]);
      RevokeKeeps(RevokeAll(g, order[..|order| - 1]), order[|order| - 1]);
    }
  }

  /**
   * A sync converges: every listed device that can be placed is let through and registered
   * as its last placeable session asks, nobody unlisted remains from before the sync, and
   * the firewall still lets through registered devices only.
   */
  lemma SyncConverges(c: Config, g: Box, sessions: seq<Request>, startedAt: int, now: int, order: seq<Mac>)
    requires Inv(g) && |g.registry.Keys + Entitled(sessions)| <= CAPACITY
    requires IsListing(order, Stale(AdmitAll(c, g, sessions, g.firewall, now), Entitled(sessions), startedAt))
    ensures var g' := Sync(c, g, sessions, now, order);
            Inv(g')
            && (forall i :: 0 <= i < |sessions| && IsLast(c, sessions, i) ==> Serves(c, g', sessions[i]))
            && (forall mac :: mac in g'.registry ==>
                  mac in Entitled(sessions) || g'.registry[mac].admittedAt >= startedAt)
            && (forall mac :: mac in g.registry && g.registry[mac].admittedAt >= startedAt ==> mac in g'.registry)
            && (Backed(g) ==> Backed(g'))
  {
    AdmitAllServes(c, g, sessions, now);
    var g1 := AdmitAll(c, g, sessions, g.firewall, now);
    RevokeAllRemoves(g1, order);
    forall i | 0 <= i < |sessions| && IsLast(c, sessions, i)
      ensures sessions[i].mac !in order
    {
      assert sessions[i].mac in Entitled(sessions);
    }
  }

  ghost predicate DistinctMacs(sessions: seq<Request>) {
    forall i, j :: 0 <= i < j < |sessions| ==> sessions[i].mac != sessions[j].mac
  }

  lemma {:induction false} ServedListIsIdle(c: Config, g: Box, sessions: seq<Request>, now: int)
    requires forall i :: 0 <= i < |sessions| && Placeable(c, sessions[i]) ==> Serves(c, g, sessions[i])
    ensures AdmitAll(c, g, sessions, g.firewall, now) == g
  {
    if sessions != [] {
      ServedListIsIdle(c, g, sessions[..|sessions| - 1], now);
    }
  }

  /**
   * A second sync against the same list of distinct MACs writes nothing at all, exactly
   * when no unlisted device from before it is left.
   */
  lemma SecondSyncIsIdleExactlyWhen(c: Config, g: Box, sessions: seq<Request>, startedAt: int, now: int,
                                    order: seq<Mac>, startedAt2: int, now2: int, order2: seq<Mac>)
    requires Inv(g) && |g.registry.Keys + Entitled(sessions)| <= CAPACITY && DistinctMacs(sessions)
    requires IsListing(order, Stale(AdmitAll(c, g, sessions, g.firewall, now), Entitled(sessions), startedAt))
    requires var g1 := Sync(c, g, sessions, now, order);
             IsListing(order2, Stale(AdmitAll(c, g1, sessions, g1.firewall, now2), Entitled(sessions), startedAt2))
    ensures var g1 := Sync(c, g, sessions, now, order);
            var g2 := Sync(c, g1, sessions, now2, order2);
            (g2.writes == g1.writes <==> Stale(g1, Entitled(sessions), startedAt2) == {})
            && (g2.writes == g1.writes ==> g2 == g1)
            && ((forall mac :: mac in g.registry ==> g.registry[mac].admittedAt < startedAt) ==> g2 == g1)
  {
    SyncConverges(c, g, sessions, startedAt, now, order);
    var g1 := Sync(c, g, sessions, now, order);
    forall i | 0 <= i < |sessions| && Placeable(c, sessions[i])
      ensures Serves(c, g1, sessions[i])
    {
      assert IsLast(c, sessions, i);
    }
    ServedListIsIdle(c, g1, sessions, now2);
    RevokeAllRemoves(g1, order2);
    if order2 != [] { assert order2[0] in Stale(g1, Entitled(sessions), startedAt2); }
    if forall mac :: mac in g.registry ==> g.registry[mac].admittedAt < startedAt {
      NobodyUnlistedIsLeft(c, g, sessions, startedAt, now, order);
    }
  }

  lemma NobodyUnlistedIsLeft(c: Config, g: Box, sessions: seq<Request>, startedAt: int, now: int, order: seq<Mac>)
    requires Inv(g) && |g.registry.Keys + Entitled(sessions)| <= CAPACITY
    requires IsListing(order, Stale(AdmitAll(c, g, sessions, g.firewall, now), Entitled(sessions), startedAt))
    requires forall mac :: mac in g.registry ==> g.registry[mac].admittedAt < startedAt
    ensures Sync(c, g, sessions, now, order).registry.Keys <= Entitled(sessions)
  {
    AdmitAllServes(c, g, sessions, now);
    RevokeAllRemoves(AdmitAll(c, g, sessions, g.firewall, now), order);
  }
}
