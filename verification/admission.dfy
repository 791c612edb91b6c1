/**
 * The gateway's enforcement state: the registry of admitted devices, the firewall set,
 * the shaping classes with their byte counters, and the sync against the API's list.
 *
 * Kernel commands succeed. Segments have their own interfaces, so a class is found by
 * router and ID.
 */
module Admission {
  import opened Options
  import opened Networks
  import opened ClassIds

  const EXPIRY_TOLERANCE_MS := 300_000

  /** A download and an upload count. */
  datatype Bytes = Bytes(down: nat, up: nat)

  const ZERO := Bytes(0, 0)

  datatype Entry = Entry(
    router: string,
    expiresAt: int,
    downKbps: int,
    upKbps: int,
    admittedAt: int,
    last: Bytes)

  datatype Request = Request(mac: Mac, routerId: Option<string>, ip: Option<Ip>, downKbps: int, upKbps: int,
                             expiresAt: int)

  /**
   * `classes` holds the kernel's counters by router and class ID. The last three maps are
   * a ledger of bytes by MAC: counted by any of its classes, reported to the API, and lost
   * because their class was deleted first. `writes` counts commands to the kernel.
   */
  datatype Box = Box(
    registry: map<Mac, Entry>,
    firewall: set<Mac>,
    ids: Ids,
    classes: map<(string, nat), Bytes>,
    counted: map<Mac, Bytes>,
    reported: map<Mac, Bytes>,
    dropped: map<Mac, Bytes>,
    writes: nat)

  const EMPTY := Box(map[], {}, NO_IDS, map[], map[], map[], map[], 0)

  datatype Outcome = Placed | NotPlaceable | OutOfIds

  function Plus(a: Bytes, b: Bytes): Bytes { Bytes(a.down + b.down, a.up + b.up) }

  /** What a counter gained since it was last read; never negative. */
  function Gain(now: Bytes, last: Bytes): Bytes {
    Bytes(if now.down > last.down then now.down - last.down else 0, if now.up > last.up then now.up - last.up else 0)
  }

  function Of(ledger: map<Mac, Bytes>, mac: Mac): Bytes { if mac in ledger then ledger[mac] else ZERO }

  function Credit(ledger: map<Mac, Bytes>, mac: Mac, b: Bytes): map<Mac, Bytes> {
    ledger[mac := Plus(Of(ledger, mac), b)]
  }

  /** The class of a registered MAC, on its router. */
  function ClassOf(g: Box, mac: Mac): Option<(string, nat)> {
    if mac in g.registry && mac in g.ids.minorByMac then Some((g.registry[mac].router, g.ids.minorByMac[mac])) else None
  }

  function CounterOf(g: Box, mac: Mac): Option<Bytes> {
    var class_ := ClassOf(g, mac);
    if class_.Some? && class_.value in g.classes then Some(g.classes[class_.value]) else None
  }

  /** Bytes counted for a MAC that no report has carried yet. */
  function Unreported(g: Box, mac: Mac): Bytes {
    if CounterOf(g, mac).Some? then Gain(CounterOf(g, mac).value, g.registry[mac].last) else ZERO
  }

  // ---- Operations ----

  function RemoveShaping(g: Box, router: string, mac: Mac): Box {
    if mac !in g.ids.minorByMac then g
    else g.(classes := g.classes - {(router, g.ids.minorByMac[mac])},
            ids := Remove(g.ids, mac),
            dropped := Credit(g.dropped, mac, Unreported(g, mac)))
  }

  /** `class replace` keeps the counters of a class that exists. */
  function ReplaceClass(classes: map<(string, nat), Bytes>, key: (string, nat)): map<(string, nat), Bytes> {
    if key in classes then classes else classes[key := ZERO]
  }

  function Abs(x: int): int { if x < 0 then -x else x }

  predicate Matches(e: Entry, router: string, req: Request) {
    e.router == router && e.downKbps == req.downKbps && e.upKbps == req.upKbps
    && Abs(e.expiresAt - req.expiresAt) < EXPIRY_TOLERANCE_MS
  }

  function Admit(c: Config, g: Box, req: Request, force: bool, now: int): (Box, Outcome) {
    var found := FindRouter(c, req.routerId, req.ip);
    if found == None then (g, NotPlaceable)
    else
      var router, mac := found.value.routerId, req.mac;
      var known := mac in g.registry;
      if known && Matches(g.registry[mac], router, req) && !force then (g, Placed)
      else
        var sameRouter := known && g.registry[mac].router == router;
        var allowed := g.(firewall := g.firewall + {mac}, writes := g.writes + 1);
        var moved := if known && !sameRouter then RemoveShaping(allowed, g.registry[mac].router, mac) else allowed;
        var kept := mac in moved.ids.minorByMac;
        var (ids, minor) := Allocate(moved.ids, mac);
        if minor == None then (moved.(ids := ids), OutOfIds)
        else
          (moved.(ids := ids,
                  classes := ReplaceClass(moved.classes, (router, minor.value)),
                  registry := g.registry[mac := Entry(router, req.expiresAt, req.downKbps, req.upKbps,
                                                      if sameRouter then g.registry[mac].admittedAt else now,
                                                      if kept && known then g.registry[mac].last else ZERO)]),
           Placed)
  }

  function Revoke(g: Box, mac: Mac): Box {
    var closed := g.(firewall := g.firewall - {mac}, writes := g.writes + 1);
    if mac !in g.registry then closed
    else
      var unshaped := RemoveShaping(closed, g.registry[mac].router, mac);
      unshaped.(registry := g.registry - {mac})
  }

  /** One device's counters are read and reported. */
  function Report(g: Box, mac: Mac): Box {
    if CounterOf(g, mac) == None then g
    else g.(reported := Credit(g.reported, mac, Unreported(g, mac)),
            registry := g.registry[mac := g.registry[mac].(last := CounterOf(g, mac).value)])
  }

  /** The kernel counts traffic in the class that matches a MAC. */
  function Traffic(g: Box, mac: Mac, b: Bytes): Box {
    if CounterOf(g, mac) == None then g
    else g.(classes := g.classes[ClassOf(g, mac).value := Plus(CounterOf(g, mac).value, b)],
            counted := Credit(g.counted, mac, b))
  }

  /** Networking is rebuilt from scratch: empty firewall set, no classes, empty registry. */
  function Rebuilt(g: Box, ids: Ids): Box {
    Box(map[], {}, ids, map[], g.counted, g.reported,
        map mac | mac in g.dropped.Keys + g.registry.Keys :: Plus(Of(g.dropped, mac), Unreported(g, mac)),
        g.writes + 1)
  }

  /** A bootstrap in a process that has run before frees its class IDs. */
  function Bootstrap(g: Box, order: seq<Mac>): Box
    requires forall i :: 0 <= i < |order| ==> order[i] in g.ids.minorByMac
  {
    Rebuilt(g, Rebuild(g.ids, order))
  }

  /** A new process knows of no class ID at all. */
  function Reboot(g: Box): Box { Rebuilt(g, NO_IDS) }

  function AdmitAll(c: Config, g: Box, sessions: seq<Request>, inFirewall: set<Mac>, now: int): Box {
    if sessions == [] then g
    else
      var req := sessions[|sessions| - 1];
      Admit(c, AdmitAll(c, g, sessions[..|sessions| - 1], inFirewall, now), req, req.mac !in inFirewall, now).0
  }

  /** How many of these admissions let a device back in. */
  function Restored(c: Config, g: Box, sessions: seq<Request>, inFirewall: set<Mac>, now: int): nat {
    if sessions == [] then 0
    else
      var before, req := sessions[..|sessions| - 1], sessions[|sessions| - 1];
      var outcome := Admit(c, AdmitAll(c, g, before, inFirewall, now), req, req.mac !in inFirewall, now).1;
      Restored(c, g, before, inFirewall, now) + if outcome == Placed && req.mac !in inFirewall then 1 else 0
  }

  function RevokeAll(g: Box, order: seq<Mac>): Box {
    if order == [] then g else Revoke(RevokeAll(g, order[..|order| - 1]), order[|order| - 1])
  }

  function Entitled(sessions: seq<Request>): set<Mac> { set i | 0 <= i < |sessions| :: sessions[i].mac }

  /** Registered before this sync began, and not listed. */
  function Stale(g: Box, entitled: set<Mac>, startedAt: int): set<Mac> {
    set mac | mac in g.registry && mac !in entitled && g.registry[mac].admittedAt < startedAt
  }

  function Overdue(g: Box, now: int): set<Mac> {
    set mac | mac in g.registry && g.registry[mac].expiresAt <= now
  }

  /** `order` is the order in which the registry lists the devices that are revoked. */
  function Sync(c: Config, g: Box, sessions: seq<Request>, now: int, order: seq<Mac>): Box {
    RevokeAll(AdmitAll(c, g, sessions, g.firewall, now), order)
  }

  // ---- The agent, statement by statement ----

  class Agent {
    const config: Config
    const tc: Shaping
    var admitted: map<Mac, Entry>
    var firewall: set<Mac>
    var classes: map<(string, nat), Bytes>
    ghost var counted: map<Mac, Bytes>
    ghost var reported: map<Mac, Bytes>
    ghost var dropped: map<Mac, Bytes>
    ghost var writes: nat

    constructor (config: Config)
      ensures this.config == config && fresh(tc) && Data() == EMPTY
    {
      this.config := config;
      tc := new Shaping();
      admitted, firewall, classes := map[], {}, map[];
      counted, reported, dropped, writes := map[], map[], map[], 0;
    }

    ghost function Data(): Box
      reads this, tc
    {
      Box(admitted, firewall, tc.Data(), classes, counted, reported, dropped, writes)
    }

    method RemoveShapingForMac(router: string, mac: Mac)
      modifies this, tc
      ensures Data() == RemoveShaping(old(Data()), router, mac)
    {
      if mac !in tc.minorByMac { return; }
      dropped := Credit(dropped, mac, Unreported(Data(), mac));
      classes := classes - {(router, tc.minorByMac[mac])};
      tc.FreeMinor(mac);
    }

    /** Whether the MAC already had a class; None when no ID is left. */
    method ApplyShapingForMac(router: string, mac: Mac) returns (hadClass: Option<bool>)
      modifies this, tc
      ensures var (ids, minor) := Allocate(old(tc.Data()), mac);
              hadClass == (if minor == None then None else Some(mac in old(tc.minorByMac)))
              && Data() == old(Data()).(ids := ids,
                                        classes := if minor == None then old(classes)
                                                   else ReplaceClass(old(classes), (router, minor.value)))
    {
      var had := mac in tc.minorByMac;
      var minor := tc.AllocateMinor(mac);
      if minor == None { return None; }
      if (router, minor.value) !in classes { classes := classes[(router, minor.value) := ZERO]; }
      return Some(had);
    }

    method AdmitDevice(req: Request, force: bool, now: int) returns (r: Outcome)
      modifies this, tc
      ensures (Data(), r) == Admit(config, old(Data()), req, force, now)
    {
      var found := FindRouter(config, req.routerId, req.ip);
      if found == None { return NotPlaceable; }
      var router, mac := found.value.routerId, req.mac;
      var existing := if mac in admitted then Some(admitted[mac]) else None;
      var sameRouter := existing.Some? && existing.value.router == router;
      var same := existing.Some? && sameRouter && existing.value.downKbps == req.downKbps
        && existing.value.upKbps == req.upKbps
                  && Abs(existing.value.expiresAt - req.expiresAt) < EXPIRY_TOLERANCE_MS;
      if same && !force { return Placed; }
      firewall := firewall + {mac};
      writes := writes + 1;
      if existing.Some? && !sameRouter { RemoveShapingForMac(existing.value.router, mac); }
      var kept := ApplyShapingForMac(router, mac);
      if kept == None { return OutOfIds; }
      admitted := admitted[mac := Entry(router, req.expiresAt, req.downKbps, req.upKbps,
                                        if sameRouter then existing.value.admittedAt else now,
                                        if kept.value && existing.Some? then existing.value.last else ZERO)];
      return Placed;
    }

    method RevokeDevice(mac: Mac)
      modifies this, tc
      ensures Data() == Revoke(old(Data()), mac)
    {
      firewall := firewall - {mac};
      writes := writes + 1;
      if mac in admitted { RemoveShapingForMac(admitted[mac].router, mac); }
      admitted := admitted - {mac};
    }

    /** Revokes every member of a set, in whatever order the registry lists them. */
    method RevokeEach(macs: set<Mac>) returns (ghost order: seq<Mac>)
      modifies this, tc
      ensures IsListing(order, macs) && Data() == RevokeAll(old(Data()), order)
    {
      order := [];
      ghost var was := Data();
      var left := macs;
      while left != {}
        invariant left <= macs && IsListing(order, macs - left)
        invariant Data() == RevokeAll(was, order)
      {
        var mac :| mac in left;
        RevokeDevice(mac);
        assert (order + [mac])[..|order|] == order;
        order := order + [mac];
        left := left - {mac};
      }
    }

    method SyncWithApi(sessions: seq<Request>, startedAt: int, now: int) returns (restored: nat, ghost order: seq<Mac>)
      modifies this, tc
      ensures Data() == Sync(config, old(Data()), sessions, now, order)
      ensures restored == Restored(config, old(Data()), sessions, old(firewall), now)
      ensures var admitted := AdmitAll(config, old(Data()), sessions, old(firewall), now);
              IsListing(order, Stale(admitted, Entitled(sessions), startedAt))
    {
      ghost var was := Data();
      var inFirewall := firewall;
      var entitled: set<Mac> := {};
      restored := 0;
      var i := 0;
      while i < |sessions|
        invariant i <= |sessions|
        invariant Data() == AdmitAll(config, was, sessions[..i], inFirewall, now)
        invariant entitled == Entitled(sessions[..i])
        invariant restored == Restored(config, was, sessions[..i], inFirewall, now)
      {
        var req := sessions[i];
        assert sessions[..i + 1][..i] == sessions[..i];
        assert Entitled(sessions[..i + 1]) == Entitled(sessions[..i]) + {req.mac};
        entitled := entitled + {req.mac};
        var missing := req.mac !in inFirewall;
        var outcome := AdmitDevice(req, missing, now);
        if outcome == Placed && missing { restored := restored + 1; }
        i := i + 1;
      }
      assert sessions[..i] == sessions;
      var stale := set mac | mac in admitted && mac !in entitled && admitted[mac].admittedAt < startedAt;
      order := RevokeEach(stale);
    }

    method SweepExpired(now: int) returns (ghost order: seq<Mac>)
      modifies this, tc
      ensures IsListing(order, Overdue(old(Data()), now)) && Data() == RevokeAll(old(Data()), order)
    {
      var overdue := set mac | mac in admitted && admitted[mac].expiresAt <= now;
      order := RevokeEach(overdue);
    }

    /** Reads one device's counters; what it returns is what is reported. */
    method Meter(mac: Mac) returns (bytes: Bytes)
      requires mac in admitted
      modifies this
      ensures Data() == Report(old(Data()), mac) && bytes == Unreported(old(Data()), mac)
    {
      var entry := admitted[mac];
      if mac !in tc.minorByMac || (entry.router, tc.minorByMac[mac]) !in classes { return ZERO; }
      var counter := classes[(entry.router, tc.minorByMac[mac])];
      bytes := Gain(counter, entry.last);
      reported := Credit(reported, mac, bytes);
      admitted := admitted[mac := entry.(last := counter)];
    }
  }
}
