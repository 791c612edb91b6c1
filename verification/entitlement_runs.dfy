/** What every run of redemptions, logins, reports, sweeps and admin actions keeps. */
module EntitlementRuns {
  import opened Options
  import opened Sets
  import opened Entitlement

  datatype Event =
    | Issue(package: Package, payment: Option<Paid>)
    | RedeemCode(v: nat, mac: string, hostname: Option<string>, now: int, gone: set<string>)
    | LogIn(mac: string, hostname: Option<string>, now: int, gone: set<string>)
    | SuspendVoucher(v: nat, now: int)
    | Block(v: nat, d: nat, now: int)
    | Unblock(v: nat, d: nat, now: int)
    | Report(samples: seq<Sample>, now: int)
    | Sweep(now: int)
    | EditPackage(of: set<nat>, package: Package)   // the vouchers of an edited package

  const INITIAL := Db([], [], [])

  function Next(db: Db, e: Event): Db {
    match e
    case Issue(package, payment) => db.(vouchers := db.vouchers + [Voucher(UNUSED, package, payment, None, None, 0.0)])
    case RedeemCode(v, mac, hostname, now, gone) => Redeem(db, v, mac, hostname, now, gone).0
    case LogIn(mac, hostname, now, gone) => AutoLogin(db, mac, hostname, now, gone).0
    case SuspendVoucher(v, now) => Suspend(db, v, now)
    case Block(v, d, now) => SetBlocked(db, v, d, true, now)
    case Unblock(v, d, now) => SetBlocked(db, v, d, false, now)
    case Report(samples, now) => BillAll(db, samples, now)
    case Sweep(now) => ExpireOverdue(db, now)
    case EditPackage(of, package) =>
      db.(vouchers := seq(|db.vouchers|, v requires 0 <= v < |db.vouchers| =>
            if v in of then db.vouchers[v].(package := package) else db.vouchers[v]))
  }

  function After(db: Db, es: seq<Event>): Db {
    if es == [] then db else Next(After(db, es[..|es| - 1]), es[|es| - 1])
  }

  // ---- Session discipline ----

  /** Rows refer to rows, and a voucher has at most one row per MAC address. */
  ghost predicate WellFormed(db: Db) {
    (forall d :: 0 <= d < |db.devices| ==> db.devices[d].voucher < |db.vouchers|)
    && (forall i :: 0 <= i < |db.sessions| ==>
          db.sessions[i].device < |db.devices| && db.sessions[i].voucher == db.devices[db.sessions[i].device].voucher)
    && (forall c, d ::
          0 <= c < d < |db.devices| && db.devices[c].voucher == db.devices[d].voucher ==>
            db.devices[c].mac != db.devices[d].mac)
  }

  /** At most one open session a device, and only for a device that holds its slot. */
  ghost predicate Disciplined(db: Db) {
    WellFormed(db)
    && (forall i :: 0 <= i < |db.sessions| && IsOpen(db.sessions[i]) ==> HoldsSlot(db.devices[db.sessions[i].device]))
    && (forall i, j :: 0 <= i < j < |db.sessions| && IsOpen(db.sessions[i]) && IsOpen(db.sessions[j]) ==>
          db.sessions[i].device != db.sessions[j].device)
  }

  lemma ReleaseKeeps(db: Db, d: nat, now: int)
    requires Disciplined(db) && d < |db.devices|
    ensures Disciplined(Release(db, d, now))
    ensures Holders(Release(db, d, now), db.devices[d].voucher) == Holders(db, db.devices[d].voucher) - {d}
    ensures forall v: nat :: v != db.devices[d].voucher ==> Holders(Release(db, d, now), v) == Holders(db, v)
  {
  }

  lemma SeenKeeps(db: Db, d: nat, hostname: Option<string>, now: int)
    requires Disciplined(db) && d < |db.devices|
    ensures Disciplined(Seen(db, d, hostname, now))
    ensures forall v: nat :: Holders(Seen(db, d, hostname, now), v) ==
              Holders(db, v) + if db.devices[d].voucher == v && !db.devices[d].isBlocked then {d} else {}
  {
  }

  lemma AddDeviceKeeps(db: Db, v: nat, mac: string, hostname: Option<string>, now: int)
    requires Disciplined(db) && v < |db.vouchers| && FindDevice(db, v, mac) == None
    ensures Disciplined(AddDevice(db, v, mac, hostname, now))
    ensures forall w: nat ::
              Holders(AddDevice(db, v, mac, hostname, now), w) == Holders(db, w) + if w == v then {|db.devices|} else {}
  {
    forall c | 0 <= c < |db.devices| && db.devices[c].voucher == v
      ensures db.devices[c].mac != mac
    {
      assert !IsRow(db, v, mac, c);
    }
  }

  lemma ReopenKeeps(db: Db, d: nat, v: nat, now: int)
    requires Disciplined(db) && d < |db.devices| && db.devices[d].voucher == v && HoldsSlot(db.devices[d])
    ensures Disciplined(Reopen(db, d, v, now))
  {
  }

  lemma SetVoucherKeeps(db: Db, v: nat, voucher: Voucher)
    requires Disciplined(db) && v < |db.vouchers|
    ensures Disciplined(SetVoucher(db, v, voucher))
    ensures forall w: nat :: Holders(SetVoucher(db, v, voucher), w) == Holders(db, w)
  {
  }

  /** `d` holds a slot of `v` now, and no voucher went past its limit for it. */
  ghost predicate BoundTo(db: Db, db': Db, v: nat, d: nat)
    requires v < |db.vouchers|
  {
    Disciplined(db') && db'.vouchers == db.vouchers
    && d < |db'.devices| && db'.devices[d].voucher == v && HoldsSlot(db'.devices[d])
    && |Holders(db', v)| <= Most(db.vouchers[v].package.deviceLimit, |Holders(db, v)|)
    && forall w: nat :: w != v ==> Holders(db', w) == Holders(db, w)
  }

  lemma BindHolder(db: Db, v: nat, d: nat, hostname: Option<string>, now: int)
    requires Disciplined(db) && v < |db.vouchers| && d < |db.devices| && db.devices[d].voucher == v
             && HoldsSlot(db.devices[d])
    ensures BoundTo(db, Seen(db, d, hostname, now), v, d)
  {
    SeenKeeps(db, d, hostname, now);
    assert Holders(db, v) + {d} == Holders(db, v);
  }

  lemma BindReleased(db: Db, v: nat, mac: string, d: nat, hostname: Option<string>, now: int, gone: set<string>)
    requires Disciplined(db) && v < |db.vouchers| && FindDevice(db, v, mac) == Some(d)
    requires db.devices[d].releasedAt.Some? && !db.devices[d].isBlocked
    requires Bind(db, v, mac, hostname, now, gone).Some?
    ensures BoundTo(db, Bind(db, v, mac, hostname, now, gone).value, v, d)
  {
    var room := MakeRoom(db, v, mac, now, gone);
    TakeBack(room, v, d, hostname, now);
  }

  /** A released device takes its slot back, which fills one more slot. */
  lemma TakeBack(db: Db, v: nat, d: nat, hostname: Option<string>, now: int)
    requires Disciplined(db) && d < |db.devices| && db.devices[d].voucher == v && !db.devices[d].isBlocked
             && db.devices[d].releasedAt.Some?
    ensures var db' := Seen(db, d, hostname, now);
            Disciplined(db') && HoldsSlot(db'.devices[d])
            && |Holders(db', v)| == |Holders(db, v)| + 1
            && forall w: nat :: w != v ==> Holders(db', w) == Holders(db, w)
  {
    SeenKeeps(db, d, hostname, now);
  }

  lemma BindNew(db: Db, v: nat, mac: string, hostname: Option<string>, now: int, gone: set<string>)
    requires Disciplined(db) && v < |db.vouchers| && FindDevice(db, v, mac) == None
    requires Bind(db, v, mac, hostname, now, gone).Some?
    ensures BoundTo(db, Bind(db, v, mac, hostname, now, gone).value, v, |db.devices|)
  {
    hide FindDevice, Disciplined, Holders, BoundTo, AddDevice;
    var room := MakeRoom(db, v, mac, now, gone);
    FillRoom(db, room, v, mac, hostname, now);
  }

  /** A new device takes the free slot. */
  lemma FillRoom(db: Db, room: Db, v: nat, mac: string, hostname: Option<string>, now: int)
    requires Disciplined(room) && v < |db.vouchers| && room.vouchers == db.vouchers && FindDevice(room, v, mac) == None
    requires |Holders(room, v)| + 1 <= Most(db.vouchers[v].package.deviceLimit, |Holders(db, v)|)
    requires forall w: nat :: w != v ==> Holders(room, w) == Holders(db, w)
    ensures BoundTo(db, AddDevice(room, v, mac, hostname, now), v, |room.devices|)
  {
    hide FindDevice, Disciplined;
    AddDeviceKeeps(room, v, mac, hostname, now);
  }

  /** Binding a device keeps discipline and never pushes a voucher past its limit. */
  lemma BindKeeps(db: Db, v: nat, mac: string, hostname: Option<string>, now: int, gone: set<string>)
    requires Disciplined(db) && v < |db.vouchers| && Bind(db, v, mac, hostname, now, gone).Some?
    requires FindDevice(db, v, mac).Some? ==> !db.devices[FindDevice(db, v, mac).value].isBlocked
    ensures BoundTo(db, Bind(db, v, mac, hostname, now, gone).value, v,
                    if FindDevice(db, v, mac).Some? then FindDevice(db, v, mac).value else |db.devices|)
  {
    var found := FindDevice(db, v, mac);
    if found == None {
      BindNew(db, v, mac, hostname, now, gone);
    } else if db.devices[found.value].releasedAt == None {
      BindHolder(db, v, found.value, hostname, now);
    } else {
      BindReleased(db, v, mac, found.value, hostname, now, gone);
    }
  }

  /** What the tables look like once a slot is free, and that one slot is then really free. */
  lemma MakeRoom(db: Db, v: nat, mac: string, now: int, gone: set<string>) returns (room: Db)
    requires Disciplined(db) && v < |db.vouchers|
    requires FindDevice(db, v, mac).Some? ==> db.devices[FindDevice(db, v, mac).value].releasedAt.Some?
    requires |OtherHolders(db, v, mac)| >= db.vouchers[v].package.deviceLimit ==> Yielder(db, v, mac, now, gone).Some?
    ensures room == if |OtherHolders(db, v, mac)| >= db.vouchers[v].package.deviceLimit
                    then Release(db, Yielder(db, v, mac, now, gone).value, now) else db
    ensures Disciplined(room) && FindDevice(room, v, mac) == FindDevice(db, v, mac)
    ensures |room.devices| == |db.devices|
    ensures forall c: nat :: c < |db.devices| && !HoldsSlot(db.devices[c]) ==> room.devices[c] == db.devices[c]
    ensures |Holders(room, v)| + 1 <= Most(db.vouchers[v].package.deviceLimit, |Holders(db, v)|)
    ensures forall w: nat :: w != v ==> Holders(room, w) == Holders(db, w)
  {
    OthersAreAll(db, v, mac);
    room := db;
    if |OtherHolders(db, v, mac)| >= db.vouchers[v].package.deviceLimit {
      var y := Yielder(db, v, mac, now, gone).value;
      assert CanGiveUp(db, v, mac, now, gone, y);
      ReleaseKeeps(db, y, now);
      assert y in Holders(db, v);
      room := Release(db, y, now);
      assert forall d: nat :: IsRow(room, v, mac, d) <==> IsRow(db, v, mac, d);
    }
  }

  function Most(a: nat, b: nat): nat { if a >= b then a else b }

  /** While a MAC address holds no slot itself, the other holders are all the holders. */
  lemma OthersAreAll(db: Db, v: nat, mac: string)
    requires WellFormed(db)
    requires FindDevice(db, v, mac).Some? ==> db.devices[FindDevice(db, v, mac).value].releasedAt.Some?
    ensures OtherHolders(db, v, mac) == Holders(db, v)
  {
    forall d | d in Holders(db, v)
      ensures d in OtherHolders(db, v, mac)
    {
      if db.devices[d].mac == mac {
        assert IsRow(db, v, mac, d);
        assert false;
      }
    }
  }

  ghost predicate CapRespected(db: Db, db': Db, v: nat)
    requires v < |db.vouchers|
  {
    |Holders(db', v)| <= Most(db.vouchers[v].package.deviceLimit, |Holders(db, v)|)
  }

  lemma RedeemKeeps(db: Db, v: nat, mac: string, hostname: Option<string>, now: int, gone: set<string>)
    requires Disciplined(db)
    ensures var db' := Redeem(db, v, mac, hostname, now, gone).0;
            Disciplined(db') && |db'.vouchers| == |db.vouchers|
            && forall w: nat :: w < |db.vouchers| ==> CapRespected(db, db', w)
  {
    if v < |db.vouchers| && Redeem(db, v, mac, hostname, now, gone).0 != db {
      BindKeeps(db, v, mac, hostname, now, gone);
      var found := FindDevice(db, v, mac);
      var d := if found.Some? then found.value else |db.devices|;
      var bound := Bind(db, v, mac, hostname, now, gone).value;
      var voucher := db.vouchers[v];
      if voucher.status == UNUSED {
        var active := voucher.(status := ACTIVE, activatedAt := Some(now), expiresAt := Expiry(voucher.package, now));
        SetVoucherKeeps(bound, v, active);
        ReopenKeeps(SetVoucher(bound, v, active), d, v, now);
        SameDevicesSameHolders(bound, Reopen(SetVoucher(bound, v, active), d, v, now));
      } else if voucher.expiresAt.Some? && voucher.expiresAt.value < now {
        SetVoucherKeeps(bound, v, voucher.(status := EXPIRED));
      } else {
        ReopenKeeps(bound, d, v, now);
        SameDevicesSameHolders(bound, Reopen(bound, d, v, now));
      }
    }
  }

  lemma SameDevicesSameHolders(db: Db, db': Db)
    requires db'.devices == db.devices
    ensures forall v: nat :: Holders(db', v) == Holders(db, v)
  {
  }

  lemma EntitledLoginKeeps(db: Db, mac: string, hostname: Option<string>, now: int, d: nat)
    requires Disciplined(db) && EntitledDevice(db, mac, now) == Some(d)
    ensures var withSession := if HasOpenSession(db.sessions, d) then db else OpenSession(db, d, db.devices[d].voucher);
            var db' := Seen(withSession, d, hostname, now);
            Disciplined(db') && forall w: nat :: Holders(db', w) == Holders(db, w)
  {
    var v := db.devices[d].voucher;
    var withSession := if HasOpenSession(db.sessions, d) then db else OpenSession(db, d, v);
    assert Disciplined(withSession);
    SameDevicesSameHolders(db, withSession);
    SeenKeeps(withSession, d, hostname, now);
    assert Holders(db, v) + {d} == Holders(db, v);
  }

  lemma HandOverKeeps(db: Db, left: nat, mac: string, hostname: Option<string>, now: int, gone: set<string>)
    requires Disciplined(db) && left < |db.devices|
    ensures var db' := Redeem(Release(db, left, now), db.devices[left].voucher, mac, hostname, now, gone).0;
            Disciplined(db') && |db'.vouchers| == |db.vouchers|
            && forall w: nat :: w < |db.vouchers| ==> CapRespected(db, db', w)
  {
    var released := Release(db, left, now);
    var db' := Redeem(released, db.devices[left].voucher, mac, hostname, now, gone).0;
    ReleaseKeeps(db, left, now);
    RedeemKeeps(released, db.devices[left].voucher, mac, hostname, now, gone);
    forall w: nat | w < |db.vouchers|
      ensures CapRespected(db, db', w)
    {
      assert CapRespected(released, db', w);
      SubsetIsSmaller(Holders(released, w), Holders(db, w));
    }
  }

  lemma AutoLoginKeeps(db: Db, mac: string, hostname: Option<string>, now: int, gone: set<string>)
    requires Disciplined(db)
    ensures var db' := AutoLogin(db, mac, hostname, now, gone).0;
            Disciplined(db') && |db'.vouchers| == |db.vouchers|
            && forall w: nat :: w < |db.vouchers| ==> CapRespected(db, db', w)
  {
    var entitled := EntitledDevice(db, mac, now);
    if entitled.Some? {
      EntitledLoginKeeps(db, mac, hostname, now, entitled.value);
    } else if PaidVoucher(db, mac).Some? {
      RedeemKeeps(db, PaidVoucher(db, mac).value, mac, hostname, now, gone);
    } else if hostname.Some? && HandOverFrom(db, mac, hostname.value, now, gone).Some? {
      HandOverKeeps(db, HandOverFrom(db, mac, hostname.value, now, gone).value, mac, hostname, now, gone);
    }
  }

  lemma BlockKeeps(db: Db, v: nat, d: nat, blocked: bool, now: int)
    requires Disciplined(db)
    ensures Disciplined(SetBlocked(db, v, d, blocked, now))
    ensures blocked ==> forall w: nat :: Holders(SetBlocked(db, v, d, blocked, now), w) <= Holders(db, w)
  {
  }

  lemma BillKeeps(db: Db, sample: Sample, now: int)
    requires Disciplined(db)
    ensures var db' := Bill(db, sample, now);
            Disciplined(db') && |db'.vouchers| == |db.vouchers| && |db'.devices| == |db.devices|
            && (forall w: nat :: Holders(db', w) == Holders(db, w))
            && (forall w: nat :: w < |db.vouchers| ==> db'.vouchers[w].package == db.vouchers[w].package)
  {
    var db' := Bill(db, sample, now);
    assert forall i :: 0 <= i < |db.sessions| ==> db'.sessions[i].device == db.sessions[i].device
                                                  && db'.sessions[i].voucher == db.sessions[i].voucher
                                                  && IsOpen(db'.sessions[i]) == IsOpen(db.sessions[i]);
    assert forall d ::
             0 <= d < |db.devices| ==>
               db'.devices[d].(lastSeenAt := db.devices[d].lastSeenAt, hostname := db.devices[d].hostname)
               == db.devices[d];
  }

  lemma {:induction false} BillAllKeeps(db: Db, samples: seq<Sample>, now: int)
    requires Disciplined(db)
    ensures var db' := BillAll(db, samples, now);
            Disciplined(db') && |db'.vouchers| == |db.vouchers| && |db'.devices| == |db.devices|
            && (forall w: nat :: Holders(db', w) == Holders(db, w))
            && (forall w: nat :: w < |db.vouchers| ==> db'.vouchers[w].package == db.vouchers[w].package)
  {
    if samples != [] {
      BillAllKeeps(db, samples[..|samples| - 1], now);
      BillKeeps(BillAll(db, samples[..|samples| - 1], now), samples[|samples| - 1], now);
    }
  }

  /** The device cap, step by step: only an unblock raises a voucher's holders above its limit before the step. */
  lemma StepKeepsDisciplineAndCap(db: Db, e: Event)
    requires Disciplined(db)
    ensures Disciplined(Next(db, e)) && |Next(db, e).vouchers| >= |db.vouchers|
    ensures !e.Unblock? ==> forall v: nat :: v < |db.vouchers| ==> CapRespected(db, Next(db, e), v)
  {
    hide Redeem, AutoLogin, BillAll;
    match e
    case Issue(_, _) => SameDevicesSameHolders(db, Next(db, e));
    case RedeemCode(v, mac, hostname, now, gone) => RedeemKeeps(db, v, mac, hostname, now, gone);
    case LogIn(mac, hostname, now, gone) => AutoLoginKeeps(db, mac, hostname, now, gone);
    case SuspendVoucher(_, _) => SameDevicesSameHolders(db, Next(db, e));
    case Block(v, d, now) =>
      BlockKeeps(db, v, d, true, now);
      forall w: nat | w < |db.vouchers| ensures CapRespected(db, Next(db, e), w) {
        SubsetIsSmaller(Holders(Next(db, e), w), Holders(db, w));
      }
    case Unblock(v, d, now) => BlockKeeps(db, v, d, false, now);
    case Report(samples, now) => BillAllKeeps(db, samples, now);
    case Sweep(_) => SameDevicesSameHolders(db, Next(db, e));
    case EditPackage(_, _) => SameDevicesSameHolders(db, Next(db, e));
  }

  lemma {:induction false} DisciplineForever(es: seq<Event>)
    ensures Disciplined(After(INITIAL, es))
  {
    if es != [] {
      DisciplineForever(es[..|es| - 1]);
      StepKeepsDisciplineAndCap(After(INITIAL, es[..|es| - 1]), es[|es| - 1]);
    }
  }

  function OpenOn(db: Db, v: nat): set<nat> {
    set i: nat | i < |db.sessions| && db.sessions[i].voucher == v && IsOpen(db.sessions[i])
  }

  /** Open sessions on a voucher never outnumber the devices that hold its slots, in any run. */
  lemma SessionsWithinSlots(es: seq<Event>, v: nat)
    ensures |OpenOn(After(INITIAL, es), v)| <= |Holders(After(INITIAL, es), v)|
  {
    DisciplineForever(es);
    var db := After(INITIAL, es);
    var devices := set i | i in OpenOn(db, v) :: db.sessions[i].device;
    assert devices <= Holders(db, v);
    SubsetIsSmaller(devices, Holders(db, v));
    DistinctDevices(db, OpenOn(db, v), devices);
  }

  lemma {:induction false} DistinctDevices(db: Db, open: set<nat>, devices: set<nat>)
    requires Disciplined(db) && forall i :: i in open ==> i < |db.sessions| && IsOpen(db.sessions[i])
    requires devices == set i | i in open :: db.sessions[i].device
    ensures |open| == |devices|
  {
    if open != {} {
      var i :| i in open;
      assert devices - {db.sessions[i].device} == set j | j in open - {i} :: db.sessions[j].device;
      DistinctDevices(db, open - {i}, devices - {db.sessions[i].device});
    }
  }

  // ---- The cap over whole runs ----

  ghost predicate WithinCap(db: Db) {
    forall v :: 0 <= v < |db.vouchers| ==> |Holders(db, v)| <= db.vouchers[v].package.deviceLimit
  }

  /** Unblocking gives this device its slot back. */
  predicate TakesSlotBack(db: Db, v: nat, d: nat) {
    d < |db.devices| && db.devices[d].voucher == v && db.devices[d].isBlocked && db.devices[d].releasedAt == None
  }

  /** An unblock on a full voucher, or a package edit that leaves a voucher fewer slots than it has holders. */
  predicate ExceedsCap(db: Db, e: Event) {
    match e
    case Unblock(v, d, _) =>
      TakesSlotBack(db, v, d) && v < |db.vouchers| && |Holders(db, v)| == db.vouchers[v].package.deviceLimit
    case EditPackage(of, package) => exists v :: v in of && v < |db.vouchers| && |Holders(db, v)| > package.deviceLimit
    case _ => false
  }

  lemma LimitUnlessEdited(db: Db, e: Event, v: nat)
    requires Disciplined(db) && v < |db.vouchers| && !e.EditPackage?
    ensures v < |Next(db, e).vouchers| && Next(db, e).vouchers[v].package == db.vouchers[v].package
  {
    StepEvolves(db, e, v);
  }

  lemma OtherStepStaysWithinCap(db: Db, e: Event)
    requires Disciplined(db) && WithinCap(db) && !e.Unblock? && !e.EditPackage?
    ensures WithinCap(Next(db, e))
  {
    hide Next, Disciplined, Holders;
    StepKeepsDisciplineAndCap(db, e);
    var db' := Next(db, e);
    forall v | 0 <= v < |db'.vouchers|
      ensures |Holders(db', v)| <= db'.vouchers[v].package.deviceLimit
    {
      if v < |db.vouchers| {
        LimitUnlessEdited(db, e, v);
        assert CapRespected(db, db', v);
      } else {
        NewVoucherHasNoHolder(db, e, v);
      }
    }
  }

  lemma NewVoucherHasNoHolder(db: Db, e: Event, v: nat)
    requires Disciplined(db) && |db.vouchers| <= v < |Next(db, e).vouchers|
    ensures Holders(Next(db, e), v) == {}
  {
    StepGrowsOnlyByIssue(db, e);
  }

  /** A package edit keeps the cap exactly when it leaves each of its vouchers as many slots as it has holders. */
  lemma EditStaysWithinCapExactlyWhen(db: Db, of: set<nat>, package: Package)
    requires WithinCap(db)
    ensures WithinCap(Next(db, EditPackage(of, package)))
            <==> forall v :: v in of && v < |db.vouchers| ==> |Holders(db, v)| <= package.deviceLimit
  {
    SameDevicesSameHolders(db, Next(db, EditPackage(of, package)));
    hide Holders;
    var db' := Next(db, EditPackage(of, package));
    assert forall v :: 0 <= v < |db.vouchers| && v in of ==> db'.vouchers[v].package == package;
  }

  /** At every step the cap survives exactly when the step is not one of those two. */
  lemma CapSurvivesExactlyWhen(db: Db, e: Event)
    requires Disciplined(db) && WithinCap(db)
    ensures WithinCap(Next(db, e)) <==> !ExceedsCap(db, e)
  {
    hide Disciplined, WithinCap, SetBlocked, Holders;
    match e
    case Unblock(v, d, now) =>
      UnblockStaysWithinCapExactlyWhen(db, v, d, now);
    case EditPackage(of, package) => EditStaysWithinCapExactlyWhen(db, of, package);
    case _ => OtherStepStaysWithinCap(db, e);
  }

  lemma StepGrowsOnlyByIssue(db: Db, e: Event)
    requires Disciplined(db) && |Next(db, e).vouchers| > |db.vouchers|
    ensures e.Issue?
  {
    match e
    case RedeemCode(v, mac, hostname, now, gone) => RedeemKeeps(db, v, mac, hostname, now, gone);
    case LogIn(mac, hostname, now, gone) => AutoLoginKeeps(db, mac, hostname, now, gone);
    case Report(samples, now) => BillAllKeeps(db, samples, now);
    case _ =>
  }

  /** No step of this run exceeds the cap. */
  predicate NeverExceeds(db: Db, es: seq<Event>) {
    es == [] || (NeverExceeds(db, es[..|es| - 1]) && !ExceedsCap(After(db, es[..|es| - 1]), es[|es| - 1]))
  }

  /** At every moment of this run no voucher has more slot holders than its limit. */
  ghost predicate AlwaysWithinCap(db: Db, es: seq<Event>) {
    WithinCap(After(db, es)) && (es != [] ==> AlwaysWithinCap(db, es[..|es| - 1]))
  }

  /** A run stays within the cap at every moment exactly when no unblock and no package edit exceeds it. */
  lemma {:induction false} CapForever(es: seq<Event>)
    ensures AlwaysWithinCap(INITIAL, es) <==> NeverExceeds(INITIAL, es)
  {
    hide Next, WithinCap, ExceedsCap, Disciplined;
    if es == [] {
      NoVoucherYet();
    } else {
      var before := es[..|es| - 1];
      CapForever(before);
      DisciplineForever(before);
      if AlwaysWithinCap(INITIAL, before) { CapSurvivesExactlyWhen(After(INITIAL, before), es[|es| - 1]); }
    }
  }

  lemma NoVoucherYet()
    ensures WithinCap(INITIAL)
  {
  }

  /** Unblocking keeps a voucher within its cap exactly when the device takes no slot back or a slot is free. */
  lemma UnblockStaysWithinCapExactlyWhen(db: Db, v: nat, d: nat, now: int)
    requires Disciplined(db) && WithinCap(db)
    ensures WithinCap(SetBlocked(db, v, d, false, now)) <==> !ExceedsCap(db, Unblock(v, d, now))
  {
    hide SetBlocked, Holders;
    UnblockedHolders(db, v, d, now);
    assert d < |db.devices| ==> db.devices[d].voucher < |db.vouchers|;
  }

  const FIRST_MAC := "AA:BB:CC:00:00:01"
  const SECOND_MAC := "AA:BB:CC:00:00:02"

  function Plan(devices: nat): Package { Package(None, None, devices) }

  /** A voucher in use, by one device or two. */
  function InUse(plan: Package, devices: seq<Device>, sessions: seq<Session>): Db {
    Db([Voucher(ACTIVE, plan, None, Some(0), None, 0.0)], devices, sessions)
  }

  function Holding(mac: string): Device { Device(0, mac, None, false, None, 0) }

  lemma OneDeviceIn(limit: nat)
    requires limit > 0
    ensures Redeem(Db([Voucher(UNUSED, Plan(limit), None, None, None, 0.0)], [], []), 0, FIRST_MAC, None, 0, {}).0
            == InUse(Plan(limit), [Holding(FIRST_MAC)], [Session(0, 0, None, 0, 0)])
  {
    var db := Db([Voucher(UNUSED, Plan(limit), None, None, None, 0.0)], [], []);
    assert OtherHolders(db, 0, FIRST_MAC) == {};
  }

  lemma SecondDeviceIn(db: Db)
    requires |db.vouchers| == 1 && db.vouchers[0].status == ACTIVE && db.vouchers[0].expiresAt == None
    requires |db.devices| == 1 && db.devices[0].mac == FIRST_MAC
    requires |Holders(db, 0)| < db.vouchers[0].package.deviceLimit
    ensures Redeem(db, 0, SECOND_MAC, None, 0, {}).0.devices == db.devices + [Holding(SECOND_MAC)]
    ensures Redeem(db, 0, SECOND_MAC, None, 0, {}).0.vouchers == db.vouchers
  {
    assert FIRST_MAC[16] != SECOND_MAC[16];
    assert FindDevice(db, 0, SECOND_MAC) == None;
    assert OtherHolders(db, 0, SECOND_MAC) == Holders(db, 0);
  }

  /** A run cut after each of its first events. */
  lemma AfterTwo(es: seq<Event>)
    requires |es| >= 2 && es[0].Issue? && es[1] == RedeemCode(0, FIRST_MAC, None, 0, {})
    requires es[0].payment == None && es[0].package == Plan(es[0].package.deviceLimit) && es[0].package.deviceLimit > 0
    ensures After(INITIAL, es[..2]) == InUse(es[0].package, [Holding(FIRST_MAC)], [Session(0, 0, None, 0, 0)])
  {
    assert es[..2][..1] == es[..1] && es[..1][..0] == [];
    assert After(INITIAL, es[..1]) == Db([Voucher(UNUSED, es[0].package, None, None, None, 0.0)], [], []);
    OneDeviceIn(es[0].package.deviceLimit);
  }

  lemma AfterNext(es: seq<Event>, n: nat)
    requires n < |es|
    ensures After(INITIAL, es[..n + 1]) == Next(After(INITIAL, es[..n]), es[n])
  {
    assert es[..n + 1][..n] == es[..n];
  }

  /** A voucher for one device: the first is blocked, a second takes the slot, the first is unblocked. */
  const BLOCK_AND_BACK: seq<Event> :=
    [Issue(Plan(1), None), RedeemCode(0, FIRST_MAC, None, 0, {}), Block(0, 0, 0),
     RedeemCode(0, SECOND_MAC, None, 0, {}), Unblock(0, 0, 0)]

  lemma FirstBlocked(db: Db)
    requires db == InUse(Plan(1), [Holding(FIRST_MAC)], [Session(0, 0, None, 0, 0)])
    ensures var db' := SetBlocked(db, 0, 0, true, 0);
            db'.vouchers == db.vouchers && db'.devices == [Holding(FIRST_MAC).(isBlocked := true)]
            && Holders(db', 0) == {}
  {
  }

  lemma FirstUnblocked(db: Db)
    requires db.devices == [Holding(FIRST_MAC).(isBlocked := true), Holding(SECOND_MAC)]
    ensures SetBlocked(db, 0, 0, false, 0).vouchers == db.vouchers
            && Holders(SetBlocked(db, 0, 0, false, 0), 0) == {0, 1}
  {
  }

  /** So a voucher for one device can end up held by two. */
  lemma UnblockCanExceedCap()
    ensures var db := After(INITIAL, BLOCK_AND_BACK);
            |db.vouchers| == 1 && db.vouchers[0].package.deviceLimit == 1 && Holders(db, 0) == {0, 1}
  {
    hide After, Redeem, SetBlocked, Holders;
    var es := BLOCK_AND_BACK;
    AfterTwo(es);
    AfterNext(es, 2);
    AfterNext(es, 3);
    AfterNext(es, 4);
    assert es[..5] == es;
    FirstBlocked(After(INITIAL, es[..2]));
    SecondDeviceIn(After(INITIAL, es[..3]));
    FirstUnblocked(After(INITIAL, es[..4]));
  }

  /** A voucher for two devices, both connected, whose package is then cut to one. */
  const CUT_TO_ONE: seq<Event> :=
    [Issue(Plan(2), None), RedeemCode(0, FIRST_MAC, None, 0, {}), RedeemCode(0, SECOND_MAC, None, 0, {}),
     EditPackage({0}, Plan(1))]

  lemma BothHold(db: Db)
    requires db.devices == [Holding(FIRST_MAC), Holding(SECOND_MAC)]
    ensures Holders(db, 0) == {0, 1}
  {
  }

  lemma FirstHolds(db: Db)
    requires db.devices == [Holding(FIRST_MAC)]
    ensures Holders(db, 0) == {0}
  {
  }

  lemma EditCanExceedCap()
    ensures var db := After(INITIAL, CUT_TO_ONE);
            |db.vouchers| == 1 && db.vouchers[0].package.deviceLimit == 1 && Holders(db, 0) == {0, 1}
  {
    hide After, Redeem, Holders;
    var es := CUT_TO_ONE;
    AfterTwo(es);
    AfterNext(es, 2);
    AfterNext(es, 3);
    assert es[..4] == es;
    FirstHolds(After(INITIAL, es[..2]));
    SecondDeviceIn(After(INITIAL, es[..2]));
    BothHold(After(INITIAL, es));
  }

  lemma BlockedHoldsNothing(db: Db, v: nat, d: nat)
    requires d < |db.devices| && db.devices[d].isBlocked
    ensures d !in Holders(db, v)
  {
  }

  lemma HoldersAfterUnblock(db: Db, v: nat, d: nat, now: int, w: nat)
    ensures var db' := SetBlocked(db, v, d, false, now);
            db'.vouchers == db.vouchers
            && Holders(db', w) == Holders(db, w) + if w == v && TakesSlotBack(db, v, d) then {d} else {}
  {
    var db' := SetBlocked(db, v, d, false, now);
    forall c: nat
      ensures c in Holders(db', w) <==> c in Holders(db, w) || (w == v && TakesSlotBack(db, v, d) && c == d)
    {
      if c < |db.devices| && c != d { assert db'.devices[c] == db.devices[c]; }
    }
  }

  /** Unblocking gives a slot back to exactly the device that was blocked and not released. */
  lemma UnblockedHolders(db: Db, v: nat, d: nat, now: int)
    ensures var db' := SetBlocked(db, v, d, false, now);
            db'.vouchers == db.vouchers
            && (if TakesSlotBack(db, v, d)
                then |Holders(db', v)| == |Holders(db, v)| + 1
                     && forall w: nat :: w != v ==> Holders(db', w) == Holders(db, w)
                else forall w: nat :: Holders(db', w) == Holders(db, w))
  {
    var db' := SetBlocked(db, v, d, false, now);
    HoldersAfterUnblock(db, v, d, now, v);
    hide Holders, SetBlocked;
    forall w: nat
      ensures Holders(db', w) == Holders(db, w) + if w == v && TakesSlotBack(db, v, d) then {d} else {}
    {
      HoldersAfterUnblock(db, v, d, now, w);
    }
    if TakesSlotBack(db, v, d) { BlockedHoldsNothing(db, v, d); }
  }

  lemma BindTakesOnlyFromYielding(db: Db, v: nat, mac: string, hostname: Option<string>, now: int,
                                  gone: set<string>, d: nat)
    requires Disciplined(db) && v < |db.vouchers| && d < |db.devices| && HoldsSlot(db.devices[d])
    ensures var bound := Bind(db, v, mac, hostname, now, gone);
            bound.Some? ==>
              d < |bound.value.devices|
              && (!HoldsSlot(bound.value.devices[d]) ==> db.devices[d].voucher == v && CanYield(db, d, now, gone))
  {
  }

  /** A redemption only ever takes the slot of a device that was idle for ten minutes or confirmed gone. */
  lemma OnlyIdleOrAbsentLoseTheirSlot(db: Db, v: nat, mac: string, hostname: Option<string>, now: int,
                                      gone: set<string>, d: nat)
    requires Disciplined(db) && d < |db.devices| && HoldsSlot(db.devices[d])
    ensures var db' := Redeem(db, v, mac, hostname, now, gone).0;
            d < |db'.devices|
            && (!HoldsSlot(db'.devices[d]) ==> db.devices[d].voucher == v && CanYield(db, d, now, gone))
  {
    if v < |db.vouchers| { BindTakesOnlyFromYielding(db, v, mac, hostname, now, gone, d); }
    hide Bind, FindDevice, CanYield, Disciplined;
  }

  lemma RedeemKeepsRows(db: Db, v: nat, mac: string, hostname: Option<string>, now: int, gone: set<string>)
    ensures |Redeem(db, v, mac, hostname, now, gone).0.devices| >= |db.devices|
  {
    hide FindDevice, Yielder, OtherHolders;
  }

  lemma OnlyAbsentHandOver(db: Db, mac: string, hostname: Option<string>, now: int, gone: set<string>, d: nat)
    requires Disciplined(db) && d < |db.devices| && HoldsSlot(db.devices[d])
    ensures var db' := AutoLogin(db, mac, hostname, now, gone).0;
            d < |db'.devices| && (!HoldsSlot(db'.devices[d]) ==> CanYield(db, d, now, gone))
  {
    hide Redeem, EntitledDevice, HandOverFrom;
    if EntitledDevice(db, mac, now) == None {
      if PaidVoucher(db, mac).Some? {
        OnlyIdleOrAbsentLoseTheirSlot(db, PaidVoucher(db, mac).value, mac, hostname, now, gone, d);
      } else if hostname.Some? && HandOverFrom(db, mac, hostname.value, now, gone).Some? {
        var left := HandOverFrom(db, mac, hostname.value, now, gone).value;
        ReleaseKeeps(db, left, now);
        RedeemKeepsRows(Release(db, left, now), db.devices[left].voucher, mac, hostname, now, gone);
        if d != left {
          OnlyIdleOrAbsentLoseTheirSlot(Release(db, left, now), db.devices[left].voucher, mac, hostname, now, gone, d);
        }
      }
    }
  }

  // ---- The voucher lifecycle ----

  /** How a voucher may change over any stretch of time. */
  ghost predicate Evolves(a: Voucher, b: Voucher) {
    (a.status == SUSPENDED ==> b.status == SUSPENDED)
    && (a.status in {EXPIRED, DEPLETED} ==> b.status in {a.status, SUSPENDED})
    && (a.status == ACTIVE ==> b.status != UNUSED)
    && (a.activatedAt.Some? ==> b.activatedAt == a.activatedAt && b.expiresAt == a.expiresAt)
    && b.dataUsedMb >= a.dataUsedMb && b.payment == a.payment
  }

  /** A voucher has dates once it was activated, and not before. */
  ghost predicate Dated(v: Voucher) {
    (v.status == UNUSED ==> v.activatedAt == None)
    && (v.status in {ACTIVE, EXPIRED, DEPLETED} ==> v.activatedAt.Some?)
    && (v.activatedAt == None ==> v.expiresAt == None)
  }

  /** One step activates a voucher for its package's duration as it is then, or for good. */
  ghost predicate ActivatesForItsDuration(a: Voucher, b: Voucher) {
    a.activatedAt == None && b.activatedAt.Some? ==>
      a.status == UNUSED && b.expiresAt == Expiry(a.package, b.activatedAt.value)
  }

  ghost predicate AllDated(db: Db) {
    forall v :: 0 <= v < |db.vouchers| ==> Dated(db.vouchers[v])
  }

  lemma RedeemEvolves(db: Db, v: nat, mac: string, hostname: Option<string>, now: int, gone: set<string>, w: nat)
    requires w < |db.vouchers|
    ensures var db' := Redeem(db, v, mac, hostname, now, gone).0;
            w < |db'.vouchers|
            && (AllDated(db) ==> Evolves(db.vouchers[w], db'.vouchers[w]) && Dated(db'.vouchers[w]))
            && ActivatesForItsDuration(db.vouchers[w], db'.vouchers[w])
            && db'.vouchers[w].package == db.vouchers[w].package
  {
    hide Bind, FindDevice;
    if v < |db.vouchers| && Bind(db, v, mac, hostname, now, gone).Some? {
      BindOnlyEnds(db, v, mac, hostname, now, gone);
    }
  }

  lemma {:induction false} BillAllEvolves(db: Db, samples: seq<Sample>, now: int, w: nat)
    requires w < |db.vouchers|
    ensures var db' := BillAll(db, samples, now);
            w < |db'.vouchers| && db'.vouchers[w].dataUsedMb >= db.vouchers[w].dataUsedMb
            && db'.vouchers[w].(dataUsedMb := db.vouchers[w].dataUsedMb) == db.vouchers[w]
  {
    if samples != [] { BillAllEvolves(db, samples[..|samples| - 1], now, w); }
  }

  lemma LogInEvolves(db: Db, e: Event, w: nat)
    requires w < |db.vouchers| && e.LogIn?
    ensures w < |Next(db, e).vouchers|
    ensures AllDated(db) ==> Evolves(db.vouchers[w], Next(db, e).vouchers[w]) && Dated(Next(db, e).vouchers[w])
    ensures ActivatesForItsDuration(db.vouchers[w], Next(db, e).vouchers[w])
    ensures Next(db, e).vouchers[w].package == db.vouchers[w].package
  {
    hide Redeem, PaidVoucher, HandOverFrom, EntitledDevice;
    var paid := PaidVoucher(db, e.mac);
    if paid.Some? { RedeemEvolves(db, paid.value, e.mac, e.hostname, e.now, e.gone, w); }
    if e.hostname.Some? && HandOverFrom(db, e.mac, e.hostname.value, e.now, e.gone).Some? {
      var left := HandOverFrom(db, e.mac, e.hostname.value, e.now, e.gone).value;
      RedeemEvolves(Release(db, left, e.now), db.devices[left].voucher, e.mac, e.hostname, e.now, e.gone, w);
    }
  }

  lemma StepEvolves(db: Db, e: Event, w: nat)
    requires w < |db.vouchers|
    ensures w < |Next(db, e).vouchers|
    ensures AllDated(db) ==> Evolves(db.vouchers[w], Next(db, e).vouchers[w]) && Dated(Next(db, e).vouchers[w])
    ensures ActivatesForItsDuration(db.vouchers[w], Next(db, e).vouchers[w])
    ensures !e.EditPackage? ==> Next(db, e).vouchers[w].package == db.vouchers[w].package
  {
    hide Redeem, PaidVoucher, HandOverFrom, EntitledDevice;
    match e
    case RedeemCode(v, mac, hostname, now, gone) => RedeemEvolves(db, v, mac, hostname, now, gone, w);
    case LogIn(_, _, _, _) => LogInEvolves(db, e, w);
    case Report(samples, now) => BillAllEvolves(db, samples, now, w);
    case _ =>
  }

  lemma {:induction false} DatedForever(es: seq<Event>)
    ensures AllDated(After(INITIAL, es))
  {
    if es != [] {
      var db := After(INITIAL, es[..|es| - 1]);
      var db' := After(INITIAL, es);
      DatedForever(es[..|es| - 1]);
      DisciplineForever(es[..|es| - 1]);
      forall v | 0 <= v < |db'.vouchers|
        ensures Dated(db'.vouchers[v])
      {
        if v < |db.vouchers| {
          StepEvolves(db, es[|es| - 1], v);
        } else {
          StepGrowsOnlyByIssue(db, es[|es| - 1]);
        }
      }
    }
  }

  /** At step n of this run voucher v was unused, with the duration it was then activated for. */
  ghost predicate WasActivatedAt(es: seq<Event>, n: nat, v: nat, dates: Voucher)
    requires n <= |es|
  {
    var db := After(INITIAL, es[..n]);
    v < |db.vouchers| && db.vouchers[v].status == UNUSED && dates.activatedAt.Some?
    && dates.expiresAt == Expiry(db.vouchers[v].package, dates.activatedAt.value)
  }

  /**
   * In every run an activated voucher expires exactly as long after its activation as its
   * package lasted at that moment, or never, whatever was edited since.
   */
  lemma {:induction false} ExpiryForever(es: seq<Event>, v: nat)
    requires v < |After(INITIAL, es).vouchers| && After(INITIAL, es).vouchers[v].activatedAt.Some?
    ensures exists n: nat :: n < |es| && WasActivatedAt(es, n, v, After(INITIAL, es).vouchers[v])
  {
    hide Next;
    NothingIssuedYet();
    var before, e := es[..|es| - 1], es[|es| - 1];
    var db, dates := After(INITIAL, before), After(INITIAL, es).vouchers[v];
    if v >= |db.vouchers| {
      DisciplineForever(before);
      StepGrowsOnlyByIssue(db, e);
      IssuedUndated(db, e, v);
    } else {
      DatedForever(before);
      StepEvolves(db, e, v);
      if db.vouchers[v].activatedAt.Some? {
        ExpiryForever(before, v);
        var n: nat :| n < |before| && WasActivatedAt(before, n, v, db.vouchers[v]);
        assert before[..n] == es[..n];
        assert WasActivatedAt(es, n, v, dates);
      } else {
        assert WasActivatedAt(es, |before|, v, dates);
      }
    }
  }

  lemma NothingIssuedYet()
    ensures After(INITIAL, []) == INITIAL
  {
  }

  lemma IssuedUndated(db: Db, e: Event, v: nat)
    requires e.Issue? && |db.vouchers| <= v < |Next(db, e).vouchers|
    ensures Next(db, e).vouchers[v].activatedAt == None
  {
  }

  /**
   * Between any two moments of any run: no voucher goes back to unused or active, a
   * suspension is final, dates are written once, and usage never shrinks.
   */
  lemma {:induction false} LifecycleForever(es: seq<Event>, n: nat, v: nat)
    requires n <= |es| && v < |After(INITIAL, es[..n]).vouchers|
    ensures v < |After(INITIAL, es).vouchers|
    ensures Evolves(After(INITIAL, es[..n]).vouchers[v], After(INITIAL, es).vouchers[v])
    decreases |es|
  {
    if n == |es| {
      assert es[..n] == es;
    } else {
      var before := es[..|es| - 1];
      assert before[..n] == es[..n];
      LifecycleForever(before, n, v);
      DatedForever(before);
      StepEvolves(After(INITIAL, before), es[|es| - 1], v);
    }
  }

  // ---- Usage ----

  function BytesOn(sessions: seq<Session>, v: nat): nat {
    if sessions == [] then 0
    else
      var last := sessions[|sessions| - 1];
      BytesOn(sessions[..|sessions| - 1], v) + if last.voucher == v then last.bytesUp + last.bytesDown else 0
  }

  /** A voucher's usage is what all its sessions moved. */
  ghost predicate Billed(db: Db) {
    forall v :: 0 <= v < |db.vouchers| ==> db.vouchers[v].dataUsedMb * BYTES_PER_MB == BytesOn(db.sessions, v) as real
  }

  lemma {:induction false} SameBytes(a: seq<Session>, b: seq<Session>, v: nat)
    requires |a| == |b|
    requires forall i :: 0 <= i < |a| ==> a[i].(endedAt := None) == b[i].(endedAt := None)
    ensures BytesOn(a, v) == BytesOn(b, v)
  {
    if a != [] { SameBytes(a[..|a| - 1], b[..|b| - 1], v); }
  }

  lemma {:induction false} BytesAfterUpdate(sessions: seq<Session>, i: nat, s: Session, v: nat)
    requires i < |sessions| && s.voucher == sessions[i].voucher
    ensures BytesOn(sessions[i := s], v) ==
            BytesOn(sessions, v)
            + if s.voucher == v then s.bytesUp + s.bytesDown - sessions[i].bytesUp - sessions[i].bytesDown else 0
  {
    var n := |sessions| - 1;
    if i == n {
      assert sessions[i := s][..n] == sessions[..n];
    } else {
      assert sessions[i := s][..n] == sessions[..n][i := s];
      BytesAfterUpdate(sessions[..n], i, s, v);
    }
  }

  /** The same sessions, some of them ended. */
  ghost predicate OnlyEnds(a: seq<Session>, b: seq<Session>) {
    |a| == |b| && forall i :: 0 <= i < |a| ==> a[i].(endedAt := None) == b[i].(endedAt := None)
  }

  /** At most one new session, which starts at zero. */
  ghost predicate MovesNoBytes(a: seq<Session>, b: seq<Session>) {
    |a| <= |b| <= |a| + 1 && OnlyEnds(a, b[..|a|])
    && (|b| > |a| ==> b[|a|].bytesUp == 0 && b[|a|].bytesDown == 0)
  }

  ghost predicate SameUsage(a: seq<Voucher>, b: seq<Voucher>) {
    |a| <= |b| && forall w :: 0 <= w < |a| ==> b[w].dataUsedMb == a[w].dataUsedMb
  }

  lemma NoBytesMoved(a: seq<Session>, b: seq<Session>, v: nat)
    requires MovesNoBytes(a, b)
    ensures BytesOn(b, v) == BytesOn(a, v)
  {
    SameBytes(a, b[..|a|], v);
    if |b| > |a| {
      assert b[..|b| - 1] == b[..|a|];
    } else {
      assert b[..|a|] == b;
    }
  }

  lemma EndsThenMoves(a: seq<Session>, b: seq<Session>, c: seq<Session>)
    requires OnlyEnds(a, b) && MovesNoBytes(b, c)
    ensures MovesNoBytes(a, c)
  {
  }

  lemma ReopenMovesNoBytes(db: Db, d: nat, v: nat, now: int)
    ensures MovesNoBytes(db.sessions, Reopen(db, d, v, now).sessions)
  {
    var ended := EndOfDevice(db.sessions, d, now);
    assert Reopen(db, d, v, now).sessions[..|db.sessions|] == ended;
  }

  lemma BindOnlyEnds(db: Db, v: nat, mac: string, hostname: Option<string>, now: int, gone: set<string>)
    requires v < |db.vouchers| && Bind(db, v, mac, hostname, now, gone).Some?
    ensures var bound := Bind(db, v, mac, hostname, now, gone).value;
            OnlyEnds(db.sessions, bound.sessions) && bound.vouchers == db.vouchers
  {
    hide FindDevice;
  }

  lemma RedeemMovesNoBytes(db: Db, v: nat, mac: string, hostname: Option<string>, now: int, gone: set<string>)
    ensures MovesNoBytes(db.sessions, Redeem(db, v, mac, hostname, now, gone).0.sessions)
    ensures SameUsage(db.vouchers, Redeem(db, v, mac, hostname, now, gone).0.vouchers)
  {
    hide Bind, FindDevice;
    var db' := Redeem(db, v, mac, hostname, now, gone).0;
    assert db.sessions[..|db.sessions|] == db.sessions;
    if db' != db {
      var bound := Bind(db, v, mac, hostname, now, gone).value;
      BindOnlyEnds(db, v, mac, hostname, now, gone);
      if Redeem(db, v, mac, hostname, now, gone).1.Connected? {
        var d := Redeem(db, v, mac, hostname, now, gone).1.device;
        ReopenMovesNoBytes(bound, d, v, now);
        EndsThenMoves(db.sessions, bound.sessions, db'.sessions);
      } else {
        assert db'.sessions[..|db.sessions|] == bound.sessions;
      }
    }
  }

  lemma LogInMovesNoBytes(db: Db, mac: string, hostname: Option<string>, now: int, gone: set<string>)
    ensures MovesNoBytes(db.sessions, AutoLogin(db, mac, hostname, now, gone).0.sessions)
    ensures SameUsage(db.vouchers, AutoLogin(db, mac, hostname, now, gone).0.vouchers)
  {
    var db' := AutoLogin(db, mac, hostname, now, gone).0;
    assert db.sessions[..|db.sessions|] == db.sessions;
    if EntitledDevice(db, mac, now).Some? {
      assert db'.sessions[..|db.sessions|] == db.sessions;
    } else if PaidVoucher(db, mac).Some? {
      RedeemMovesNoBytes(db, PaidVoucher(db, mac).value, mac, hostname, now, gone);
    } else if hostname.Some? && HandOverFrom(db, mac, hostname.value, now, gone).Some? {
      var left := HandOverFrom(db, mac, hostname.value, now, gone).value;
      var released := Release(db, left, now);
      RedeemMovesNoBytes(released, db.devices[left].voucher, mac, hostname, now, gone);
      EndsThenMoves(db.sessions, released.sessions, db'.sessions);
    }
  }

  lemma StepMovesNoBytes(db: Db, e: Event)
    requires !e.Report?
    ensures MovesNoBytes(db.sessions, Next(db, e).sessions)
    ensures SameUsage(db.vouchers, Next(db, e).vouchers)
  {
    if e.RedeemCode? {
      RedeemMovesNoBytes(db, e.v, e.mac, e.hostname, e.now, e.gone);
    } else if e.LogIn? {
      LogInMovesNoBytes(db, e.mac, e.hostname, e.now, e.gone);
    } else {
      assert Next(db, e).sessions[..|db.sessions|] == Next(db, e).sessions;
    }
  }

  lemma BillStaysBilled(db: Db, sample: Sample, now: int)
    requires Disciplined(db) && Billed(db)
    ensures Billed(Bill(db, sample, now))
  {
    var billed := BilledSession(db, sample.mac);
    if billed.Some? {
      var db' := Bill(db, sample, now);
      forall v | 0 <= v < |db'.vouchers|
        ensures db'.vouchers[v].dataUsedMb * BYTES_PER_MB == BytesOn(db'.sessions, v) as real
      {
        BytesAfterUpdate(db.sessions, billed.value, db'.sessions[billed.value], v);
      }
    }
  }

  lemma {:induction false} BillAllStaysBilled(db: Db, samples: seq<Sample>, now: int)
    requires Disciplined(db) && Billed(db)
    ensures Billed(BillAll(db, samples, now))
  {
    if samples != [] {
      BillAllStaysBilled(db, samples[..|samples| - 1], now);
      BillAllKeeps(db, samples[..|samples| - 1], now);
      BillStaysBilled(BillAll(db, samples[..|samples| - 1], now), samples[|samples| - 1], now);
    }
  }

  lemma {:induction false} NoBytesOnNewVoucher(sessions: seq<Session>, v: nat)
    requires forall i :: 0 <= i < |sessions| ==> sessions[i].voucher < v
    ensures BytesOn(sessions, v) == 0
  {
    if sessions != [] { NoBytesOnNewVoucher(sessions[..|sessions| - 1], v); }
  }

  /** In every run, a voucher's recorded usage equals the bytes of all its sessions. */
  lemma {:induction false} BilledForever(es: seq<Event>)
    ensures Billed(After(INITIAL, es))
  {
    if es != [] {
      var e := es[|es| - 1];
      var db := After(INITIAL, es[..|es| - 1]);
      BilledForever(es[..|es| - 1]);
      DisciplineForever(es[..|es| - 1]);
      if e.Report? {
        BillAllStaysBilled(db, e.samples, e.now);
      } else {
        StepMovesNoBytes(db, e);
        forall v | 0 <= v < |Next(db, e).vouchers|
          ensures Next(db, e).vouchers[v].dataUsedMb * BYTES_PER_MB == BytesOn(Next(db, e).sessions, v) as real
        {
          NoBytesMoved(db.sessions, Next(db, e).sessions, v);
          if v >= |db.vouchers| {
            StepGrowsOnlyByIssue(db, e);
            NoBytesOnNewVoucher(db.sessions, v);
          }
        }
      }
    }
  }

  // ---- The sweep ----

  /** After the sweep nothing is overdue, nothing at its cap is active, and no session outlives its voucher. */
  lemma SweepLeavesNothingOverdue(db: Db, now: int)
    requires Disciplined(db)
    ensures var db' := ExpireOverdue(db, now);
            (forall v :: 0 <= v < |db'.vouchers| ==> !IsOverdue(db'.vouchers[v], now) && !IsOverCap(db'.vouchers[v]))
            && (forall i ::
                  0 <= i < |db'.sessions| && IsOpen(db'.sessions[i]) ==>
                    db'.vouchers[db'.sessions[i].voucher].status == ACTIVE)
            && (forall i :: 0 <= i < |db.sessions| && IsOpen(db.sessions[i]) && !IsOpen(db'.sessions[i]) ==>
                  db'.vouchers[db.sessions[i].voucher].status != ACTIVE)
  {
  }
}
