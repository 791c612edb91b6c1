/**
 * Traffic from the gateway's class counters to the vouchers' bills: the agent reads the
 * counters of registered devices, sends samples, and the API bills them.
 */
module Metering {
  import opened Options
  import opened Entitlement
  import Admission
  import AdmissionRuns
  import EntitlementRuns
  import Networks

  type Bytes = Admission.Bytes

  /**
   * `waiting` holds samples read and not delivered yet. Two ledgers by MAC: samples whose
   * delivery failed, and samples that found no open session.
   */
  datatype State = State(
    box: Admission.Box,
    db: Db,
    waiting: seq<Sample>,
    failed: map<string, Bytes>,
    unowned: map<string, Bytes>)

  /** Everything but readings at the gateway, and everything but reports at the API, goes on as before. */
  datatype Event =
    | Gate(gate: AdmissionRuns.Event)
    | Api(api: EntitlementRuns.Event)
    | Read(mac: string, hostname: Option<string>)
    | Deliver(k: nat, now: int)
    | Fail(k: nat)

  const INITIAL := State(Admission.EMPTY, EntitlementRuns.INITIAL, [], map[], map[])

  function SampleOf(box: Admission.Box, mac: string, hostname: Option<string>): Sample {
    Sample(mac, Admission.Unreported(box, mac).up, Admission.Unreported(box, mac).down, hostname)
  }

  function BytesOf(s: Sample): Bytes { Admission.Bytes(s.bytesDown, s.bytesUp) }

  function Without(waiting: seq<Sample>, k: nat): seq<Sample>
    requires k < |waiting|
  {
    waiting[..k] + waiting[k + 1..]
  }

  function FailAll(failed: map<string, Bytes>, waiting: seq<Sample>): map<string, Bytes> {
    if waiting == [] then failed
    else
      var last := waiting[|waiting| - 1];
      Admission.Credit(FailAll(failed, waiting[..|waiting| - 1]), last.mac, BytesOf(last))
  }

  /** A reboot loses what the agent had read and not delivered. */
  ghost function Gated(c: Networks.Config, s: State, gate: AdmissionRuns.Event): State
    requires AdmissionRuns.Enabled(s.box, gate)
  {
    var s' := s.(box := AdmissionRuns.Next(c, s.box, gate));
    if gate.Rebooting? then s'.(waiting := [], failed := FailAll(s.failed, s.waiting)) else s'
  }

  function Applied(s: State, api: EntitlementRuns.Event): State { s.(db := EntitlementRuns.Next(s.db, api)) }

  function Reading(s: State, mac: string, hostname: Option<string>): State {
    s.(box := Admission.Report(s.box, mac), waiting := s.waiting + [SampleOf(s.box, mac, hostname)])
  }

  function Delivered(s: State, k: nat, now: int): State
    requires k < |s.waiting|
  {
    var sample := s.waiting[k];
    s.(db := EntitlementRuns.Next(s.db, EntitlementRuns.Report([sample], now)),
       waiting := Without(s.waiting, k),
       unowned := if BilledSession(s.db, sample.mac).Some? then s.unowned
                  else Admission.Credit(s.unowned, sample.mac, BytesOf(sample)))
  }

  function Failed(s: State, k: nat): State
    requires k < |s.waiting|
  {
    s.(waiting := Without(s.waiting, k),
       failed := Admission.Credit(s.failed, s.waiting[k].mac, BytesOf(s.waiting[k])))
  }

  ghost predicate Enabled(s: State, e: Event) {
    match e
    case Gate(gate) => !gate.Metering? && AdmissionRuns.Enabled(s.box, gate)
    case Api(api) => !api.Report?
    case Read(mac, _) => mac in s.box.registry
    case Deliver(k, _) => k < |s.waiting|
    case Fail(k) => k < |s.waiting|
  }

  ghost function Next(c: Networks.Config, s: State, e: Event): State
    requires Enabled(s, e)
  {
    match e
    case Gate(gate) => Gated(c, s, gate)
    case Api(api) => Applied(s, api)
    case Read(mac, hostname) => Reading(s, mac, hostname)
    case Deliver(k, now) => Delivered(s, k, now)
    case Fail(k) => Failed(s, k)
  }

  ghost predicate IsRun(c: Networks.Config, es: seq<Event>)
    decreases |es|, 0
  {
    es == [] || (IsRun(c, es[..|es| - 1]) && Enabled(After(c, es[..|es| - 1]), es[|es| - 1]))
  }

  ghost function After(c: Networks.Config, es: seq<Event>): State
    requires IsRun(c, es)
    decreases |es|, 1
  {
    if es == [] then INITIAL else Next(c, After(c, es[..|es| - 1]), es[|es| - 1])
  }

  // ---- Where the bytes are ----

  function Sum(a: Bytes, b: Bytes): Bytes { Admission.Plus(a, b) }

  function InFlight(waiting: seq<Sample>, mac: string): Bytes {
    if waiting == [] then Admission.ZERO
    else
      var last := waiting[|waiting| - 1];
      Sum(InFlight(waiting[..|waiting| - 1], mac), if last.mac == mac then BytesOf(last) else Admission.ZERO)
  }

  predicate IsOf(s: Session, devices: seq<Device>, mac: string) { s.device < |devices| && devices[s.device].mac == mac }

  /** What the sessions of a MAC's devices were billed. */
  function BilledTo(sessions: seq<Session>, devices: seq<Device>, mac: string): Bytes {
    if sessions == [] then Admission.ZERO
    else
      var last := sessions[|sessions| - 1];
      Sum(BilledTo(sessions[..|sessions| - 1], devices, mac),
          if IsOf(last, devices, mac) then Admission.Bytes(last.bytesDown, last.bytesUp) else Admission.ZERO)
  }

  /** What was reported for a MAC is billed, under way, without a session, or not delivered. */
  ghost predicate Accounted(s: State, mac: string) {
    Admission.Of(s.box.reported, mac)
    == Sum(Sum(BilledTo(s.db.sessions, s.db.devices, mac), InFlight(s.waiting, mac)),
           Sum(Admission.Of(s.unowned, mac), Admission.Of(s.failed, mac)))
  }

  lemma InFlightAppend(waiting: seq<Sample>, s: Sample, mac: string)
    ensures InFlight(waiting + [s], mac)
            == Sum(InFlight(waiting, mac), if s.mac == mac then BytesOf(s) else Admission.ZERO)
  {
    assert (waiting + [s])[..|waiting|] == waiting;
  }

  lemma WithoutLast(waiting: seq<Sample>, k: nat)
    requires k < |waiting|
    ensures var n := |waiting| - 1;
            Without(waiting, k) == if k == n then waiting[..n] else Without(waiting[..n], k) + [waiting[n]]
  {
  }

  lemma {:induction false} InFlightWithout(waiting: seq<Sample>, k: nat, mac: string)
    requires k < |waiting|
    ensures InFlight(waiting, mac)
            == Sum(InFlight(Without(waiting, k), mac),
                   if waiting[k].mac == mac then BytesOf(waiting[k]) else Admission.ZERO)
  {
    hide Sum, BytesOf, InFlight, Without;
    var n := |waiting| - 1;
    assert waiting == waiting[..n] + [waiting[n]];
    InFlightAppend(waiting[..n], waiting[n], mac);
    WithoutLast(waiting, k);
    if k < n {
      InFlightWithout(waiting[..n], k, mac);
      InFlightAppend(Without(waiting[..n], k), waiting[n], mac);
      Swap(InFlight(Without(waiting[..n], k), mac),
           if waiting[k].mac == mac then BytesOf(waiting[k]) else Admission.ZERO,
           if waiting[n].mac == mac then BytesOf(waiting[n]) else Admission.ZERO);
    }
  }

  lemma CreditIsSum(ledger: map<string, Bytes>, m: string, b: Bytes, mac: string)
    ensures Admission.Of(Admission.Credit(ledger, m, b), mac)
            == Sum(Admission.Of(ledger, mac), if m == mac then b else Admission.ZERO)
  {
    ZeroAdds(Admission.Of(ledger, mac));
  }

  lemma NoneFail(failed: map<string, Bytes>, mac: string)
    ensures Admission.Of(FailAll(failed, []), mac) == Sum(Admission.Of(failed, mac), InFlight([], mac))
  {
    assert FailAll(failed, []) == failed && InFlight([], mac) == Admission.ZERO;
    ZeroAdds(Admission.Of(failed, mac));
  }

  lemma Regroup(a: Bytes, b: Bytes, c: Bytes)
    ensures Sum(Sum(a, b), c) == Sum(a, Sum(b, c))
  {
  }

  lemma {:induction false} FailAllAdds(failed: map<string, Bytes>, waiting: seq<Sample>, mac: string)
    ensures Admission.Of(FailAll(failed, waiting), mac) == Sum(Admission.Of(failed, mac), InFlight(waiting, mac))
  {
    hide Sum, Admission.Of, Admission.Credit, BytesOf;
    if waiting == [] {
      NoneFail(failed, mac);
    } else {
      var before, last := waiting[..|waiting| - 1], waiting[|waiting| - 1];
      FailAllAdds(failed, before, mac);
      CreditIsSum(FailAll(failed, before), last.mac, BytesOf(last), mac);
      Regroup(Admission.Of(failed, mac), InFlight(before, mac),
              if last.mac == mac then BytesOf(last) else Admission.ZERO);
    }
  }

  // ---- Sessions and their devices ----

  /** Device rows keep their MAC. */
  ghost predicate SameMacs(a: seq<Device>, b: seq<Device>) {
    |a| <= |b| && forall d :: 0 <= d < |a| ==> b[d].mac == a[d].mac
  }

  lemma BindKeepsMacs(db: Db, v: nat, mac: string, hostname: Option<string>, now: int, gone: set<string>)
    requires v < |db.vouchers| && Bind(db, v, mac, hostname, now, gone).Some?
    ensures SameMacs(db.devices, Bind(db, v, mac, hostname, now, gone).value.devices)
  {
    hide CanYield;
  }

  lemma RedeemKeepsMacs(db: Db, v: nat, mac: string, hostname: Option<string>, now: int, gone: set<string>)
    ensures SameMacs(db.devices, Redeem(db, v, mac, hostname, now, gone).0.devices)
  {
    if v < |db.vouchers| && Bind(db, v, mac, hostname, now, gone).Some? {
      BindKeepsMacs(db, v, mac, hostname, now, gone);
    }
    hide Bind, FindDevice;
  }

  lemma LogInKeepsMacs(db: Db, mac: string, hostname: Option<string>, now: int, gone: set<string>)
    ensures SameMacs(db.devices, AutoLogin(db, mac, hostname, now, gone).0.devices)
  {
    hide Redeem, EntitledDevice, PaidVoucher, HandOverFrom;
    var paid := PaidVoucher(db, mac);
    if paid.Some? { RedeemKeepsMacs(db, paid.value, mac, hostname, now, gone); }
    if hostname.Some? && HandOverFrom(db, mac, hostname.value, now, gone).Some? {
      var left := HandOverFrom(db, mac, hostname.value, now, gone).value;
      RedeemKeepsMacs(Release(db, left, now), db.devices[left].voucher, mac, hostname, now, gone);
    }
  }

  lemma ApiStepKeepsMacs(db: Db, e: EntitlementRuns.Event)
    requires !e.Report?
    ensures SameMacs(db.devices, EntitlementRuns.Next(db, e).devices)
  {
    hide Redeem, AutoLogin;
    match e
    case RedeemCode(v, mac, hostname, now, gone) => RedeemKeepsMacs(db, v, mac, hostname, now, gone);
    case LogIn(mac, hostname, now, gone) => LogInKeepsMacs(db, mac, hostname, now, gone);
    case _ =>
  }

  lemma {:induction false} BilledToStays(a: seq<Session>, b: seq<Session>, c: seq<Device>, d: seq<Device>, mac: string)
    requires EntitlementRuns.OnlyEnds(a, b) && SameMacs(c, d)
    requires forall i :: 0 <= i < |a| ==> a[i].device < |c|
    ensures BilledTo(b, d, mac) == BilledTo(a, c, mac)
  {
    if a != [] {
      var n := |a| - 1;
      assert a[n].(endedAt := None) == b[n].(endedAt := None);
      BilledToStays(a[..n], b[..n], c, d, mac);
    }
  }

  lemma ApiStepBillsNothing(db: Db, e: EntitlementRuns.Event, mac: string)
    requires EntitlementRuns.WellFormed(db) && !e.Report?
    ensures var db' := EntitlementRuns.Next(db, e);
            BilledTo(db'.sessions, db'.devices, mac) == BilledTo(db.sessions, db.devices, mac)
  {
    hide EntitlementRuns.Next, SameMacs, EntitlementRuns.MovesNoBytes, BilledTo;
    EntitlementRuns.StepMovesNoBytes(db, e);
    ApiStepKeepsMacs(db, e);
    var db' := EntitlementRuns.Next(db, e);
    NewSessionBillsNothing(db.sessions, db'.sessions, db.devices, db'.devices, mac);
  }

  lemma NewSessionBillsNothing(a: seq<Session>, b: seq<Session>, c: seq<Device>, d: seq<Device>, mac: string)
    requires EntitlementRuns.MovesNoBytes(a, b) && SameMacs(c, d) && forall i :: 0 <= i < |a| ==> a[i].device < |c|
    ensures BilledTo(b, d, mac) == BilledTo(a, c, mac)
  {
    hide SameMacs, EntitlementRuns.OnlyEnds;
    BilledToStays(a, b[..|a|], c, d, mac);
    if |b| == |a| {
      assert b[..|a|] == b;
    } else {
      assert b[..|b| - 1] == b[..|a|];
      ZeroAdds(BilledTo(b[..|a|], d, mac));
    }
  }

  lemma ZeroAdds(a: Bytes)
    ensures Sum(a, Admission.ZERO) == a
  {
  }

  /** One session's share of what a MAC was billed. */
  function ShareOf(s: Session, devices: seq<Device>, mac: string): Bytes {
    if IsOf(s, devices, mac) then Admission.Bytes(s.bytesDown, s.bytesUp) else Admission.ZERO
  }

  lemma BilledToNext(sessions: seq<Session>, devices: seq<Device>, mac: string)
    requires sessions != []
    ensures BilledTo(sessions, devices, mac)
            == Sum(BilledTo(sessions[..|sessions| - 1], devices, mac), ShareOf(sessions[|sessions| - 1], devices, mac))
  {
  }

  lemma Swap(a: Bytes, b: Bytes, c: Bytes)
    ensures Sum(Sum(a, b), c) == Sum(Sum(a, c), b)
  {
  }

  lemma {:induction false} BilledToAfterUpdate(sessions: seq<Session>, devices: seq<Device>, i: nat, s: Session,
                                               mac: string, more: Bytes)
    requires i < |sessions| && ShareOf(s, devices, mac) == Sum(ShareOf(sessions[i], devices, mac), more)
    ensures BilledTo(sessions[i := s], devices, mac) == Sum(BilledTo(sessions, devices, mac), more)
  {
    hide Sum, BilledTo, ShareOf;
    var n := |sessions| - 1;
    BilledToNext(sessions, devices, mac);
    BilledToNext(sessions[i := s], devices, mac);
    if i == n {
      assert sessions[i := s][..n] == sessions[..n];
      Regroup(BilledTo(sessions[..n], devices, mac), ShareOf(sessions[i], devices, mac), more);
    } else {
      assert sessions[i := s][..n] == sessions[..n][i := s];
      BilledToAfterUpdate(sessions[..n], devices, i, s, mac, more);
      Swap(BilledTo(sessions[..n], devices, mac), more, ShareOf(sessions[n], devices, mac));
    }
  }

  /** The devices a bill leaves: the same MACs. */
  lemma BillKeepsMacs(db: Db, sample: Sample, now: int)
    ensures |Bill(db, sample, now).devices| == |db.devices| && SameMacs(db.devices, Bill(db, sample, now).devices)
  {
  }

  /**
   * A delivered sample is billed in full to sessions of its own MAC exactly when that MAC
   * has an open session.
   */
  lemma DeliveredIsBilledExactlyWhen(db: Db, sample: Sample, now: int, mac: string)
    requires EntitlementRuns.WellFormed(db)
    ensures var db' := Bill(db, sample, now);
            BilledTo(db'.sessions, db'.devices, mac)
            == Sum(BilledTo(db.sessions, db.devices, mac),
                   if mac == sample.mac && (exists i: nat :: IsBillable(db, mac, i)) then BytesOf(sample)
                   else Admission.ZERO)
  {
    var billed := BilledSession(db, sample.mac);
    if billed.Some? {
      assert IsBillable(db, sample.mac, billed.value);
      hide *;
      BilledInFull(db, sample, now, mac, billed.value);
    } else {
      ZeroAdds(BilledTo(db.sessions, db.devices, mac));
      hide BilledTo, Sum;
    }
  }

  lemma BilledInFull(db: Db, sample: Sample, now: int, mac: string, i: nat)
    requires EntitlementRuns.WellFormed(db) && BilledSession(db, sample.mac) == Some(i)
    ensures var db' := Bill(db, sample, now);
            BilledTo(db'.sessions, db'.devices, mac)
            == Sum(BilledTo(db.sessions, db.devices, mac),
                   if mac == sample.mac then BytesOf(sample) else Admission.ZERO)
  {
    hide Bill, BilledTo, Sum, IsOf, ShareOf, IsBillable, BilledSession, EntitlementRuns.WellFormed, BytesOf;
    var more := if mac == sample.mac then BytesOf(sample) else Admission.ZERO;
    BillRaisesOneSession(db, sample, now, i);
    BillMovesNoDevice(db, sample, now, mac);
    RaisedShare(db, sample, now, mac, i);
    BilledToAfterUpdate(db.sessions, db.devices, i, Bill(db, sample, now).sessions[i], mac, more);
  }

  lemma RaisedShare(db: Db, sample: Sample, now: int, mac: string, i: nat)
    requires BilledSession(db, sample.mac) == Some(i)
    ensures i < |db.sessions| == |Bill(db, sample, now).sessions|
    ensures ShareOf(Bill(db, sample, now).sessions[i], db.devices, mac)
            == Sum(ShareOf(db.sessions[i], db.devices, mac),
                   if mac == sample.mac then BytesOf(sample) else Admission.ZERO)
  {
    hide Bill, Sum, IsOf, ShareOf, IsBillable, BilledSession;
    BillRaisesOneSession(db, sample, now, i);
    BillableIsOf(db, sample.mac, i, mac);
    ShareGrows(db.sessions[i], Bill(db, sample, now).sessions[i], db.devices, mac, mac == sample.mac, BytesOf(sample));
  }

  /** A bill leaves the devices' MACs, so whose sessions they are. */
  lemma BillMovesNoDevice(db: Db, sample: Sample, now: int, mac: string)
    requires EntitlementRuns.WellFormed(db)
    ensures var db' := Bill(db, sample, now);
            BilledTo(db'.sessions, db'.devices, mac) == BilledTo(db'.sessions, db.devices, mac)
  {
    BillKeepsMacs(db, sample, now);
    var db' := Bill(db, sample, now);
    assert forall i :: 0 <= i < |db'.sessions| ==> db'.sessions[i].device < |db.devices|;
    assert EntitlementRuns.OnlyEnds(db'.sessions, db'.sessions);
    hide Bill, SameMacs, EntitlementRuns.OnlyEnds;
    BilledToStays(db'.sessions, db'.sessions, db.devices, db'.devices, mac);
  }

  lemma BillRaisesOneSession(db: Db, sample: Sample, now: int, i: nat)
    requires BilledSession(db, sample.mac) == Some(i)
    ensures i < |db.sessions|
    ensures var s := db.sessions[i];
            Bill(db, sample, now).sessions
            == db.sessions[i := s.(bytesUp := s.bytesUp + sample.bytesUp, bytesDown := s.bytesDown + sample.bytesDown)]
    ensures IsBillable(db, sample.mac, i)
  {
  }

  lemma BillableIsOf(db: Db, m: string, i: nat, mac: string)
    requires IsBillable(db, m, i)
    ensures IsOf(db.sessions[i], db.devices, mac) <==> mac == m
  {
  }

  lemma ShareGrows(before: Session, s: Session, devices: seq<Device>, mac: string, own: bool, more: Bytes)
    requires s.device == before.device && (IsOf(before, devices, mac) <==> own)
    requires s.bytesUp == before.bytesUp + more.up && s.bytesDown == before.bytesDown + more.down
    ensures ShareOf(s, devices, mac) == Sum(ShareOf(before, devices, mac), if own then more else Admission.ZERO)
  {
    OwnShareGrows(before, s, devices, mac, more);
    hide ShareOf, IsOf, Sum;
    if !own { ZeroAdds(ShareOf(before, devices, mac)); }
  }

  lemma OwnShareGrows(before: Session, s: Session, devices: seq<Device>, mac: string, more: Bytes)
    requires s.device == before.device
    requires s.bytesUp == before.bytesUp + more.up && s.bytesDown == before.bytesDown + more.down
    ensures IsOf(before, devices, mac) ==> ShareOf(s, devices, mac) == Sum(ShareOf(before, devices, mac), more)
    ensures !IsOf(before, devices, mac) ==>
              ShareOf(s, devices, mac) == Admission.ZERO == ShareOf(before, devices, mac)
  {
  }

  // ---- The gateway's side ----

  lemma GateStepReportsNothing(c: Networks.Config, g: Admission.Box, e: AdmissionRuns.Event)
    requires AdmissionRuns.Enabled(g, e) && !e.Metering?
    ensures AdmissionRuns.Next(c, g, e).reported == g.reported
  {
    if e.Admitting? { AdmissionReportsNothing(c, g, e.req, e.force, e.now); }
    hide Admission.Admit;
  }

  lemma AdmissionReportsNothing(c: Networks.Config, g: Admission.Box, req: Admission.Request, force: bool, now: int)
    ensures Admission.Admit(c, g, req, force, now).0.reported == g.reported
  {
  }

  lemma ReadReportsTheSample(g: Admission.Box, m: string, hostname: Option<string>, mac: string)
    requires Admission.CounterOf(g, m).Some?
    ensures Admission.Of(Admission.Report(g, m).reported, mac)
            == Sum(Admission.Of(g.reported, mac),
                   if m == mac then BytesOf(SampleOf(g, m, hostname)) else Admission.ZERO)
  {
    hide Admission.Credit, Admission.Of, Sum, Admission.Unreported;
    CreditIsSum(g.reported, m, Admission.Unreported(g, m), mac);
    SampleBytes(g, m, hostname);
  }

  lemma SampleBytes(g: Admission.Box, m: string, hostname: Option<string>)
    ensures BytesOf(SampleOf(g, m, hostname)) == Admission.Unreported(g, m)
  {
  }

  // ---- Runs ----

  ghost predicate Inv(s: State) {
    AdmissionRuns.Inv(s.box) && EntitlementRuns.Disciplined(s.db) && forall mac: string :: Accounted(s, mac)
  }

  /** One part grows by what another one gives up, or the total grows with one part. */
  lemma Moves(r: Bytes, b: Bytes, w: Bytes, u: Bytes, f: Bytes, x: Bytes)
    requires r == Sum(Sum(b, Sum(w, x)), Sum(u, f))
    ensures r == Sum(Sum(Sum(b, x), w), Sum(u, f))
    ensures r == Sum(Sum(b, w), Sum(Sum(u, x), f))
    ensures r == Sum(Sum(b, w), Sum(u, Sum(f, x)))
  {
  }

  lemma Grows(b: Bytes, w: Bytes, u: Bytes, f: Bytes, x: Bytes)
    ensures Sum(Sum(Sum(b, w), Sum(u, f)), x) == Sum(Sum(b, Sum(w, x)), Sum(u, f))
  {
  }

  lemma StepStaysAccounted(c: Networks.Config, s: State, e: Event, mac: string)
    requires AdmissionRuns.Inv(s.box) && EntitlementRuns.WellFormed(s.db) && Accounted(s, mac) && Enabled(s, e)
    ensures Accounted(Next(c, s, e), mac)
  {
    hide Accounted, AdmissionRuns.Inv, EntitlementRuns.WellFormed, Gated, Applied, Reading, Delivered, Failed;
    match e
    case Gate(gate) => GateStaysAccounted(c, s, gate, mac);
    case Api(api) => ApiStaysAccounted(s, api, mac);
    case Read(m, hostname) => ReadStaysAccounted(s, m, hostname, mac);
    case Deliver(k, now) => DeliveryStaysAccounted(s, k, now, mac);
    case Fail(k) => FailureStaysAccounted(s, k, mac);
  }

  lemma ApiStaysAccounted(s: State, e: EntitlementRuns.Event, mac: string)
    requires EntitlementRuns.WellFormed(s.db) && Accounted(s, mac) && !e.Report?
    ensures Accounted(Applied(s, e), mac)
  {
    hide EntitlementRuns.Next, EntitlementRuns.WellFormed, BilledTo, InFlight, Sum, Admission.Of;
    ApiStepBillsNothing(s.db, e, mac);
  }

  lemma FailureStaysAccounted(s: State, k: nat, mac: string)
    requires Accounted(s, mac) && k < |s.waiting|
    ensures Accounted(Failed(s, k), mac)
  {
    hide BilledTo, InFlight, Sum, Admission.Of, Admission.Credit, Without, BytesOf;
    InFlightWithout(s.waiting, k, mac);
    CreditIsSum(s.failed, s.waiting[k].mac, BytesOf(s.waiting[k]), mac);
    Moves(Admission.Of(s.box.reported, mac), BilledTo(s.db.sessions, s.db.devices, mac),
          InFlight(Without(s.waiting, k), mac), Admission.Of(s.unowned, mac), Admission.Of(s.failed, mac),
          if s.waiting[k].mac == mac then BytesOf(s.waiting[k]) else Admission.ZERO);
  }

  lemma GateStaysAccounted(c: Networks.Config, s: State, e: AdmissionRuns.Event, mac: string)
    requires Accounted(s, mac) && !e.Metering? && AdmissionRuns.Enabled(s.box, e)
    ensures Accounted(Gated(c, s, e), mac)
  {
    hide AdmissionRuns.Next, AdmissionRuns.Enabled, InFlight, BilledTo, FailAll, Sum, Admission.Of;
    GateStepReportsNothing(c, s.box, e);
    FailAllAdds(s.failed, s.waiting, mac);
    NobodyWaits(BilledTo(s.db.sessions, s.db.devices, mac), InFlight(s.waiting, mac), Admission.Of(s.unowned, mac),
                Admission.Of(s.failed, mac), mac);
  }

  lemma NobodyWaits(b: Bytes, w: Bytes, u: Bytes, f: Bytes, mac: string)
    ensures Sum(Sum(b, w), Sum(u, f)) == Sum(Sum(b, InFlight([], mac)), Sum(u, Sum(f, w)))
  {
  }

  lemma ReadStaysAccounted(s: State, m: string, hostname: Option<string>, mac: string)
    requires AdmissionRuns.Inv(s.box) && Accounted(s, mac) && m in s.box.registry
    ensures Accounted(Reading(s, m, hostname), mac)
  {
    hide AdmissionRuns.Inv, Admission.Report, InFlight, BilledTo, SampleOf, Sum, Admission.Of, BytesOf;
    RegisteredHasCounter(s.box, m);
    ReadReportsTheSample(s.box, m, hostname, mac);
    InFlightAppend(s.waiting, SampleOf(s.box, m, hostname), mac);
    SampleIsOf(s.box, m, hostname);
    Grows(BilledTo(s.db.sessions, s.db.devices, mac), InFlight(s.waiting, mac), Admission.Of(s.unowned, mac),
          Admission.Of(s.failed, mac), if m == mac then BytesOf(SampleOf(s.box, m, hostname)) else Admission.ZERO);
  }

  lemma RegisteredHasCounter(g: Admission.Box, m: string)
    requires AdmissionRuns.Inv(g) && m in g.registry
    ensures Admission.CounterOf(g, m).Some?
  {
    hide Admission.CounterOf, Admission.ClassOf;
    assert AdmissionRuns.Metered(g, m);
  }

  lemma SampleIsOf(box: Admission.Box, m: string, hostname: Option<string>)
    ensures SampleOf(box, m, hostname).mac == m
  {
  }

  lemma DeliveryStaysAccounted(s: State, k: nat, now: int, mac: string)
    requires EntitlementRuns.WellFormed(s.db) && Accounted(s, mac) && k < |s.waiting|
    ensures Accounted(Delivered(s, k, now), mac)
  {
    hide InFlight, BilledTo, Without, Bill, BillAll, Sum, Admission.Of, Admission.Credit, BytesOf,
      EntitlementRuns.WellFormed, BilledSession;
    var sample := s.waiting[k];
    InFlightWithout(s.waiting, k, mac);
    DeliveredIsBilledExactlyWhen(s.db, sample, now, mac);
    CreditIsSum(s.unowned, sample.mac, BytesOf(sample), mac);
    OneSample(s.db, sample, now);
    ZeroAdds(BilledTo(s.db.sessions, s.db.devices, mac));
    Moves(Admission.Of(s.box.reported, mac), BilledTo(s.db.sessions, s.db.devices, mac),
          InFlight(Without(s.waiting, k), mac), Admission.Of(s.unowned, mac), Admission.Of(s.failed, mac),
          if sample.mac == mac then BytesOf(sample) else Admission.ZERO);
    var billed := BilledSession(s.db, sample.mac);
    if billed.Some? { assert IsBillable(s.db, sample.mac, billed.value); }
  }

  lemma OneSample(db: Db, sample: Sample, now: int)
    ensures BillAll(db, [sample], now) == Bill(db, sample, now)
  {
    assert [sample][..0] == [];
  }

  lemma StepKeepsInv(c: Networks.Config, s: State, e: Event)
    requires Inv(s) && Enabled(s, e)
    ensures Inv(Next(c, s, e))
  {
    SidesStay(c, s, e);
    forall mac: string
      ensures Accounted(Next(c, s, e), mac)
    {
      assert Accounted(s, mac) && EntitlementRuns.WellFormed(s.db);
      StepStaysAccounted(c, s, e, mac);
    }
    hide *;
  }

  /** Each side keeps its own invariant. */
  lemma SidesStay(c: Networks.Config, s: State, e: Event)
    requires AdmissionRuns.Inv(s.box) && EntitlementRuns.Disciplined(s.db) && Enabled(s, e)
    ensures AdmissionRuns.Inv(Next(c, s, e).box) && EntitlementRuns.Disciplined(Next(c, s, e).db)
  {
    hide AdmissionRuns.Inv, EntitlementRuns.Disciplined, EntitlementRuns.Next;
    match e
    case Gate(gate) => AdmissionRuns.StepKeepsInv(c, s.box, gate);
    case Api(api) => EntitlementRuns.StepKeepsDisciplineAndCap(s.db, api);
    case Read(mac, _) => AdmissionRuns.StepKeepsInv(c, s.box, AdmissionRuns.Metering(mac));
    case Deliver(k, now) =>
      EntitlementRuns.StepKeepsDisciplineAndCap(s.db, EntitlementRuns.Report([s.waiting[k]], now));
    case Fail(_) =>
  }

  lemma NothingYet()
    ensures Inv(INITIAL)
  {
    hide Admission.Plus;
    assert AdmissionRuns.Inv(Admission.EMPTY) by { NothingCounted(); }
    forall mac: string
      ensures Accounted(INITIAL, mac)
    {
      NothingReported(mac);
    }
  }

  lemma NothingCounted()
    ensures AdmissionRuns.Inv(Admission.EMPTY)
  {
  }

  lemma NothingReported(mac: string)
    ensures Accounted(INITIAL, mac)
  {
    assert Admission.Of(map[], mac) == Admission.ZERO && BilledTo([], [], mac) == Admission.ZERO;
    assert InFlight([], mac) == Admission.ZERO;
    ZeroAdds(Admission.ZERO);
    hide Sum, Admission.Of, BilledTo, InFlight;
  }

  lemma {:induction false} RunKeepsInv(c: Networks.Config, es: seq<Event>)
    requires IsRun(c, es)
    ensures Inv(After(c, es))
  {
    hide Inv, Next, Enabled;
    if es == [] {
      NothingYet();
    } else {
      RunKeepsInv(c, es[..|es| - 1]);
      StepKeepsInv(c, After(c, es[..|es| - 1]), es[|es| - 1]);
    }
  }

  /** The API's own events of a run, deliveries among them. */
  ghost function ApiEvents(c: Networks.Config, es: seq<Event>): seq<EntitlementRuns.Event>
    requires IsRun(c, es)
  {
    if es == [] then []
    else
      var before, s := ApiEvents(c, es[..|es| - 1]), After(c, es[..|es| - 1]);
      match es[|es| - 1]
      case Api(api) => before + [api]
      case Deliver(k, now) => before + [EntitlementRuns.Report([s.waiting[k]], now)]
      case _ => before
  }

  lemma {:induction false} TablesFollowApiEvents(c: Networks.Config, es: seq<Event>)
    requires IsRun(c, es)
    ensures After(c, es).db == EntitlementRuns.After(EntitlementRuns.INITIAL, ApiEvents(c, es))
  {
    if es != [] {
      var before, s, e := ApiEvents(c, es[..|es| - 1]), After(c, es[..|es| - 1]), es[|es| - 1];
      TablesFollowApiEvents(c, es[..|es| - 1]);
      hide EntitlementRuns.Next, EntitlementRuns.After, AdmissionRuns.Next, AdmissionRuns.Enabled, Admission.Report,
        FailAll;
      if e.Api? { OneApiEventMore(before, e.api); }
      if e.Deliver? { OneApiEventMore(before, EntitlementRuns.Report([s.waiting[e.k]], e.now)); }
    }
  }

  lemma OneApiEventMore(before: seq<EntitlementRuns.Event>, e: EntitlementRuns.Event)
    ensures EntitlementRuns.After(EntitlementRuns.INITIAL, before + [e])
            == EntitlementRuns.Next(EntitlementRuns.After(EntitlementRuns.INITIAL, before), e)
  {
    hide EntitlementRuns.Next;
    assert (before + [e])[..|before|] == before;
  }

  /**
   * From the kernel's counters to the bills, in every run: what was counted for a MAC is
   * billed to sessions of its devices, under way in a sample, without an open session when
   * it arrived, lost with a failed delivery, not read yet, or lost with its class; and what
   * sessions were billed is what their vouchers record.
   */
  lemma CountedIsBilled(c: Networks.Config, es: seq<Event>, mac: string)
    requires IsRun(c, es)
    ensures var s := After(c, es);
            Admission.Of(s.box.counted, mac)
            == Sum(Sum(Sum(BilledTo(s.db.sessions, s.db.devices, mac), InFlight(s.waiting, mac)),
                       Sum(Admission.Of(s.unowned, mac), Admission.Of(s.failed, mac))),
                   Sum(Admission.Unreported(s.box, mac), Admission.Of(s.box.dropped, mac)))
    ensures EntitlementRuns.Billed(After(c, es).db)
  {
    hide *;
    RunKeepsInv(c, es);
    TablesFollowApiEvents(c, es);
    EntitlementRuns.BilledForever(ApiEvents(c, es));
    AccountedFor(After(c, es), mac);
  }

  lemma SameBytes(a: Bytes, b: Bytes)
    requires a.down == b.down && a.up == b.up
    ensures a == b
  {
  }

  lemma ConservedIsSum(g: Admission.Box, mac: string)
    requires AdmissionRuns.Conserved(g, mac)
    ensures Admission.Of(g.counted, mac)
            == Sum(Admission.Of(g.reported, mac), Sum(Admission.Unreported(g, mac), Admission.Of(g.dropped, mac)))
  {
    hide Admission.Of, Admission.Unreported;
    SameBytes(Admission.Of(g.counted, mac),
              Sum(Admission.Of(g.reported, mac), Sum(Admission.Unreported(g, mac), Admission.Of(g.dropped, mac))));
  }

  lemma AccountedFor(s: State, mac: string)
    requires Inv(s)
    ensures Admission.Of(s.box.counted, mac)
            == Sum(Sum(Sum(BilledTo(s.db.sessions, s.db.devices, mac), InFlight(s.waiting, mac)),
                       Sum(Admission.Of(s.unowned, mac), Admission.Of(s.failed, mac))),
                   Sum(Admission.Unreported(s.box, mac), Admission.Of(s.box.dropped, mac)))
  {
    assert Accounted(s, mac) && AdmissionRuns.Conserved(s.box, mac);
    hide Inv, EntitlementRuns.Disciplined, BilledTo, InFlight, Admission.Unreported, Admission.Of;
    ConservedIsSum(s.box, mac);
    hide Sum, AdmissionRuns.Conserved;
  }
}
