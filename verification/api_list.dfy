/** The list the agent syncs to, drawn from the API's tables, and when it names a device twice. */
module ApiList {
  import opened Options
  import opened Entitlement
  import EntitlementRuns
  import Networks
  import Admission
  import AdmissionRuns

  const FALLBACK_SESSION_TTL_MS := 86_400_000

  /** What a session row and its voucher's package add to the request. */
  datatype Details = Details(routerId: Option<string>, ip: Option<Networks.Ip>, downKbps: int, upKbps: int)

  predicate IsLive(db: Db, i: nat, now: int) {
    i < |db.sessions| && IsOpen(db.sessions[i]) && db.sessions[i].voucher < |db.vouchers|
    && var v := db.vouchers[db.sessions[i].voucher];
       v.status == ACTIVE && (v.expiresAt.Some? ==> v.expiresAt.value > now)
  }

  predicate IsListed(db: Db, i: nat, now: int) {
    IsLive(db, i, now) && db.sessions[i].device < |db.devices| && HoldsSlot(db.devices[db.sessions[i].device])
  }

  function ListedFrom(db: Db, n: nat, now: int): (ids: seq<nat>)
    ensures forall i: nat :: i in ids <==> i < n && IsListed(db, i, now)
    ensures forall k, l :: 0 <= k < l < |ids| ==> ids[k] < ids[l]
  {
    if n == 0 then []
    else
      var before := ListedFrom(db, n - 1, now);
      assert forall k :: 0 <= k < |before| ==> before[k] in before;
      if IsListed(db, n - 1, now) then before + [n - 1] else before
  }

  function MacOf(db: Db, i: nat): string
    requires i < |db.sessions| && db.sessions[i].device < |db.devices|
  {
    db.devices[db.sessions[i].device].mac
  }

  function RequestOf(db: Db, i: nat, details: nat -> Details, now: int): Admission.Request
    requires IsListed(db, i, now)
  {
    var expiresAt := db.vouchers[db.sessions[i].voucher].expiresAt;
    Admission.Request(MacOf(db, i), details(i).routerId, details(i).ip, details(i).downKbps, details(i).upKbps,
                      if expiresAt.Some? then expiresAt.value else now + FALLBACK_SESSION_TTL_MS)
  }

  function ActiveSessions(db: Db, details: nat -> Details, now: int): seq<Admission.Request> {
    var ids := ListedFrom(db, |db.sessions|, now);
    seq(|ids|, k requires 0 <= k < |ids| && IsListed(db, ids[k], now) => RequestOf(db, ids[k], details, now))
  }

  /**
   * The list in the tables' terms: one request for each open session, in the order of the
   * rows, whose voucher is active and not past its end and whose device is neither blocked
   * nor released. It carries the device's address, and ends with the voucher, or in a day.
   */
  lemma ListIs(db: Db, details: nat -> Details, now: int) returns (ids: seq<nat>)
    ensures |ids| == |ActiveSessions(db, details, now)|
    ensures forall k, l :: 0 <= k < l < |ids| ==> ids[k] < ids[l]
    ensures forall i: nat ::
              i in ids
              <==> i < |db.sessions|
                   && var s := db.sessions[i];
                      s.endedAt == None
                      && s.device < |db.devices| && !db.devices[s.device].isBlocked
                      && db.devices[s.device].releasedAt == None
                      && s.voucher < |db.vouchers| && db.vouchers[s.voucher].status == ACTIVE
                      && (db.vouchers[s.voucher].expiresAt.Some? ==> db.vouchers[s.voucher].expiresAt.value > now)
    ensures forall k :: 0 <= k < |ids| ==>
              ids[k] < |db.sessions| && db.sessions[ids[k]].device < |db.devices|
              && db.sessions[ids[k]].voucher < |db.vouchers|
              && var s, more := db.sessions[ids[k]], details(ids[k]);
                 var end := db.vouchers[s.voucher].expiresAt;
                 ActiveSessions(db, details, now)[k]
                 == Admission.Request(db.devices[s.device].mac, more.routerId, more.ip, more.downKbps, more.upKbps,
                                      if end.Some? then end.value else now + 86_400_000)
  {
    ids := ListedFrom(db, |db.sessions|, now);
    forall k | 0 <= k < |ids|
      ensures IsListed(db, ids[k], now)
    {
      assert ids[k] in ids;
    }
  }

  /** In every reachable state the filter on devices removes nothing: an open session's device holds its slot. */
  lemma DeviceFilterIsRedundant(es: seq<EntitlementRuns.Event>, i: nat, now: int)
    ensures var db := EntitlementRuns.After(EntitlementRuns.INITIAL, es);
            IsListed(db, i, now) <==> IsLive(db, i, now)
  {
    EntitlementRuns.DisciplineForever(es);
  }

  /** The same MAC address with live sessions on two vouchers. */
  ghost predicate OnTwoVouchers(db: Db, i: nat, j: nat, now: int) {
    IsListed(db, i, now) && IsListed(db, j, now)
    && MacOf(db, i) == MacOf(db, j) && db.sessions[i].voucher != db.sessions[j].voucher
  }

  lemma DistinctExactlyWhen(db: Db, details: nat -> Details, now: int)
    requires EntitlementRuns.Disciplined(db)
    ensures AdmissionRuns.DistinctMacs(ActiveSessions(db, details, now))
            <==> forall i: nat, j: nat :: !OnTwoVouchers(db, i, j, now)
  {
    var ids, list := ListedFrom(db, |db.sessions|, now), ActiveSessions(db, details, now);
    forall k, l | 0 <= k < l < |ids| && list[k].mac == list[l].mac
      ensures OnTwoVouchers(db, ids[k], ids[l], now)
    {
      assert ids[k] in ids && ids[l] in ids && ids[k] < ids[l];
      SameMacTwoVouchers(db, ids[k], ids[l], now);
    }
    hide EntitlementRuns.Disciplined;
    forall i: nat, j: nat | OnTwoVouchers(db, i, j, now)
      ensures !AdmissionRuns.DistinctMacs(list)
    {
      assert i in ids && j in ids;
      var k :| 0 <= k < |ids| && ids[k] == i;
      var l :| 0 <= l < |ids| && ids[l] == j;
      assert list[k].mac == list[l].mac && k != l;
    }
  }

  /** In every reachable state the list names each MAC once, exactly when no MAC is live on two vouchers. */
  lemma ListIsDistinctExactlyWhen(es: seq<EntitlementRuns.Event>, details: nat -> Details, now: int)
    ensures var db := EntitlementRuns.After(EntitlementRuns.INITIAL, es);
            AdmissionRuns.DistinctMacs(ActiveSessions(db, details, now))
            <==> forall i: nat, j: nat :: !OnTwoVouchers(db, i, j, now)
  {
    hide *;
    EntitlementRuns.DisciplineForever(es);
    DistinctExactlyWhen(EntitlementRuns.After(EntitlementRuns.INITIAL, es), details, now);
  }

  lemma SameMacTwoVouchers(db: Db, i: nat, j: nat, now: int)
    requires EntitlementRuns.Disciplined(db) && IsListed(db, i, now) && IsListed(db, j, now) && i < j
             && MacOf(db, i) == MacOf(db, j)
    ensures OnTwoVouchers(db, i, j, now)
  {
    var c, d := db.sessions[i].device, db.sessions[j].device;
    assert c != d;
    assert db.devices[c].voucher != db.devices[d].voucher;
  }

  // ---- A device that redeemed two vouchers ----

  const PLAN := Package(Some(60), None, 1)

  /** Two vouchers redeemed from one phone. */
  const TWO_VOUCHERS: seq<EntitlementRuns.Event> := [
    EntitlementRuns.Issue(PLAN, None), EntitlementRuns.Issue(PLAN, None),
    EntitlementRuns.RedeemCode(0, PHONE, None, 0, {}), EntitlementRuns.RedeemCode(1, PHONE, None, 0, {})]

  const PHONE := "AA:BB:CC:00:00:01"

  const FRESH_VOUCHER := Voucher(UNUSED, PLAN, None, None, None, 0.0)
  const USED_VOUCHER := Voucher(ACTIVE, PLAN, None, Some(0), Some(3_600_000), 0.0)

  lemma OneRedeemed()
    ensures Redeem(Db([FRESH_VOUCHER, FRESH_VOUCHER], [], []), 0, PHONE, None, 0, {}).0
            == Db([USED_VOUCHER, FRESH_VOUCHER], [Device(0, PHONE, None, false, None, 0)], [Session(0, 0, None, 0, 0)])
  {
    var db := Db([FRESH_VOUCHER, FRESH_VOUCHER], [], []);
    assert OtherHolders(db, 0, PHONE) == {};
    assert SetVoucher(db, 0, USED_VOUCHER).vouchers == [USED_VOUCHER, FRESH_VOUCHER];
  }

  lemma TwoRedeemed()
    ensures var device, session := Device(0, PHONE, None, false, None, 0), Session(0, 0, None, 0, 0);
            Redeem(Db([USED_VOUCHER, FRESH_VOUCHER], [device], [session]), 1, PHONE, None, 0, {}).0
            == Db([USED_VOUCHER, USED_VOUCHER], [device, Device(1, PHONE, None, false, None, 0)],
                  [Session(0, 0, None, 0, 0), Session(1, 1, None, 0, 0)])
  {
    var db := Db([USED_VOUCHER, FRESH_VOUCHER], [Device(0, PHONE, None, false, None, 0)], [Session(0, 0, None, 0, 0)]);
    assert FindDevice(db, 1, PHONE) == None;
    assert OtherHolders(db, 1, PHONE) == {};
  }

  /** Redeeming a second voucher leaves the first one's session open, so the list can name one MAC twice. */
  lemma ListCanRepeatAMac()
    ensures OnTwoVouchers(EntitlementRuns.After(EntitlementRuns.INITIAL, TWO_VOUCHERS), 0, 1, 0)
  {
    var es := TWO_VOUCHERS;
    assert es[..4][..3] == es[..3] && es[..3][..2] == es[..2] && es[..2][..1] == es[..1] && es[..1][..0] == []
           && es[..4] == es;
    assert EntitlementRuns.After(EntitlementRuns.INITIAL, es[..1]) == Db([FRESH_VOUCHER], [], []);
    assert EntitlementRuns.After(EntitlementRuns.INITIAL, es[..2]) == Db([FRESH_VOUCHER, FRESH_VOUCHER], [], []);
    OneRedeemed();
    TwoRedeemed();
  }
}
