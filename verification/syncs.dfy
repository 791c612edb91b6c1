/** What repeated syncs against one list write, and whom the firewall lets through after a sync. */
module Syncs {
  import opened Options
  import opened Networks
  import opened ClassIds
  import opened Admission
  import opened AdmissionRuns

  ghost predicate AllServed(c: Config, g: Box, sessions: seq<Request>) {
    forall i :: 0 <= i < |sessions| && Placeable(c, sessions[i]) ==> Serves(c, g, sessions[i])
  }

  /** `order` lists the devices a sync revokes once it has admitted its list. */
  ghost predicate IsRevocationOrder(c: Config, g: Box, sessions: seq<Request>, startedAt: int, now: int,
                                    order: seq<Mac>) {
    IsListing(order, Stale(AdmitAll(c, g, sessions, g.firewall, now), Entitled(sessions), startedAt))
  }

  // ---- Idle syncs ----

  lemma {:induction false} RevokesWrite(g: Box, order: seq<Mac>)
    ensures RevokeAll(g, order).writes == g.writes + |order|
  {
    if order != [] { RevokesWrite(g, order[..|order| - 1]); }
  }

  lemma IdleAdmissionServes(c: Config, g: Box, req: Request, force: bool, now: int)
    ensures var g' := Admit(c, g, req, force, now).0;
            g'.writes >= g.writes
            && (g'.writes == g.writes && req.mac in g.firewall ==> g' == g && (Placeable(c, req) ==> Serves(c, g, req)))
            && (g'.writes == g.writes && force ==> g' == g && !Placeable(c, req))
  {
  }

  /** Admitting a list writes nothing only when everyone in it is served already. */
  lemma {:induction false} IdleMeansServed(c: Config, g: Box, sessions: seq<Request>, now: int)
    ensures var g' := AdmitAll(c, g, sessions, g.firewall, now);
            g'.writes >= g.writes && (g'.writes == g.writes ==> g' == g && AllServed(c, g, sessions))
  {
    if sessions != [] {
      var before, req := sessions[..|sessions| - 1], sessions[|sessions| - 1];
      IdleMeansServed(c, g, before, now);
      IdleAdmissionServes(c, AdmitAll(c, g, before, g.firewall, now), req, req.mac !in g.firewall, now);
      hide Admit, Serves;
    }
  }

  /**
   * For any list and any state, a sync writes nothing exactly when the registry and the
   * firewall already serve every placeable session of the list and nobody unlisted is
   * left from before it.
   */
  lemma SyncIsIdleExactlyWhen(c: Config, g: Box, sessions: seq<Request>, startedAt: int, now: int, order: seq<Mac>)
    requires IsRevocationOrder(c, g, sessions, startedAt, now, order)
    ensures Sync(c, g, sessions, now, order).writes == g.writes
            <==> AllServed(c, g, sessions) && Stale(g, Entitled(sessions), startedAt) == {}
  {
    var g1 := AdmitAll(c, g, sessions, g.firewall, now);
    RevokesWrite(g1, order);
    IdleMeansServed(c, g, sessions, now);
    if AllServed(c, g, sessions) { ServedListIsIdle(c, g, sessions, now); }
    if order != [] { assert order[0] in Stale(g1, Entitled(sessions), startedAt); }
  }

  // ---- Sessions of one device ----

  /** Two placeable sessions of one MAC, by their places in the list. */
  predicate Twins(c: Config, sessions: seq<Request>, i: nat, j: nat) {
    i < |sessions| && j < |sessions| && Placeable(c, sessions[i]) && Placeable(c, sessions[j])
    && sessions[i].mac == sessions[j].mac
  }

  function RouterOf(c: Config, req: Request): string
    requires Placeable(c, req)
  {
    FindRouter(c, req.routerId, req.ip).value.routerId
  }

  /** Same router, same speeds, and expiries less than the tolerance apart. */
  predicate Agree(c: Config, a: Request, b: Request)
    requires Placeable(c, a) && Placeable(c, b)
  {
    RouterOf(c, a) == RouterOf(c, b) && a.downKbps == b.downKbps && a.upKbps == b.upKbps
    && Abs(a.expiresAt - b.expiresAt) < EXPIRY_TOLERANCE_MS
  }

  /** The device is let through and registered with this session's own terms. */
  ghost predicate Carries(c: Config, g: Box, req: Request)
    requires Placeable(c, req)
  {
    req.mac in g.firewall && req.mac in g.registry
    && g.registry[req.mac].router == RouterOf(c, req) && g.registry[req.mac].expiresAt == req.expiresAt
    && g.registry[req.mac].downKbps == req.downKbps && g.registry[req.mac].upKbps == req.upKbps
  }

  lemma CarriedServesExactlyWhen(c: Config, g: Box, a: Request, b: Request)
    requires Placeable(c, a) && Placeable(c, b) && a.mac == b.mac && Carries(c, g, a)
    ensures Serves(c, g, b) <==> Agree(c, a, b)
  {
  }

  ghost predicate SameFor(g: Box, g': Box, mac: Mac) {
    (mac in g'.firewall <==> mac in g.firewall) && (mac in g'.registry <==> mac in g.registry)
    && (mac in g.registry ==> g'.registry[mac] == g.registry[mac])
  }

  lemma AdmitSparesOthers(c: Config, g: Box, req: Request, force: bool, now: int, mac: Mac)
    requires mac != req.mac
    ensures SameFor(g, Admit(c, g, req, force, now).0, mac)
  {
  }

  lemma AdmitCarries(c: Config, g: Box, req: Request, force: bool, now: int)
    requires Placeable(c, req) && Admit(c, g, req, force, now).1 == Placed
    requires force || !(req.mac in g.registry && Admission.Matches(g.registry[req.mac], RouterOf(c, req), req))
    ensures Carries(c, Admit(c, g, req, force, now).0, req)
  {
  }

  /** What one admission of a list does to one device, with room for everyone. */
  ghost predicate Admits(c: Config, g: Box, g': Box, req: Request, force: bool, mac: Mac) {
    if mac != req.mac || !Placeable(c, req) then SameFor(g, g', mac)
    else if !force && mac in g.firewall && Serves(c, g, req) then g' == g
    else if !force && mac in g.firewall then Carries(c, g', req)
    else force ==> Carries(c, g', req)
  }

  lemma AdmitAdmits(c: Config, g: Box, req: Request, force: bool, now: int, everyone: set<Mac>, mac: Mac)
    requires Inv(g) && g.registry.Keys + {req.mac} <= everyone && |everyone| <= CAPACITY
    ensures Admits(c, g, Admit(c, g, req, force, now).0, req, force, mac)
  {
    RoomMeansPlaced(c, g, req, force, now, everyone);
    hide Inv;
    if mac != req.mac {
      AdmitSparesOthers(c, g, req, force, now, mac);
    } else if Placeable(c, req)
              && (force || !(mac in g.registry && Admission.Matches(g.registry[mac], RouterOf(c, req), req))) {
      AdmitCarries(c, g, req, force, now);
    }
  }

  function Upto(c: Config, g: Box, sessions: seq<Request>, n: nat, now: int): Box
    requires n <= |sessions|
  {
    AdmitAll(c, g, sessions[..n], g.firewall, now)
  }

  lemma UptoNone(c: Config, g: Box, sessions: seq<Request>, now: int)
    ensures Upto(c, g, sessions, 0, now) == g
  {
    assert sessions[..0] == [];
  }

  lemma UptoUnfolds(c: Config, g: Box, sessions: seq<Request>, n: nat, now: int)
    requires n < |sessions|
    ensures Upto(c, g, sessions, n + 1, now)
            == Admit(c, Upto(c, g, sessions, n, now), sessions[n], sessions[n].mac !in g.firewall, now).0
  {
    assert sessions[..n + 1][..n] == sessions[..n];
  }

  lemma UptoHasRoom(c: Config, g: Box, sessions: seq<Request>, n: nat, now: int)
    requires Inv(g) && |g.registry.Keys + Entitled(sessions)| <= CAPACITY && n <= |sessions|
    ensures Inv(Upto(c, g, sessions, n, now)) && g.firewall <= Upto(c, g, sessions, n, now).firewall
    ensures Upto(c, g, sessions, n, now).registry.Keys <= g.registry.Keys + Entitled(sessions)
  {
    hide Inv, Admitted, AdmitAll;
    var before := sessions[..n];
    assert Entitled(before) <= Entitled(sessions);
    Sets.SubsetIsSmaller(g.registry.Keys + Entitled(before), g.registry.Keys + Entitled(sessions));
    AdmitAllServes(c, g, before, now);
    AdmittedBounds(c, g, Upto(c, g, sessions, n, now), before);
  }

  /** One more admission of a list. */
  lemma UptoNext(c: Config, g: Box, sessions: seq<Request>, n: nat, now: int, mac: Mac)
    requires Inv(g) && |g.registry.Keys + Entitled(sessions)| <= CAPACITY && n < |sessions|
    ensures g.firewall <= Upto(c, g, sessions, n, now).firewall
    ensures Admits(c, Upto(c, g, sessions, n, now), Upto(c, g, sessions, n + 1, now),
                   sessions[n], sessions[n].mac !in g.firewall, mac)
  {
    hide Inv, Admit, Admits, Upto;
    UptoHasRoom(c, g, sessions, n, now);
    UptoUnfolds(c, g, sessions, n, now);
    AdmitAdmits(c, Upto(c, g, sessions, n, now), sessions[n], sessions[n].mac !in g.firewall, now,
                g.registry.Keys + Entitled(sessions), mac);
  }

  /** While every session so far was served from the start, nothing changes for its device. */
  lemma {:induction false} UntouchedUpto(c: Config, g: Box, sessions: seq<Request>, n: nat, now: int, i: nat)
    requires Inv(g) && |g.registry.Keys + Entitled(sessions)| <= CAPACITY && n <= |sessions|
    requires i < |sessions| && sessions[i].mac in g.firewall
    requires forall j :: 0 <= j < n && Twins(c, sessions, i, j) ==> Serves(c, g, sessions[j])
    requires Placeable(c, sessions[i])
    ensures SameFor(g, Upto(c, g, sessions, n, now), sessions[i].mac)
  {
    hide Inv, AdmitAll;
    if n == 0 {
      UptoNone(c, g, sessions, now);
    } else {
      UntouchedUpto(c, g, sessions, n - 1, now, i);
      UptoNext(c, g, sessions, n - 1, now, sessions[i].mac);
    }
  }

  /** The first session of its device that is not served: the one whose terms are written first. */
  ghost predicate IsFirstUnserved(c: Config, g: Box, sessions: seq<Request>, f: nat) {
    f < |sessions| && Placeable(c, sessions[f]) && !Serves(c, g, sessions[f])
    && forall j :: 0 <= j < f && Twins(c, sessions, f, j) ==> Serves(c, g, sessions[j])
  }

  /** Every later session of the device so far agrees with this one. */
  ghost predicate AllAgree(c: Config, sessions: seq<Request>, f: nat, n: nat)
    requires n <= |sessions|
  {
    forall j :: f <= j < n && Twins(c, sessions, f, j) ==> Agree(c, sessions[f], sessions[j])
  }

  /** The registry carries a session that disagrees with another one of the same device. */
  ghost predicate Torn(c: Config, g: Box, sessions: seq<Request>, f: nat) {
    exists w: nat, v: nat :: Twins(c, sessions, f, w) && Twins(c, sessions, f, v)
      && Carries(c, g, sessions[w]) && !Agree(c, sessions[w], sessions[v])
  }

  /**
   * From the first unserved session on the registry carries that session's terms as long
   * as all agree with it; after a disagreement it always carries terms another one
   * disagrees with.
   */
  lemma {:induction false} AfterFirstUnserved(c: Config, g: Box, sessions: seq<Request>, n: nat, now: int, f: nat)
    requires Inv(g) && |g.registry.Keys + Entitled(sessions)| <= CAPACITY && n <= |sessions|
    requires IsFirstUnserved(c, g, sessions, f) && f < n && sessions[f].mac in g.firewall
    ensures AllAgree(c, sessions, f, n) ==> Carries(c, Upto(c, g, sessions, n, now), sessions[f])
    ensures !AllAgree(c, sessions, f, n) ==> Torn(c, Upto(c, g, sessions, n, now), sessions, f)
  {
    hide Inv, AdmitAll, Entitled, Upto, Serves, Carries, Agree;
    var mac, k := sessions[f].mac, n - 1;
    UptoNext(c, g, sessions, k, now, mac);
    var g1, g2 := Upto(c, g, sessions, k, now), Upto(c, g, sessions, n, now);
    if k == f {
      UntouchedUpto(c, g, sessions, k, now, f);
      SameServes(c, g, g1, sessions[f]);
      TwinWritten(c, g1, g2, sessions[f], mac);
      AgreeBothWays(c, sessions[f], sessions[f]);
    } else {
      AfterFirstUnserved(c, g, sessions, k, now, f);
      assert AllAgree(c, sessions, f, n) ==> AllAgree(c, sessions, f, k);
      if Twins(c, sessions, f, k) {
        TwinAdmitted(c, g1, g2, sessions, f, k, n);
      } else {
        StrangerAdmitted(c, g1, g2, sessions, f);
      }
    }
  }

  lemma StrangerAdmitted(c: Config, g1: Box, g2: Box, sessions: seq<Request>, f: nat)
    requires f < |sessions| && Placeable(c, sessions[f]) && SameFor(g1, g2, sessions[f].mac)
    ensures Carries(c, g1, sessions[f]) ==> Carries(c, g2, sessions[f])
    ensures Torn(c, g1, sessions, f) ==> Torn(c, g2, sessions, f)
  {
    if Torn(c, g1, sessions, f) {
      var w: nat, v: nat :| Twins(c, sessions, f, w) && Twins(c, sessions, f, v)
        && Carries(c, g1, sessions[w]) && !Agree(c, sessions[w], sessions[v]);
      assert Carries(c, g2, sessions[w]);
    }
  }

  lemma TwinAdmitted(c: Config, g1: Box, g2: Box, sessions: seq<Request>, f: nat, k: nat, n: nat)
    requires k < n <= |sessions| && n == k + 1 && f < k && Twins(c, sessions, f, k) && sessions[f].mac in g1.firewall
    requires Admits(c, g1, g2, sessions[k], false, sessions[f].mac)
    requires AllAgree(c, sessions, f, k) ==> Carries(c, g1, sessions[f])
    requires !AllAgree(c, sessions, f, k) ==> Torn(c, g1, sessions, f)
    ensures AllAgree(c, sessions, f, n) ==> Carries(c, g2, sessions[f])
    ensures !AllAgree(c, sessions, f, n) ==> Torn(c, g2, sessions, f)
  {
    hide Admits, Carries, Agree, AllAgree, Serves, Placeable;
    AllAgreeNext(c, sessions, f, k);
    TwinWritten(c, g1, g2, sessions[k], sessions[f].mac);
    if AllAgree(c, sessions, f, k) {
      CarriedServesExactlyWhen(c, g1, sessions[f], sessions[k]);
      AgreeBothWays(c, sessions[f], sessions[k]);
    } else {
      var w: nat, v: nat :| Twins(c, sessions, f, w) && Twins(c, sessions, f, v)
        && Carries(c, g1, sessions[w]) && !Agree(c, sessions[w], sessions[v]);
      CarriedServesExactlyWhen(c, g1, sessions[w], sessions[k]);
      AgreeBothWays(c, sessions[w], sessions[k]);
    }
  }

  lemma TwinWritten(c: Config, g1: Box, g2: Box, req: Request, mac: Mac)
    requires req.mac == mac && Placeable(c, req) && mac in g1.firewall && Admits(c, g1, g2, req, false, mac)
    ensures if Serves(c, g1, req) then g2 == g1 else Carries(c, g2, req)
  {
  }

  lemma AllAgreeNext(c: Config, sessions: seq<Request>, f: nat, k: nat)
    requires f <= k < |sessions| && Twins(c, sessions, f, k)
    ensures AllAgree(c, sessions, f, k + 1) <==> AllAgree(c, sessions, f, k) && Agree(c, sessions[f], sessions[k])
  {
  }

  lemma AgreeBothWays(c: Config, a: Request, b: Request)
    requires Placeable(c, a) && Placeable(c, b)
    ensures Agree(c, a, b) <==> Agree(c, b, a)
    ensures Agree(c, a, a)
  {
  }

  /** A device the firewall had lost is rewritten by each of its sessions, so it carries the last one. */
  lemma {:induction false} LostCarriesLast(c: Config, g: Box, sessions: seq<Request>, n: nat, now: int, f: nat)
    requires Inv(g) && |g.registry.Keys + Entitled(sessions)| <= CAPACITY && n <= |sessions|
    requires f < n && Placeable(c, sessions[f]) && sessions[f].mac !in g.firewall
    requires forall j: nat :: f < j < n ==> !Twins(c, sessions, f, j)
    ensures Carries(c, Upto(c, g, sessions, n, now), sessions[f])
  {
    hide Inv, AdmitAll, Upto, Carries, SameFor;
    UptoNext(c, g, sessions, n - 1, now, sessions[f].mac);
    if n - 1 > f {
      LostCarriesLast(c, g, sessions, n - 1, now, f);
      assert !Twins(c, sessions, f, n - 1);
      StrangerAdmitted(c, Upto(c, g, sessions, n - 1, now), Upto(c, g, sessions, n, now), sessions, f);
    }
  }

  // ---- When a list settles ----

  /**
   * The session that decides for its device: the first one not served yet, or the last
   * one when the device is missing from the firewall.
   */
  ghost predicate Decides(c: Config, g: Box, sessions: seq<Request>, f: nat) {
    f < |sessions| && Placeable(c, sessions[f])
    && if sessions[f].mac in g.firewall then IsFirstUnserved(c, g, sessions, f) else IsLast(c, sessions, f)
  }

  /** Every session agrees with the one that decides for its device. */
  ghost predicate Settles(c: Config, g: Box, sessions: seq<Request>) {
    forall f: nat, j: nat ::
      Decides(c, g, sessions, f) && Twins(c, sessions, f, j) ==> Agree(c, sessions[f], sessions[j])
  }

  lemma {:induction false} FirstUnserved(c: Config, g: Box, sessions: seq<Request>, i: nat) returns (f: nat)
    requires i < |sessions| && Placeable(c, sessions[i]) && !Serves(c, g, sessions[i])
    ensures f <= i && Twins(c, sessions, f, i) && IsFirstUnserved(c, g, sessions, f)
  {
    if j: nat :| j < i && Twins(c, sessions, i, j) && !Serves(c, g, sessions[j]) {
      f := FirstUnserved(c, g, sessions, j);
    } else {
      f := i;
    }
  }

  lemma {:induction false} LastTwin(c: Config, sessions: seq<Request>, i: nat) returns (f: nat)
    requires i < |sessions| && Placeable(c, sessions[i])
    ensures Twins(c, sessions, f, i) && IsLast(c, sessions, f)
    decreases |sessions| - i
  {
    if j: nat :| i < j < |sessions| && Twins(c, sessions, i, j) {
      f := LastTwin(c, sessions, j);
    } else {
      assert forall k: nat ::
          i < k < |sessions| && sessions[k].mac == sessions[i].mac && Placeable(c, sessions[k])
          ==> Twins(c, sessions, i, k);
      f := i;
    }
  }

  lemma SameServes(c: Config, g: Box, g': Box, req: Request)
    requires SameFor(g, g', req.mac)
    ensures Serves(c, g', req) <==> Serves(c, g, req)
  {
  }

  /** A settled list is all served once it has been admitted. */
  lemma SettledIsServed(c: Config, g: Box, sessions: seq<Request>, now: int, i: nat)
    requires Inv(g) && |g.registry.Keys + Entitled(sessions)| <= CAPACITY
    requires Settles(c, g, sessions) && i < |sessions| && Placeable(c, sessions[i])
    ensures Serves(c, Upto(c, g, sessions, |sessions|, now), sessions[i])
  {
    hide Inv, AdmitAll, Agree, Upto, Carries, Serves, SameFor, Placeable, Entitled;
    var g' := Upto(c, g, sessions, |sessions|, now);
    if sessions[i].mac !in g.firewall {
      var f := LastTwin(c, sessions, i);
      LostCarriesLast(c, g, sessions, |sessions|, now, f);
      CarriedServesExactlyWhen(c, g', sessions[f], sessions[i]);
    } else if j: nat :| j < |sessions| && Twins(c, sessions, i, j) && !Serves(c, g, sessions[j]) {
      var f := FirstUnserved(c, g, sessions, j);
      assert Decides(c, g, sessions, f);
      AfterFirstUnserved(c, g, sessions, |sessions|, now, f);
      CarriedServesExactlyWhen(c, g', sessions[f], sessions[i]);
    } else {
      UntouchedUpto(c, g, sessions, |sessions|, now, i);
      assert Twins(c, sessions, i, i);
      SameServes(c, g, g', sessions[i]);
    }
  }

  /** And a list that is all served once it has been admitted was settled. */
  lemma ServedIsSettled(c: Config, g: Box, sessions: seq<Request>, now: int, f: nat, j: nat)
    requires Inv(g) && |g.registry.Keys + Entitled(sessions)| <= CAPACITY
    requires AllServed(c, Upto(c, g, sessions, |sessions|, now), sessions)
    requires Decides(c, g, sessions, f) && Twins(c, sessions, f, j)
    ensures Agree(c, sessions[f], sessions[j])
  {
    hide Inv, AdmitAll, Agree;
    var g' := Upto(c, g, sessions, |sessions|, now);
    if sessions[f].mac !in g.firewall {
      LostCarriesLast(c, g, sessions, |sessions|, now, f);
    } else {
      AfterFirstUnserved(c, g, sessions, |sessions|, now, f);
      if !AllAgree(c, sessions, f, |sessions|) {
        var w: nat, v: nat :| Twins(c, sessions, f, w) && Twins(c, sessions, f, v)
          && Carries(c, g', sessions[w]) && !Agree(c, sessions[w], sessions[v]);
        CarriedServesExactlyWhen(c, g', sessions[w], sessions[v]);
      }
    }
    CarriedServesExactlyWhen(c, g', sessions[f], sessions[j]);
  }

  lemma ServedExactlyWhenSettled(c: Config, g: Box, sessions: seq<Request>, now: int)
    requires Inv(g) && |g.registry.Keys + Entitled(sessions)| <= CAPACITY
    ensures AllServed(c, AdmitAll(c, g, sessions, g.firewall, now), sessions) <==> Settles(c, g, sessions)
  {
    hide Inv, AdmitAll, Agree, Serves, Decides, Placeable;
    assert sessions[..|sessions|] == sessions;
    if Settles(c, g, sessions) {
      forall i | 0 <= i < |sessions| && Placeable(c, sessions[i])
        ensures Serves(c, Upto(c, g, sessions, |sessions|, now), sessions[i])
      {
        SettledIsServed(c, g, sessions, now, i);
      }
    }
    if AllServed(c, Upto(c, g, sessions, |sessions|, now), sessions) {
      forall f: nat, j: nat | Decides(c, g, sessions, f) && Twins(c, sessions, f, j)
        ensures Agree(c, sessions[f], sessions[j])
      {
        ServedIsSettled(c, g, sessions, now, f, j);
      }
    }
  }

  lemma RevokingSparesListed(c: Config, g: Box, sessions: seq<Request>, startedAt: int, now: int, order: seq<Mac>)
    requires Inv(g) && |g.registry.Keys + Entitled(sessions)| <= CAPACITY
    requires IsRevocationOrder(c, g, sessions, startedAt, now, order)
    ensures AllServed(c, Sync(c, g, sessions, now, order), sessions)
            <==> AllServed(c, AdmitAll(c, g, sessions, g.firewall, now), sessions)
  {
    AdmitAllServes(c, g, sessions, now);
    RevokeAllRemoves(AdmitAll(c, g, sessions, g.firewall, now), order);
    hide Inv, AdmitAll, RevokeAll;
    var g1, g2 := AdmitAll(c, g, sessions, g.firewall, now), Sync(c, g, sessions, now, order);
    forall i | 0 <= i < |sessions| && Placeable(c, sessions[i])
      ensures Serves(c, g2, sessions[i]) <==> Serves(c, g1, sessions[i])
    {
      assert sessions[i].mac in Entitled(sessions) && sessions[i].mac !in order;
    }
  }

  /**
   * After one sync against any list, a second one against it writes nothing, and changes
   * nothing, exactly when the list settles from the state before the first and nobody
   * unlisted is left.
   */
  lemma SettlesExactlyWhen(c: Config, g: Box, sessions: seq<Request>, startedAt: int, now: int, order: seq<Mac>,
                           startedAt2: int, now2: int, order2: seq<Mac>)
    requires Inv(g) && |g.registry.Keys + Entitled(sessions)| <= CAPACITY
    requires IsRevocationOrder(c, g, sessions, startedAt, now, order)
    requires IsRevocationOrder(c, Sync(c, g, sessions, now, order), sessions, startedAt2, now2, order2)
    ensures var g1 := Sync(c, g, sessions, now, order);
            Sync(c, g1, sessions, now2, order2).writes == g1.writes
            <==> Settles(c, g, sessions) && Stale(g1, Entitled(sessions), startedAt2) == {}
  {
    hide Inv, AdmitAll, RevokeAll, Settles, AllServed;
    var g1 := Sync(c, g, sessions, now, order);
    SyncIsIdleExactlyWhen(c, g1, sessions, startedAt2, now2, order2);
    RevokingSparesListed(c, g, sessions, startedAt, now, order);
    ServedExactlyWhenSettled(c, g, sessions, now);
  }

  // ---- Settled after one sync, or never ----

  lemma RevokingSpares(g1: Box, order: seq<Mac>, listed: set<Mac>)
    requires Inv(g1) && forall mac :: mac in order ==> mac !in listed
    ensures var g2 := RevokeAll(g1, order);
            Inv(g2) && g2.registry.Keys <= g1.registry.Keys && forall mac :: mac in listed ==> SameFor(g1, g2, mac)
  {
    RevokeAllRemoves(g1, order);
    hide Inv, RevokeAll;
  }

  /** What the next sync starts from has as much room, and the listed devices as the admissions left them. */
  lemma SyncLeavesRoom(c: Config, g: Box, sessions: seq<Request>, startedAt: int, now: int, order: seq<Mac>)
    requires Inv(g) && |g.registry.Keys + Entitled(sessions)| <= CAPACITY
    requires IsRevocationOrder(c, g, sessions, startedAt, now, order)
    ensures var g1, g2 := Upto(c, g, sessions, |sessions|, now), Sync(c, g, sessions, now, order);
            Inv(g2) && |g2.registry.Keys + Entitled(sessions)| <= CAPACITY
            && forall mac :: mac in Entitled(sessions) ==> SameFor(g1, g2, mac)
  {
    UptoAll(c, g, sessions, now);
    hide Inv, AdmitAll, RevokeAll, Upto, SameFor, Entitled;
    UptoHasRoom(c, g, sessions, |sessions|, now);
    var g1, g2 := Upto(c, g, sessions, |sessions|, now), Sync(c, g, sessions, now, order);
    assert forall mac :: mac in order ==> mac in Stale(g1, Entitled(sessions), startedAt);
    RevokingSpares(g1, order, Entitled(sessions));
    Sets.SubsetIsSmaller(g2.registry.Keys + Entitled(sessions), g.registry.Keys + Entitled(sessions));
  }

  lemma UptoAll(c: Config, g: Box, sessions: seq<Request>, now: int)
    ensures Upto(c, g, sessions, |sessions|, now) == AdmitAll(c, g, sessions, g.firewall, now)
  {
    assert sessions[..|sessions|] == sessions;
  }

  /** A list that does not settle leaves a device with terms that another of its sessions disagrees with. */
  lemma UnsettledLeavesTorn(c: Config, g: Box, sessions: seq<Request>, now: int, f: nat, j: nat)
    requires Inv(g) && |g.registry.Keys + Entitled(sessions)| <= CAPACITY
    requires Decides(c, g, sessions, f) && Twins(c, sessions, f, j) && !Agree(c, sessions[f], sessions[j])
    ensures Torn(c, Upto(c, g, sessions, |sessions|, now), sessions, f)
  {
    hide Inv, AdmitAll, Agree, Upto, Carries, Serves, Placeable, Entitled;
    assert Twins(c, sessions, f, f);
    if sessions[f].mac !in g.firewall {
      LostCarriesLast(c, g, sessions, |sessions|, now, f);
    } else {
      AfterFirstUnserved(c, g, sessions, |sessions|, now, f);
    }
  }

  /** A torn device keeps its list from settling. */
  lemma TornNeverSettles(c: Config, g: Box, sessions: seq<Request>, f: nat)
    requires Torn(c, g, sessions, f)
    ensures !Settles(c, g, sessions)
  {
    var w: nat, v: nat :| Twins(c, sessions, f, w) && Twins(c, sessions, f, v)
      && Carries(c, g, sessions[w]) && !Agree(c, sessions[w], sessions[v]);
    assert sessions[v].mac in g.firewall;
    CarriedServesExactlyWhen(c, g, sessions[w], sessions[v]);
    var f1 := FirstUnserved(c, g, sessions, v);
    CarriedServesExactlyWhen(c, g, sessions[w], sessions[f1]);
    AgreeBothWays(c, sessions[w], sessions[f1]);
    assert Decides(c, g, sessions, f1) && Twins(c, sessions, f1, w);
  }

  /** A list that does not settle does not settle after a sync either. */
  lemma UnsettledStays(c: Config, g: Box, sessions: seq<Request>, startedAt: int, now: int, order: seq<Mac>)
    requires Inv(g) && |g.registry.Keys + Entitled(sessions)| <= CAPACITY && !Settles(c, g, sessions)
    requires IsRevocationOrder(c, g, sessions, startedAt, now, order)
    ensures !Settles(c, Sync(c, g, sessions, now, order), sessions)
  {
    var f: nat, j: nat :|
      Decides(c, g, sessions, f) && Twins(c, sessions, f, j) && !Agree(c, sessions[f], sessions[j]);
    assert sessions[f].mac in Entitled(sessions);
    SyncLeavesRoom(c, g, sessions, startedAt, now, order);
    hide Inv, Agree, Settles, Decides, Upto, Sync, Torn;
    UnsettledLeavesTorn(c, g, sessions, now, f, j);
    StrangerAdmitted(c, Upto(c, g, sessions, |sessions|, now), Sync(c, g, sessions, now, order), sessions, f);
    TornNeverSettles(c, Sync(c, g, sessions, now, order), sessions, f);
  }

  /** One more sync: when it starts and acts, and the order of its revocations. */
  datatype Round = Round(startedAt: int, now: int, order: seq<Mac>)

  ghost predicate AreRounds(c: Config, g: Box, sessions: seq<Request>, rounds: seq<Round>)
    decreases |rounds|
  {
    rounds == []
    || (IsRevocationOrder(c, g, sessions, rounds[0].startedAt, rounds[0].now, rounds[0].order)
        && AreRounds(c, Sync(c, g, sessions, rounds[0].now, rounds[0].order), sessions, rounds[1..]))
  }

  ghost predicate EveryRoundWrites(c: Config, g: Box, sessions: seq<Request>, rounds: seq<Round>)
    decreases |rounds|
  {
    rounds == []
    || (var g' := Sync(c, g, sessions, rounds[0].now, rounds[0].order);
        g'.writes != g.writes && EveryRoundWrites(c, g', sessions, rounds[1..]))
  }

  /** Each round writes exactly when somebody unlisted is left from before it. */
  ghost predicate RoundsOnlyRevoke(c: Config, g: Box, sessions: seq<Request>, rounds: seq<Round>)
    decreases |rounds|
  {
    rounds == []
    || (var g' := Sync(c, g, sessions, rounds[0].now, rounds[0].order);
        (g'.writes == g.writes <==> Stale(g, Entitled(sessions), rounds[0].startedAt) == {})
        && RoundsOnlyRevoke(c, g', sessions, rounds[1..]))
  }

  lemma UnservedRoundWrites(c: Config, g: Box, sessions: seq<Request>, startedAt: int, now: int, order: seq<Mac>)
    requires Inv(g) && |g.registry.Keys + Entitled(sessions)| <= CAPACITY && !Settles(c, g, sessions)
    requires IsRevocationOrder(c, g, sessions, startedAt, now, order)
    ensures Sync(c, g, sessions, now, order).writes != g.writes
  {
    hide Inv, AdmitAll, RevokeAll, Settles, IsRevocationOrder;
    SyncIsIdleExactlyWhen(c, g, sessions, startedAt, now, order);
    ServedExactlyWhenSettled(c, g, sessions, now);
    if AllServed(c, g, sessions) { ServedListIsIdle(c, g, sessions, now); }
  }

  lemma {:induction false} UnsettledRounds(c: Config, g: Box, sessions: seq<Request>, rounds: seq<Round>)
    requires Inv(g) && |g.registry.Keys + Entitled(sessions)| <= CAPACITY && !Settles(c, g, sessions)
    requires AreRounds(c, g, sessions, rounds)
    ensures EveryRoundWrites(c, g, sessions, rounds)
    decreases |rounds|
  {
    hide Inv, Settles, IsRevocationOrder, Sync;
    if rounds != [] {
      var r := rounds[0];
      UnservedRoundWrites(c, g, sessions, r.startedAt, r.now, r.order);
      UnsettledStays(c, g, sessions, r.startedAt, r.now, r.order);
      SyncLeavesRoom(c, g, sessions, r.startedAt, r.now, r.order);
      UnsettledRounds(c, Sync(c, g, sessions, r.now, r.order), sessions, rounds[1..]);
    }
  }

  lemma {:induction false} ServedRounds(c: Config, g: Box, sessions: seq<Request>, rounds: seq<Round>)
    requires Inv(g) && |g.registry.Keys + Entitled(sessions)| <= CAPACITY && AllServed(c, g, sessions)
    requires AreRounds(c, g, sessions, rounds)
    ensures RoundsOnlyRevoke(c, g, sessions, rounds)
    decreases |rounds|
  {
    if rounds != [] {
      var r := rounds[0];
      ServedListIsIdle(c, g, sessions, r.now);
      hide Inv, AllServed, IsRevocationOrder, Sync, Stale;
      SyncIsIdleExactlyWhen(c, g, sessions, r.startedAt, r.now, r.order);
      RevokingSparesListed(c, g, sessions, r.startedAt, r.now, r.order);
      SyncLeavesRoom(c, g, sessions, r.startedAt, r.now, r.order);
      ServedRounds(c, Sync(c, g, sessions, r.now, r.order), sessions, rounds[1..]);
    }
  }

  /**
   * Settled after one sync, or never: against any list, when it settles from the state
   * before the first sync, no later one writes but to revoke; when it does not, every later
   * one writes.
   */
  lemma SettlesAfterOneOrNever(c: Config, g: Box, sessions: seq<Request>, startedAt: int, now: int, order: seq<Mac>,
                               later: seq<Round>)
    requires Inv(g) && |g.registry.Keys + Entitled(sessions)| <= CAPACITY
    requires IsRevocationOrder(c, g, sessions, startedAt, now, order)
    requires AreRounds(c, Sync(c, g, sessions, now, order), sessions, later)
    ensures var g1 := Sync(c, g, sessions, now, order);
            if Settles(c, g, sessions) then RoundsOnlyRevoke(c, g1, sessions, later)
            else EveryRoundWrites(c, g1, sessions, later)
  {
    hide *;
    SyncLeavesRoom(c, g, sessions, startedAt, now, order);
    var g1 := Sync(c, g, sessions, now, order);
    if Settles(c, g, sessions) {
      ServedExactlyWhenSettled(c, g, sessions, now);
      RevokingSparesListed(c, g, sessions, startedAt, now, order);
      ServedRounds(c, g1, sessions, later);
    } else {
      UnsettledStays(c, g, sessions, startedAt, now, order);
      UnsettledRounds(c, g1, sessions, later);
    }
  }

  // ---- Two sessions a device ----

  ghost predicate AtMostTwoEach(c: Config, sessions: seq<Request>) {
    forall i: nat, j: nat, k: nat :: i < j < k && Twins(c, sessions, i, j) ==> !Twins(c, sessions, j, k)
  }

  /**
   * With at most two sessions a device the list settles exactly when every two sessions
   * of one device agree, or were both served before.
   */
  lemma PairsSettleExactlyWhen(c: Config, g: Box, sessions: seq<Request>)
    requires AtMostTwoEach(c, sessions)
    ensures Settles(c, g, sessions)
            <==> forall i: nat, j: nat :: i < j && Twins(c, sessions, i, j) ==>
                   Agree(c, sessions[i], sessions[j]) || (Serves(c, g, sessions[i]) && Serves(c, g, sessions[j]))
  {
    hide Agree, Serves, AtMostTwoEach;
    if Settles(c, g, sessions) {
      forall i: nat, j: nat | i < j && Twins(c, sessions, i, j)
        ensures Agree(c, sessions[i], sessions[j]) || (Serves(c, g, sessions[i]) && Serves(c, g, sessions[j]))
      {
        PairSettled(c, g, sessions, i, j);
      }
    } else {
      var f: nat, j: nat :|
        Decides(c, g, sessions, f) && Twins(c, sessions, f, j) && !Agree(c, sessions[f], sessions[j]);
      PairUnsettled(c, g, sessions, f, j);
    }
  }

  lemma NoThirdTwin(c: Config, sessions: seq<Request>, i: nat, j: nat, k: nat)
    requires AtMostTwoEach(c, sessions) && i < j && Twins(c, sessions, i, j)
    requires k < |sessions| && sessions[k].mac == sessions[i].mac && Placeable(c, sessions[k])
    ensures k == i || k == j
  {
    if k < i {
      assert Twins(c, sessions, k, i);
    } else if i < k < j {
      assert Twins(c, sessions, i, k) && Twins(c, sessions, k, j);
    } else if j < k {
      assert Twins(c, sessions, j, k);
    }
  }

  lemma PairSettled(c: Config, g: Box, sessions: seq<Request>, i: nat, j: nat)
    requires Settles(c, g, sessions) && AtMostTwoEach(c, sessions) && i < j && Twins(c, sessions, i, j)
    ensures Agree(c, sessions[i], sessions[j]) || (Serves(c, g, sessions[i]) && Serves(c, g, sessions[j]))
  {
    hide Agree, Serves, Placeable, AtMostTwoEach;
    AgreeBothWays(c, sessions[i], sessions[j]);
    forall k: nat | k < |sessions| && sessions[k].mac == sessions[i].mac && Placeable(c, sessions[k])
      ensures k == i || k == j
    {
      NoThirdTwin(c, sessions, i, j, k);
    }
    if sessions[i].mac !in g.firewall {
      assert Decides(c, g, sessions, j) && Twins(c, sessions, j, i);
    } else if !Serves(c, g, sessions[i]) {
      assert Decides(c, g, sessions, i);
    } else if !Serves(c, g, sessions[j]) {
      assert Decides(c, g, sessions, j) && Twins(c, sessions, j, i);
    }
  }

  lemma PairUnsettled(c: Config, g: Box, sessions: seq<Request>, f: nat, j: nat)
    requires Decides(c, g, sessions, f) && Twins(c, sessions, f, j) && !Agree(c, sessions[f], sessions[j])
    ensures exists i: nat, k: nat :: i < k && Twins(c, sessions, i, k)
              && !Agree(c, sessions[i], sessions[k]) && !(Serves(c, g, sessions[i]) && Serves(c, g, sessions[k]))
  {
    AgreeBothWays(c, sessions[f], sessions[j]);
    assert !Serves(c, g, sessions[f]);
    if f < j {
      assert Twins(c, sessions, f, j);
    } else {
      assert Twins(c, sessions, j, f);
    }
  }

  /** Three sessions that expire at 0, 8 and 4 minutes settle, although the first two disagree. */
  lemma ThreeCanSettle(c: Config, req: Request)
    requires Placeable(c, req)
    ensures var sessions := [req.(expiresAt := 0), req.(expiresAt := 480_000), req.(expiresAt := 240_000)];
            Twins(c, sessions, 0, 1) && !Agree(c, sessions[0], sessions[1]) && Settles(c, EMPTY, sessions)
  {
    var sessions := [req.(expiresAt := 0), req.(expiresAt := 480_000), req.(expiresAt := 240_000)];
    forall f: nat, j: nat | Decides(c, EMPTY, sessions, f) && Twins(c, sessions, f, j)
      ensures Agree(c, sessions[f], sessions[j])
    {
      assert Placeable(c, sessions[2]) && IsLast(c, sessions, f);
      assert f == 2;
    }
  }

  /**
   * No registry entry can serve both of two sessions exactly when they differ in more than expiry, or
   * expire too far apart.
   */
  predicate Conflict(c: Config, a: Request, b: Request)
    requires Placeable(c, a) && Placeable(c, b)
  {
    RouterOf(c, a) != RouterOf(c, b) || a.downKbps != b.downKbps || a.upKbps != b.upKbps
    || Abs(a.expiresAt - b.expiresAt) >= 2 * EXPIRY_TOLERANCE_MS - 1
  }

  lemma OneEntryServesBothExactlyWhen(c: Config, a: Request, b: Request)
    requires Placeable(c, a) && Placeable(c, b) && a.mac == b.mac
    ensures (exists e: Entry :: Admission.Matches(e, RouterOf(c, a), a) && Admission.Matches(e, RouterOf(c, b), b))
            <==> !Conflict(c, a, b)
  {
    if !Conflict(c, a, b) {
      var sooner := if a.expiresAt <= b.expiresAt then a.expiresAt else b.expiresAt;
      var later := if a.expiresAt <= b.expiresAt then b.expiresAt else a.expiresAt;
      var e := Entry(RouterOf(c, a), sooner + (later - sooner) / 2, a.downKbps, a.upKbps, 0, ZERO);
      assert Admission.Matches(e, RouterOf(c, a), a) && Admission.Matches(e, RouterOf(c, b), b);
    }
  }

  /** Two such sessions in a list keep every sync writing, from any state. */
  lemma ConflictNeverSettles(c: Config, g: Box, sessions: seq<Request>, i: nat, j: nat,
                             startedAt: int, now: int, order: seq<Mac>)
    requires Twins(c, sessions, i, j) && Conflict(c, sessions[i], sessions[j])
    requires IsRevocationOrder(c, g, sessions, startedAt, now, order)
    ensures Sync(c, g, sessions, now, order).writes != g.writes
  {
    SyncIsIdleExactlyWhen(c, g, sessions, startedAt, now, order);
  }

  // ---- Whom the firewall lets through ----

  ghost predicate ListsPlaceable(c: Config, sessions: seq<Request>, mac: Mac) {
    exists i :: 0 <= i < |sessions| && sessions[i].mac == mac && Placeable(c, sessions[i])
  }

  lemma {:induction false} AdmitAllOpens(c: Config, g: Box, sessions: seq<Request>, n: nat, now: int, mac: Mac)
    requires Inv(g) && |g.registry.Keys + Entitled(sessions)| <= CAPACITY && n <= |sessions|
    ensures mac in Upto(c, g, sessions, n, now).firewall <==> mac in g.firewall || ListsPlaceable(c, sessions[..n], mac)
  {
    hide Inv, AdmitAll, Serves;
    if n == 0 {
      UptoNone(c, g, sessions, now);
    } else {
      AdmitAllOpens(c, g, sessions, n - 1, now, mac);
      UptoNext(c, g, sessions, n - 1, now, mac);
      assert sessions[..n] == sessions[..n - 1] + [sessions[n - 1]];
      assert sessions[..n][n - 1] == sessions[n - 1];
      if ListsPlaceable(c, sessions[..n - 1], mac) {
        var i :| 0 <= i < n - 1 && sessions[..n - 1][i].mac == mac && Placeable(c, sessions[..n - 1][i]);
        assert sessions[..n][i] == sessions[i];
      }
    }
  }

  /**
   * After a sync the firewall lets through exactly the listed devices that can be placed,
   * and of those it let through before the ones that are listed or were admitted since
   * the sync began.
   */
  lemma LetThroughAfterSync(c: Config, g: Box, sessions: seq<Request>, startedAt: int, now: int, order: seq<Mac>,
                            mac: Mac)
    requires Inv(g) && Backed(g) && |g.registry.Keys + Entitled(sessions)| <= CAPACITY
    requires IsRevocationOrder(c, g, sessions, startedAt, now, order)
    ensures mac in Sync(c, g, sessions, now, order).firewall
            <==> ListsPlaceable(c, sessions, mac)
                 || (mac in g.firewall && (mac in Entitled(sessions) || g.registry[mac].admittedAt >= startedAt))
  {
    assert sessions[..|sessions|] == sessions;
    AdmitAllOpens(c, g, sessions, |sessions|, now, mac);
    AdmitAllServes(c, g, sessions, now);
    RevokeAllRemoves(AdmitAll(c, g, sessions, g.firewall, now), order);
    hide Inv, AdmitAll, RevokeAll, Placeable, Serves;
    if ListsPlaceable(c, sessions, mac) { assert mac in Entitled(sessions); }
  }
}
