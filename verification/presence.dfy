/**
 * Which routers are provably up, and the tree they are shown in. Parent links come from
 * the database and may form cycles or lead to routers that are not there.
 */
module Presence {
  import opened Options
  import opened OrderedMaps

  datatype Id = Id(text: string)

  datatype Router = Router(id: Id, mac: Option<string>, parent: Option<Id>)

  datatype Probe = Probe(routerId: Id, ip: Option<string>, reachable: bool)
  datatype Segment = Segment(routerId: Id, name: string)
  datatype Lease = Lease(mac: string, ip: Option<string>, segment: string, online: bool)
  datatype NetworkStatus = NetworkStatus(probes: seq<Probe>, segments: seq<Segment>, leases: seq<Lease>)

  datatype Reason = Ping | Clients | Downstream

  // ---- Client devices ----

  function Upper(s: string): string {
    seq(|s|, i requires 0 <= i < |s| => if 'a' <= s[i] <= 'z' then s[i] - 'a' + 'A' else s[i])
  }

  function RouterMacs(routers: seq<Router>): set<string> {
    set r | r in routers && r.mac.Some? && r.mac.value != "" :: Upper(r.mac.value)
  }

  function RouterIps(status: NetworkStatus): set<string> {
    set p | p in status.probes && p.ip.Some? && p.ip.value != "" :: p.ip.value
  }

  predicate IsClient(d: Lease, routerMacs: set<string>, routerIps: set<string>) {
    d.online && d.mac !in routerMacs && (d.ip.Some? ==> d.ip.value !in routerIps)
  }

  function ClientDevices(leases: seq<Lease>, routerMacs: set<string>, routerIps: set<string>): (r: seq<Lease>)
    ensures forall d :: d in r <==> d in leases && IsClient(d, routerMacs, routerIps)
  {
    if leases == [] then []
    else (if IsClient(leases[0], routerMacs, routerIps) then [leases[0]] else [])
         + ClientDevices(leases[1..], routerMacs, routerIps)
  }

  // ---- What proves a router up ----

  ghost predicate Pinged(status: NetworkStatus, id: Id) {
    exists p :: p in status.probes && p.routerId == id && p.reachable
  }

  ghost predicate HasClientOn(clients: seq<Lease>, segment: string) {
    exists d :: d in clients && d.segment == segment
  }

  /** An online client on a segment proves the router at its root. */
  ghost predicate HasClientSegment(segments: seq<Segment>, clients: seq<Lease>, id: Id) {
    exists s :: s in segments && s.routerId == id && HasClientOn(clients, s.name)
  }

  ghost predicate IsSeed(status: NetworkStatus, routers: seq<Router>, id: Id) {
    Pinged(status, id)
    || HasClientSegment(status.segments, ClientDevices(status.leases, RouterMacs(routers), RouterIps(status)), id)
  }

  /** The first reason found, in the order the proofs are looked for. */
  ghost function ReasonFor(status: NetworkStatus, routers: seq<Router>, id: Id): Reason {
    if Pinged(status, id) then Ping else if IsSeed(status, routers, id) then Clients else Downstream
  }

  /** A client is an online device that is none of the routers, by upper-case MAC, nor at a router's address. */
  ghost predicate IsGuest(status: NetworkStatus, routers: seq<Router>, d: Lease) {
    d in status.leases && d.online
    && (forall r :: r in routers && r.mac.Some? && r.mac.value != "" ==> Upper(r.mac.value) != d.mac)
    && (forall p :: p in status.probes && p.ip.Some? && p.ip.value != "" ==> p.ip != d.ip)
  }

  lemma ClientsAreGuests(status: NetworkStatus, routers: seq<Router>, d: Lease)
    ensures d in ClientDevices(status.leases, RouterMacs(routers), RouterIps(status)) <==> IsGuest(status, routers, d)
  {
  }

  /**
   * A router answers a ping; else it carries a segment on which a guest is online; else it
   * is up for what lies below it.
   */
  lemma ReasonIs(status: NetworkStatus, routers: seq<Router>, id: Id)
    ensures var pinged := exists p :: p in status.probes && p.routerId == id && p.reachable;
            var guests := exists s, d :: s in status.segments && s.routerId == id && IsGuest(status, routers, d)
                                         && d.segment == s.name;
            (IsSeed(status, routers, id) <==> pinged || guests)
            && ReasonFor(status, routers, id) == if pinged then Ping else if guests then Clients else Downstream
  {
    hide ClientDevices, RouterMacs, RouterIps, IsGuest;
    var clients := ClientDevices(status.leases, RouterMacs(routers), RouterIps(status));
    forall d
      ensures d in clients <==> IsGuest(status, routers, d)
    {
      ClientsAreGuests(status, routers, d);
    }
    if s, d :| s in status.segments && s.routerId == id && IsGuest(status, routers, d) && d.segment == s.name {
      assert HasClientOn(clients, s.name);
    }
  }

  // ---- Parents ----

  /** The last router of a repeated id wins, as in a Map built from the list. */
  function ById(routers: seq<Router>): (m: map<Id, Router>)
    ensures forall id :: id in m ==> m[id] in routers && m[id].id == id
    ensures forall r :: r in routers ==> r.id in m
  {
    if routers == [] then map[]
    else
      var r := routers[|routers| - 1];
      ById(routers[..|routers| - 1])[r.id := r]
  }

  lemma {:induction false} LastOfAnIdWins(routers: seq<Router>, i: nat)
    requires i < |routers| && forall j :: i < j < |routers| ==> routers[j].id != routers[i].id
    ensures routers[i].id in ById(routers) && ById(routers)[routers[i].id] == routers[i]
  {
    hide ById;
    OneRouterMore(routers);
    var before := routers[..|routers| - 1];
    if i < |before| {
      assert before[i] == routers[i] && routers[|routers| - 1].id != routers[i].id;
      assert forall j :: i < j < |before| ==> before[j] == routers[j];
      LastOfAnIdWins(before, i);
    }
  }

  lemma OneRouterMore(routers: seq<Router>)
    requires routers != []
    ensures var before, r := routers[..|routers| - 1], routers[|routers| - 1];
            ById(routers) == ById(before)[r.id := r]
  {
  }

  function ParentOf(byId: map<Id, Router>, id: Id): Option<Id> {
    if id in byId then byId[id].parent else None
  }

  function Parents(byId: map<Id, Router>): set<Id> {
    set id | id in byId && byId[id].parent.Some? :: byId[id].parent.value
  }

  /** Closed upwards: with a router, its parent. */
  ghost predicate Closed(byId: map<Id, Router>, ids: set<Id>) {
    forall id :: id in ids && ParentOf(byId, id).Some? ==> ParentOf(byId, id).value in ids
  }

  ghost predicate HoldsSeeds(status: NetworkStatus, routers: seq<Router>, ids: set<Id>) {
    forall id :: IsSeed(status, routers, id) ==> id in ids
  }

  /** The least set that holds every proven router and, with each, the routers above it. */
  ghost predicate IsUpwardClosure(status: NetworkStatus, routers: seq<Router>, ids: set<Id>) {
    HoldsSeeds(status, routers, ids) && Closed(ById(routers), ids)
    && forall other :: HoldsSeeds(status, routers, other) && Closed(ById(routers), other) ==> ids <= other
  }

  /** Both parents and closure are determined: there is one such set. */
  lemma ClosureIsUnique(status: NetworkStatus, routers: seq<Router>, a: set<Id>, b: set<Id>)
    requires IsUpwardClosure(status, routers, a) && IsUpwardClosure(status, routers, b)
    ensures a == b
  {
    assert a <= b && b <= a;
  }

  // ---- Marking ----

  lemma PutChangesOnly<V>(m: OMap<Id, V>, k: Id, v: V)
    ensures forall j :: j != k ==> Find(Put(m, k, v), j) == Find(m, j)
  {
    forall j | j != k
      ensures Find(Put(m, k, v), j) == Find(m, j)
    {
      PutSparesOthers(m, k, v, j);
    }
  }

  function MarkAbsent(m: OMap<Id, Reason>, id: Id, reason: Reason): OMap<Id, Reason> {
    if Find(m, id) == None then Put(m, id, reason) else m
  }

  /** `marked` is `base` with every router of `extra` that it lacked, for one same reason. */
  ghost predicate IsMarked(base: OMap<Id, Reason>, marked: OMap<Id, Reason>, extra: set<Id>, reason: Reason) {
    Keys(marked) == Keys(base) + extra
    && (forall id :: id in Keys(base) ==> Find(marked, id) == Find(base, id))
    && forall id :: id in extra && id !in Keys(base) ==> Find(marked, id) == Some(reason)
  }

  lemma MarkOne(base: OMap<Id, Reason>, marked: OMap<Id, Reason>, extra: set<Id>, reason: Reason, id: Id)
    requires IsMarked(base, marked, extra, reason)
    ensures IsMarked(base, MarkAbsent(marked, id, reason), extra + {id}, reason)
  {
    hide Find, Put;
    PutChangesOnly(marked, id, reason);
  }

  lemma NothingMarked(base: OMap<Id, Reason>, reason: Reason)
    ensures IsMarked(base, base, {}, reason)
  {
  }

  lemma MarkedHasBase(base: OMap<Id, Reason>, marked: OMap<Id, Reason>, extra: set<Id>, reason: Reason, id: Id)
    requires IsMarked(base, marked, extra, reason) && id in Keys(base)
    ensures id in Keys(marked)
  {
  }

  lemma MarkedTwice(a: OMap<Id, Reason>, b: OMap<Id, Reason>, c: OMap<Id, Reason>, x: set<Id>, y: set<Id>,
                    reason: Reason)
    requires IsMarked(a, b, x, reason) && IsMarked(b, c, y, reason)
    ensures IsMarked(a, c, x + y, reason)
  {
    hide Find;
  }

  /** The walk up from `id` has seen `seen` and stands at `at`. */
  ghost predicate WalkedTo(byId: map<Id, Router>, id: Id, seen: set<Id>, at: Option<Id>) {
    id in seen
    && (at.Some? ==> at.value in Parents(byId))
    && forall x :: x in seen ==> ParentOf(byId, x) == at || (ParentOf(byId, x).Some? && ParentOf(byId, x).value in seen)
  }

  /** The walk never leaves a closed set that holds its start. */
  ghost predicate StaysIn(t: set<Id>, seen: set<Id>, at: Option<Id>) { seen <= t && (at.Some? ==> at.value in t) }

  lemma WalkOn(byId: map<Id, Router>, id: Id, seen: set<Id>, p: Id)
    requires WalkedTo(byId, id, seen, Some(p))
    ensures WalkedTo(byId, id, seen + {p}, ParentOf(byId, p))
    ensures forall t :: Closed(byId, t) && StaysIn(t, seen, Some(p)) ==> StaysIn(t, seen + {p}, ParentOf(byId, p))
  {
  }

  lemma WalkDone(byId: map<Id, Router>, id: Id, seen: set<Id>, at: Option<Id>)
    requires WalkedTo(byId, id, seen, at) && (at.Some? ==> at.value in seen)
    ensures Closed(byId, seen)
  {
  }

  /** A router and all above it: the least closed set that holds it. */
  ghost predicate IsAncestry(byId: map<Id, Router>, id: Id, above: set<Id>) {
    id in above && Closed(byId, above) && forall t :: Closed(byId, t) && id in t ==> above <= t
  }

  /** Adds everything above one router, whatever cycle the links run into. */
  method MarkAncestors(presence: OMap<Id, Reason>, byId: map<Id, Router>, id: Id) returns (marked: OMap<Id, Reason>)
    requires id in Keys(presence)
    ensures exists above :: IsAncestry(byId, id, above) && IsMarked(presence, marked, above, Downstream)
  {
    marked := presence;
    var parent, seen := ParentOf(byId, id), {id};
    assert WalkedTo(byId, id, seen, parent) && IsMarked(presence, marked, seen, Downstream);
    assert forall t :: Closed(byId, t) && id in t ==> StaysIn(t, seen, parent);
    hide Parents, ParentOf, IsMarked, MarkAbsent, Keys, Closed;
    while parent.Some? && parent.value !in seen
      invariant WalkedTo(byId, id, seen, parent) && IsMarked(presence, marked, seen, Downstream)
      invariant forall t :: Closed(byId, t) && id in t ==> StaysIn(t, seen, parent)
      decreases |Parents(byId) - seen|
    {
      var p := parent.value;
      assert Parents(byId) - seen == (Parents(byId) - (seen + {p})) + {p};
      MarkOne(presence, marked, seen, Downstream, p);
      marked := MarkAbsent(marked, p, Downstream);
      WalkOn(byId, id, seen, p);
      seen := seen + {p};
      parent := ParentOf(byId, p);
    }
    WalkDone(byId, id, seen, parent);
    assert IsAncestry(byId, id, seen);
  }

  /** Keeps, of the segments' routers with an online client, those no ping has proven. */
  method MarkClientRouters(presence: OMap<Id, Reason>, segments: seq<Segment>, clients: seq<Lease>)
    returns (marked: OMap<Id, Reason>)
    ensures forall id :: id in Keys(marked) <==> id in Keys(presence) || HasClientSegment(segments, clients, id)
    ensures forall id :: id in Keys(presence) ==> Find(marked, id) == Find(presence, id)
    ensures forall id :: id in Keys(marked) && id !in Keys(presence) ==> Find(marked, id) == Some(Clients)
  {
    marked := presence;
    for i := 0 to |segments|
      invariant forall id ::
                  id in Keys(marked) <==> id in Keys(presence) || HasClientSegment(segments[..i], clients, id)
      invariant forall id :: id in Keys(presence) ==> Find(marked, id) == Find(presence, id)
      invariant forall id :: id in Keys(marked) && id !in Keys(presence) ==> Find(marked, id) == Some(Clients)
    {
      var seg := segments[i];
      assert segments[..i + 1] == segments[..i] + [seg];
      if Find(marked, seg.routerId) == None && exists d :: d in clients && d.segment == seg.name {
        assert HasClientOn(clients, seg.name);
        PutChangesOnly(marked, seg.routerId, Clients);
        marked := Put(marked, seg.routerId, Clients);
      }
    }
    assert segments[..|segments|] == segments;
  }

  /** The routers proven on their own, pings before clients. */
  method Seeds(status: NetworkStatus, routers: seq<Router>) returns (seeds: OMap<Id, Reason>)
    ensures forall id :: id in Keys(seeds) <==> IsSeed(status, routers, id)
    ensures forall id :: id in Keys(seeds) ==> Find(seeds, id) == Some(ReasonFor(status, routers, id))
  {
    var clients := ClientDevices(status.leases, RouterMacs(routers), RouterIps(status));
    var pinged := MarkPinged(status.probes);
    assert forall id :: id in Keys(pinged) <==> Pinged(status, id);
    seeds := MarkClientRouters(pinged, status.segments, clients);
    assert forall id :: id in Keys(seeds) <==> IsSeed(status, routers, id);
  }

  method MarkPinged(probes: seq<Probe>) returns (marked: OMap<Id, Reason>)
    ensures forall id :: id in Keys(marked) <==> exists p :: p in probes && p.routerId == id && p.reachable
    ensures forall id :: id in Keys(marked) ==> Find(marked, id) == Some(Ping)
  {
    marked := [];
    for i := 0 to |probes|
      invariant forall id :: id in Keys(marked) <==> exists p :: p in probes[..i] && p.routerId == id && p.reachable
      invariant forall id :: id in Keys(marked) ==> Find(marked, id) == Some(Ping)
    {
      assert probes[..i + 1] == probes[..i] + [probes[i]];
      if probes[i].reachable {
        PutChangesOnly(marked, probes[i].routerId, Ping);
        marked := Put(marked, probes[i].routerId, Ping);
      }
    }
    assert probes[..|probes|] == probes;
  }

  method InferPresence(status: NetworkStatus, routers: seq<Router>) returns (presence: OMap<Id, Reason>)
    ensures IsUpwardClosure(status, routers, Keys(presence))
    ensures forall id :: id in Keys(presence) ==> Find(presence, id) == Some(ReasonFor(status, routers, id))
  {
    hide Find, IsSeed, ReasonFor, ParentOf, IsMarked, IsUpwardClosure, ById;
    var seeds := Seeds(status, routers);
    var byId := ById(routers);
    presence := seeds;
    NothingMarked(seeds, Downstream);
    ghost var covered: set<Id> := {};
    for i := 0 to |seeds|
      invariant IsMarked(seeds, presence, covered, Downstream) && Closed(byId, covered)
      invariant forall k :: 0 <= k < i ==> seeds[k].0 in covered
      invariant forall t :: HoldsSeeds(status, routers, t) && Closed(byId, t) ==> covered <= t
    {
      assert seeds[i].0 in Keys(seeds);
      MarkedHasBase(seeds, presence, covered, Downstream, seeds[i].0);
      ghost var before := presence;
      presence := MarkAncestors(presence, byId, seeds[i].0);
      ghost var above :| IsAncestry(byId, seeds[i].0, above) && IsMarked(before, presence, above, Downstream);
      MarkedTwice(seeds, before, presence, covered, above, Downstream);
      covered := covered + above;
    }
    CoveredIsClosure(status, routers, seeds, presence, covered);
  }

  /** Once every seed is covered, what is marked is the closure. */
  lemma CoveredIsClosure(status: NetworkStatus, routers: seq<Router>, seeds: OMap<Id, Reason>,
                         presence: OMap<Id, Reason>, covered: set<Id>)
    requires forall id :: id in Keys(seeds) <==> IsSeed(status, routers, id)
    requires forall id :: id in Keys(seeds) ==> Find(seeds, id) == Some(ReasonFor(status, routers, id))
    requires IsMarked(seeds, presence, covered, Downstream) && Closed(ById(routers), covered)
    requires forall k :: 0 <= k < |seeds| ==> seeds[k].0 in covered
    requires forall t :: HoldsSeeds(status, routers, t) && Closed(ById(routers), t) ==> covered <= t
    ensures IsUpwardClosure(status, routers, Keys(presence))
    ensures forall id :: id in Keys(presence) ==> Find(presence, id) == Some(ReasonFor(status, routers, id))
  {
    hide Find, ById, ParentOf;
    assert Keys(seeds) <= covered;
    assert Keys(presence) == covered;
  }

  // ---- The tree ----

  /** A parent that is not among the routers leaves a router at the top. */
  function KnownParent(byId: map<Id, Router>, id: Id): (parent: Option<Id>)
    ensures parent.Some? ==> id in byId && byId[id].parent == parent && parent.value in byId
    ensures parent.None? && id in byId && byId[id].parent.Some? ==> byId[id].parent.value !in byId
  {
    match ParentOf(byId, id)
    case None => None
    case Some(p) => if p in byId then Some(p) else None
  }

  datatype Forest = Forest(roots: seq<Id>, children: map<Id, seq<Id>>)

  ghost predicate DistinctIds(ids: seq<Id>) { forall i, j :: 0 <= i < j < |ids| ==> ids[i] != ids[j] }

  /** Every router hangs exactly once: under its known parent, or at the top. */
  ghost predicate IsForestOf(f: Forest, byId: map<Id, Router>, ids: set<Id>) {
    f.children.Keys == byId.Keys
    && DistinctIds(f.roots)
    && (forall id :: id in f.roots <==> id in ids && KnownParent(byId, id).None?)
    && forall p :: p in byId ==>
         DistinctIds(f.children[p])
         && forall id :: id in f.children[p] <==> id in ids && KnownParent(byId, id) == Some(p)
  }

  function Hang(f: Forest, parent: Option<Id>, id: Id): Forest
    requires parent.Some? ==> parent.value in f.children
  {
    match parent
    case Some(p) => f.(children := f.children[p := f.children[p] + [id]])
    case None => f.(roots := f.roots + [id])
  }

  lemma HangOne(f: Forest, byId: map<Id, Router>, ids: set<Id>, id: Id)
    requires IsForestOf(f, byId, ids) && id !in ids
    ensures IsForestOf(Hang(f, KnownParent(byId, id), id), byId, ids + {id})
  {
    hide KnownParent;
  }

  method BuildTree(ids: seq<Id>, byId: map<Id, Router>) returns (f: Forest)
    requires DistinctIds(ids) && forall id :: id in ids <==> id in byId
    ensures IsForestOf(f, byId, byId.Keys)
  {
    f := Forest([], map id | id in byId :: []);
    ghost var done: set<Id> := {};
    for i := 0 to |ids|
      invariant forall id :: id in done <==> id in ids[..i]
      invariant IsForestOf(f, byId, done)
    {
      HangOne(f, byId, done, ids[i]);
      f := Hang(f, KnownParent(byId, ids[i]), ids[i]);
      done := done + {ids[i]};
    }
    assert done == byId.Keys;
  }

  ghost predicate IsUnder(f: Forest, parent: Id, id: Id) { parent in f.children && id in f.children[parent] }

  lemma UnderIsParent(f: Forest, byId: map<Id, Router>, parent: Id, id: Id)
    requires IsForestOf(f, byId, byId.Keys)
    ensures IsUnder(f, parent, id) <==> id in byId && KnownParent(byId, id) == Some(parent)
    ensures id in f.roots <==> id in byId && KnownParent(byId, id).None?
  {
  }

  /** One appearance of a router in the tree: the way down to it from the top. */
  ghost predicate IsAppearance(f: Forest, path: seq<Id>, id: Id) {
    path != [] && path[0] in f.roots && path[|path| - 1] == id
    && forall k, l :: 0 <= k && l == k + 1 && l < |path| ==> IsUnder(f, path[k], path[l])
  }

  /** The n-th router above, while known parents last. */
  ghost function Above(byId: map<Id, Router>, id: Id, n: nat): Option<Id> {
    if n == 0 then Some(id)
    else
      match Above(byId, id, n - 1)
      case None => None
      case Some(x) => KnownParent(byId, x)
  }

  /** The walk up from a router comes to an end. */
  ghost predicate ReachesTop(byId: map<Id, Router>, id: Id) {
    exists n: nat :: Above(byId, id, n).None?
  }

  /** An appearance read from the bottom is the walk up. */
  lemma {:induction false} AppearanceIsWalk(f: Forest, byId: map<Id, Router>, path: seq<Id>, id: Id, k: nat)
    requires IsForestOf(f, byId, byId.Keys) && IsAppearance(f, path, id) && k < |path|
    ensures Above(byId, id, k) == Some(path[|path| - 1 - k])
    ensures k == |path| - 1 ==> Above(byId, id, k + 1).None?
  {
    hide IsForestOf, KnownParent, IsUnder;
    if k > 0 {
      AppearanceIsWalk(f, byId, path, id, k - 1);
      UnderIsParent(f, byId, path[|path| - 1 - k], path[|path| - k]);
    }
    UnderIsParent(f, byId, path[0], path[0]);
  }

  /** A router appears at most once. */
  lemma AppearsAtMostOnce(f: Forest, byId: map<Id, Router>, p: seq<Id>, q: seq<Id>, id: Id)
    requires IsForestOf(f, byId, byId.Keys) && IsAppearance(f, p, id) && IsAppearance(f, q, id)
    ensures p == q
  {
    hide IsForestOf, IsAppearance, Above;
    assert p != [] && q != [] by { AppearanceIsNotEmpty(f, p, id); AppearanceIsNotEmpty(f, q, id); }
    if |p| < |q| {
      AppearanceIsWalk(f, byId, p, id, |p| - 1);
      AppearanceIsWalk(f, byId, q, id, |p|);
    } else if |q| < |p| {
      AppearanceIsWalk(f, byId, q, id, |q| - 1);
      AppearanceIsWalk(f, byId, p, id, |q|);
    } else {
      forall i | 0 <= i < |p|
        ensures p[i] == q[i]
      {
        AppearanceIsWalk(f, byId, p, id, |p| - 1 - i);
        AppearanceIsWalk(f, byId, q, id, |p| - 1 - i);
      }
    }
  }

  lemma AppearanceIsNotEmpty(f: Forest, path: seq<Id>, id: Id)
    requires IsAppearance(f, path, id)
    ensures path != []
  {
  }

  lemma {:induction false} WalkShifts(byId: map<Id, Router>, id: Id, n: nat)
    requires KnownParent(byId, id).Some?
    ensures Above(byId, id, n + 1) == Above(byId, KnownParent(byId, id).value, n)
  {
    if n == 0 {
      assert Above(byId, id, 0) == Some(id);
    } else {
      WalkShifts(byId, id, n - 1);
    }
  }

  lemma AppearanceBelow(f: Forest, up: seq<Id>, parent: Id, id: Id)
    requires IsAppearance(f, up, parent) && IsUnder(f, parent, id)
    ensures IsAppearance(f, up + [id], id)
  {
    hide IsUnder;
  }

  lemma WalkStarts(byId: map<Id, Router>, id: Id)
    ensures Above(byId, id, 0) == Some(id)
  {
  }

  lemma RootAppears(f: Forest, id: Id)
    requires id in f.roots
    ensures IsAppearance(f, [id], id)
  {
  }

  lemma {:induction false} WalkGivesAppearance(f: Forest, byId: map<Id, Router>, id: Id, n: nat) returns (path: seq<Id>)
    requires IsForestOf(f, byId, byId.Keys) && id in byId && Above(byId, id, n).None?
    ensures IsAppearance(f, path, id)
    decreases n
  {
    hide *;
    WalkStarts(byId, id);
    UnderIsParent(f, byId, id, id);
    var parent := KnownParent(byId, id);
    if parent.None? {
      RootAppears(f, id);
      path := [id];
    } else {
      WalkShifts(byId, id, n - 1);
      var up := WalkGivesAppearance(f, byId, parent.value, n - 1);
      UnderIsParent(f, byId, parent.value, id);
      AppearanceBelow(f, up, parent.value, id);
      path := up + [id];
    }
  }

  /** A router is shown exactly when its walk up ends; routers on or below a cycle are not shown at all. */
  lemma ShownExactlyWhen(f: Forest, byId: map<Id, Router>, id: Id)
    requires IsForestOf(f, byId, byId.Keys) && id in byId
    ensures (exists path :: IsAppearance(f, path, id)) <==> ReachesTop(byId, id)
  {
    if ReachesTop(byId, id) {
      var n: nat :| Above(byId, id, n).None?;
      var path := WalkGivesAppearance(f, byId, id, n);
    }
    if path :| IsAppearance(f, path, id) {
      AppearanceIsWalk(f, byId, path, id, |path| - 1);
    }
  }

  /** Two routers that name each other as parent are in no tree, however far their walk goes. */
  lemma CycleIsNotShown(f: Forest, a: Router, b: Router)
    requires a.id != b.id && a.parent == Some(b.id) && b.parent == Some(a.id)
    requires IsForestOf(f, map[a.id := a, b.id := b], {a.id, b.id})
    ensures !exists path :: IsAppearance(f, path, a.id)
  {
    var byId := map[a.id := a, b.id := b];
    assert byId.Keys == {a.id, b.id};
    forall n: nat
      ensures Above(byId, a.id, n).Some?
    {
      WalkStaysInPair(byId, a.id, b.id, n);
    }
    ShownExactlyWhen(f, byId, a.id);
  }

  lemma {:induction false} WalkStaysInPair(byId: map<Id, Router>, a: Id, b: Id, n: nat)
    requires KnownParent(byId, a) == Some(b) && KnownParent(byId, b) == Some(a)
    ensures Above(byId, a, n) == Some(if n % 2 == 0 then a else b)
  {
    if n > 0 { WalkStaysInPair(byId, a, b, n - 1); }
  }
}
