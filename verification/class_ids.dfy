/** Traffic-shaping class IDs: one per MAC address, recycled when the class is deleted. */
module ClassIds {
  import opened Options
  import opened Sets

  type Mac = string

  const FIRST_MINOR: nat := 0x10
  const LAST_MINOR: nat := 0xfff0
  /** The class of unmatched traffic, and the handle of its fair queue. */
  const DEFAULT_MINOR: nat := 0xffff
  const DEFAULT_QUEUE: nat := 0xfffe
  const CAPACITY: nat := LAST_MINOR - FIRST_MINOR + 1

  datatype Ids = Ids(minorByMac: map<Mac, nat>, free: seq<nat>, next: nat)

  const NO_IDS := Ids(map[], [], FIRST_MINOR)

  function Allocate(ids: Ids, mac: Mac): (Ids, Option<nat>) {
    if mac in ids.minorByMac then (ids, Some(ids.minorByMac[mac]))
    else if ids.free != [] then
      var minor := ids.free[|ids.free| - 1];
      var popped := ids.(free := ids.free[..|ids.free| - 1]);
      if minor > LAST_MINOR then (popped, None)
      else (popped.(minorByMac := ids.minorByMac[mac := minor]), Some(minor))
    else
      var bumped := ids.(next := ids.next + 1);
      if ids.next > LAST_MINOR then (bumped, None)
      else (bumped.(minorByMac := ids.minorByMac[mac := ids.next]), Some(ids.next))
  }

  function Remove(ids: Ids, mac: Mac): Ids {
    if mac in ids.minorByMac then Ids(ids.minorByMac - {mac}, ids.free + [ids.minorByMac[mac]], ids.next) else ids
  }

  /** A rebuild frees every live ID, in whatever order the map lists them. */
  function Rebuild(ids: Ids, order: seq<Mac>): Ids
    requires forall i :: 0 <= i < |order| ==> order[i] in ids.minorByMac
  {
    Ids(map[], ids.free + seq(|order|, i requires 0 <= i < |order| => ids.minorByMac[order[i]]), ids.next)
  }

  class Shaping {
    var minorByMac: map<Mac, nat>
    var freeMinors: seq<nat>
    var nextMinor: nat

    constructor ()
      ensures Data() == NO_IDS
    {
      minorByMac, freeMinors, nextMinor := map[], [], FIRST_MINOR;
    }

    ghost function Data(): Ids
      reads this
    {
      Ids(minorByMac, freeMinors, nextMinor)
    }

    /** None stands for the error thrown when no ID is left. */
    method AllocateMinor(mac: Mac) returns (minor: Option<nat>)
      modifies this
      ensures (Data(), minor) == Allocate(old(Data()), mac)
    {
      if mac in minorByMac { return Some(minorByMac[mac]); }
      var m: nat;
      if |freeMinors| > 0 {
        m := freeMinors[|freeMinors| - 1];
        freeMinors := freeMinors[..|freeMinors| - 1];
      } else {
        m := nextMinor;
        nextMinor := nextMinor + 1;
      }
      if m > LAST_MINOR { return None; }
      minorByMac := minorByMac[mac := m];
      return Some(m);
    }

    method FreeMinor(mac: Mac)
      modifies this
      ensures Data() == Remove(old(Data()), mac)
    {
      if mac !in minorByMac { return; }
      var minor := minorByMac[mac];
      minorByMac := minorByMac - {mac};
      freeMinors := freeMinors + [minor];
    }

    /** The end of a rebuild: frees every live ID. */
    method FreeAll() returns (ghost order: seq<Mac>)
      modifies this
      ensures IsListing(order, old(minorByMac).Keys)
      ensures Data() == Rebuild(old(Data()), order)
    {
      order := [];
      var left := minorByMac.Keys;
      ghost var was := Data();
      while left != {}
        invariant left <= was.minorByMac.Keys && minorByMac == was.minorByMac && nextMinor == was.next
        invariant IsListing(order, was.minorByMac.Keys - left)
        invariant freeMinors == Rebuild(was, order).free
      {
        var mac :| mac in left;
        freeMinors := freeMinors + [minorByMac[mac]];
        order := order + [mac];
        left := left - {mac};
      }
      minorByMac := map[];
    }
  }

  /** Lists every member of a set exactly once. */
  ghost predicate IsListing(order: seq<Mac>, macs: set<Mac>) {
    (forall i :: 0 <= i < |order| ==> order[i] in macs)
    && (forall mac :: mac in macs ==> mac in order)
    && (forall i, j :: 0 <= i < j < |order| ==> order[i] != order[j])
  }

  // ---- What every run keeps ----

  ghost predicate NoTwoShare(ids: Ids) {
    forall a, b :: a in ids.minorByMac && b in ids.minorByMac && ids.minorByMac[a] == ids.minorByMac[b] ==> a == b
  }

  ghost predicate IsLive(ids: Ids, minor: nat) {
    exists mac :: mac in ids.minorByMac && ids.minorByMac[mac] == minor
  }

  /**
   * Live IDs are distinct, the free list holds no ID twice and no live one, and together
   * they are exactly the IDs handed out so far.
   */
  ghost predicate Sound(ids: Ids) {
    NoTwoShare(ids)
    && ids.next >= FIRST_MINOR
    && (forall i, j :: 0 <= i < j < |ids.free| ==> ids.free[i] != ids.free[j])
    && (forall minor: nat :: !(minor in ids.free && IsLive(ids, minor)))
    && (forall minor: nat ::
          minor in ids.free || IsLive(ids, minor) <==> FIRST_MINOR <= minor < ids.next && minor <= LAST_MINOR)
  }

  lemma AllocateStaysSound(ids: Ids, mac: Mac)
    requires Sound(ids)
    ensures Sound(Allocate(ids, mac).0)
  {
    var (ids', got) := Allocate(ids, mac);
    if mac !in ids.minorByMac {
      forall minor: nat
        ensures minor in ids'.free || IsLive(ids', minor) <==> FIRST_MINOR <= minor < ids'.next && minor <= LAST_MINOR
        ensures !(minor in ids'.free && IsLive(ids', minor))
      {
        assert minor in ids.free || IsLive(ids, minor) <==> FIRST_MINOR <= minor < ids.next && minor <= LAST_MINOR;
        assert !(minor in ids.free && IsLive(ids, minor));
        if IsLive(ids, minor) {
          var m :| m in ids.minorByMac && ids.minorByMac[m] == minor;
          assert ids'.minorByMac[m] == minor;
        }
        if got == Some(minor) { assert ids'.minorByMac[mac] == minor; }
        if ids.free != [] {
          assert minor in ids.free <==> minor in ids'.free || minor == ids.free[|ids.free| - 1];
        }
      }
      assert NoTwoShare(ids') by {
        if got.Some? {
          assert !IsLive(ids, got.value) by {
            if ids.free != [] { assert got.value in ids.free; }
          }
        }
      }
    }
  }

  /** The ID freed last is the next one given, and only a MAC without one gets it. */
  lemma FreedIsNextGiven(ids: Ids, a: Mac, b: Mac)
    requires Sound(ids) && a in ids.minorByMac && (b !in ids.minorByMac || b == a)
    ensures var (ids', minor) := Allocate(Remove(ids, a), b);
            minor == Some(ids.minorByMac[a]) && ids'.free == ids.free && ids'.next == ids.next
            && ids'.minorByMac == (ids.minorByMac - {a})[b := ids.minorByMac[a]]
  {
    assert IsLive(ids, ids.minorByMac[a]);
  }

  lemma RemoveStaysSound(ids: Ids, mac: Mac)
    requires Sound(ids)
    ensures Sound(Remove(ids, mac))
  {
    if mac in ids.minorByMac {
      var ids' := Remove(ids, mac);
      var freed := ids.minorByMac[mac];
      assert IsLive(ids, freed);
      forall minor: nat
        ensures IsLive(ids', minor) <==> IsLive(ids, minor) && minor != freed
      {
        if IsLive(ids, minor) && minor != freed {
          var m :| m in ids.minorByMac && ids.minorByMac[m] == minor;
          assert m in ids'.minorByMac && ids'.minorByMac[m] == minor;
        }
      }
    }
  }

  lemma RebuildStaysSound(ids: Ids, order: seq<Mac>)
    requires Sound(ids) && IsListing(order, ids.minorByMac.Keys)
    ensures Sound(Rebuild(ids, order))
  {
    var ids' := Rebuild(ids, order);
    var freed := seq(|order|, i requires 0 <= i < |order| => ids.minorByMac[order[i]]);
    forall minor: nat
      ensures minor in ids'.free <==> minor in ids.free || IsLive(ids, minor)
    {
      if IsLive(ids, minor) {
        var m :| m in ids.minorByMac && ids.minorByMac[m] == minor;
        var i :| 0 <= i < |order| && order[i] == m;
        assert freed[i] == minor;
      }
      if minor in freed {
        var i :| 0 <= i < |freed| && freed[i] == minor;
        assert ids.minorByMac[order[i]] == minor;
      }
    }
    forall i, j | 0 <= i < j < |ids'.free|
      ensures ids'.free[i] != ids'.free[j]
    {
      if j >= |ids.free| {
        assert IsLive(ids, freed[j - |ids.free|]);
        if i < |ids.free| { assert ids.free[i] in ids.free; }
      }
    }
    assert forall minor: nat :: !IsLive(ids', minor);
  }

  datatype Event = Allocating(mac: Mac) | Removing(mac: Mac) | Rebuilding(order: seq<Mac>)

  ghost predicate IsRun(ids: Ids, es: seq<Event>)
    decreases |es|
  {
    es == []
    || ((es[0].Rebuilding? ==> IsListing(es[0].order, ids.minorByMac.Keys)) && IsRun(Next(ids, es[0]), es[1..]))
  }

  ghost function Next(ids: Ids, e: Event): Ids
    requires e.Rebuilding? ==> IsListing(e.order, ids.minorByMac.Keys)
  {
    match e
    case Allocating(mac) => Allocate(ids, mac).0
    case Removing(mac) => Remove(ids, mac)
    case Rebuilding(order) => Rebuild(ids, order)
  }

  ghost function After(ids: Ids, es: seq<Event>): Ids
    requires IsRun(ids, es)
    decreases |es|
  {
    if es == [] then ids else After(Next(ids, es[0]), es[1..])
  }

  /** Sound after any run of allocations (failed ones included), removals and rebuilds. */
  lemma {:induction false} SoundForever(ids: Ids, es: seq<Event>)
    requires Sound(ids) && IsRun(ids, es)
    ensures Sound(After(ids, es))
    decreases |es|
  {
    if es != [] {
      match es[0] {
        case Allocating(mac) => AllocateStaysSound(ids, mac);
        case Removing(mac) => RemoveStaysSound(ids, mac);
        case Rebuilding(order) => RebuildStaysSound(ids, order);
      }
      SoundForever(Next(ids, es[0]), es[1..]);
    }
  }

  /** The IDs given out stay clear of the default class, its queue and the root. */
  lemma ReservedNeverLive(es: seq<Event>, mac: Mac)
    requires IsRun(NO_IDS, es) && mac in After(NO_IDS, es).minorByMac
    ensures var minor := After(NO_IDS, es).minorByMac[mac];
            FIRST_MINOR <= minor <= LAST_MINOR && minor !in {0, DEFAULT_MINOR, DEFAULT_QUEUE}
  {
    SoundForever(NO_IDS, es);
    assert IsLive(After(NO_IDS, es), After(NO_IDS, es).minorByMac[mac]);
  }

  ghost predicate AllLive(ids: Ids) {
    forall minor: nat :: FIRST_MINOR <= minor <= LAST_MINOR ==> IsLive(ids, minor)
  }

  /** An allocation fails exactly when the MAC has no ID and every ID is live. */
  lemma FailsExactlyWhenFull(ids: Ids, mac: Mac)
    requires Sound(ids)
    ensures Allocate(ids, mac).1 == None <==> mac !in ids.minorByMac && AllLive(ids)
  {
    if mac !in ids.minorByMac {
      if ids.free != [] {
        assert ids.free[|ids.free| - 1] in ids.free;
        assert !IsLive(ids, ids.free[|ids.free| - 1]);
      } else if ids.next <= LAST_MINOR {
        assert !IsLive(ids, ids.next);
      }
    }
  }

  /** When every ID is live, as many MAC addresses hold one as there are IDs. */
  lemma FullMeansCapacity(ids: Ids)
    requires Sound(ids) && AllLive(ids)
    ensures |ids.minorByMac| == CAPACITY
  {
    var all := Range(FIRST_MINOR, LAST_MINOR + 1);
    forall minor: nat
      ensures minor in ids.minorByMac.Values <==> minor in all
    {
      assert IsLive(ids, minor) <==> minor in ids.minorByMac.Values;
    }
    assert ids.minorByMac.Values == all;
    ValuesAsManyAsKeys(ids.minorByMac);
  }

  /** And the other way round: as many holders as IDs leave no ID free. */
  lemma CapacityMeansFull(ids: Ids)
    requires Sound(ids) && |ids.minorByMac| == CAPACITY
    ensures AllLive(ids)
  {
    var all := Range(FIRST_MINOR, LAST_MINOR + 1);
    ValuesAsManyAsKeys(ids.minorByMac);
    assert forall minor: nat :: IsLive(ids, minor) <==> minor in ids.minorByMac.Values;
    assert ids.minorByMac.Values <= all;
    SameSizeSubset(ids.minorByMac.Values, all);
  }

  lemma {:induction false} ValuesAsManyAsKeys(m: map<Mac, nat>)
    requires forall a, b :: a in m && b in m && m[a] == m[b] ==> a == b
    ensures |m.Values| == |m|
  {
    if m.Keys != {} {
      var k :| k in m;
      var rest := m - {k};
      ValuesAsManyAsKeys(rest);
      assert m.Values == rest.Values + {m[k]} by {
        forall v ensures v in m.Values <==> v in rest.Values + {m[k]} {
          if v in m.Values {
            var j :| j in m && m[j] == v;
            if j != k { assert j in rest && rest[j] == v; }
          }
        }
      }
      assert m[k] !in rest.Values;
      assert |rest| == |m| - 1 by { assert rest.Keys == m.Keys - {k}; }
    } else {
      assert m.Values == {};
    }
  }
}
