/**
 * App attribution from DNS answers: two bounded recency indexes, and the reader that
 * follows dnsmasq's log. The log is one byte a character.
 */
module DnsLog {
  import opened Options
  import opened OrderedMaps
  import opened Sets

  const MAX_LOG_BYTES: nat := 2 * 1024 * 1024
  const MAPPING_TTL_MS := 7_200_000
  const MAX_MAPPINGS: nat := 50_000
  const MAX_QUERIES: nat := 5000

  datatype Mapping = Mapping(app: string, at: int)

  /** A key that was remembered, with its app and the time. */
  datatype Memory<K> = Memory(key: K, app: string, at: int)

  // ---- The recency index ----

  function Remember<K(==)>(m: OMap<K, Mapping>, key: K, app: string, now: int, max: nat): OMap<K, Mapping> {
    Capped(RememberForever(m, key, app, now), max)
  }

  /** The same with no bound: every key ever remembered. */
  function RememberForever<K(==)>(m: OMap<K, Mapping>, key: K, app: string, now: int): OMap<K, Mapping> {
    Delete(m, key) + [(key, Mapping(app, now))]
  }

  /** One entry over the bound evicts the first. */
  function Capped<T>(s: seq<T>, max: nat): seq<T> { if |s| > max then s[1..] else s }

  function Bounded<K(==)>(log: seq<Memory<K>>, max: nat): OMap<K, Mapping> {
    if log == [] then [] else
      var e := log[|log| - 1];
      Remember(Bounded(log[..|log| - 1], max), e.key, e.app, e.at, max)
  }

  function Unbounded<K(==)>(log: seq<Memory<K>>): OMap<K, Mapping> {
    if log == [] then [] else
      var e := log[|log| - 1];
      RememberForever(Unbounded(log[..|log| - 1]), e.key, e.app, e.at)
  }

  function Newest<T>(s: seq<T>, max: nat): seq<T> { if |s| <= max then s else s[|s| - max..] }

  function Without<T>(s: seq<T>, p: nat): seq<T>
    requires p < |s|
  {
    s[..p] + s[p + 1..]
  }

  ghost function IndexOf<K>(m: OMap<K, Mapping>, key: K): (r: Option<nat>)
    ensures r.Some? ==> r.value < |m| && m[r.value].0 == key
    ensures r.None? ==> forall i :: 0 <= i < |m| ==> m[i].0 != key
  {
    if exists i :: 0 <= i < |m| && m[i].0 == key then
      var i :| 0 <= i < |m| && m[i].0 == key;
      Some(i)
    else None
  }

  /** Remembering takes the key out wherever it was and puts it last. */
  lemma RememberMoves<K>(m: OMap<K, Mapping>, key: K, app: string, now: int, p: Option<nat>)
    requires Distinct(m)
    requires p.Some? ==> p.value < |m| && m[p.value].0 == key
    requires p.None? ==> forall i :: 0 <= i < |m| ==> m[i].0 != key
    ensures RememberForever(m, key, app, now)
            == (if p.Some? then Without(m, p.value) else m) + [(key, Mapping(app, now))]
    ensures Distinct(RememberForever(m, key, app, now))
  {
    match p
    case None => DeleteAbsent(m, key);
    case Some(i) => DeleteAt(m, i);
  }

  lemma NewestOfAppend<T>(s: seq<T>, e: T, max: nat)
    requires max > 0
    ensures Capped(Newest(s, max) + [e], max) == Newest(s + [e], max)
  {
  }

  lemma NewestOfMoveWithin<T>(s: seq<T>, p: nat, e: T, max: nat)
    requires p < |s| && p >= |s| - |Newest(s, max)|
    ensures Capped(Without(Newest(s, max), p - (|s| - |Newest(s, max)|)) + [e], max) == Newest(Without(s, p) + [e], max)
  {
    hide Without;
    var k := if |s| <= max then 0 else |s| - max;
    assert Newest(s, max) == s[k..];
    WithoutDropped(s, p, k);
    DropOfAppend(Without(s, p), e, k);
    assert Capped(Without(s[k..], p - k) + [e], max) == Without(s[k..], p - k) + [e];
  }

  lemma WithoutDropped<T>(s: seq<T>, p: nat, k: nat)
    requires k <= p < |s|
    ensures |Without(s, p)| == |s| - 1 && Without(s[k..], p - k) == Without(s, p)[k..]
  {
  }

  lemma DropOfAppend<T>(s: seq<T>, e: T, k: nat)
    requires k <= |s|
    ensures (s + [e])[k..] == s[k..] + [e] && (s + [e])[0..] == s + [e]
  {
  }

  lemma NewestOfMoveFromBefore<T>(s: seq<T>, p: nat, e: T, max: nat)
    requires max > 0 && p < |s| - |Newest(s, max)|
    ensures Capped(Newest(s, max) + [e], max) == Newest(Without(s, p) + [e], max)
  {
  }

  /** Where a key sits in the newest part. */
  lemma IndexInNewest<K>(m: OMap<K, Mapping>, key: K, p: Option<nat>, max: nat)
    requires Distinct(m)
    requires p.Some? ==> p.value < |m| && m[p.value].0 == key
    requires p.None? ==> forall i :: 0 <= i < |m| ==> m[i].0 != key
    ensures Distinct(Newest(m, max))
    ensures var newest := Newest(m, max);
            var s := |m| - |newest|;
            if p.Some? && p.value >= s then newest[p.value - s].0 == key
            else forall i :: 0 <= i < |newest| ==> newest[i].0 != key
  {
  }

  /** Remembering in the newest `max` entries gives the newest `max` entries. */
  lemma RememberKeepsNewest<K>(m: OMap<K, Mapping>, key: K, app: string, now: int, max: nat)
    requires Distinct(m) && max > 0
    ensures Remember(Newest(m, max), key, app, now, max) == Newest(RememberForever(m, key, app, now), max)
    ensures Distinct(RememberForever(m, key, app, now))
  {
    hide Distinct, RememberForever, Newest, Capped, Without, IndexOf;
    var e := (key, Mapping(app, now));
    var newest := Newest(m, max);
    var s := |m| - |newest|;
    var p := IndexOf(m, key);
    IndexInNewest(m, key, p, max);
    RememberMoves(m, key, app, now, p);
    if p.None? {
      RememberMoves(newest, key, app, now, None);
      NewestOfAppend(m, e, max);
    } else if p.value >= s {
      RememberMoves(newest, key, app, now, Some(p.value - s));
      NewestOfMoveWithin(m, p.value, e, max);
    } else {
      RememberMoves(newest, key, app, now, None);
      NewestOfMoveFromBefore(m, p.value, e, max);
    }
  }

  /** The bounded index is exactly the newest part of the unbounded one. */
  lemma {:induction false} BoundedIsNewest<K>(log: seq<Memory<K>>, max: nat)
    requires max > 0
    ensures Distinct(Unbounded(log)) && Bounded(log, max) == Newest(Unbounded(log), max)
  {
    if log != [] {
      var e := log[|log| - 1];
      BoundedIsNewest(log[..|log| - 1], max);
      RememberKeepsNewest(Unbounded(log[..|log| - 1]), e.key, e.app, e.at, max);
    }
  }

  // ---- What the unbounded index says ----

  /** Position of a key's last appearance in the log. */
  function Last<K(==)>(log: seq<Memory<K>>, key: K): int {
    if log == [] then -1
    else if log[|log| - 1].key == key then |log| - 1
    else Last(log[..|log| - 1], key)
  }

  lemma {:induction false} LastIsLast<K>(log: seq<Memory<K>>, key: K)
    ensures -1 <= Last(log, key) < |log|
    ensures Last(log, key) >= 0 ==> log[Last(log, key)].key == key
    ensures forall i :: Last(log, key) < i < |log| ==> log[i].key != key
  {
    if log != [] && log[|log| - 1].key != key { LastIsLast(log[..|log| - 1], key); }
  }

  /** Every entry carries the last write of its key. */
  ghost predicate AreLastWrites<K>(log: seq<Memory<K>>, m: OMap<K, Mapping>) {
    forall i :: 0 <= i < |m| ==> IsLastWrite(log, m[i])
  }

  ghost predicate IsLastWrite<K>(log: seq<Memory<K>>, entry: (K, Mapping)) {
    var l := Last(log, entry.0);
    0 <= l < |log| && entry.1 == Mapping(log[l].app, log[l].at)
  }

  ghost predicate InWriteOrder<K>(log: seq<Memory<K>>, m: OMap<K, Mapping>) {
    forall i, j :: 0 <= i < j < |m| ==> Last(log, m[i].0) < Last(log, m[j].0)
  }

  ghost predicate Covers<K>(log: seq<Memory<K>>, m: OMap<K, Mapping>) {
    forall i :: 0 <= i < |log| ==> log[i].key in Keys(m)
  }

  /** What is left of the entries when the one at `p`, if any, is taken out. */
  function Rest<T>(s: seq<T>, p: Option<nat>): seq<T>
    requires p.Some? ==> p.value < |s|
  {
    if p.Some? then Without(s, p.value) else s
  }

  function Source(p: Option<nat>, i: nat): nat { if p.Some? && i >= p.value then i + 1 else i }

  lemma RestAt<T>(s: seq<T>, p: Option<nat>)
    requires p.Some? ==> p.value < |s|
    ensures forall i: nat :: i < |Rest(s, p)| ==> Source(p, i) < |s| && Rest(s, p)[i] == s[Source(p, i)]
    ensures |Rest(s, p)| == if p.Some? then |s| - 1 else |s|
  {
  }

  lemma LastOfAppend<K>(log: seq<Memory<K>>, e: Memory<K>, key: K)
    ensures Last(log + [e], key) == if key == e.key then |log| else Last(log, key)
  {
    assert (log + [e])[..|log|] == log;
  }

  /** An entry of another key keeps its last write. */
  lemma OtherKeepsLastWrite<K>(log: seq<Memory<K>>, e: Memory<K>, entry: (K, Mapping))
    requires IsLastWrite(log, entry) && entry.0 != e.key
    ensures IsLastWrite(log + [e], entry) && Last(log + [e], entry.0) == Last(log, entry.0) < |log|
  {
    LastOfAppend(log, e, entry.0);
  }

  lemma RestKeepsLastWrites<K>(log: seq<Memory<K>>, m: OMap<K, Mapping>, e: Memory<K>, p: Option<nat>, i: nat)
    requires Distinct(m) && AreLastWrites(log, m)
    requires p.Some? ==> p.value < |m| && m[p.value].0 == e.key
    requires p.None? ==> forall i :: 0 <= i < |m| ==> m[i].0 != e.key
    requires i < |Rest(m, p)|
    ensures Source(p, i) < |m| && Rest(m, p)[i] == m[Source(p, i)] && m[Source(p, i)].0 != e.key
    ensures IsLastWrite(log + [e], m[Source(p, i)])
            && Last(log + [e], m[Source(p, i)].0) == Last(log, m[Source(p, i)].0) < |log|
  {
    RestAt(m, p);
    var j := Source(p, i);
    assert m[j].0 != e.key;
    assert IsLastWrite(log, m[j]);
    OtherKeepsLastWrite(log, e, m[j]);
  }

  lemma LastWritesAfter<K>(log: seq<Memory<K>>, m: OMap<K, Mapping>, e: Memory<K>, p: Option<nat>)
    requires Distinct(m) && AreLastWrites(log, m) && InWriteOrder(log, m) && Covers(log, m)
    requires p.Some? ==> p.value < |m| && m[p.value].0 == e.key
    requires p.None? ==> forall i :: 0 <= i < |m| ==> m[i].0 != e.key
    ensures var m' := Rest(m, p) + [(e.key, Mapping(e.app, e.at))];
            AreLastWrites(log + [e], m') && InWriteOrder(log + [e], m') && Covers(log + [e], m')
  {
    hide Last, Rest, Covers, Distinct;
    var kept := Rest(m, p);
    var m' := kept + [(e.key, Mapping(e.app, e.at))];
    LastOfAppend(log, e, e.key);
    forall i: nat | i < |m'|
      ensures IsLastWrite(log + [e], m'[i])
    {
      if i < |kept| { RestKeepsLastWrites(log, m, e, p, i); }
    }
    forall i: nat, j: nat | i < j < |m'|
      ensures Last(log + [e], m'[i].0) < Last(log + [e], m'[j].0)
    {
      RestKeepsLastWrites(log, m, e, p, i);
      if j < |kept| { RestKeepsLastWrites(log, m, e, p, j); }
    }
    CoversAfter(log, m, e, p);
  }

  lemma PlaceOf<K>(log: seq<Memory<K>>, m: OMap<K, Mapping>, i: nat) returns (k: nat)
    requires Covers(log, m) && i < |log|
    ensures k < |m| && m[k].0 == log[i].key
  {
    assert log[i].key in Keys(m);
    k :| 0 <= k < |m| && m[k].0 == log[i].key;
  }

  lemma KeyAt<K>(m: OMap<K, Mapping>, i: nat)
    requires i < |m|
    ensures m[i].0 in Keys(m)
  {
  }

  lemma CoversAfter<K>(log: seq<Memory<K>>, m: OMap<K, Mapping>, e: Memory<K>, p: Option<nat>)
    requires Covers(log, m)
    requires p.Some? ==> p.value < |m| && m[p.value].0 == e.key
    ensures Covers(log + [e], Rest(m, p) + [(e.key, Mapping(e.app, e.at))])
  {
    var log', m' := log + [e], Rest(m, p) + [(e.key, Mapping(e.app, e.at))];
    RestAt(m, p);
    hide Rest, Keys, Covers;
    forall i | 0 <= i < |log'|
      ensures log'[i].key in Keys(m')
    {
      if log'[i].key == e.key {
        KeyAt(m', |m'| - 1);
      } else {
        var k := PlaceOf(log, m, i);
        var at := if p.Some? && k > p.value then k - 1 else k;
        assert Source(p, at) == k && m'[at] == m[k];
        KeyAt(m', at);
      }
    }
  }

  /** The unbounded index holds the last write of every key of the log, in the order of those writes. */
  lemma {:induction false} UnboundedIsLastWrites<K>(log: seq<Memory<K>>)
    ensures AreLastWrites(log, Unbounded(log)) && InWriteOrder(log, Unbounded(log)) && Covers(log, Unbounded(log))
  {
    if log != [] {
      var before, e := log[..|log| - 1], log[|log| - 1];
      var m := Unbounded(before);
      UnboundedIsLastWrites(before);
      BoundedIsNewest(before, 1);
      var p := IndexOf(m, e.key);
      assert log == before + [e] && Unbounded(log) == RememberForever(m, e.key, e.app, e.at);
      hide Last, Unbounded, Bounded, RememberForever, AreLastWrites, InWriteOrder, Covers, Distinct;
      RememberMoves(m, e.key, e.app, e.at, p);
      LastWritesAfter(before, m, e, p);
    }
  }

  /** In any log, the index holds exactly the keys with fewer than `max` more recent ones, each with its last app. */
  lemma IndexHoldsMostRecent<K>(log: seq<Memory<K>>, max: nat, i: nat)
    requires max > 0 && i < |Unbounded(log)|
    ensures var key := Unbounded(log)[i].0;
            (key in Keys(Bounded(log, max)) <==> |Unbounded(log)| - 1 - i < max)
            && (key in Keys(Bounded(log, max)) ==>
                  0 <= Last(log, key) < |log|
                  && Find(Bounded(log, max), key) == Some(Mapping(log[Last(log, key)].app, log[Last(log, key)].at)))
  {
    BoundedIsNewest(log, max);
    UnboundedIsLastWrites(log);
    var u, b := Unbounded(log), Bounded(log, max);
    var s := |u| - |b|;
    assert b == u[s..];
    assert IsLastWrite(log, u[i]);
    FindInSuffix(u, s, i);
  }

  lemma {:induction false} KeysOfSuffix<K>(m: OMap<K, Mapping>, s: nat, i: nat)
    requires Distinct(m) && s <= |m| && i < |m|
    ensures Distinct(m[s..]) && (m[i].0 in Keys(m[s..]) <==> i >= s)
  {
    hide Find, Put;
    assert forall k :: 0 <= k < |m| - s ==> m[s..][k] == m[s + k];
    if i >= s { assert m[s..][i - s].0 == m[i].0; }
  }

  /** A suffix finds exactly what lies in it. */
  lemma {:induction false} FindInSuffix<K>(m: OMap<K, Mapping>, s: nat, i: nat)
    requires Distinct(m) && s <= |m| && i < |m|
    ensures Find(m, m[i].0) == Some(m[i].1)
    ensures Find(m[s..], m[i].0) == if i >= s then Some(m[i].1) else None
    ensures m[i].0 in Keys(m[s..]) <==> i >= s
  {
    hide Find, Keys, Put;
    FindAt(m, i);
    KeysOfSuffix(m, s, i);
    if i >= s {
      assert m[s..][i - s] == m[i];
      FindAt(m[s..], i - s);
    }
  }

  // ---- Lookups ----

  predicate IsFresh(m: Mapping, now: int) { now - m.at < MAPPING_TTL_MS }

  function Lookup<K(==)>(m: OMap<K, Mapping>, key: K, now: int): Option<string> {
    match Find(m, key)
    case None => None
    case Some(mapping) => if IsFresh(mapping, now) then Some(mapping.app) else None
  }

  /** The client's own lookup of the address first, then anyone's. */
  function AppForDestination(byClientAndIp: OMap<(string, string), Mapping>, byIp: OMap<string, Mapping>,
                             client: string, ip: string, now: int): Option<string> {
    var specific := Lookup(byClientAndIp, (client, ip), now);
    if specific.Some? then specific else Lookup(byIp, ip, now)
  }

  ghost predicate InTime<K>(log: seq<Memory<K>>) {
    forall i, j :: 0 <= i < j < |log| ==> log[i].at <= log[j].at
  }

  function FreshEntries<K>(m: OMap<K, Mapping>, now: int): set<nat> {
    set i: nat | i < |m| && IsFresh(m[i].1, now)
  }

  /** Later entries are at least as fresh. */
  lemma FreshnessGrows<K>(log: seq<Memory<K>>, now: int, i: nat, j: nat)
    requires InTime(log) && i <= j < |Unbounded(log)| && IsFresh(Unbounded(log)[i].1, now)
    ensures IsFresh(Unbounded(log)[j].1, now)
  {
    hide Unbounded, Last, Covers;
    UnboundedIsLastWrites(log);
    assert IsLastWrite(log, Unbounded(log)[i]) && IsLastWrite(log, Unbounded(log)[j]);
  }

  /** With at most `max` fresh keys, everything past the index is stale; with more, something fresh is. */
  lemma StaleBeyondIndexExactlyWhen<K>(log: seq<Memory<K>>, max: nat, now: int)
    requires InTime(log)
    ensures var u := Unbounded(log);
            |FreshEntries(u, now)| <= max <==> (|u| <= max || !IsFresh(u[|u| - max - 1].1, now))
  {
    hide Unbounded, InTime, IsFresh;
    var u := Unbounded(log);
    if |u| > max {
      var k: nat := |u| - max - 1;
      if IsFresh(u[k].1, now) {
        forall i: nat | i in Range(k, |u|)
          ensures i in FreshEntries(u, now)
        {
          FreshnessGrows(log, now, k, i);
        }
        SubsetIsSmaller(Range(k, |u|), FreshEntries(u, now));
      } else {
        forall i: nat | i in FreshEntries(u, now)
          ensures i in Range(k + 1, |u|)
        {
          if i <= k { FreshnessGrows(log, now, i, k); }
        }
        SubsetIsSmaller(FreshEntries(u, now), Range(k + 1, |u|));
      }
    } else {
      SubsetIsSmaller(FreshEntries(u, now), Range(0, |u|));
    }
  }

  /**
   * The bounded index answers every lookup like an unbounded log of last writes exactly
   * when no more than `max` keys were remembered within the lifetime of a mapping.
   */
  lemma BoundIsInvisibleExactlyWhen<K(!new)>(log: seq<Memory<K>>, max: nat, now: int)
    requires max > 0 && InTime(log)
    ensures (forall key :: Lookup(Bounded(log, max), key, now) == Lookup(Unbounded(log), key, now))
            <==> |FreshEntries(Unbounded(log), now)| <= max
  {
    var u, b := Unbounded(log), Bounded(log, max);
    BoundedIsNewest(log, max);
    StaleBeyondIndexExactlyWhen(log, max, now);
    if |FreshEntries(u, now)| <= max {
      forall key
        ensures Lookup(b, key, now) == Lookup(u, key, now)
      {
        SameAnswer(log, max, now, key);
      }
    } else {
      var k: nat := |u| - max - 1;
      assert b == u[k + 1..];
      FindInSuffix(u, k + 1, k);
      assert Lookup(u, u[k].0, now).Some? && Lookup(b, u[k].0, now).None?;
    }
  }

  lemma FindsNothing<K>(m: OMap<K, Mapping>, key: K)
    requires forall i :: 0 <= i < |m| ==> m[i].0 != key
    ensures Find(m, key) == None
  {
    assert key !in Keys(m);
  }

  lemma SameAnswer<K>(log: seq<Memory<K>>, max: nat, now: int, key: K)
    requires max > 0 && InTime(log)
    requires |Unbounded(log)| <= max || !IsFresh(Unbounded(log)[|Unbounded(log)| - max - 1].1, now)
    ensures Lookup(Bounded(log, max), key, now) == Lookup(Unbounded(log), key, now)
  {
    hide Unbounded, Bounded, InTime, Find, Keys, Distinct, IndexOf;
    var u, b := Unbounded(log), Bounded(log, max);
    BoundedIsNewest(log, max);
    match IndexOf(u, key)
    case None =>
      IndexInNewest(u, key, None, max);
      FindsNothing(u, key);
      FindsNothing(b, key);
    case Some(p) =>
      var s := |u| - |b|;
      assert b == u[s..];
      FindInSuffix(u, s, p);
      if p < s && IsFresh(u[p].1, now) { FreshnessGrows(log, now, p, s - 1); }
  }

  // ---- The parser's state ----

  datatype Line =
    | Query(serial: string, name: string)
    | Answer(serial: string, client: string, name: string, ip: string)
    | Other

  /** The questions, and all that answers made the parser remember. */
  datatype Index = Index(
    queries: OMap<string, string>,
    clientLog: seq<Memory<(string, string)>>,
    ipLog: seq<Memory<string>>)

  /** The app an answer is attributed to: the name the device asked for tells more than the name that answered. */
  function AppOf(queries: OMap<string, string>, serial: string, name: string,
                 classify: string -> Option<string>): Option<string> {
    var asked := Find(queries, serial);
    var byQuestion := if asked.Some? then classify(asked.value) else None;
    if byQuestion.Some? then byQuestion else classify(name)
  }

  function Ask(queries: OMap<string, string>, serial: string, name: string): OMap<string, string> {
    Newest(Put(queries, serial, name), MAX_QUERIES)
  }

  function Parse(x: Index, line: Line, now: int, classify: string -> Option<string>): Index {
    match line
    case Query(serial, name) => x.(queries := Ask(x.queries, serial, name))
    case Answer(serial, client, name, ip) =>
      var app := AppOf(x.queries, serial, name, classify);
      if app.None? then x
      else x.(clientLog := x.clientLog + [Memory((client, ip), app.value, now)],
              ipLog := x.ipLog + [Memory(ip, app.value, now)])
    case Other => x
  }

  class DnsIndex {
    var queryNameBySerial: OMap<string, string>
    var byClientAndIp: OMap<(string, string), Mapping>
    var byIp: OMap<string, Mapping>
    ghost var clientLog: seq<Memory<(string, string)>>
    ghost var ipLog: seq<Memory<string>>

    /** Both indexes are the newest part of what was ever remembered, and never over their bound. */
    ghost predicate Valid()
      reads this
    {
      byClientAndIp == Bounded(clientLog, MAX_MAPPINGS) && byIp == Bounded(ipLog, MAX_MAPPINGS)
      && |queryNameBySerial| <= MAX_QUERIES
    }

    constructor ()
      ensures Valid() && clientLog == [] && ipLog == []
    {
      queryNameBySerial, byClientAndIp, byIp := [], [], [];
      clientLog, ipLog := [], [];
    }

    ghost function Data(): Index
      reads this
    {
      Index(queryNameBySerial, clientLog, ipLog)
    }

    method ParseLine(line: Line, now: int, classify: string -> Option<string>)
      requires Valid()
      modifies this
      ensures Valid()
      ensures queryNameBySerial
              == if line.Query? then Newest(Put(old(queryNameBySerial), line.serial, line.name), MAX_QUERIES)
                 else old(queryNameBySerial)
      ensures line.Query? ==> Find(queryNameBySerial, line.serial) == Some(line.name)
      ensures !line.Answer? ==> clientLog == old(clientLog) && ipLog == old(ipLog)
      ensures line.Answer? ==>
                var asked := Find(old(queryNameBySerial), line.serial);
                var app := if asked.Some? && classify(asked.value).Some? then classify(asked.value)
                           else classify(line.name);
                if app.None? then clientLog == old(clientLog) && ipLog == old(ipLog)
                else clientLog == old(clientLog) + [Memory((line.client, line.ip), app.value, now)]
                     && ipLog == old(ipLog) + [Memory(line.ip, app.value, now)]
      ensures Data() == Parse(old(Data()), line, now, classify)
    {
      if line.Query? {
        var queries := Put(queryNameBySerial, line.serial, line.name);
        QueryStaysFindable(queryNameBySerial, line.serial, line.name);
        queryNameBySerial := if |queries| > MAX_QUERIES then queries[1..] else queries;
        return;
      }
      if !line.Answer? { return; }
      var asked := Find(queryNameBySerial, line.serial);
      var app := if asked.Some? then classify(asked.value) else None;
      if app == None { app := classify(line.name); }
      if app == None { return; }
      byClientAndIp := Remember(byClientAndIp, (line.client, line.ip), app.value, now, MAX_MAPPINGS);
      byIp := Remember(byIp, line.ip, app.value, now, MAX_MAPPINGS);
      clientLog := clientLog + [Memory((line.client, line.ip), app.value, now)];
      ipLog := ipLog + [Memory(line.ip, app.value, now)];
      assert clientLog[..|clientLog| - 1] == old(clientLog) && ipLog[..|ipLog| - 1] == old(ipLog);
    }

    /** What the indexes say is what the unbounded logs say, while at most 50,000 keys are fresh in each. */
    method AppFor(client: string, ip: string, now: int) returns (app: Option<string>)
      requires Valid() && InTime(clientLog) && InTime(ipLog)
      ensures app == AppForDestination(byClientAndIp, byIp, client, ip, now)
      ensures |FreshEntries(Unbounded(clientLog), now)| <= MAX_MAPPINGS
              && |FreshEntries(Unbounded(ipLog), now)| <= MAX_MAPPINGS ==>
                app == AppForDestination(Unbounded(clientLog), Unbounded(ipLog), client, ip, now)
    {
      if |FreshEntries(Unbounded(clientLog), now)| <= MAX_MAPPINGS
        && |FreshEntries(Unbounded(ipLog), now)| <= MAX_MAPPINGS {
        BoundIsInvisibleExactlyWhen(clientLog, MAX_MAPPINGS, now);
        BoundIsInvisibleExactlyWhen(ipLog, MAX_MAPPINGS, now);
      }
      var specific := Find(byClientAndIp, (client, ip));
      if specific.Some? && now - specific.value.at < MAPPING_TTL_MS { return Some(specific.value.app); }
      var shared := Find(byIp, ip);
      if shared.Some? && now - shared.value.at < MAPPING_TTL_MS { return Some(shared.value.app); }
      return None;
    }
  }

  lemma TailOfCons<T>(first: T, rest: seq<T>)
    ensures ([first] + rest)[1..] == rest
  {
  }

  lemma ConsOfAppend<T>(s: seq<T>, last: T)
    requires s != []
    ensures [s[0]] + (s[1..] + [last]) == s + [last]
  {
  }

  /** Evicting the oldest query never evicts the one just set. */
  lemma {:induction false} QueryStaysFindable(m: OMap<string, string>, serial: string, name: string)
    ensures |m| <= |Put(m, serial, name)| <= |m| + 1
    ensures |Put(m, serial, name)| > |m| ==> Put(m, serial, name) == m + [(serial, name)]
    ensures |Put(m, serial, name)| > |m| && m != [] ==> Find(Put(m, serial, name)[1..], serial) == Some(name)
  {
    if m != [] && m[0].0 != serial {
      QueryStaysFindable(m[1..], serial, name);
      var rest := Put(m[1..], serial, name);
      assert Put(m, serial, name) == [m[0]] + rest;
      hide Put, Find;
      TailOfCons(m[0], rest);
      ConsOfAppend(m, (serial, name));
    }
  }

  // ---- The log reader ----

  /** One past the last newline, or 0. */
  function CompleteLength(text: string): (n: nat)
    ensures n <= |text| && (n > 0 ==> text[n - 1] == '\n') && forall i :: n <= i < |text| ==> text[i] != '\n'
  {
    if text == "" then 0
    else if text[|text| - 1] == '\n' then |text|
    else CompleteLength(text[..|text| - 1])
  }

  function FirstNewline(text: string): (n: nat)
    ensures n <= |text| && (n < |text| ==> text[n] == '\n') && forall i :: 0 <= i < n ==> text[i] != '\n'
  {
    if text == "" || text[0] == '\n' then 0 else 1 + FirstNewline(text[1..])
  }

  /** JavaScript's split at newlines. */
  function Split(text: string): seq<string>
    decreases |text|
  {
    var n := FirstNewline(text);
    if n == |text| then [text] else [text[..n]] + Split(text[n + 1..])
  }

  function NonEmpty(lines: seq<string>): seq<string> {
    if lines == [] then [] else (if lines[0] == "" then [] else [lines[0]]) + NonEmpty(lines[1..])
  }

  /** The nonempty lines of a text. */
  function Lines(text: string): seq<string> { NonEmpty(Split(text)) }

  predicate EndsLine(text: string) { text == "" || text[|text| - 1] == '\n' }

  lemma FirstNewlineOfConcat(a: string, b: string)
    requires a != "" && EndsLine(a)
    ensures FirstNewline(a) < |a| && FirstNewline(a + b) == FirstNewline(a)
  {
    var n := FirstNewline(a + b);
    assert (a + b)[|a| - 1] == '\n';
    assert forall i :: 0 <= i < |a| ==> (a + b)[i] == a[i];
  }

  lemma SlicesOfConcat<T>(a: seq<T>, b: seq<T>, n: nat)
    requires n < |a|
    ensures (a + b)[..n] == a[..n] && (a + b)[n + 1..] == a[n + 1..] + b
  {
  }

  lemma LinesOfFirst(text: string, n: nat)
    requires n == FirstNewline(text) < |text|
    ensures Lines(text) == (if n == 0 then [] else [text[..n]]) + Lines(text[n + 1..])
  {
    hide FirstNewline, NonEmpty;
    assert Split(text) == [text[..n]] + Split(text[n + 1..]);
    assert text[..n] == "" <==> n == 0;
    NonEmptyOfCons(text[..n], Split(text[n + 1..]));
  }

  /** Reading a text line by line can be cut after any newline. */
  lemma {:induction false} LinesOfConcat(a: string, b: string)
    requires EndsLine(a)
    ensures Lines(a + b) == Lines(a) + Lines(b)
    decreases |a|
  {
    if a == "" {
      assert a + b == b && Split(a) == [""];
      assert NonEmpty([""]) == [];
    } else {
      var n := FirstNewline(a);
      FirstNewlineOfConcat(a, b);
      assert EndsLine(a[n + 1..]);
      hide Lines, FirstNewline, Split, NonEmpty, EndsLine;
      LinesOfConcat(a[n + 1..], b);
      LinesOfConcatStep(a, b, n);
    }
  }

  lemma LinesOfConcatStep(a: string, b: string, n: nat)
    requires n == FirstNewline(a) == FirstNewline(a + b) < |a|
    requires Lines(a[n + 1..] + b) == Lines(a[n + 1..]) + Lines(b)
    ensures Lines(a + b) == Lines(a) + Lines(b)
  {
    hide Lines, FirstNewline;
    SlicesOfConcat(a, b, n);
    LinesOfFirst(a, n);
    LinesOfFirst(a + b, n);
  }

  lemma NonEmptyOfCons(line: string, lines: seq<string>)
    ensures NonEmpty([line] + lines) == (if line == "" then [] else [line]) + NonEmpty(lines)
  {
    assert ([line] + lines)[1..] == lines;
  }

  /** One pass over the file: what was read, what was still unread when the file was emptied, and whether it was. */
  datatype Pass = Pass(read: string, unread: string, emptied: bool)

  /** The file, how far it was read, the lines parsed, all that was ever written to the log, and the earlier passes. */
  datatype Reader = Reader(file: string, offset: nat, parsed: seq<string>, written: string, past: seq<Pass>)

  const FRESH := Reader("", 0, [], "", [])

  function Window(r: Reader): string
    requires r.offset <= |r.file|
  {
    if |r.file| - r.offset <= MAX_LOG_BYTES then r.file[r.offset..] else r.file[r.offset..r.offset + MAX_LOG_BYTES]
  }

  /** Parses what is complete in the window. */
  function ReadOn(r: Reader): (r': Reader)
    requires r.offset <= |r.file|
    ensures r' == r.(offset := r'.offset, parsed := r'.parsed) && r'.offset <= |r.file|
  {
    var complete := CompleteLength(Window(r));
    r.(offset := r.offset + complete, parsed := r.parsed + Lines(Window(r)[..complete]))
  }

  /** Back to the start of the file, which is emptied unless that fails. */
  function StartOver(r: Reader, truncates: bool): Reader
    requires r.offset <= |r.file|
  {
    r.(file := if truncates then "" else r.file, offset := 0,
       past := r.past + [Pass(r.file[..r.offset], if truncates then r.file[r.offset..] else "", truncates)])
  }

  /** One poll; `late` is written after the file's size was taken. */
  function Poll(r: Reader, late: string, truncates: bool): Reader {
    var started := if |r.file| < r.offset then r.(offset := 0) else r;
    var read := if |r.file| > started.offset then ReadOn(started) else started;
    var after := read.(file := r.file + late, written := r.written + late);
    if read.offset >= MAX_LOG_BYTES then StartOver(after, truncates) else after
  }

  /**
   * One poll, in the file's terms: it reads from where the last one stopped, or from the
   * start of a file that has become shorter, up to the last newline within two megabytes.
   * Only past two megabytes is the file emptied, with all that was written since.
   */
  lemma PollDoes(r: Reader, late: string, truncates: bool) returns (n: nat)
    ensures var r' := Poll(r, late, truncates);
            var from := if |r.file| < r.offset then 0 else r.offset;
            var to := if |r.file| - from <= 2_097_152 then |r.file| else from + 2_097_152;
            from <= n <= to <= |r.file| && (n > from ==> r.file[n - 1] == '\n')
            && (forall i :: n <= i < to ==> r.file[i] != '\n')
            && r'.parsed == r.parsed + Lines(r.file[from..n]) && r'.written == r.written + late
            && r'.offset == (if n >= 2_097_152 then 0 else n)
            && r'.file == (if n >= 2_097_152 && truncates then "" else r.file + late)
            && (n < 2_097_152 ==> r'.past == r.past)
  {
    hide Lines, CompleteLength, ReadOn;
    var started := r.(offset := if |r.file| < r.offset then 0 else r.offset);
    n := ReadDoes(started);
    assert started.offset == |r.file| ==> n == |r.file| && r.file[n..n] == "";
    NothingToRead();
  }

  lemma ReadDoes(r: Reader) returns (n: nat)
    requires r.offset <= |r.file|
    ensures var to := if |r.file| - r.offset <= 2_097_152 then |r.file| else r.offset + 2_097_152;
            r.offset <= n <= to && (n > r.offset ==> r.file[n - 1] == '\n')
            && (forall i :: n <= i < to ==> r.file[i] != '\n')
            && ReadOn(r) == r.(offset := n, parsed := r.parsed + Lines(r.file[r.offset..n]))
  {
    hide Lines;
    var w := Window(r);
    var complete := CompleteLength(w);
    hide CompleteLength;
    n := r.offset + complete;
    assert forall i :: 0 <= i < |w| ==> w[i] == r.file[r.offset + i];
    assert forall i :: n <= i < r.offset + |w| ==> r.file[i] == w[i - r.offset];
    assert w[..complete] == r.file[r.offset..n];
  }

  lemma NothingToRead()
    ensures CompleteLength("") == 0 && Lines("") == []
  {
    assert Split("") == [""];
  }

  lemma NoLines()
    ensures NonEmpty([]) == []
  {
  }

  class LogReader {
    var offset: nat
    ghost var parsed: seq<string>
    ghost var past: seq<Pass>

    constructor ()
      ensures offset == 0 && parsed == [] && past == []
    {
      offset, parsed, past := 0, [], [];
    }

    /** One poll over the file's present content; `left` is the file afterwards. */
    method PollDnsLog(file: string, late: string, truncates: bool, ghost written: string)
      returns (lines: seq<string>, left: string)
      modifies this
      ensures Reader(left, offset, parsed, written + late, past)
              == Poll(old(Reader(file, offset, parsed, written, past)), late, truncates)
      ensures parsed == old(parsed) + NonEmpty(lines)
    {
      hide Split, NonEmpty, CompleteLength;
      lines := [];
      NoLines();
      left := file + late;
      if |file| < offset { offset := 0; }
      if |file| > offset {
        var length := if |file| - offset <= MAX_LOG_BYTES then |file| - offset else MAX_LOG_BYTES;
        var text := file[offset..offset + length];
        assert text == Window(Reader(file, offset, parsed, written, past));
        var complete := CompleteLength(text);
        lines := Split(text[..complete]);
        parsed := parsed + NonEmpty(lines);
        offset := offset + complete;
      }
      if offset >= MAX_LOG_BYTES {
        past := past + [Pass(left[..offset], if truncates then left[offset..] else "", truncates)];
        if truncates { left := ""; }
        offset := 0;
      }
    }
  }

  /** All the text passed over, in the order it was read. */
  function PassedOver(past: seq<Pass>): string {
    if past == [] then "" else PassedOver(past[..|past| - 1]) + past[|past| - 1].read
  }

  /** All the text that is no longer in the file. */
  function Emptied(past: seq<Pass>): string {
    if past == [] then ""
    else
      var last := past[|past| - 1];
      Emptied(past[..|past| - 1]) + if last.emptied then last.read + last.unread else ""
  }

  lemma OnePassMore(past: seq<Pass>, p: Pass)
    ensures PassedOver(past + [p]) == PassedOver(past) + p.read
    ensures Emptied(past + [p]) == Emptied(past) + if p.emptied then p.read + p.unread else ""
  {
    assert (past + [p])[..|past|] == past;
  }

  /**
   * What was parsed is exactly the nonempty lines of the text passed over, every piece of
   * which ends a line; what was written is what was emptied and what is in the file.
   */
  ghost predicate ReadSoFar(r: Reader) {
    r.offset <= |r.file| && r.offset < MAX_LOG_BYTES
    && EndsLine(PassedOver(r.past)) && EndsLine(r.file[..r.offset])
    && r.parsed == Lines(PassedOver(r.past) + r.file[..r.offset])
    && r.written == Emptied(r.past) + r.file
  }

  lemma CompleteEndsLine(done: string, text: string)
    requires EndsLine(done)
    ensures EndsLine(text[..CompleteLength(text)]) && EndsLine(done + text[..CompleteLength(text)])
  {
  }

  lemma ReadMore(before: string, done: string, text: string)
    requires EndsLine(before) && EndsLine(done)
    ensures var next := text[..CompleteLength(text)];
            EndsLine(done + next) && Lines(before + (done + next)) == Lines(before + done) + Lines(next)
  {
    var next := text[..CompleteLength(text)];
    CompleteEndsLine(done, text);
    assert EndsLine(before + done) by { if done == "" { assert before + done == before; } }
    assert before + (done + next) == (before + done) + next;
    hide Lines, EndsLine, CompleteLength;
    LinesOfConcat(before + done, next);
  }

  /** Reading on keeps all of it but the bound on the offset. */
  lemma ReadOnParses(r: Reader)
    requires ReadSoFar(r)
    ensures var r' := ReadOn(r);
            EndsLine(r'.file[..r'.offset]) && r'.parsed == Lines(PassedOver(r.past) + r'.file[..r'.offset])
  {
    hide Lines, EndsLine, CompleteLength, PassedOver, Emptied;
    ReadMore(PassedOver(r.past), r.file[..r.offset], Window(r));
    var complete := CompleteLength(Window(r));
    assert r.file[..r.offset + complete] == r.file[..r.offset] + Window(r)[..complete];
  }

  lemma EndsLineConcat(a: string, b: string)
    requires EndsLine(a) && EndsLine(b)
    ensures EndsLine(a + b)
  {
    if b == "" { assert a + b == a; }
  }

  lemma AppendNothing(s: string)
    ensures s + "" == s
  {
  }

  lemma StartOverStays(r: Reader, truncates: bool)
    requires r.offset <= |r.file| && EndsLine(PassedOver(r.past)) && EndsLine(r.file[..r.offset])
    requires r.parsed == Lines(PassedOver(r.past) + r.file[..r.offset]) && r.written == Emptied(r.past) + r.file
    ensures ReadSoFar(StartOver(r, truncates))
  {
    var before, read, rest := PassedOver(r.past), r.file[..r.offset], r.file[r.offset..];
    EndsLineConcat(before, read);
    AppendNothing(before + read);
    var emptied := if truncates then read + rest else "";
    EmptiedOrLeft(Emptied(r.past), r.file, r.offset, truncates);
    hide Lines, EndsLine, PassedOver, Emptied;
    var r' := StartOver(r, truncates);
    OnePassMore(r.past, Pass(read, if truncates then rest else "", truncates));
    assert r'.file[..0] == "" && EndsLine("");
    assert PassedOver(r'.past) == before + read;
    assert r'.written == Emptied(r'.past) + r'.file;
  }

  lemma EmptiedOrLeft(before: string, file: string, offset: nat, truncates: bool)
    requires offset <= |file|
    ensures before + (if truncates then file[..offset] + file[offset..] else "") + (if truncates then "" else file)
            == before + file
  {
    assert file[..offset] + file[offset..] == file;
  }

  lemma PollStays(r: Reader, late: string, truncates: bool)
    requires ReadSoFar(r)
    ensures ReadSoFar(Poll(r, late, truncates))
  {
    hide Lines, ReadOn, EndsLine, PassedOver, Emptied, StartOver;
    if |r.file| > r.offset { ReadOnParses(r); }
    var read := if |r.file| > r.offset then ReadOn(r) else r;
    var after := read.(file := r.file + late, written := r.written + late);
    assert after.file[..after.offset] == read.file[..read.offset];
    assert Emptied(r.past) + (r.file + late) == r.written + late;
    if read.offset >= MAX_LOG_BYTES { StartOverStays(after, truncates); }
  }

  datatype Event = Append(text: string) | Polling(late: string, truncates: bool)

  function Step(r: Reader, e: Event): Reader {
    match e
    case Append(text) => r.(file := r.file + text, written := r.written + text)
    case Polling(late, truncates) => Poll(r, late, truncates)
  }

  function After(es: seq<Event>): Reader {
    if es == [] then FRESH else Step(After(es[..|es| - 1]), es[|es| - 1])
  }

  lemma FreshIsRead()
    ensures ReadSoFar(FRESH)
  {
    assert Split("") == [""] && NonEmpty([""]) == [];
    assert PassedOver([]) + ""[..0] == "";
  }

  lemma StepStays(r: Reader, e: Event)
    requires ReadSoFar(r)
    ensures ReadSoFar(Step(r, e))
  {
    match e
    case Append(text) =>
      assert (r.file + text)[..r.offset] == r.file[..r.offset];
      assert Emptied(r.past) + (r.file + text) == r.written + text;
    case Polling(late, truncates) => PollStays(r, late, truncates);
  }

  /**
   * Over any appends and polls, across all passes over the file, what was parsed is exactly
   * the nonempty lines of the text passed over, each once and in order.
   */
  lemma {:induction false} EachLineParsedOnce(es: seq<Event>)
    ensures ReadSoFar(After(es))
  {
    hide ReadSoFar, Step;
    if es == [] {
      FreshIsRead();
    } else {
      EachLineParsedOnce(es[..|es| - 1]);
      StepStays(After(es[..|es| - 1]), es[|es| - 1]);
    }
  }

  // ---- What a truncation loses ----

  lemma {:induction false} PassesLose(past: seq<Pass>)
    requires forall p :: p in past ==> p.emptied
    ensures |PassedOver(past)| <= |Emptied(past)|
    ensures PassedOver(past) == Emptied(past) <==> forall p :: p in past ==> p.unread == ""
  {
    if past != [] {
      var before, last := past[..|past| - 1], past[|past| - 1];
      assert past == before + [last];
      assert last in past && forall p :: p in before ==> p in past;
      PassesLose(before);
      OnePassMore(before, last);
      if last.unread == "" { assert last.read + "" == last.read; }
      if PassedOver(past) == Emptied(past) {
        assert |last.unread| == 0 && |PassedOver(before)| == |Emptied(before)|;
        assert PassedOver(before) == PassedOver(past)[..|PassedOver(before)|];
        assert Emptied(before) == Emptied(past)[..|Emptied(before)|];
      }
    }
  }

  /**
   * While no truncation fails, the text passed over and the file make up all that was ever
   * written, exactly when every truncation found the file read to its end.
   */
  lemma NothingLostExactlyWhen(es: seq<Event>)
    requires forall p :: p in After(es).past ==> p.emptied
    ensures var r := After(es);
            PassedOver(r.past) + r.file == r.written <==> forall p :: p in r.past ==> p.unread == ""
  {
    EachLineParsedOnce(es);
    hide After;
    var r := After(es);
    PassesLose(r.past);
    if PassedOver(r.past) + r.file == Emptied(r.past) + r.file {
      assert |PassedOver(r.past)| == |Emptied(r.past)|;
      assert PassedOver(r.past) == (PassedOver(r.past) + r.file)[..|PassedOver(r.past)|];
      assert Emptied(r.past) == (Emptied(r.past) + r.file)[..|Emptied(r.past)|];
    }
  }

  /** And one finds it so exactly when it came to the file with a backlog within the read limit that ended a line. */
  lemma TruncationLosesNothingExactlyWhen(r: Reader, late: string)
    requires ReadSoFar(r) && Poll(r, late, true).past != r.past
    ensures var past := Poll(r, late, true).past;
            past[|past| - 1].unread == "" <==> late == "" && |r.file| - r.offset <= MAX_LOG_BYTES && EndsLine(r.file)
  {
    hide Lines, CompleteLength, Window;
    assert |r.file| > r.offset;
    var n := ReadDoes(r);
    var past := Poll(r, late, true).past;
    assert past[|past| - 1].unread == (r.file + late)[n..];
    ReadsToTheEnd(r, n);
    hide ReadOn, ReadSoFar, EndsLine;
    assert (r.file + late)[n..] == "" <==> n == |r.file| && late == "";
  }

  lemma ReadsToTheEnd(r: Reader, n: nat)
    requires r.offset < |r.file|
    requires var to := if |r.file| - r.offset <= MAX_LOG_BYTES then |r.file| else r.offset + MAX_LOG_BYTES;
             r.offset <= n <= to && (n > r.offset ==> r.file[n - 1] == '\n')
             && (forall i :: n <= i < to ==> r.file[i] != '\n')
    ensures n == |r.file| <==> |r.file| - r.offset <= MAX_LOG_BYTES && EndsLine(r.file)
  {
    var last := |r.file| - 1;
    if |r.file| - r.offset <= MAX_LOG_BYTES && n < |r.file| { assert r.file[last] != '\n'; }
  }

  /** Two MiB and a line, written between two polls. */
  const BURST: seq<Event> := [Append(seq(MAX_LOG_BYTES, i => '\n') + "a\n"), Polling("", true)]

  lemma FullWindow(r: Reader, tail: string)
    requires r.offset == 0 && r.file == seq(MAX_LOG_BYTES, i => '\n') + tail
    ensures ReadOn(r).offset == MAX_LOG_BYTES
  {
    hide Lines, CompleteLength;
    var full := seq(MAX_LOG_BYTES, i => '\n');
    assert Window(r) == full;
    assert full[MAX_LOG_BYTES - 1] == '\n';
  }

  /** The line past the read limit is thrown away with the rest of the file. */
  lemma BurstLosesALine()
    ensures var r := After(BURST); |r.past| == 1 && r.past[0].unread == "a\n" && r.file == "" && r.offset == 0
  {
    hide Lines, CompleteLength, ReadOn, Window;
    var text := seq(MAX_LOG_BYTES, i => '\n') + "a\n";
    assert BURST[..2][..1] == BURST[..1] && BURST[..1][..0] == [] && BURST[..2] == BURST;
    assert "" + text == text && text + "" == text;
    var r := Reader(text, 0, [], text, []);
    assert After(BURST[..1]) == r;
    FullWindow(r, "a\n");
    assert text[MAX_LOG_BYTES..] == "a\n";
  }

  // ---- What a failed truncation repeats ----

  /** What emptying threw away, and what was read in passes that were then not emptied. */
  function Discarded(past: seq<Pass>): nat {
    if past == [] then 0 else Discarded(past[..|past| - 1]) + |past[|past| - 1].unread|
  }

  function ReadInVain(past: seq<Pass>): nat {
    if past == [] then 0
    else ReadInVain(past[..|past| - 1]) + if past[|past| - 1].emptied then 0 else |past[|past| - 1].read|
  }

  /** A pass that was not emptied has thrown nothing away. */
  ghost predicate KeepsUnread(past: seq<Pass>) { forall p :: p in past ==> p.emptied || p.unread == "" }

  lemma {:induction false} PassesAddUp(past: seq<Pass>)
    requires KeepsUnread(past)
    ensures |PassedOver(past)| + Discarded(past) == |Emptied(past)| + ReadInVain(past)
  {
    if past != [] {
      var before, last := past[..|past| - 1], past[|past| - 1];
      assert last in past && forall p :: p in before ==> p in past;
      PassesAddUp(before);
    }
  }

  lemma {:induction false} FailedPassesKeepUnread(es: seq<Event>)
    ensures KeepsUnread(After(es).past)
  {
    hide ReadOn;
    if es != [] { FailedPassesKeepUnread(es[..|es| - 1]); }
  }

  /**
   * Over any run, failed truncations included, every byte written is read, thrown away or
   * still in the file, and it is read once more for each failed truncation it was read before.
   */
  lemma EveryByteAccounted(es: seq<Event>)
    ensures var r := After(es);
            |PassedOver(r.past)| + Discarded(r.past) + |r.file| == |r.written| + ReadInVain(r.past)
  {
    EachLineParsedOnce(es);
    FailedPassesKeepUnread(es);
    PassesAddUp(After(es).past);
  }

  lemma {:induction false} NoLinesExactlyWhen(text: string)
    requires EndsLine(text)
    ensures Lines(text) == [] <==> forall i :: 0 <= i < |text| ==> text[i] == '\n'
    decreases |text|
  {
    if text == "" {
      NoLines();
      assert Split("") == [""] && NonEmpty([""]) == [];
    } else {
      var n := FirstNewline(text);
      assert n < |text| by { assert text[|text| - 1] == '\n'; }
      hide Lines, FirstNewline;
      LinesOfFirst(text, n);
      NoLinesExactlyWhen(text[n + 1..]);
      if n == 0 {
        assert forall i :: 0 < i < |text| ==> text[i] == text[1..][i - 1];
        assert forall i :: 0 <= i < |text| - 1 ==> text[1..][i] == text[i + 1];
      } else {
        assert text[0] != '\n';
      }
    }
  }

  /** A poll that comes to the end of its pass has read a whole first window of complete lines. */
  lemma FirstWindowWasRead(r: Reader)
    requires ReadSoFar(r) && |r.file| > r.offset && ReadOn(r).offset >= MAX_LOG_BYTES
    ensures var n := CompleteLength(r.file[..MAX_LOG_BYTES]);
            n <= ReadOn(r).offset <= |r.file| && EndsLine(r.file[..n])
    ensures EndsLine(r.file[..ReadOn(r).offset]) && EndsLine(PassedOver(r.past))
  {
    ReadOnParses(r);
    hide Lines;
    var n := CompleteLength(r.file[..MAX_LOG_BYTES]);
    assert r.file[..MAX_LOG_BYTES][..n] == r.file[..n];
  }

  /**
   * When emptying the file fails, the next poll parses the lines of the first window again,
   * whatever was written meanwhile; these are lines that this very pass had parsed. Something
   * is repeated exactly when there is more than newlines before the window's last newline.
   */
  lemma FailedTruncationRereads(r: Reader, late: string, more: string, late2: string, truncates: bool)
    requires ReadSoFar(r) && |r.file| > r.offset && ReadOn(r).offset >= MAX_LOG_BYTES
    ensures var again := Step(Poll(r, late, false), Append(more));
            var n, end := CompleteLength(r.file[..MAX_LOG_BYTES]), ReadOn(r).offset;
            var repeated := Lines(r.file[..n]);
            n <= end <= |r.file|
            && Poll(again, late2, truncates).parsed == again.parsed + repeated
            && again.parsed == Lines(PassedOver(r.past)) + repeated + Lines(r.file[n..end])
            && (repeated == [] <==> forall i :: 0 <= i < n ==> r.file[i] == '\n')
  {
    hide *;
    var again := Step(Poll(r, late, false), Append(more));
    var n, end := CompleteLength(r.file[..MAX_LOG_BYTES]), ReadOn(r).offset;
    FirstWindowWasRead(r);
    FailedPassEnds(r, late, more);
    ReadOnParses(r);
    ReadAgain(r, again, n, late2, truncates);
    NoLinesUpTo(r.file, n);
    LinesOfThree(PassedOver(r.past), r.file, n, end);
  }

  lemma NoLinesUpTo(text: string, n: nat)
    requires n <= |text| && EndsLine(text[..n])
    ensures Lines(text[..n]) == [] <==> forall i :: 0 <= i < n ==> text[i] == '\n'
  {
    hide Lines;
    NoLinesExactlyWhen(text[..n]);
    assert forall i :: 0 <= i < n ==> text[..n][i] == text[i];
  }

  lemma FailedPassEnds(r: Reader, late: string, more: string)
    requires r.offset < |r.file| && ReadOn(r).offset >= MAX_LOG_BYTES
    ensures var again := Step(Poll(r, late, false), Append(more));
            r.file <= again.file && again.offset == 0 && again.parsed == ReadOn(r).parsed
  {
    hide ReadOn;
  }

  lemma LinesOfThree(before: string, text: string, n: nat, end: nat)
    requires n <= end <= |text| && EndsLine(before) && EndsLine(text[..n])
    ensures Lines(before + text[..end]) == Lines(before) + Lines(text[..n]) + Lines(text[n..end])
  {
    hide Lines, EndsLine;
    LinesOfConcat(before, text[..end]);
    assert text[..end] == text[..n] + text[n..end];
    LinesOfConcat(text[..n], text[n..end]);
  }

  lemma ReadAgain(r: Reader, again: Reader, n: nat, late: string, truncates: bool)
    requires |r.file| >= MAX_LOG_BYTES && r.file <= again.file && again.offset == 0
    requires n == CompleteLength(r.file[..MAX_LOG_BYTES])
    ensures Poll(again, late, truncates).parsed == again.parsed + Lines(r.file[..n])
  {
    hide Lines, CompleteLength;
    assert Window(again) == r.file[..MAX_LOG_BYTES];
    assert r.file[..MAX_LOG_BYTES][..n] == r.file[..n];
  }

  /** A log that fills the first window with whole lines; the first emptying fails. */
  function ReadTwice(text: string): seq<Event> { [Append(text), Polling("", false), Polling("", true)] }

  const LINE_AND_NEWLINES := "a\n" + seq(MAX_LOG_BYTES - 2, i => '\n')

  lemma OneLineThenNewlines()
    ensures Lines(LINE_AND_NEWLINES) == ["a"] && |LINE_AND_NEWLINES| == MAX_LOG_BYTES && EndsLine(LINE_AND_NEWLINES)
  {
    var newlines := seq(MAX_LOG_BYTES - 2, i => '\n');
    assert EndsLine(newlines) && EndsLine("a\n") by { assert newlines[MAX_LOG_BYTES - 3] == '\n'; }
    NoLinesExactlyWhen(newlines);
    OneLine();
    hide Lines;
    LinesOfConcat("a\n", newlines);
    assert LINE_AND_NEWLINES[MAX_LOG_BYTES - 1] == '\n';
  }

  lemma OneLine()
    ensures Lines("a\n") == ["a"]
  {
    var text := "a\n";
    assert FirstNewline(text) == 1;
    hide Lines;
    LinesOfFirst(text, 1);
    assert text[..1] == "a" && text[2..] == "";
    NoLinesExactlyWhen("");
  }

  lemma AfterThree(e0: Event, e1: Event, e2: Event)
    ensures After([e0, e1, e2]) == Step(Step(Step(FRESH, e0), e1), e2)
  {
    hide Step;
    assert [e0, e1, e2][..2] == [e0, e1] && [e0, e1][..1] == [e0] && [e0][..0] == [];
    assert After([]) == FRESH;
    assert After([e0]) == Step(FRESH, e0);
    assert After([e0, e1]) == Step(After([e0]), e1);
  }

  lemma PollReadsWhole(r: Reader, truncates: bool)
    requires |r.file| == MAX_LOG_BYTES && EndsLine(r.file) && r.offset == 0
    ensures var r' := Poll(r, "", truncates);
            r'.parsed == r.parsed + Lines(r.file) && (!truncates ==> r'.file == r.file && r'.offset == 0)
  {
    hide Lines, CompleteLength;
    assert Window(r) == r.file && r.file[..MAX_LOG_BYTES] == r.file && r.file + "" == r.file;
  }

  /** Each of its lines is parsed twice. */
  lemma AllLinesTwice(text: string)
    requires |text| == MAX_LOG_BYTES && EndsLine(text)
    ensures After(ReadTwice(text)).parsed == Lines(text) + Lines(text)
  {
    hide After, Poll, Lines, EndsLine;
    AfterThree(Append(text), Polling("", false), Polling("", true));
    var first := Step(FRESH, Append(text));
    assert first.file == text && first.parsed == [];
    PollReadsWhole(first, false);
    PollReadsWhole(Poll(first, "", false), true);
  }

  lemma LineIsParsedTwice()
    ensures After(ReadTwice(LINE_AND_NEWLINES)).parsed == ["a", "a"]
  {
    hide *;
    OneLineThenNewlines();
    AllLinesTwice(LINE_AND_NEWLINES);
  }

  /**
   * A poll moves on exactly when a line ends within the read limit, and a short backlog is read to its
   * last newline.
   */
  lemma PollMovesOnExactlyWhen(r: Reader)
    requires ReadSoFar(r)
    ensures ReadOn(r).offset > r.offset <==> '\n' in Window(r)
    ensures |r.file| - r.offset <= MAX_LOG_BYTES ==> '\n' !in r.file[ReadOn(r).offset..]
  {
    var w, complete := Window(r), CompleteLength(Window(r));
    if complete > 0 { assert w[complete - 1] == '\n'; }
    if |r.file| - r.offset <= MAX_LOG_BYTES {
      assert r.file[r.offset + complete..] == w[complete..];
    }
  }

  /** Behind a line longer than the read limit no poll ever gets anywhere, whatever follows it. */
  lemma LongLineStopsTheReader(r: Reader, more: string, late: string, truncates: bool)
    requires ReadSoFar(r) && |r.file| - r.offset >= MAX_LOG_BYTES && '\n' !in Window(r)
    ensures Poll(r.(file := r.file + more), late, truncates)
            == r.(file := r.file + more + late, written := r.written + late)
  {
    var later := r.(file := r.file + more);
    assert Window(later) == Window(r);
    assert CompleteLength(Window(r)) == 0;
    assert Window(r)[..0] == "" && Split("") == [""];
    assert NonEmpty([""]) == [];
    assert later.parsed + [] == later.parsed;
  }
}
