/**
 * Three up/down trackers written three ways, against one reference: alert when a run of
 * failures reaches its threshold, and again when the run ends. The alert hub drops
 * repeats within a cooldown.
 */
module Trackers {
  import opened Options

  const INTERNET_FAILURES_BEFORE_ALERT: nat := 2
  const API_FAILURES_BEFORE_ALERT: nat := 4
  const AGENT_FAILURES_BEFORE_ALERT: nat := 2

  datatype Alert = Down | Back

  // ---- The reference ----

  /** Failures since the last success. */
  function Run(checks: seq<bool>): nat {
    if checks == [] || checks[|checks| - 1] then 0 else Run(checks[..|checks| - 1]) + 1
  }

  /** What the check that follows these should raise. */
  function AlertFor(before: seq<bool>, ok: bool, threshold: nat): Option<Alert> {
    if ok then (if Run(before) >= threshold then Some(Back) else None)
    else if Run(before) + 1 == threshold then Some(Down) else None
  }

  function AlertsOf(checks: seq<bool>, threshold: nat): seq<Alert> {
    if checks == [] then []
    else
      var before := checks[..|checks| - 1];
      match AlertFor(before, checks[|checks| - 1], threshold)
      case None => AlertsOf(before, threshold)
      case Some(a) => AlertsOf(before, threshold) + [a]
  }

  /** Down, back, down, back, … */
  ghost predicate Alternates(alerts: seq<Alert>) {
    forall i :: 0 <= i < |alerts| ==> alerts[i] == if i % 2 == 0 then Down else Back
  }

  /** Alerts alternate, starting with down; the last one is down exactly while the run is past the threshold. */
  lemma {:induction false} AlertsAlternate(checks: seq<bool>, threshold: nat)
    requires threshold > 0
    ensures Alternates(AlertsOf(checks, threshold))
    ensures |AlertsOf(checks, threshold)| % 2 == 1 <==> Run(checks) >= threshold
  {
    if checks != [] { AlertsAlternate(checks[..|checks| - 1], threshold); }
  }

  /** Positions where a run of failures reaches the threshold. */
  function Outages(checks: seq<bool>, threshold: nat): (s: set<nat>)
    ensures forall i :: i in s <==> 0 < i <= |checks| && Run(checks[..i]) == threshold
  {
    set i: nat | 0 < i <= |checks| && Run(checks[..i]) == threshold
  }

  function Downs(alerts: seq<Alert>): nat {
    if alerts == [] then 0 else Downs(alerts[..|alerts| - 1]) + if alerts[|alerts| - 1] == Down then 1 else 0
  }

  lemma OutagesOfAppend(before: seq<bool>, ok: bool, threshold: nat)
    ensures |Outages(before + [ok], threshold)|
            == |Outages(before, threshold)| + if Run(before + [ok]) == threshold then 1 else 0
  {
    hide Run;
    var checks := before + [ok];
    assert checks[..|checks|] == checks;
    assert forall i :: 0 < i <= |before| ==> checks[..i] == before[..i];
    if Run(checks) == threshold {
      assert Outages(checks, threshold) == Outages(before, threshold) + {|checks|};
    } else {
      assert Outages(checks, threshold) == Outages(before, threshold);
    }
  }

  lemma DownsOfAppend(alerts: seq<Alert>, a: Alert)
    ensures Downs(alerts + [a]) == Downs(alerts) + if a == Down then 1 else 0
  {
    assert (alerts + [a])[..|alerts|] == alerts;
  }

  /** One "down" for each run that reaches the threshold, however long it lasts. */
  lemma {:induction false} OneDownPerOutage(checks: seq<bool>, threshold: nat)
    requires threshold > 0
    ensures Downs(AlertsOf(checks, threshold)) == |Outages(checks, threshold)|
  {
    hide Outages, Downs;
    if checks == [] {
      NoOutageYet(threshold);
    } else {
      var before, ok := checks[..|checks| - 1], checks[|checks| - 1];
      assert checks == before + [ok];
      OneDownPerOutage(before, threshold);
      OutagesOfAppend(before, ok, threshold);
      DownsOfAppend(AlertsOf(before, threshold), if ok then Back else Down);
    }
  }

  lemma NoOutageYet(threshold: nat)
    ensures Outages([], threshold) == {} && Downs([]) == 0
  {
  }

  // ---- The trackers ----

  /** A flag beside a counter that keeps growing. */
  class InternetTracker {
    var internetUp: bool
    var internetFailures: nat
    ghost var checks: seq<bool>

    ghost predicate Valid()
      reads this
    {
      internetFailures == Run(checks) && internetUp == (Run(checks) < INTERNET_FAILURES_BEFORE_ALERT)
    }

    constructor ()
      ensures Valid() && checks == []
    {
      internetUp, internetFailures, checks := true, 0, [];
    }

    method Check(reachable: bool) returns (alert: Option<Alert>)
      requires Valid()
      modifies this
      ensures Valid() && checks == old(checks) + [reachable]
      ensures alert == AlertFor(old(checks), reachable, 2)
    {
      alert := None;
      if reachable {
        if !internetUp { alert := Some(Back); }
        internetUp := true;
        internetFailures := 0;
      } else {
        internetFailures := internetFailures + 1;
        if internetFailures >= INTERNET_FAILURES_BEFORE_ALERT && internetUp {
          internetUp := false;
          alert := Some(Down);
        }
      }
      checks := checks + [reachable];
      assert checks[..|checks| - 1] == old(checks);
    }
  }

  /** A counter alone. */
  class ApiTracker {
    var apiFailures: nat
    ghost var checks: seq<bool>

    ghost predicate Valid()
      reads this
    {
      apiFailures == Run(checks)
    }

    constructor ()
      ensures Valid() && checks == []
    {
      apiFailures, checks := 0, [];
    }

    method Check(ok: bool) returns (alert: Option<Alert>)
      requires Valid()
      modifies this
      ensures Valid() && checks == old(checks) + [ok]
      ensures alert == AlertFor(old(checks), ok, 4)
    {
      alert := None;
      if ok {
        if apiFailures >= API_FAILURES_BEFORE_ALERT { alert := Some(Back); }
        apiFailures := 0;
      } else {
        apiFailures := apiFailures + 1;
        if apiFailures == API_FAILURES_BEFORE_ALERT { alert := Some(Down); }
      }
      checks := checks + [ok];
      assert checks[..|checks| - 1] == old(checks);
    }
  }

  /** A counter beside a record of having alerted. */
  class AgentTracker {
    var agentFailures: nat
    var agentDownAlerted: bool
    ghost var checks: seq<bool>

    ghost predicate Valid()
      reads this
    {
      agentFailures == Run(checks) && agentDownAlerted == (Run(checks) >= AGENT_FAILURES_BEFORE_ALERT)
    }

    constructor ()
      ensures Valid() && checks == []
    {
      agentFailures, agentDownAlerted, checks := 0, false, [];
    }

    method Check(healthy: bool) returns (alert: Option<Alert>)
      requires Valid()
      modifies this
      ensures Valid() && checks == old(checks) + [healthy]
      ensures alert == AlertFor(old(checks), healthy, 2)
    {
      alert := None;
      checks := checks + [healthy];
      assert checks[..|checks| - 1] == old(checks);
      if healthy {
        if agentDownAlerted { alert := Some(Back); }
        agentFailures := 0;
        agentDownAlerted := false;
        return;
      }
      agentFailures := agentFailures + 1;
      if agentFailures >= AGENT_FAILURES_BEFORE_ALERT && !agentDownAlerted {
        agentDownAlerted := true;
        alert := Some(Down);
      }
    }
  }

  // ---- The cooldown at the hub ----

  /** An alert raised at some time; only "down" alerts carry a key to drop repeats by. */
  datatype Raised = Raised(alert: Alert, at: int)

  ghost predicate Suppressed(log: seq<Raised>, e: Raised, cooldownMs: nat) {
    e.alert == Down && exists i :: 0 <= i < |log| && log[i].alert == Down && log[i].at >= e.at - cooldownMs
  }

  ghost function Recorded(raised: seq<Raised>, cooldownMs: nat): seq<Raised> {
    if raised == [] then []
    else
      var before := Recorded(raised[..|raised| - 1], cooldownMs);
      if Suppressed(before, raised[|raised| - 1], cooldownMs) then before else before + [raised[|raised| - 1]]
  }

  function AlertsIn(log: seq<Raised>): (alerts: seq<Alert>)
    ensures |alerts| == |log| && forall i :: 0 <= i < |log| ==> alerts[i] == log[i].alert
  {
    seq(|log|, i requires 0 <= i < |log| => log[i].alert)
  }

  /** The alert at `i` is a "down" raised within the cooldown of an earlier "down". */
  ghost predicate TooSoon(raised: seq<Raised>, i: nat, cooldownMs: nat)
    requires i < |raised|
  {
    raised[i].alert == Down
    && exists j :: 0 <= j < i && raised[j].alert == Down && raised[i].at - raised[j].at <= cooldownMs
  }

  lemma SuppressedIsTooSoon(raised: seq<Raised>, i: nat, cooldownMs: nat)
    requires i < |raised|
    ensures Suppressed(raised[..i], raised[i], cooldownMs) <==> TooSoon(raised, i, cooldownMs)
  {
    if TooSoon(raised, i, cooldownMs) {
      var j :| 0 <= j < i && raised[j].alert == Down && raised[i].at - raised[j].at <= cooldownMs;
      assert raised[..i][j] == raised[j];
    }
  }

  /** What is recorded of one more alert. */
  lemma RecordedNext(raised: seq<Raised>, i: nat, cooldownMs: nat)
    requires i < |raised|
    ensures var sofar := Recorded(raised[..i], cooldownMs);
            Recorded(raised[..i + 1], cooldownMs)
            == if Suppressed(sofar, raised[i], cooldownMs) then sofar else sofar + [raised[i]]
  {
    assert raised[..i + 1][..i] == raised[..i];
  }

  lemma NothingRecorded(cooldownMs: nat)
    ensures Recorded([], cooldownMs) == []
  {
  }

  /** Until the first "down" that comes too soon everything is recorded. */
  lemma {:induction false} KeptUpTo(raised: seq<Raised>, i: nat, cooldownMs: nat)
    requires i <= |raised| && forall j: nat :: j < i ==> !TooSoon(raised, j, cooldownMs)
    ensures Recorded(raised[..i], cooldownMs) == raised[..i]
  {
    hide Recorded, Suppressed, TooSoon;
    if i == 0 {
      NothingRecorded(cooldownMs);
    } else {
      KeptUpTo(raised, i - 1, cooldownMs);
      RecordedNext(raised, i - 1, cooldownMs);
      SuppressedIsTooSoon(raised, i - 1, cooldownMs);
      assert raised[..i] == raised[..i - 1] + [raised[i - 1]];
    }
  }

  lemma {:induction false} RecordOnlyGrows(raised: seq<Raised>, i: nat, cooldownMs: nat)
    requires i <= |raised|
    ensures Recorded(raised[..i], cooldownMs) <= Recorded(raised, cooldownMs)
  {
    if i == |raised| {
      assert raised[..i] == raised;
    } else {
      var before := raised[..|raised| - 1];
      assert before[..i] == raised[..i];
      RecordOnlyGrows(before, i, cooldownMs);
    }
  }

  lemma {:induction false} FirstTooSoon(raised: seq<Raised>, i: nat, cooldownMs: nat) returns (first: nat)
    requires i < |raised| && TooSoon(raised, i, cooldownMs)
    ensures first <= i && TooSoon(raised, first, cooldownMs)
    ensures forall j: nat :: j < first ==> !TooSoon(raised, j, cooldownMs)
  {
    if j: nat :| j < i && TooSoon(raised, j, cooldownMs) {
      first := FirstTooSoon(raised, j, cooldownMs);
    } else {
      first := i;
    }
  }

  /** After a dropped "down" the recovery is recorded alone, right after the last recovery. */
  lemma DropBreaksAlternation(raised: seq<Raised>, i: nat, cooldownMs: nat)
    requires Alternates(AlertsIn(raised)) && i + 1 < |raised| && TooSoon(raised, i, cooldownMs)
    requires forall j: nat :: j < i ==> !TooSoon(raised, j, cooldownMs)
    ensures !Alternates(AlertsIn(Recorded(raised, cooldownMs)))
  {
    hide Recorded, TooSoon;
    assert raised[i].alert == Down && AlertsIn(raised)[i + 1] == Back by { TooSoonIsDown(raised, i, cooldownMs); }
    KeptUpTo(raised, i, cooldownMs);
    SuppressedIsTooSoon(raised, i, cooldownMs);
    RecordedNext(raised, i, cooldownMs);
    RecordedNext(raised, i + 1, cooldownMs);
    RecordOnlyGrows(raised, i + 2, cooldownMs);
    assert Recorded(raised[..i + 2], cooldownMs) == raised[..i] + [raised[i + 1]];
    assert AlertsIn(Recorded(raised, cooldownMs))[i] == Back;
  }

  lemma TooSoonIsDown(raised: seq<Raised>, i: nat, cooldownMs: nat)
    requires Alternates(AlertsIn(raised)) && i + 1 < |raised| && TooSoon(raised, i, cooldownMs)
    ensures raised[i].alert == Down && AlertsIn(raised)[i + 1] == Back && i % 2 == 0
  {
    assert AlertsIn(raised)[i] == Down;
  }

  /**
   * What the hub records of an alternating tracker alternates exactly when no "down" that
   * is followed by a recovery was raised within the cooldown of an earlier "down".
   */
  lemma RecordedAlternatesExactlyWhen(raised: seq<Raised>, cooldownMs: nat)
    requires Alternates(AlertsIn(raised))
    ensures Alternates(AlertsIn(Recorded(raised, cooldownMs)))
            <==> forall i: nat :: i + 1 < |raised| ==> !TooSoon(raised, i, cooldownMs)
  {
    if i: nat :| i + 1 < |raised| && TooSoon(raised, i, cooldownMs) {
      var first := FirstTooSoon(raised, i, cooldownMs);
      DropBreaksAlternation(raised, first, cooldownMs);
    } else if raised != [] {
      hide Recorded, TooSoon;
      var n := |raised| - 1;
      KeptUpTo(raised, n, cooldownMs);
      RecordedNext(raised, n, cooldownMs);
      assert raised[..n + 1] == raised && raised[..n] + [raised[n]] == raised;
    }
  }

  /** Two outages within one cooldown: the second is recorded by its recovery alone. */
  lemma RecoveryCanStandAlone()
    ensures var raised := [Raised(Down, 0), Raised(Back, 1), Raised(Down, 2), Raised(Back, 3)];
            Alternates(AlertsIn(raised)) && AlertsIn(Recorded(raised, 10)) == [Down, Back, Back]
  {
    var raised := [Raised(Down, 0), Raised(Back, 1), Raised(Down, 2), Raised(Back, 3)];
    assert raised[..0] == [] && raised[..4] == raised && Recorded([], 10) == [];
    hide Recorded;
    RecordedNext(raised, 0, 10);
    RecordedNext(raised, 1, 10);
    assert Recorded(raised[..2], 10) == [raised[0], raised[1]];
    assert raised[2].at - 10 <= Recorded(raised[..2], 10)[0].at;
    RecordedNext(raised, 2, 10);
    RecordedNext(raised, 3, 10);
    assert Recorded(raised, 10) == [raised[0], raised[1], raised[3]];
  }
}
