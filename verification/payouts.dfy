/**
 * Withdrawals: the rows, the balance derived from them, and the payout protocol with
 * a provider that may be slow, unreachable or silent.
 *
 * A statement or transaction is one atomic step; every await is a point where other
 * steps may run, and a crash may drop every request in progress.
 */
module Payouts {
  import opened Options
  import opened Fees
  import S = Ssentezo

  const POLL_AFTER_MS := 15_000
  const NEVER_ARRIVED_MS := 300_000

  datatype Status = REQUESTED | PROCESSING | SUCCESS | FAILED | REJECTED | CANCELLED

  /** A withdrawal row; its position in the table is its id. */
  datatype Withdrawal = Withdrawal(
    amountUgx: int,
    feeUgx: int,
    requestedBy: nat,
    status: Status,
    sentAt: Option<int>,
    completedAt: Option<int>)

  predicate IsTerminal(s: Status) { s in {SUCCESS, FAILED, REJECTED, CANCELLED} }

  /** Statuses whose amount and fee are taken out of the available balance. */
  const HOLDING: set<Status> := {REQUESTED, PROCESSING, SUCCESS}

  // ---- The balance ----

  datatype Field = Amount | FeeOnly | Both

  function Value(w: Withdrawal, f: Field): int {
    match f
    case Amount => w.amountUgx
    case FeeOnly => w.feeUgx
    case Both => w.amountUgx + w.feeUgx
  }

  function SumOf(rows: seq<Withdrawal>, statuses: set<Status>, f: Field): int {
    if rows == [] then 0
    else SumOf(rows[..|rows| - 1], statuses, f)
         + if rows[|rows| - 1].status in statuses then Value(rows[|rows| - 1], f) else 0
  }

  datatype Balance = Balance(earnedUgx: int, onHoldUgx: int, withdrawnUgx: int, feesPaidUgx: int, availableUgx: int)

  function BalanceOf(earned: int, rows: seq<Withdrawal>): Balance {
    Balance(earned,
            SumOf(rows, {REQUESTED, PROCESSING}, Both),
            SumOf(rows, {SUCCESS}, Amount),
            SumOf(rows, {SUCCESS}, FeeOnly),
            Max(0, earned - SumOf(rows, HOLDING, Both)))
  }

  function Held(rows: seq<Withdrawal>): int { SumOf(rows, HOLDING, Both) }

  lemma {:induction false} HeldByStatus(rows: seq<Withdrawal>)
    ensures Held(rows) == SumOf(rows, {REQUESTED, PROCESSING}, Both) + SumOf(rows, {SUCCESS}, Amount)
            + SumOf(rows, {SUCCESS}, FeeOnly)
  {
    if rows != [] { HeldByStatus(rows[..|rows| - 1]); }
  }

  /** The four parts add up to what was earned exactly when the clip at zero is not at work. */
  lemma BalanceAddsUp(earned: int, rows: seq<Withdrawal>)
    ensures var b := BalanceOf(earned, rows);
            earned == b.availableUgx + b.onHoldUgx + b.withdrawnUgx + b.feesPaidUgx <==> Held(rows) <= earned
  {
    HeldByStatus(rows);
  }

  lemma {:induction false} SumAfterUpdate(rows: seq<Withdrawal>, id: nat, w: Withdrawal, statuses: set<Status>,
                                          f: Field)
    requires id < |rows|
    ensures SumOf(rows[id := w], statuses, f) ==
            SumOf(rows, statuses, f)
            - (if rows[id].status in statuses then Value(rows[id], f) else 0)
            + (if w.status in statuses then Value(w, f) else 0)
  {
    var n := |rows| - 1;
    if id == n {
      assert rows[id := w][..n] == rows[..n];
    } else {
      assert rows[id := w][..n] == rows[..n][id := w];
      SumAfterUpdate(rows[..n], id, w, statuses, f);
    }
  }

  lemma SumAfterAppend(rows: seq<Withdrawal>, w: Withdrawal, statuses: set<Status>, f: Field)
    ensures SumOf(rows + [w], statuses, f) == SumOf(rows, statuses, f) + if w.status in statuses then Value(w, f) else 0
  {
    assert (rows + [w])[..|rows|] == rows;
  }

  // ---- What each statement does to the rows ----

  predicate Has(rows: seq<Withdrawal>, id: nat, status: Status) {
    id < |rows| && rows[id].status == status
  }

  /** The serializable read-check-insert of a request. */
  function RequestRows(rows: seq<Withdrawal>, earned: int, amount: real, schedule: FeeSchedule,
                       admin: nat): seq<Withdrawal>
    requires Valid(schedule)
  {
    var fee := WithdrawalFee(amount, schedule);
    if fee.Err? || amount.Floor + fee.value > BalanceOf(earned, rows).availableUgx then rows
    else rows + [Withdrawal(amount.Floor, fee.value, admin, REQUESTED, None, None)]
  }

  function ClaimRows(rows: seq<Withdrawal>, id: nat, now: int): seq<Withdrawal> {
    if Has(rows, id, REQUESTED) then rows[id := rows[id].(status := PROCESSING, sentAt := Some(now))] else rows
  }

  function CloseRows(rows: seq<Withdrawal>, id: nat, outcome: Status): seq<Withdrawal> {
    if Has(rows, id, REQUESTED) then rows[id := rows[id].(status := outcome)] else rows
  }

  function SettleRows(rows: seq<Withdrawal>, id: nat, outcome: Status, now: int): seq<Withdrawal> {
    if Has(rows, id, PROCESSING) then rows[id := rows[id].(status := outcome, completedAt := Some(now))] else rows
  }

  /** What `send` does once the provider's answer is in. */
  function FinishRows(rows: seq<Withdrawal>, id: nat, result: S.InitiateResult, now: int): seq<Withdrawal> {
    match result
    case Accepted(SUCCEEDED) => SettleRows(rows, id, SUCCESS, now)
    case Accepted(FAILED) => SettleRows(rows, id, FAILED, now)
    case Accepted(_) => rows
    case Uncertain => rows
    case Refused => SettleRows(rows, id, FAILED, now)
  }

  /** What `settle` does with a status answer; the age is taken when the answer is in. */
  function StatusRows(rows: seq<Withdrawal>, id: nat, sentAt: int, answer: S.StatusAnswer, now: int): seq<Withdrawal> {
    match answer
    case NoRecord => if now - sentAt > NEVER_ARRIVED_MS then SettleRows(rows, id, FAILED, now) else rows
    case NoAnswer => rows
    case Known(SUCCEEDED, _, _, _) => SettleRows(rows, id, SUCCESS, now)
    case Known(FAILED, _, _, _) => SettleRows(rows, id, FAILED, now)
    case Known(_, _, _, _) => rows
  }

  datatype RequestError = BadAmount(error: FeeError) | NotEnoughBalance

  datatype ChangeError = NotFound | Forbidden | WrongStatus

  class WithdrawalsService {
    var rows: seq<Withdrawal>

    constructor ()
      ensures rows == []
    {
      rows := [];
    }

    method Request(amount: real, schedule: FeeSchedule, earned: int, admin: nat) returns (r: Result<nat, RequestError>)
      requires Valid(schedule)
      modifies this
      ensures rows == RequestRows(old(rows), earned, amount, schedule, admin)
      ensures r == var fee := WithdrawalFee(amount, schedule);
                   if fee.Err? then Err(BadAmount(fee.error))
                   else if amount.Floor + fee.value > BalanceOf(earned, old(rows)).availableUgx
                   then Err(NotEnoughBalance)
                   else Ok(|old(rows)|)
      ensures r.Ok? ==> r.value == |old(rows)| && amount == amount.Floor as real && Allowed(amount.Floor, schedule)
                        && rows == old(rows) + [Withdrawal(amount.Floor, Fee(amount.Floor, schedule), admin, REQUESTED,
                                                           None, None)]
      ensures r.Err? ==> rows == old(rows)
      ensures r.Ok? ==> Held(rows) <= Max(earned, Held(old(rows)))
    {
      var fee := WithdrawalFee(amount, schedule);
      if fee.Err? { return Err(BadAmount(fee.error)); }
      var available := BalanceOf(earned, rows).availableUgx;
      var total := amount.Floor + fee.value;
      if total > available { return Err(NotEnoughBalance); }
      var w := Withdrawal(amount.Floor, fee.value, admin, REQUESTED, None, None);
      SumAfterAppend(rows, w, HOLDING, Both);
      rows := rows + [w];
      return Ok(|rows| - 1);
    }

    /** The guarded update every status change goes through. */
    method UpdateWhere(id: nat, status: Status, w: Withdrawal) returns (count: nat)
      modifies this
      ensures count == if Has(old(rows), id, status) then 1 else 0
      ensures rows == if count == 1 then old(rows)[id := w] else old(rows)
    {
      if id < |rows| && rows[id].status == status {
        rows := rows[id := w];
        return 1;
      }
      return 0;
    }

    /** First half of `send`: claims the row, or refuses. */
    method Claim(id: nat, now: int) returns (claimed: bool)
      modifies this
      ensures rows == ClaimRows(old(rows), id, now)
      ensures claimed <==> id < |old(rows)| && old(rows)[id].status == REQUESTED
      ensures rows == if claimed then old(rows)[id := old(rows)[id].(status := PROCESSING, sentAt := Some(now))]
                      else old(rows)
    {
      if id >= |rows| { return false; }
      var count := UpdateWhere(id, REQUESTED, rows[id].(status := PROCESSING, sentAt := Some(now)));
      return count == 1;
    }

    method Reject(id: nat) returns (r: Result<(), ChangeError>)
      modifies this
      ensures rows == CloseRows(old(rows), id, REJECTED)
      ensures r == if id < |old(rows)| && old(rows)[id].status == REQUESTED then Ok(()) else Err(WrongStatus)
      ensures rows == if r.Ok? then old(rows)[id := old(rows)[id].(status := REJECTED)] else old(rows)
    {
      if id >= |rows| { return Err(WrongStatus); }
      var count := UpdateWhere(id, REQUESTED, rows[id].(status := REJECTED));
      return if count == 1 then Ok(()) else Err(WrongStatus);
    }

    method Cancel(id: nat, admin: nat, isSuperAdmin: bool) returns (r: Result<(), ChangeError>)
      modifies this
      ensures r == if id >= |old(rows)| then Err(NotFound)
                   else if old(rows)[id].requestedBy != admin && !isSuperAdmin then Err(Forbidden)
                   else if old(rows)[id].status != REQUESTED then Err(WrongStatus)
                   else Ok(())
      ensures r.Ok? ==> rows == CloseRows(old(rows), id, CANCELLED)
      ensures rows == if r.Ok? then old(rows)[id := old(rows)[id].(status := CANCELLED)] else old(rows)
    {
      if id >= |rows| { return Err(NotFound); }
      if rows[id].requestedBy != admin && !isSuperAdmin { return Err(Forbidden); }
      var count := UpdateWhere(id, REQUESTED, rows[id].(status := CANCELLED));
      return if count == 1 then Ok(()) else Err(WrongStatus);
    }

    method Resolve(id: nat, succeeded: bool, now: int) returns (r: Result<(), ChangeError>)
      modifies this
      ensures rows == SettleRows(old(rows), id, if succeeded then SUCCESS else FAILED, now)
      ensures r == if id < |old(rows)| && old(rows)[id].status == PROCESSING then Ok(()) else Err(WrongStatus)
      ensures r.Ok? && succeeded ==>
                rows == old(rows)[id := old(rows)[id].(status := SUCCESS, completedAt := Some(now))]
      ensures r.Ok? && !succeeded ==>
                rows == old(rows)[id := old(rows)[id].(status := FAILED, completedAt := Some(now))]
      ensures r.Err? ==> rows == old(rows)
    {
      var changed := Mark(id, if succeeded then SUCCESS else FAILED, now);
      return if changed then Ok(()) else Err(WrongStatus);
    }

    method Mark(id: nat, outcome: Status, now: int) returns (changed: bool)
      modifies this
      ensures rows == SettleRows(old(rows), id, outcome, now)
      ensures changed <==> Has(old(rows), id, PROCESSING)
    {
      if id >= |rows| { return false; }
      var count := UpdateWhere(id, PROCESSING, rows[id].(status := outcome, completedAt := Some(now)));
      return count == 1;
    }

    /** Second half of `send`. */
    method FinishSend(id: nat, result: S.InitiateResult, now: int)
      modifies this
      ensures rows == FinishRows(old(rows), id, result, now)
      ensures id >= |old(rows)| || old(rows)[id].status != PROCESSING ==> rows == old(rows)
      ensures id < |old(rows)| && old(rows)[id].status == PROCESSING ==>
                rows == match result
                        case Accepted(SUCCEEDED) =>
                          old(rows)[id := old(rows)[id].(status := SUCCESS, completedAt := Some(now))]
                        case Accepted(FAILED) =>
                          old(rows)[id := old(rows)[id].(status := FAILED, completedAt := Some(now))]
                        case Refused => old(rows)[id := old(rows)[id].(status := FAILED, completedAt := Some(now))]
                        case _ => old(rows)
    {
      if result.Accepted? {
        if result.txStatus == S.SUCCEEDED { var _ := Mark(id, SUCCESS, now); }
        if result.txStatus == S.FAILED { var _ := Mark(id, FAILED, now); }
      } else if result.Refused? {
        var _ := Mark(id, FAILED, now);
      }
    }

    /** Second half of `settle`, with the row's `sentAt` as first read. */
    method ApplyStatus(id: nat, sentAt: int, answer: S.StatusAnswer, now: int)
      modifies this
      ensures rows == StatusRows(old(rows), id, sentAt, answer, now)
      ensures id >= |old(rows)| || old(rows)[id].status != PROCESSING ==> rows == old(rows)
      ensures id < |old(rows)| && old(rows)[id].status == PROCESSING ==>
                rows == match answer
                        case Known(SUCCEEDED, _, _, _) =>
                          old(rows)[id := old(rows)[id].(status := SUCCESS, completedAt := Some(now))]
                        case Known(FAILED, _, _, _) =>
                          old(rows)[id := old(rows)[id].(status := FAILED, completedAt := Some(now))]
                        case NoRecord =>
                          if now - sentAt > 300_000
                          then old(rows)[id := old(rows)[id].(status := FAILED, completedAt := Some(now))]
                          else old(rows)
                        case _ => old(rows)
    {
      if !answer.Known? {
        var neverArrived := answer == S.NoRecord;
        var ageMs := now - sentAt;
        if neverArrived && ageMs > NEVER_ARRIVED_MS { var _ := Mark(id, FAILED, now); }
        return;
      }
      if answer.txStatus == S.SUCCEEDED {
        var _ := Mark(id, SUCCESS, now);
      } else if answer.txStatus == S.FAILED {
        var _ := Mark(id, FAILED, now);
      }
    }

    predicate IsDue(id: nat, now: int)
      reads this
    {
      Has(rows, id, PROCESSING) && rows[id].sentAt.Some? && rows[id].sentAt.value <= now - POLL_AFTER_MS
    }

    /** The rows one poll settles: at most 50, and every due row when there are fewer. */
    method PollProcessing(now: int) returns (due: seq<nat>)
      ensures |due| <= 50
      ensures forall i, j :: 0 <= i < j < |due| ==> due[i] != due[j]
      ensures forall id :: id in due ==>
                id < |rows| && rows[id].status == PROCESSING
                && rows[id].sentAt.Some? && now - rows[id].sentAt.value >= 15_000
      ensures |due| < 50 ==>
                forall id: nat ::
                  id < |rows| && rows[id].status == PROCESSING && rows[id].sentAt.Some?
                  && now - rows[id].sentAt.value >= 15_000 ==>
                    id in due
    {
      due := [];
      var id := 0;
      while id < |rows| && |due| < 50
        invariant id <= |rows| && |due| <= 50
        invariant forall k :: k in due ==> k < id && IsDue(k, now)
        invariant forall i, j :: 0 <= i < j < |due| ==> due[i] != due[j]
        invariant forall k: nat :: k < id && IsDue(k, now) ==> k in due
      {
        if IsDue(id, now) { due := due + [id]; }
        id := id + 1;
      }
    }
  }

  // ---- The protocol ----

  /** A payout request: how many of its tries failed before leaving this box, sent, or answered. */
  datatype Call = Claimed(tries: nat) | Waiting | Answered(result: S.InitiateResult)

  datatype Look = Looked(id: nat, sentAt: int) | Told(id: nat, sentAt: int, answer: S.StatusAnswer, at: int)

  /** The provider's own record of a payout request it received. */
  datatype Payout = Pending | Paid | Declined | TurnedDown

  datatype State = State(
    now: int,
    earned: int,
    rows: seq<Withdrawal>,
    sends: map<nat, Call>,        // requests past their claim, by withdrawal
    looks: map<nat, Look>,        // status checks in progress, by a number of their own
    wire: set<nat>,               // requests that left this box and are not delivered yet
    deliveries: multiset<nat>,    // every delivery to the provider so far
    provider: map<nat, Payout>)

  /** How late a request may be delivered after its claim, and how old an answer may be when acted on. */
  datatype Timing = Timing(deliveryMs: nat, latencyMs: nat)

  datatype Event =
    | Tick(ms: nat)
    | Earn(ugx: nat)
    | Lose(ugx: nat)   // a payment that had succeeded is overwritten as failed
    | Request(amount: real, schedule: FeeSchedule, admin: nat)
    | Reject(id: nat)
    | Cancel(id: nat)
    | Claim(id: nat)
    | Unconfigured(id: nat)
    | TryFails(id: nat)
    | TryLeaves(id: nat)
    | Deliver(id: nat, turnedDown: bool)
    | Vanish(id: nat)
    | Decide(id: nat, paid: bool)
    | Reply(id: nat, attempt: S.Attempt)
    | FinishSend(id: nat)
    | StartLook(k: nat, id: nat)
    | Ask(k: nat, answer: S.StatusAnswer)
    | Act(k: nat)
    | Resolve(id: nat, succeeded: bool)
    | Crash

  const INITIAL := State(0, 0, [], map[], map[], {}, multiset{}, map[])

  /** The request can still reach the provider. */
  predicate CanStillArrive(s: State, id: nat, t: Timing) {
    (id in s.wire || (id in s.sends && s.sends[id].Claimed?))
    && id < |s.rows| && s.rows[id].sentAt.Some? && s.now <= s.rows[id].sentAt.value + t.deliveryMs
  }

  /** No money was sent for this withdrawal, and none can be. */
  predicate NeverPaid(s: State, id: nat, t: Timing) {
    (id in s.provider ==> s.provider[id] in {Declined, TurnedDown})
    && !CanStillArrive(s, id, t)
  }

  /** What the provider says about a transaction is what its record says. */
  predicate Truthful(s: State, id: nat, status: S.TxStatus) {
    (status == S.SUCCEEDED ==> id in s.provider && s.provider[id] == Paid)
    && (status == S.FAILED ==> id in s.provider && s.provider[id] == Declined)
  }

  /** An acceptance means the request arrived; a refusal below 500 means it was turned down. */
  predicate TruthfulReply(s: State, id: nat, a: S.Attempt) {
    match S.InitiateWithdrawal(true, a)
    case Accepted(t) => id in s.provider && Truthful(s, id, t)
    case Uncertain => true
    case Refused => id in s.provider && s.provider[id] == TurnedDown
  }

  predicate TruthfulAnswer(s: State, id: nat, a: S.StatusAnswer) {
    match a
    case Known(t, _, _, _) => Truthful(s, id, t)
    case NoRecord => id in s.provider ==> s.provider[id] == TurnedDown
    case NoAnswer => true
  }

  predicate Enabled(s: State, e: Event, t: Timing) {
    match e
    case Tick(_) => true
    case Earn(_) => true
    case Lose(ugx) => ugx <= s.earned
    case Request(_, schedule, _) => Valid(schedule)
    case Reject(_) => true
    case Cancel(_) => true
    case Claim(_) => true
    case Unconfigured(id) => id in s.sends && s.sends[id] == Claimed(0)
    case TryFails(id) => id in s.sends && s.sends[id].Claimed?
    case TryLeaves(id) => id in s.sends && s.sends[id].Claimed?
    case Deliver(id, _) => id in s.wire && CanStillArrive(s, id, t)
    case Vanish(id) => id in s.wire
    case Decide(id, _) => id in s.provider && s.provider[id] == Pending
    case Reply(id, a) => id in s.sends && s.sends[id] == Waiting && TruthfulReply(s, id, a)
    case FinishSend(id) => id in s.sends && s.sends[id].Answered?
    case StartLook(k, _) => k !in s.looks
    case Ask(k, a) => k in s.looks && s.looks[k].Looked? && TruthfulAnswer(s, s.looks[k].id, a)
    case Act(k) => k in s.looks && s.looks[k].Told? && s.now <= s.looks[k].at + t.latencyMs
    case Resolve(id, succeeded) =>
      if succeeded then id in s.provider && s.provider[id] == Paid else NeverPaid(s, id, t)
    case Crash => true
  }

  function Next(s: State, e: Event, t: Timing): State
    requires Enabled(s, e, t)
  {
    match e
    case Tick(ms) => s.(now := s.now + ms)
    case Earn(ugx) => s.(earned := s.earned + ugx)
    case Lose(ugx) => s.(earned := s.earned - ugx)
    case Request(amount, schedule, admin) => s.(rows := RequestRows(s.rows, s.earned, amount, schedule, admin))
    case Reject(id) => s.(rows := CloseRows(s.rows, id, REJECTED))
    case Cancel(id) => s.(rows := CloseRows(s.rows, id, CANCELLED))
    case Claim(id) =>
      if Has(s.rows, id, REQUESTED)
      then s.(rows := ClaimRows(s.rows, id, s.now), sends := s.sends[id := Claimed(0)])
      else s
    case Unconfigured(id) => s.(sends := s.sends[id := Answered(S.InitiateWithdrawal(false, S.NotConnected))])
    case TryFails(id) =>
      var tries := s.sends[id].tries;
      s.(sends := s.sends[id := if tries < S.MAX_RETRIES then Claimed(tries + 1)
                                else Answered(S.InitiateWithdrawal(true, S.NotConnected))])
    case TryLeaves(id) => s.(sends := s.sends[id := Waiting], wire := s.wire + {id})
    case Deliver(id, turnedDown) =>
      s.(wire := s.wire - {id},
         deliveries := s.deliveries + multiset{id},
         provider := s.provider[id := if turnedDown then TurnedDown else Pending])
    case Vanish(id) => s.(wire := s.wire - {id})
    case Decide(id, paid) => s.(provider := s.provider[id := if paid then Paid else Declined])
    case Reply(id, a) => s.(sends := s.sends[id := Answered(S.InitiateWithdrawal(true, a))])
    case FinishSend(id) => s.(rows := FinishRows(s.rows, id, s.sends[id].result, s.now), sends := s.sends - {id})
    case StartLook(k, id) =>
      if Has(s.rows, id, PROCESSING) && s.rows[id].sentAt.Some?
      then s.(looks := s.looks[k := Looked(id, s.rows[id].sentAt.value)])
      else s
    case Ask(k, a) => s.(looks := s.looks[k := Told(s.looks[k].id, s.looks[k].sentAt, a, s.now)])
    case Act(k) =>
      var look := s.looks[k];
      s.(rows := StatusRows(s.rows, look.id, look.sentAt, look.answer, s.now), looks := s.looks - {k})
    case Resolve(id, succeeded) => s.(rows := SettleRows(s.rows, id, if succeeded then SUCCESS else FAILED, s.now))
    case Crash => s.(sends := map[], looks := map[])
  }

  predicate IsRun(s: State, es: seq<Event>, t: Timing)
    decreases |es|
  {
    es == [] || (Enabled(s, es[0], t) && IsRun(Next(s, es[0], t), es[1..], t))
  }

  function After(s: State, es: seq<Event>, t: Timing): State
    requires IsRun(s, es, t)
    decreases |es|
  {
    if es == [] then s else After(Next(s, es[0], t), es[1..], t)
  }

  // ---- What each answer does to a row ----

  /** The outcome an event's answer means for the withdrawal it is about, if it means one. */
  function OutcomeTold(s: State, e: Event): Option<Status>
    requires e.FinishSend? ==> e.id in s.sends && s.sends[e.id].Answered?
    requires e.Act? ==> e.k in s.looks && s.looks[e.k].Told?
  {
    match e
    case FinishSend(id) =>
      (match s.sends[id].result
       case Accepted(SUCCEEDED) => Some(SUCCESS)
       case Accepted(FAILED) => Some(FAILED)
       case Accepted(_) => None
       case Uncertain => None
       case Refused => Some(FAILED))
    case Act(k) =>
      (match s.looks[k].answer
       case Known(SUCCEEDED, _, _, _) => Some(SUCCESS)
       case Known(FAILED, _, _, _) => Some(FAILED)
       case Known(_, _, _, _) => None
       case NoRecord => if s.now - s.looks[k].sentAt > 300_000 then Some(FAILED) else None
       case NoAnswer => None)
    case Resolve(_, succeeded) => Some(if succeeded then SUCCESS else FAILED)
    case _ => None
  }

  function IdOf(s: State, e: Event): nat
    requires e.FinishSend? || e.Resolve? || (e.Act? && e.k in s.looks)
  {
    if e.Act? then s.looks[e.k].id else e.id
  }

  /**
   * A row still PROCESSING takes exactly the outcome an answer means, with the time; an
   * answer that means none, and any answer about another row, leaves all rows as they were.
   */
  lemma AnswersSettle(s: State, e: Event, t: Timing)
    requires Enabled(s, e, t) && (e.FinishSend? || e.Act? || e.Resolve?)
    ensures var id, rows' := IdOf(s, e), Next(s, e, t).rows;
            var told := OutcomeTold(s, e);
            if told.Some? && id < |s.rows| && s.rows[id].status == PROCESSING
            then rows' == s.rows[id := s.rows[id].(status := told.value, completedAt := Some(s.now))]
            else rows' == s.rows
  {
  }

  /** And no other event ever makes a row SUCCESS or FAILED, or changes when it completed. */
  lemma OnlyAnswersSettle(s: State, e: Event, t: Timing, id: nat)
    requires Enabled(s, e, t) && !e.FinishSend? && !e.Act? && !e.Resolve? && id < |s.rows|
    ensures var w, w' := s.rows[id], Next(s, e, t).rows[id];
            |Next(s, e, t).rows| >= |s.rows|
            && w' == match e
                     case Claim(c) =>
                       if c == id && w.status == REQUESTED then w.(status := PROCESSING, sentAt := Some(s.now)) else w
                     case Reject(c) => if c == id && w.status == REQUESTED then w.(status := REJECTED) else w
                     case Cancel(c) => if c == id && w.status == REQUESTED then w.(status := CANCELLED) else w
                     case _ => w
  {
  }

  // ---- Terminal statuses are absorbing ----

  lemma TerminalIsAbsorbing(s: State, e: Event, t: Timing, id: nat)
    requires Enabled(s, e, t) && id < |s.rows| && IsTerminal(s.rows[id].status)
    ensures id < |Next(s, e, t).rows| && Next(s, e, t).rows[id] == s.rows[id]
  {
  }

  lemma {:induction false} TerminalForever(s: State, es: seq<Event>, t: Timing, id: nat)
    requires IsRun(s, es, t) && id < |s.rows| && IsTerminal(s.rows[id].status)
    ensures id < |After(s, es, t).rows| && After(s, es, t).rows[id] == s.rows[id]
    decreases |es|
  {
    if es != [] {
      TerminalIsAbsorbing(s, es[0], t, id);
      TerminalForever(Next(s, es[0], t), es[1..], t, id);
    }
  }

  // ---- Never overdrawn ----

  /** Every row carries a positive amount and a fee, and what they hold was earned. */
  ghost predicate Covered(s: State) {
    Held(s.rows) <= s.earned
    && forall id :: 0 <= id < |s.rows| ==> s.rows[id].amountUgx > 0 && s.rows[id].feeUgx >= 0
  }

  lemma ReleaseNeverRaisesHeld(rows: seq<Withdrawal>, id: nat, w: Withdrawal)
    requires id < |rows| && w.amountUgx == rows[id].amountUgx > 0 && w.feeUgx == rows[id].feeUgx >= 0
    requires w.status in HOLDING ==> rows[id].status in HOLDING
    ensures Held(rows[id := w]) <= Held(rows)
  {
    SumAfterUpdate(rows, id, w, HOLDING, Both);
  }

  lemma RequestStaysCovered(s: State, e: Event, t: Timing)
    requires Covered(s) && e.Request? && Enabled(s, e, t)
    ensures Covered(Next(s, e, t))
  {
    var fee := WithdrawalFee(e.amount, e.schedule);
    if fee.Ok? {
      FeeMonotone(e.amount.Floor, e.amount.Floor, e.schedule);
      SumAfterAppend(s.rows, Withdrawal(e.amount.Floor, fee.value, e.admin, REQUESTED, None, None), HOLDING, Both);
    }
  }

  /** A succeeded payment is lost although its money is already held or paid out. */
  predicate LosesHeld(s: State, e: Event) {
    e.Lose? && e.ugx > BalanceOf(s.earned, s.rows).availableUgx
  }

  lemma StepStaysCovered(s: State, e: Event, t: Timing)
    requires Covered(s) && Enabled(s, e, t) && !LosesHeld(s, e)
    ensures Covered(Next(s, e, t))
  {
    if e.Request? {
      RequestStaysCovered(s, e, t);
    } else {
      var rows' := Next(s, e, t).rows;
      if rows' != s.rows {
        var id := if e.Act? then s.looks[e.k].id else e.id;
        assert rows' == s.rows[id := rows'[id]];
        ReleaseNeverRaisesHeld(s.rows, id, rows'[id]);
      }
    }
  }

  /** What is held stays covered by what was earned at every step, except the loss of a payment whose money is held. */
  lemma CoveredSurvivesExactlyWhen(s: State, e: Event, t: Timing)
    requires Covered(s) && Enabled(s, e, t)
    ensures Covered(Next(s, e, t)) <==> !LosesHeld(s, e)
  {
    if !LosesHeld(s, e) { StepStaysCovered(s, e, t); }
  }

  /** No payment is lost in this run while its money is held. */
  predicate KeepsEarnings(s: State, es: seq<Event>, t: Timing)
    requires IsRun(s, es, t)
    decreases |es|
  {
    es == [] || (!LosesHeld(s, es[0]) && KeepsEarnings(Next(s, es[0], t), es[1..], t))
  }

  /** Covered now and after every further step of a run. */
  ghost predicate StaysCovered(s: State, es: seq<Event>, t: Timing)
    requires IsRun(s, es, t)
    decreases |es|
  {
    Covered(s) && (es != [] ==> StaysCovered(Next(s, es[0], t), es[1..], t))
  }

  lemma {:induction false} RunStaysCoveredExactlyWhen(s: State, es: seq<Event>, t: Timing)
    requires Covered(s) && IsRun(s, es, t)
    ensures StaysCovered(s, es, t) <==> KeepsEarnings(s, es, t)
    ensures StaysCovered(s, es, t) ==> Covered(After(s, es, t))
    decreases |es|
  {
    if es != [] {
      CoveredSurvivesExactlyWhen(s, es[0], t);
      if !LosesHeld(s, es[0]) { RunStaysCoveredExactlyWhen(Next(s, es[0], t), es[1..], t); }
    }
  }

  /** The balance is exact: nothing is clipped, nothing is missing. */
  ghost predicate IsExact(s: State) {
    var b := BalanceOf(s.earned, s.rows);
    Held(s.rows) <= s.earned
    && b.availableUgx == s.earned - Held(s.rows)
    && s.earned == b.availableUgx + b.onHoldUgx + b.withdrawnUgx + b.feesPaidUgx
  }

  /**
   * What is held stays within what was earned at every moment of a run exactly when no
   * succeeded payment is lost while its money is held; then the balance is exact.
   */
  lemma NeverOverdrawn(es: seq<Event>, t: Timing)
    requires IsRun(INITIAL, es, t)
    ensures StaysCovered(INITIAL, es, t) <==> KeepsEarnings(INITIAL, es, t)
    ensures KeepsEarnings(INITIAL, es, t) ==> IsExact(After(INITIAL, es, t))
  {
    RunStaysCoveredExactlyWhen(INITIAL, es, t);
    var s := After(INITIAL, es, t);
    BalanceAddsUp(s.earned, s.rows);
  }

  // ---- Nothing is paid twice, and nothing refunded was paid ----

  ghost predicate SafeRow(s: State, id: nat)
    requires id < |s.rows|
  {
    s.deliveries[id] <= 1
    && (s.rows[id].status in {FAILED, REJECTED, CANCELLED} ==> !(id in s.provider && s.provider[id] == Paid))
    && (s.rows[id].status == SUCCESS ==> id in s.provider && s.provider[id] == Paid)
  }

  ghost predicate Safe(s: State) {
    forall id :: 0 <= id < |s.rows| ==> SafeRow(s, id)
  }

  /** What the protocol keeps about one withdrawal. */
  ghost predicate RowInv(s: State, id: nat, t: Timing) {
    (id in s.wire || id in s.sends || id in s.provider ==> id < |s.rows| && s.rows[id].sentAt.Some?)
    && s.deliveries[id] == (if id in s.provider then 1 else 0)
    && (id in s.wire ==>
          id !in s.provider
          && (id in s.sends ==> s.sends[id] == Waiting || s.sends[id] == Answered(S.Uncertain)))
    && (id in s.sends ==> CallInv(s, id, t))
    && (id < |s.rows| ==> StatusInv(s, id, t))
  }

  ghost predicate CallInv(s: State, id: nat, t: Timing)
    requires id in s.sends
  {
    match s.sends[id]
    case Claimed(tries) => id !in s.wire && id !in s.provider && tries <= S.MAX_RETRIES
    case Waiting => true
    case Answered(Accepted(status)) => Truthful(s, id, status)
    case Answered(Uncertain) => true
    case Answered(Refused) => NeverPaid(s, id, t) && id !in s.wire
  }

  ghost predicate StatusInv(s: State, id: nat, t: Timing)
    requires id < |s.rows|
  {
    match s.rows[id].status
    case REQUESTED => s.rows[id].sentAt == None
    case REJECTED => s.rows[id].sentAt == None
    case CANCELLED => s.rows[id].sentAt == None
    case PROCESSING => s.rows[id].sentAt.Some?
    case SUCCESS => id in s.provider && s.provider[id] == Paid
    case FAILED => NeverPaid(s, id, t)
  }

  ghost predicate LookInv(s: State, look: Look, t: Timing) {
    look.id < |s.rows| && s.rows[look.id].sentAt == Some(look.sentAt)
    && (look.Told? ==>
          match look.answer
          case Known(status, _, _, _) => Truthful(s, look.id, status)
          case NoRecord => look.at > look.sentAt + t.deliveryMs ==> NeverPaid(s, look.id, t)
          case NoAnswer => true)
  }

  ghost predicate Inv(s: State, t: Timing) {
    (forall id: nat :: RowInv(s, id, t))
    && (forall k :: k in s.looks ==> LookInv(s, s.looks[k], t))
  }

  lemma InvImpliesSafe(s: State, t: Timing)
    requires Inv(s, t)
    ensures Safe(s)
  {
    forall id | 0 <= id < |s.rows|
      ensures SafeRow(s, id)
    {
      assert RowInv(s, id, t);
    }
  }

  /** A step of the provider or of the network. */
  predicate IsOutside(e: Event) { e.Deliver? || e.Vanish? || e.Decide? || e.Tick? || e.Crash? || e.Earn? || e.Lose? }

  lemma OutsideStepKeepsRow(s: State, e: Event, t: Timing, id: nat)
    requires RowInv(s, id, t) && Enabled(s, e, t) && IsOutside(e)
    ensures RowInv(Next(s, e, t), id, t)
  {
  }

  /** A step of a payout request, from its claim to its end. */
  predicate IsSending(e: Event) {
    e.Claim? || e.Unconfigured? || e.TryFails? || e.TryLeaves? || e.Reply? || e.FinishSend?
  }

  lemma SendingStepKeepsRow(s: State, e: Event, t: Timing, id: nat)
    requires RowInv(s, id, t) && Enabled(s, e, t) && IsSending(e)
    ensures RowInv(Next(s, e, t), id, t)
  {
  }

  lemma StepKeepsRow(s: State, e: Event, t: Timing, id: nat)
    requires Inv(s, t) && Enabled(s, e, t) && t.deliveryMs + t.latencyMs <= NEVER_ARRIVED_MS
    ensures RowInv(Next(s, e, t), id, t)
  {
    assert RowInv(s, id, t);
    if IsOutside(e) {
      OutsideStepKeepsRow(s, e, t, id);
    } else if IsSending(e) {
      SendingStepKeepsRow(s, e, t, id);
    } else if e.Act? {
      assert LookInv(s, s.looks[e.k], t);
    }
  }

  /** What is certain about a sent withdrawal stays so at every step. */
  ghost predicate StaysCertain(s: State, s': State, t: Timing, id: nat)
    requires id < |s.rows|
  {
    id < |s'.rows| && s'.rows[id].sentAt == s.rows[id].sentAt
    && (id in s.provider && s.provider[id] in {Paid, Declined} ==>
          id in s'.provider && s'.provider[id] == s.provider[id])
    && (NeverPaid(s, id, t) ==> NeverPaid(s', id, t))
  }

  lemma SendingStepStaysCertain(s: State, e: Event, t: Timing, id: nat)
    requires Enabled(s, e, t) && IsSending(e) && RowInv(s, id, t) && id < |s.rows| && s.rows[id].sentAt.Some?
    ensures StaysCertain(s, Next(s, e, t), t, id)
  {
  }

  lemma StepStaysCertain(s: State, e: Event, t: Timing, id: nat)
    requires Enabled(s, e, t) && RowInv(s, id, t) && id < |s.rows| && s.rows[id].sentAt.Some?
    ensures StaysCertain(s, Next(s, e, t), t, id)
  {
    if IsSending(e) {
      SendingStepStaysCertain(s, e, t, id);
    } else {
      hide RowInv;
    }
  }

  lemma CertainKeepsLook(s: State, s': State, look: Look, t: Timing)
    requires LookInv(s, look, t) && StaysCertain(s, s', t, look.id)
    ensures LookInv(s', look, t)
  {
    hide NeverPaid;
  }

  /** A look is begun at a sent row, and told the truth about it. */
  lemma NewLookHolds(s: State, e: Event, t: Timing, k: nat)
    requires Enabled(s, e, t) && k in Next(s, e, t).looks && (k in s.looks ==> LookInv(s, s.looks[k], t))
    requires !(k in s.looks && s.looks[k] == Next(s, e, t).looks[k])
    ensures LookInv(Next(s, e, t), Next(s, e, t).looks[k], t)
  {
    assert e.StartLook? || e.Ask?;
  }

  lemma StepKeepsLook(s: State, e: Event, t: Timing, k: nat)
    requires Inv(s, t) && Enabled(s, e, t) && k in Next(s, e, t).looks
    ensures LookInv(Next(s, e, t), Next(s, e, t).looks[k], t)
  {
    hide Next, Enabled, RowInv, StaysCertain, NeverPaid, Truthful;
    var s' := Next(s, e, t);
    if k in s.looks && s.looks[k] == s'.looks[k] {
      var look := s.looks[k];
      assert LookInv(s, look, t) && RowInv(s, look.id, t);
      StepStaysCertain(s, e, t, look.id);
      CertainKeepsLook(s, s', look, t);
    } else {
      NewLookHolds(s, e, t, k);
    }
  }

  lemma StepKeepsInv(s: State, e: Event, t: Timing)
    requires Inv(s, t) && Enabled(s, e, t) && t.deliveryMs + t.latencyMs <= NEVER_ARRIVED_MS
    ensures Inv(Next(s, e, t), t)
  {
    forall id: nat ensures RowInv(Next(s, e, t), id, t) { StepKeepsRow(s, e, t, id); }
    forall k | k in Next(s, e, t).looks
      ensures LookInv(Next(s, e, t), Next(s, e, t).looks[k], t)
    {
      StepKeepsLook(s, e, t, k);
    }
  }

  lemma {:induction false} RunKeepsInv(s: State, es: seq<Event>, t: Timing)
    requires Inv(s, t) && IsRun(s, es, t) && t.deliveryMs + t.latencyMs <= NEVER_ARRIVED_MS
    ensures Inv(After(s, es, t), t)
    decreases |es|
  {
    if es != [] {
      StepKeepsInv(s, es[0], t);
      RunKeepsInv(Next(s, es[0], t), es[1..], t);
    }
  }

  // ---- The failing family ----

  /**
   * A run that ends with a refunded withdrawal that was paid, for every timing whose
   * delivery and answer delays together pass five minutes: the provider says "no such
   * transaction" at the last moment the request may arrive, the request arrives and is
   * paid, and only then is the answer's age checked.
   */
  function RefundedYetPaid(t: Timing): seq<Event> {
    [Earn(3000), Request(500.0, DEFAULT_FEE_SCHEDULE, 0), Claim(0), TryLeaves(0), StartLook(0, 0),
     Tick(t.deliveryMs), Ask(0, S.NoRecord), Deliver(0, false), Decide(0, true),
     Tick(Max(0, NEVER_ARRIVED_MS + 1 - t.deliveryMs)), Act(0)]
  }

  /** The state before each event of that run, and after the last. */
  function Stage(t: Timing, i: nat): State
    requires i <= 11
  {
    var requested := Withdrawal(500, 2500, 0, REQUESTED, None, None);
    var sent := requested.(status := PROCESSING, sentAt := Some(0));
    var age := Max(t.deliveryMs, NEVER_ARRIVED_MS + 1);
    State(if i <= 5 then 0 else if i <= 9 then t.deliveryMs else age,
          if i == 0 then 0 else 3000,
          if i <= 1 then [] else if i == 2 then [requested] else if i <= 10 then [sent]
          else [sent.(status := FAILED, completedAt := Some(age))],
          if i <= 2 then map[] else if i == 3 then map[0 := Claimed(0)] else map[0 := Waiting],
          if i <= 4 || i == 11 then map[] else if i <= 6 then map[0 := Looked(0, 0)]
          else map[0 := Told(0, 0, S.NoRecord, t.deliveryMs)],
          if 4 <= i <= 7 then {0} else {},
          if i <= 7 then multiset{} else multiset{0},
          if i <= 7 then map[] else if i == 8 then map[0 := Pending] else map[0 := Paid])
  }

  lemma RequestStageFollows(t: Timing)
    ensures Enabled(Stage(t, 1), RefundedYetPaid(t)[1], t)
    ensures Next(Stage(t, 1), RefundedYetPaid(t)[1], t) == Stage(t, 2)
  {
    assert WithdrawalFee(500.0, DEFAULT_FEE_SCHEDULE) == Ok(2500);
  }

  lemma NoStep(s: State, t: Timing)
    ensures IsRun(s, [], t) && After(s, [], t) == s
  {
  }

  lemma OneStep(s: State, e: Event, es: seq<Event>, t: Timing)
    requires Enabled(s, e, t) && IsRun(Next(s, e, t), es, t)
    ensures IsRun(s, [e] + es, t) && After(s, [e] + es, t) == After(Next(s, e, t), es, t)
  {
    assert ([e] + es)[1..] == es;
  }

  /** 3,000 is earned and withdrawn, and the payment is then overwritten as failed. */
  function LostEarning(): seq<Event> { [Earn(3000), Request(500.0, DEFAULT_FEE_SCHEDULE, 0), Lose(3000)] }

  lemma LostEarningRuns(t: Timing)
    ensures IsRun(INITIAL, LostEarning(), t)
    ensures After(INITIAL, LostEarning(), t) == Stage(t, 2).(earned := 0)
  {
    hide RequestRows, BalanceOf, WithdrawalFee, IsRun, After;
    RequestStageFollows(t);
    var last := Stage(t, 2).(earned := 0);
    assert Next(Stage(t, 2), Lose(3000), t) == last && Next(INITIAL, Earn(3000), t) == Stage(t, 1);
    NoStep(last, t);
    OneStep(Stage(t, 2), Lose(3000), [], t);
    assert [Lose(3000)] + [] == [Lose(3000)];
    OneStep(Stage(t, 1), RefundedYetPaid(t)[1], [Lose(3000)], t);
    assert [RefundedYetPaid(t)[1]] + [Lose(3000)] == [RefundedYetPaid(t)[1], Lose(3000)];
    OneStep(INITIAL, Earn(3000), [RefundedYetPaid(t)[1], Lose(3000)], t);
    assert [Earn(3000)] + [RefundedYetPaid(t)[1], Lose(3000)] == LostEarning();
  }

  /** Then 3,000 is held and nothing earned, and the balance no longer adds up. */
  lemma LostEarningOverdraws(t: Timing)
    ensures IsRun(INITIAL, LostEarning(), t)
    ensures var s := After(INITIAL, LostEarning(), t); Held(s.rows) == 3000 && s.earned == 0 && !IsExact(s)
  {
    LostEarningRuns(t);
    hide After, IsRun, BalanceOf;
    var row := Withdrawal(500, 2500, 0, REQUESTED, None, None);
    SumAfterAppend([], row, HOLDING, Both);
    assert [] + [row] == [row];
  }

  lemma SendingStageFollows(t: Timing, i: nat)
    requires i == 0 || 2 <= i <= 5
    ensures Enabled(Stage(t, i), RefundedYetPaid(t)[i], t)
    ensures Next(Stage(t, i), RefundedYetPaid(t)[i], t) == Stage(t, i + 1)
  {
  }

  lemma PayingStageFollows(t: Timing, i: nat)
    requires t.deliveryMs + t.latencyMs > NEVER_ARRIVED_MS && 6 <= i <= 10
    ensures Enabled(Stage(t, i), RefundedYetPaid(t)[i], t)
    ensures Next(Stage(t, i), RefundedYetPaid(t)[i], t) == Stage(t, i + 1)
  {
    if i == 10 { LastStageFollows(t); } else if i == 9 { AgeStageFollows(t); } else { ArrivalStageFollows(t, i); }
    hide *;
  }

  lemma ArrivalStageFollows(t: Timing, i: nat)
    requires 6 <= i <= 8
    ensures Enabled(Stage(t, i), RefundedYetPaid(t)[i], t)
    ensures Next(Stage(t, i), RefundedYetPaid(t)[i], t) == Stage(t, i + 1)
  {
  }

  lemma AgeStageFollows(t: Timing)
    ensures Enabled(Stage(t, 9), RefundedYetPaid(t)[9], t)
    ensures Next(Stage(t, 9), RefundedYetPaid(t)[9], t) == Stage(t, 10)
  {
  }

  lemma LastStageFollows(t: Timing)
    requires t.deliveryMs + t.latencyMs > NEVER_ARRIVED_MS
    ensures Enabled(Stage(t, 10), RefundedYetPaid(t)[10], t)
    ensures Next(Stage(t, 10), RefundedYetPaid(t)[10], t) == Stage(t, 11)
  {
    assert RefundedYetPaid(t)[10] == Act(0);
  }

  lemma {:induction false} StagesRun(t: Timing, i: nat)
    requires t.deliveryMs + t.latencyMs > NEVER_ARRIVED_MS && i <= 11
    ensures IsRun(Stage(t, i), RefundedYetPaid(t)[i..], t)
    ensures After(Stage(t, i), RefundedYetPaid(t)[i..], t) == Stage(t, 11)
    decreases 11 - i
  {
    if i < 11 {
      if i == 1 {
        RequestStageFollows(t);
      } else if i <= 5 {
        SendingStageFollows(t, i);
      } else {
        PayingStageFollows(t, i);
      }
      StagesRun(t, i + 1);
      assert RefundedYetPaid(t)[i..][1..] == RefundedYetPaid(t)[i + 1..];
    }
  }

  lemma RefundedYetPaidIsUnsafe(t: Timing)
    requires t.deliveryMs + t.latencyMs > NEVER_ARRIVED_MS
    ensures IsRun(INITIAL, RefundedYetPaid(t), t)
    ensures !Safe(After(INITIAL, RefundedYetPaid(t), t))
  {
    StagesRun(t, 0);
    assert !SafeRow(Stage(t, 11), 0);
  }

  /**
   * Payout safety over every run, with its exact condition: no withdrawal is delivered
   * twice, and none that was refunded, rejected or cancelled was ever paid, whatever
   * interleaves, exactly when a request arrives, and a status answer is acted on, within
   * five minutes taken together.
   */
  lemma PayoutsAreSafeExactlyWhen(t: Timing)
    ensures (forall es :: IsRun(INITIAL, es, t) ==> Safe(After(INITIAL, es, t)))
            <==> t.deliveryMs + t.latencyMs <= NEVER_ARRIVED_MS
  {
    if t.deliveryMs + t.latencyMs <= NEVER_ARRIVED_MS {
      forall es | IsRun(INITIAL, es, t)
        ensures Safe(After(INITIAL, es, t))
      {
        RunKeepsInv(INITIAL, es, t);
        InvImpliesSafe(After(INITIAL, es, t), t);
      }
    } else {
      RefundedYetPaidIsUnsafe(t);
    }
  }
}
