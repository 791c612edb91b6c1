/** Payments and withdrawals in one run: what is withdrawn against what payments earned. */
module Money {
  import opened Options
  import P = Payments
  import S = Ssentezo
  import Y = Payouts
  import Fees

  datatype State = State(payments: P.State, payouts: Y.State)

  /** Earnings change only with the payment table. */
  datatype Event = Paying(paying: P.Event) | PayingOut(payingOut: Y.Event)

  const INITIAL := State(P.INITIAL, Y.INITIAL)

  function Earned(s: State): int { P.Earned(s.payments.data.payments) }

  predicate Enabled(s: State, e: Event, t: Y.Timing) {
    match e
    case Paying(paying) => P.Enabled(s.payments, paying)
    case PayingOut(payingOut) => !payingOut.Earn? && !payingOut.Lose? && Y.Enabled(s.payouts, payingOut, t)
  }

  /** The balance always reads the payment table. */
  function Next(s: State, e: Event, t: Y.Timing): State
    requires Enabled(s, e, t)
  {
    match e
    case Paying(paying) =>
      var payments := P.Next(s.payments, paying);
      State(payments, s.payouts.(earned := P.Earned(payments.data.payments)))
    case PayingOut(payingOut) => State(s.payments, Y.Next(s.payouts, payingOut, t))
  }

  predicate IsRun(s: State, es: seq<Event>, t: Y.Timing)
    decreases |es|
  {
    es == [] || (Enabled(s, es[0], t) && IsRun(Next(s, es[0], t), es[1..], t))
  }

  // ---- Every joint run is a payout run ----

  /** What a step is to the withdrawals. */
  function Shadow(s: State, e: Event, t: Y.Timing): Y.Event
    requires Enabled(s, e, t)
  {
    match e
    case Paying(paying) =>
      var change := P.Earned(P.Next(s.payments, paying).data.payments) - s.payouts.earned;
      if change >= 0 then Y.Earn(change) else Y.Lose(-change)
    case PayingOut(payingOut) => payingOut
  }

  /** The balance is read from the table, every payment is of some money, and withdrawals are well-formed. */
  ghost predicate Tied(s: State) {
    s.payouts.earned == Earned(s)
    && (forall id :: 0 <= id < |s.payments.data.payments| ==> s.payments.data.payments[id].amountUgx > 0)
  }

  lemma {:induction false} EarnedIsNotNegative(payments: seq<P.Payment>)
    requires forall id :: 0 <= id < |payments| ==> payments[id].amountUgx > 0
    ensures P.Earned(payments) >= 0
  {
    if payments != [] { EarnedIsNotNegative(payments[..|payments| - 1]); }
  }

  lemma PaymentsStayPositive(s: P.State, e: P.Event)
    requires P.Enabled(s, e) && forall id :: 0 <= id < |s.data.payments| ==> s.data.payments[id].amountUgx > 0
    ensures forall id :: 0 <= id < |P.Next(s, e).data.payments| ==> P.Next(s, e).data.payments[id].amountUgx > 0
  {
  }

  lemma PayingOutEarnsNothing(s: Y.State, e: Y.Event, t: Y.Timing)
    requires Y.Enabled(s, e, t) && !e.Earn? && !e.Lose?
    ensures Y.Next(s, e, t).earned == s.earned
  {
  }

  lemma StepIsShadowed(s: State, e: Event, t: Y.Timing)
    requires Tied(s) && Enabled(s, e, t)
    ensures Tied(Next(s, e, t))
    ensures Y.Enabled(s.payouts, Shadow(s, e, t), t)
    ensures Next(s, e, t).payouts == Y.Next(s.payouts, Shadow(s, e, t), t)
  {
    match e
    case Paying(paying) =>
      PaymentsStayPositive(s.payments, paying);
      EarnedIsNotNegative(P.Next(s.payments, paying).data.payments);
      hide P.Next, P.Enabled, P.Earned;
    case PayingOut(payingOut) =>
      PayingOutEarnsNothing(s.payouts, payingOut, t);
      hide Y.Next, Y.Enabled;
  }

  // ---- Never overdrawn ----

  /** The late failure write takes back a payment whose money is held or paid out. */
  predicate TakesHeldMoney(s: State, e: Event, t: Y.Timing)
    requires Enabled(s, e, t)
  {
    e.Paying? && P.HitsSuccess(s.payments, e.paying)
    && s.payments.data.payments[e.paying.id].amountUgx > Y.BalanceOf(Earned(s), s.payouts.rows).availableUgx
  }

  predicate NeverTakesHeldMoney(s: State, es: seq<Event>, t: Y.Timing)
    requires IsRun(s, es, t)
    decreases |es|
  {
    es == [] || (!TakesHeldMoney(s, es[0], t) && NeverTakesHeldMoney(Next(s, es[0], t), es[1..], t))
  }

  /** What is held was earned, now and after every further step of a run. */
  ghost predicate StaysCovered(s: State, es: seq<Event>, t: Y.Timing)
    requires IsRun(s, es, t)
    decreases |es|
  {
    Y.Held(s.payouts.rows) <= Earned(s) && (es != [] ==> StaysCovered(Next(s, es[0], t), es[1..], t))
  }

  lemma CoveredSurvivesExactlyWhen(s: State, e: Event, t: Y.Timing)
    requires Tied(s) && Y.Covered(s.payouts) && Enabled(s, e, t)
    ensures Y.Covered(Next(s, e, t).payouts) <==> !TakesHeldMoney(s, e, t)
    ensures Y.Held(Next(s, e, t).payouts.rows) <= Earned(Next(s, e, t)) <==> !TakesHeldMoney(s, e, t)
  {
    StepIsShadowed(s, e, t);
    Y.CoveredSurvivesExactlyWhen(s.payouts, Shadow(s, e, t), t);
    if e.Paying? { P.EarnedFallsExactlyWhen(s.payments, e.paying); }
    hide Y.Next, Y.Enabled, Y.Held, Y.BalanceOf, P.Next, P.Enabled, P.Earned;
  }

  lemma {:induction false} RunStaysCoveredExactlyWhen(s: State, es: seq<Event>, t: Y.Timing)
    requires Tied(s) && Y.Covered(s.payouts) && IsRun(s, es, t)
    ensures StaysCovered(s, es, t) <==> NeverTakesHeldMoney(s, es, t)
    decreases |es|
  {
    hide Tied, Next, Enabled, TakesHeldMoney, Y.Covered, Y.Held, Earned;
    CoveredIsWithin(s);
    if es != [] {
      CoveredSurvivesExactlyWhen(s, es[0], t);
      if !TakesHeldMoney(s, es[0], t) {
        StepIsShadowed(s, es[0], t);
        RunStaysCoveredExactlyWhen(Next(s, es[0], t), es[1..], t);
      }
    }
  }

  lemma CoveredIsWithin(s: State)
    requires Tied(s) && Y.Covered(s.payouts)
    ensures Y.Held(s.payouts.rows) <= Earned(s)
  {
  }

  /**
   * Over any interleaving of payments and withdrawals, what is requested, in flight or paid
   * out stays within the payments that count as succeeded, at every moment, exactly when no
   * late failure write takes back a payment larger than what is then still available.
   */
  lemma WithdrawnWasEarnedExactlyWhen(es: seq<Event>, t: Y.Timing)
    requires IsRun(INITIAL, es, t)
    ensures StaysCovered(INITIAL, es, t) <==> NeverTakesHeldMoney(INITIAL, es, t)
  {
    RunStaysCoveredExactlyWhen(INITIAL, es, t);
  }

  // ---- A run that overdraws ----

  const ANSWER := S.Known(S.SUCCEEDED, None, Some(3000), Some("UGX"))

  /** 3,000 is paid and confirmed, then withdrawn, and the deposit call that timed out records its failure last. */
  function PaidAndTakenBack(): seq<Event> {
    [Paying(P.Create(Some(P.Package(7, 3000, true)), 3)), Paying(P.Start(0, 0)), Paying(P.Ask(0, ANSWER)),
     Paying(P.Finish(0, true)), PayingOut(Y.Request(500.0, Fees.DEFAULT_FEE_SCHEDULE, 0)), Paying(P.StartFails(0))]
  }

  const PENDING_PAYMENT := P.Payment(3, 7, 3000, P.PENDING, None)

  function PaymentsAt(i: nat): P.State
    requires i <= 5
  {
    if i == 0 then P.INITIAL
    else if i == 1 then P.State(P.Tables([PENDING_PAYMENT], []), map[], [])
    else if i == 2 then P.State(P.Tables([PENDING_PAYMENT], []), map[0 := P.Started(0, PENDING_PAYMENT)], [])
    else if i == 3
    then P.State(P.Tables([PENDING_PAYMENT], []), map[0 := P.Told(0, PENDING_PAYMENT, ANSWER)], [(0, ANSWER)])
    else
      P.State(P.Tables([PENDING_PAYMENT.(status := P.SUCCESS, voucherId := Some(0))], [P.Voucher(7, Some(3))]), map[],
              [(0, ANSWER)])
  }

  /** The state before each of these events but the first. */
  function Before(i: nat): State
    requires i <= 5
  {
    var earned := Y.INITIAL.(earned := if i <= 3 then 0 else 3000);
    State(PaymentsAt(i),
          if i <= 4 then earned else earned.(rows := [Y.Withdrawal(500, 2500, 0, Y.REQUESTED, None, None)]))
  }

  lemma PaymentStep(t: Y.Timing, i: nat)
    requires i <= 3
    ensures var e := PaidAndTakenBack()[i]; Enabled(Before(i), e, t) && Next(Before(i), e, t) == Before(i + 1)
  {
    if i == 3 { PaymentConfirmed(); } else { PaymentBegins(i); }
    OnePayment(PaymentsAt(i + 1).data.payments);
    hide P.Next, P.Enabled, P.Earned;
  }

  lemma PaymentBegins(i: nat)
    requires i <= 2
    ensures var e := PaidAndTakenBack()[i];
            e.Paying? && P.Enabled(PaymentsAt(i), e.paying) && P.Next(PaymentsAt(i), e.paying) == PaymentsAt(i + 1)
  {
    hide P.ReconcileTables, P.StartFailedTables;
  }

  lemma PaymentConfirmed()
    ensures P.Enabled(PaymentsAt(3), P.Finish(0, true))
    ensures P.Next(PaymentsAt(3), P.Finish(0, true)) == PaymentsAt(4)
  {
  }

  lemma OnePayment(payments: seq<P.Payment>)
    requires |payments| == 1
    ensures P.Earned(payments) == if payments[0].status == P.SUCCESS then payments[0].amountUgx else 0
  {
    assert payments[..0] == [];
  }

  lemma RequestStep(t: Y.Timing)
    ensures var e := PaidAndTakenBack()[4]; Enabled(Before(4), e, t) && Next(Before(4), e, t) == Before(5)
  {
    assert Fees.WithdrawalFee(500.0, Fees.DEFAULT_FEE_SCHEDULE) == Ok(2500);
  }

  lemma LastStepTakesHeldMoney(t: Y.Timing)
    ensures var e := PaidAndTakenBack()[5]; Enabled(Before(5), e, t) && TakesHeldMoney(Before(5), e, t)
  {
    OnePayment(PaymentsAt(5).data.payments);
  }

  lemma {:induction false} RunFrom(t: Y.Timing, i: nat)
    requires i <= 5
    ensures IsRun(Before(i), PaidAndTakenBack()[i..], t)
    ensures !NeverTakesHeldMoney(Before(i), PaidAndTakenBack()[i..], t)
    decreases 5 - i
  {
    hide Next, Enabled, TakesHeldMoney, Before, PaidAndTakenBack;
    var es := PaidAndTakenBack();
    SixEvents();
    if i == 5 {
      LastStepTakesHeldMoney(t);
      assert es[5..][1..] == [];
    } else {
      if i == 4 { RequestStep(t); } else { PaymentStep(t, i); }
      RunFrom(t, i + 1);
      assert es[i..][1..] == es[i + 1..];
    }
  }

  lemma SixEvents()
    ensures |PaidAndTakenBack()| == 6
  {
  }

  /** Such a run exists, whatever the delays. */
  lemma PaidAndTakenBackOverdraws(t: Y.Timing)
    ensures IsRun(INITIAL, PaidAndTakenBack(), t) && !StaysCovered(INITIAL, PaidAndTakenBack(), t)
  {
    RunFrom(t, 0);
    assert PaidAndTakenBack()[0..] == PaidAndTakenBack() && Before(0) == INITIAL;
    hide *;
    WithdrawnWasEarnedExactlyWhen(PaidAndTakenBack(), t);
  }
}
