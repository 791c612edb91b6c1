/**
 * Mobile-money payments: polls and webhooks race to reconcile one payment from stale
 * reads, and a paid payment must end with exactly one voucher.
 */
module Payments {
  import opened Options
  import S = Ssentezo

  const CURRENCY := "UGX"
  const MIN_SSENTEZO_AMOUNT_UGX := 500
  const MAX_SSENTEZO_AMOUNT_UGX := 7_000_000

  datatype Status = PENDING | SUCCESS | FAILED

  /** A payment row; its position in the table is its id. */
  datatype Payment = Payment(customer: nat, package: nat, amountUgx: int, status: Status, voucherId: Option<nat>)

  /** A voucher row. Only one issued for a payment has a customer. */
  datatype Voucher = Voucher(package: nat, customer: Option<nat>)

  datatype Package = Package(id: nat, priceUgx: int, isActive: bool)

  /** The tables a reconcile touches. */
  datatype Tables = Tables(payments: seq<Payment>, vouchers: seq<Voucher>)

  predicate IsPending(payments: seq<Payment>, id: nat) {
    id < |payments| && payments[id].status == PENDING
  }

  /** The answer is a final one about this payment, with no contradicting detail. */
  predicate Matches(id: nat, amountUgx: int, answer: S.StatusAnswer) {
    answer.Known?
    && (answer.reference.Some? ==> answer.reference.value == id)
    && (answer.amount.Some? ==> answer.amount.value == amountUgx)
    && (answer.currency.Some? ==> answer.currency.value == CURRENCY)
  }

  predicate PriceOk(price: int) { MIN_SSENTEZO_AMOUNT_UGX <= price <= MAX_SSENTEZO_AMOUNT_UGX }

  /** The insert `initiate` makes before it calls the provider. */
  function CreateTables(d: Tables, pkg: Option<Package>, customer: nat): Tables {
    if pkg.Some? && pkg.value.isActive && PriceOk(pkg.value.priceUgx)
    then d.(payments := d.payments + [Payment(customer, pkg.value.id, pkg.value.priceUgx, PENDING, None)])
    else d
  }

  /** The failure `initiate` records when the provider did not take the request; no guard on PENDING. */
  function StartFailedTables(d: Tables, id: nat): Tables
    requires id < |d.payments|
  {
    d.(payments := d.payments[id := d.payments[id].(status := FAILED)])
  }

  /** The rest of a reconcile, given the row it first read and the provider's answer. */
  function ReconcileTables(d: Tables, id: nat, read: Payment, answer: S.StatusAnswer, packageExists: bool): Tables {
    if !Matches(id, read.amountUgx, answer) then d
    else match answer.txStatus
      case PENDING => d
      case INDETERMINATE => d
      case FAILED =>
        if IsPending(d.payments, id) then d.(payments := d.payments[id := d.payments[id].(status := FAILED)]) else d
      case SUCCEEDED =>
        if packageExists && IsPending(d.payments, id)
        then Tables(d.payments[id := d.payments[id].(status := SUCCESS, voucherId := Some(|d.vouchers|))],
                    d.vouchers + [Voucher(read.package, Some(read.customer))])
        else d
  }

  datatype InitiateError = NotAvailable | BadPrice | StartFailed

  class PaymentsService {
    var payments: seq<Payment>
    var vouchers: seq<Voucher>

    constructor ()
      ensures payments == [] && vouchers == []
    {
      payments, vouchers := [], [];
    }

    ghost function Data(): Tables
      reads this
    {
      Tables(payments, vouchers)
    }

    /** First half of `initiate`: the payment row, before the provider is asked. */
    method CreatePayment(pkg: Option<Package>, customer: nat) returns (r: Result<nat, InitiateError>)
      modifies this
      ensures Data() == CreateTables(old(Data()), pkg, customer)
      ensures r == if pkg == None || !pkg.value.isActive then Err(NotAvailable)
                   else if !PriceOk(pkg.value.priceUgx) then Err(BadPrice)
                   else Ok(|old(payments)|)
      ensures r.Ok? <==> pkg.Some? && pkg.value.isActive && 500 <= pkg.value.priceUgx <= 7_000_000
      ensures vouchers == old(vouchers)
      ensures payments == old(payments) + if r.Ok? then [Payment(customer, pkg.value.id, pkg.value.priceUgx,
                                                                 PENDING, None)]
                                          else []
    {
      if pkg == None || !pkg.value.isActive { return Err(NotAvailable); }
      if pkg.value.priceUgx < MIN_SSENTEZO_AMOUNT_UGX || pkg.value.priceUgx > MAX_SSENTEZO_AMOUNT_UGX {
        return Err(BadPrice);
      }
      payments := payments + [Payment(customer, pkg.value.id, pkg.value.priceUgx, PENDING, None)];
      return Ok(|payments| - 1);
    }

    /** Second half, with the provider's reply: a refusal is written whatever the row has become. */
    method RecordReply(id: nat, accepted: bool) returns (r: Result<(), InitiateError>)
      requires id < |payments|
      modifies this
      ensures Data() == if accepted then old(Data()) else StartFailedTables(old(Data()), id)
      ensures r == if accepted then Ok(()) else Err(StartFailed)
      ensures vouchers == old(vouchers)
      ensures payments == if accepted then old(payments)
                          else old(payments)[id := old(payments)[id].(status := FAILED)]
    {
      if !accepted {
        payments := payments[id := payments[id].(status := FAILED)];
        return Err(StartFailed);
      }
      return Ok(());
    }

    /**
     * What `reconcile` does with an answer, given the row as it first read it. The voucher
     * is issued before the payment is claimed, in one transaction: when the claim finds the
     * payment already taken, both are undone.
     */
    method Apply(id: nat, read: Payment, answer: S.StatusAnswer, packageExists: bool) returns (voucher: Option<nat>)
      modifies this
      ensures Data() == ReconcileTables(old(Data()), id, read, answer, packageExists)
      ensures var p, v := old(payments), old(vouchers);
              var agrees := answer.Known?
                            && (answer.reference.Some? ==> answer.reference.value == id)
                            && (answer.amount.Some? ==> answer.amount.value == read.amountUgx)
                            && (answer.currency.Some? ==> answer.currency.value == "UGX");
              if !(agrees && id < |p| && p[id].status == PENDING) then payments == p && vouchers == v
              else if answer.txStatus == S.FAILED then payments == p[id := p[id].(status := FAILED)] && vouchers == v
              else if answer.txStatus == S.SUCCEEDED && packageExists then
                payments == p[id := p[id].(status := SUCCESS, voucherId := Some(|v|))]
                && vouchers == v + [Voucher(read.package, Some(read.customer))] && voucher == Some(|v|)
              else payments == p && vouchers == v
      ensures voucher.Some? <==> |vouchers| == |old(vouchers)| + 1
    {
      if !answer.Known? { return None; }
      if answer.reference.Some? && answer.reference.value != id { return None; }
      if answer.amount.Some? && answer.amount.value != read.amountUgx { return None; }
      if answer.currency.Some? && answer.currency.value != CURRENCY { return None; }
      if answer.txStatus == S.PENDING || answer.txStatus == S.INDETERMINATE { return None; }
      if answer.txStatus == S.FAILED {
        if id < |payments| && payments[id].status == PENDING {
          payments := payments[id := payments[id].(status := FAILED)];
        }
        return None;
      }
      if !packageExists { return None; }
      var before := vouchers;
      var issued := |vouchers|;
      vouchers := vouchers + [Voucher(read.package, Some(read.customer))];
      if id < |payments| && payments[id].status == PENDING {
        payments := payments[id := payments[id].(status := SUCCESS, voucherId := Some(issued))];
        return Some(issued);
      }
      vouchers := before;
      return None;
    }
  }

  // ---- Runs ----

  datatype Reconcile = Started(id: nat, read: Payment) | Told(id: nat, read: Payment, answer: S.StatusAnswer)

  datatype State = State(
    data: Tables,
    reconciles: map<nat, Reconcile>,         // in progress, by a number of their own
    answers: seq<(nat, S.StatusAnswer)>)     // everything the provider said, by payment

  datatype Event =
    | Create(pkg: Option<Package>, customer: nat)
    | StartFails(id: nat)
    | Start(k: nat, id: nat)
    | Ask(k: nat, answer: S.StatusAnswer)
    | Finish(k: nat, packageExists: bool)
    | IssueOther(package: nat)   // a printed or free voucher
    | Crash

  const INITIAL := State(Tables([], []), map[], [])

  predicate Enabled(s: State, e: Event) {
    match e
    case StartFails(id) => id < |s.data.payments|
    case Start(k, id) => k !in s.reconciles
    case Ask(k, _) => k in s.reconciles && s.reconciles[k].Started?
    case Finish(k, _) => k in s.reconciles && s.reconciles[k].Told?
    case _ => true
  }

  function Next(s: State, e: Event): State
    requires Enabled(s, e)
  {
    match e
    case Create(pkg, customer) => s.(data := CreateTables(s.data, pkg, customer))
    case StartFails(id) => s.(data := StartFailedTables(s.data, id))
    case Start(k, id) =>
      if IsPending(s.data.payments, id)
      then s.(reconciles := s.reconciles[k := Started(id, s.data.payments[id])])
      else s
    case Ask(k, answer) =>
      var r := s.reconciles[k];
      s.(reconciles := s.reconciles[k := Told(r.id, r.read, answer)], answers := s.answers + [(r.id, answer)])
    case Finish(k, packageExists) =>
      var r := s.reconciles[k];
      s.(data := ReconcileTables(s.data, r.id, r.read, r.answer, packageExists), reconciles := s.reconciles - {k})
    case IssueOther(package) => s.(data := s.data.(vouchers := s.data.vouchers + [Voucher(package, None)]))
    case Crash => s.(reconciles := map[])
  }

  /** The failure write lands on a payment that has already succeeded. */
  predicate HitsSuccess(s: State, e: Event)
    requires Enabled(s, e)
  {
    e.StartFails? && s.data.payments[e.id].status == SUCCESS
  }

  predicate IsRun(s: State, es: seq<Event>)
    decreases |es|
  {
    es == [] || (Enabled(s, es[0]) && IsRun(Next(s, es[0]), es[1..]))
  }

  function After(s: State, es: seq<Event>): State
    requires IsRun(s, es)
    decreases |es|
  {
    if es == [] then s else After(Next(s, es[0]), es[1..])
  }

  /** No failure write ever lands on a succeeded payment. */
  predicate IsOrderly(s: State, es: seq<Event>)
    requires IsRun(s, es)
    decreases |es|
  {
    es == [] || (!HitsSuccess(s, es[0]) && IsOrderly(Next(s, es[0]), es[1..]))
  }

  // ---- What a reconcile does ----

  /** What the provider said is about this payment, for its amount, in shillings. */
  predicate Agrees(r: Reconcile)
    requires r.Told?
  {
    r.answer.Known?
    && (r.answer.reference.Some? ==> r.answer.reference.value == r.id)
    && (r.answer.amount.Some? ==> r.answer.amount.value == r.read.amountUgx)
    && (r.answer.currency.Some? ==> r.answer.currency.value == "UGX")
  }

  /**
   * A pending payment becomes FAILED by an agreeing answer that says so, and nothing else
   * changes; it becomes SUCCESS, with a new voucher for its customer and package, by one that
   * says so while its package exists; by any other answer everything stays as it was.
   */
  lemma FinishSettles(s: State, k: nat, packageExists: bool)
    requires Enabled(s, Finish(k, packageExists))
    ensures var r, d, d' := s.reconciles[k], s.data, Next(s, Finish(k, packageExists)).data;
            if r.id < |d.payments| && d.payments[r.id].status == PENDING && Agrees(r) && r.answer.txStatus == S.FAILED
            then d' == d.(payments := d.payments[r.id := d.payments[r.id].(status := FAILED)])
            else if r.id < |d.payments| && d.payments[r.id].status == PENDING && Agrees(r)
                    && r.answer.txStatus == S.SUCCEEDED && packageExists
            then d' == Tables(d.payments[r.id := d.payments[r.id].(status := SUCCESS, voucherId := Some(|d.vouchers|))],
                              d.vouchers + [Voucher(r.read.package, Some(r.read.customer))])
            else d' == d
  {
  }

  /** It stays pending exactly when the answer disagrees, is not final, or its package is gone. */
  lemma StaysPendingExactlyWhen(s: State, k: nat, packageExists: bool)
    requires Enabled(s, Finish(k, packageExists)) && IsPending(s.data.payments, s.reconciles[k].id)
    ensures var r := s.reconciles[k];
            IsPending(Next(s, Finish(k, packageExists)).data.payments, r.id)
            <==> !Agrees(r) || r.answer.txStatus == S.PENDING || r.answer.txStatus == S.INDETERMINATE
                 || (r.answer.txStatus == S.SUCCEEDED && !packageExists)
  {
    FinishSettles(s, k, packageExists);
  }

  // ---- Stale reads ----

  /** A pending payment has no voucher, and a read differs from its row in what a settlement writes only. */
  ghost predicate ReadsTrue(s: State) {
    (forall id ::
       0 <= id < |s.data.payments| && s.data.payments[id].status == PENDING ==> s.data.payments[id].voucherId == None)
    && (forall k :: k in s.reconciles ==> ReadInv(s, s.reconciles[k]))
  }

  /**
   * In every run, late failure writes included, a reconcile acts on its payment's own
   * customer, package and amount, however long ago it read the row.
   */
  lemma {:induction false} ReadsStayTrue(s: State, es: seq<Event>)
    requires ReadsTrue(s) && IsRun(s, es)
    ensures ReadsTrue(After(s, es))
    decreases |es|
  {
    if es != [] {
      StepKeepsReads(s, es[0]);
      ReadsStayTrue(Next(s, es[0]), es[1..]);
    }
  }

  lemma StepKeepsReads(s: State, e: Event)
    requires ReadsTrue(s) && Enabled(s, e)
    ensures ReadsTrue(Next(s, e))
  {
    var s' := Next(s, e);
    forall k | k in s'.reconciles
      ensures ReadInv(s', s'.reconciles[k])
    {
      if k in s.reconciles { assert ReadInv(s, s.reconciles[k]); }
    }
  }

  // ---- What was earned ----

  /** The money of all payments that count as succeeded. */
  function Earned(payments: seq<Payment>): int {
    if payments == [] then 0
    else
      var p := payments[|payments| - 1];
      Earned(payments[..|payments| - 1]) + if p.status == SUCCESS then p.amountUgx else 0
  }

  lemma {:induction false} EarnedAfterUpdate(payments: seq<Payment>, id: nat, p: Payment)
    requires id < |payments| && p.amountUgx == payments[id].amountUgx
    ensures Earned(payments[id := p])
            == Earned(payments) + (if p.status == SUCCESS then p.amountUgx else 0)
               - (if payments[id].status == SUCCESS then p.amountUgx else 0)
  {
    var n := |payments| - 1;
    if id == n {
      assert payments[id := p][..n] == payments[..n];
    } else {
      assert payments[id := p][..n] == payments[..n][id := p];
      EarnedAfterUpdate(payments[..n], id, p);
    }
  }

  /** Earnings fall exactly by the late failure write on a succeeded payment, by its whole amount. */
  lemma EarnedFallsExactlyWhen(s: State, e: Event)
    requires Enabled(s, e) && forall id :: 0 <= id < |s.data.payments| ==> s.data.payments[id].amountUgx > 0
    ensures Earned(Next(s, e).data.payments) < Earned(s.data.payments) <==> HitsSuccess(s, e)
    ensures HitsSuccess(s, e) ==>
              Earned(Next(s, e).data.payments) == Earned(s.data.payments) - s.data.payments[e.id].amountUgx
  {
    var ps, ps' := s.data.payments, Next(s, e).data.payments;
    if e.Create? {
      if ps' != ps { assert ps'[..|ps|] == ps; }
    } else if ps' != ps {
      var id := if e.Finish? then s.reconciles[e.k].id else e.id;
      assert ps' == ps[id := ps'[id]];
      EarnedAfterUpdate(ps, id, ps'[id]);
    }
  }

  // ---- One voucher per paid payment ----

  /** This payment's voucher, when it has succeeded, is there and is the customer's. */
  ghost predicate Delivered(d: Tables, id: nat)
    requires id < |d.payments|
  {
    var p := d.payments[id];
    (p.status == SUCCESS <==> p.voucherId.Some?)
    && (p.voucherId.Some? ==> p.voucherId.value < |d.vouchers|
                              && d.vouchers[p.voucherId.value] == Voucher(p.package, Some(p.customer)))
  }

  ghost predicate IsPaidFor(d: Tables, v: nat) {
    exists id :: 0 <= id < |d.payments| && d.payments[id].voucherId == Some(v)
  }

  /** Succeeded payments and customers' vouchers are in bijection, with matching customer and package. */
  ghost predicate Matched(d: Tables) {
    (forall id :: 0 <= id < |d.payments| ==> Delivered(d, id))
    && (forall i, j :: 0 <= i < j < |d.payments| && d.payments[i].voucherId.Some? ==>
          d.payments[i].voucherId != d.payments[j].voucherId)
    && (forall v :: 0 <= v < |d.vouchers| && d.vouchers[v].customer.Some? ==> IsPaidFor(d, v))
  }

  ghost predicate Confirmed(s: State, id: nat)
    requires id < |s.data.payments|
  {
    exists i :: 0 <= i < |s.answers| && s.answers[i].0 == id
                && Matches(id, s.data.payments[id].amountUgx, s.answers[i].1)
                && s.answers[i].1.txStatus == S.SUCCEEDED
  }

  /** A read is of a row that still has the same owner, package and amount. */
  ghost predicate ReadInv(s: State, r: Reconcile) {
    r.id < |s.data.payments|
    && r.read == s.data.payments[r.id].(status := PENDING, voucherId := None)
    && (r.Told? ==> (r.id, r.answer) in s.answers)
  }

  ghost predicate Inv(s: State) {
    Matched(s.data)
    && (forall id :: 0 <= id < |s.data.payments| && s.data.payments[id].status == SUCCESS ==> Confirmed(s, id))
    && (forall k :: k in s.reconciles ==> ReadInv(s, s.reconciles[k]))
  }

  lemma GrowthKeepsConfirmed(s: State, s': State, id: nat)
    requires id < |s.data.payments| && Confirmed(s, id)
    requires s.answers <= s'.answers && id < |s'.data.payments|
    requires s'.data.payments[id].amountUgx == s.data.payments[id].amountUgx
    ensures Confirmed(s', id)
  {
    var i :| 0 <= i < |s.answers| && s.answers[i].0 == id
             && Matches(id, s.data.payments[id].amountUgx, s.answers[i].1) && s.answers[i].1.txStatus == S.SUCCEEDED;
    assert s'.answers[i] == s.answers[i];
  }

  lemma ReconcileStaysMatched(d: Tables, id: nat, read: Payment, answer: S.StatusAnswer, packageExists: bool)
    requires Matched(d) && id < |d.payments| && read == d.payments[id].(status := PENDING, voucherId := None)
    ensures Matched(ReconcileTables(d, id, read, answer, packageExists))
  {
    var d' := ReconcileTables(d, id, read, answer, packageExists);
    assert Delivered(d, id);
    forall i | 0 <= i < |d'.payments|
      ensures Delivered(d', i)
    {
      assert Delivered(d, i);
    }
    forall i, j | 0 <= i < j < |d'.payments| && d'.payments[i].voucherId.Some?
      ensures d'.payments[i].voucherId != d'.payments[j].voucherId
    {
      assert Delivered(d, i) && Delivered(d, j);
    }
    forall v | 0 <= v < |d'.vouchers| && d'.vouchers[v].customer.Some?
      ensures IsPaidFor(d', v)
    {
      if v < |d.vouchers| {
        var i :| 0 <= i < |d.payments| && d.payments[i].voucherId == Some(v);
        assert Delivered(d, i);
        assert d'.payments[i].voucherId == Some(v);
      } else {
        assert d'.payments[id].voucherId == Some(v);
      }
    }
  }

  lemma OtherStepStaysMatched(s: State, e: Event)
    requires Matched(s.data) && Enabled(s, e) && !e.Finish? && !HitsSuccess(s, e)
    ensures Matched(Next(s, e).data)
  {
    var d, d' := s.data, Next(s, e).data;
    forall i | 0 <= i < |d'.payments|
      ensures Delivered(d', i)
    {
      if i < |d.payments| { assert Delivered(d, i); }
    }
    forall v | 0 <= v < |d'.vouchers| && d'.vouchers[v].customer.Some?
      ensures IsPaidFor(d', v)
    {
      var i :| 0 <= i < |d.payments| && d.payments[i].voucherId == Some(v);
      assert d'.payments[i].voucherId == Some(v);
    }
  }

  lemma StepKeepsInv(s: State, e: Event)
    requires Inv(s) && Enabled(s, e) && !HitsSuccess(s, e)
    ensures Inv(Next(s, e))
  {
    var s' := Next(s, e);
    if e.Finish? {
      var r := s.reconciles[e.k];
      assert ReadInv(s, r);
      ReconcileStaysMatched(s.data, r.id, r.read, r.answer, e.packageExists);
    } else {
      OtherStepStaysMatched(s, e);
    }
    forall id | 0 <= id < |s'.data.payments| && s'.data.payments[id].status == SUCCESS
      ensures Confirmed(s', id)
    {
      if id < |s.data.payments| && s.data.payments[id].status == SUCCESS {
        GrowthKeepsConfirmed(s, s', id);
      } else {
        var r := s.reconciles[e.k];
        var i :| 0 <= i < |s.answers| && s.answers[i] == (r.id, r.answer);
        assert s'.answers[i].0 == id;
      }
    }
    forall k | k in s'.reconciles
      ensures ReadInv(s', s'.reconciles[k])
    {
      if k in s.reconciles {
        assert ReadInv(s, s.reconciles[k]);
      } else {
        assert Delivered(s.data, e.id);
      }
    }
  }

  lemma {:induction false} RunKeepsInv(s: State, es: seq<Event>)
    requires Inv(s) && IsRun(s, es) && IsOrderly(s, es)
    ensures Inv(After(s, es))
    decreases |es|
  {
    if es != [] {
      StepKeepsInv(s, es[0]);
      RunKeepsInv(Next(s, es[0]), es[1..]);
    }
  }


  /** A settled payment never changes again, the late failure write apart. */
  lemma SettledIsAbsorbing(s: State, e: Event, id: nat)
    requires Enabled(s, e) && id < |s.data.payments| && s.data.payments[id].status != PENDING && !HitsSuccess(s, e)
    ensures id < |Next(s, e).data.payments| && Next(s, e).data.payments[id] == s.data.payments[id]
  {
  }

  /** The bijection survives a step exactly when the step is not a failure write on a succeeded payment. */
  lemma MatchedSurvivesExactlyWhen(s: State, e: Event)
    requires Inv(s) && Enabled(s, e)
    ensures Matched(Next(s, e).data) <==> !HitsSuccess(s, e)
  {
    if HitsSuccess(s, e) {
      assert Delivered(s.data, e.id);
      assert !Delivered(Next(s, e).data, e.id);
    } else {
      StepKeepsInv(s, e);
    }
  }

  /** Matched now and after every further step of a run. */
  ghost predicate StaysMatched(s: State, es: seq<Event>)
    requires IsRun(s, es)
    decreases |es|
  {
    Matched(s.data) && (es != [] ==> StaysMatched(Next(s, es[0]), es[1..]))
  }

  lemma {:induction false} RunStaysMatchedExactlyWhen(s: State, es: seq<Event>)
    requires Inv(s) && IsRun(s, es)
    ensures StaysMatched(s, es) <==> IsOrderly(s, es)
    decreases |es|
  {
    hide Matched, HitsSuccess, Next, Enabled;
    if es != [] {
      MatchedSurvivesExactlyWhen(s, es[0]);
      if !HitsSuccess(s, es[0]) {
        StepKeepsInv(s, es[0]);
        RunStaysMatchedExactlyWhen(Next(s, es[0]), es[1..]);
      }
    }
  }

  /**
   * Under any interleaving of stale reconciles, every paid payment has exactly one voucher
   * and every customer's voucher was paid for, at every moment of a run exactly when no late
   * failure write of it hits a succeeded payment; and then all were confirmed by the provider.
   */
  lemma OneVoucherPerPaidPayment(es: seq<Event>)
    requires IsRun(INITIAL, es)
    ensures StaysMatched(INITIAL, es) <==> IsOrderly(INITIAL, es)
    ensures var s := After(INITIAL, es);
            IsOrderly(INITIAL, es) ==>
              forall id :: 0 <= id < |s.data.payments| && s.data.payments[id].status == SUCCESS ==> Confirmed(s, id)
  {
    RunStaysMatchedExactlyWhen(INITIAL, es);
    if IsOrderly(INITIAL, es) { RunKeepsInv(INITIAL, es); }
  }

  /**
   * Such a step is reachable: the deposit call times out here although the provider took
   * it, a webhook confirms the payment meanwhile, and the failure is written last.
   */
  function LateFailure(): seq<Event> {
    [Create(Some(Package(7, 1000, true)), 3), Start(0, 0),
     Ask(0, S.Known(S.SUCCEEDED, None, Some(1000), Some("UGX"))), Finish(0, true), StartFails(0)]
  }

  lemma LateFailureLosesSuccess()
    ensures IsRun(INITIAL, LateFailure()) && !IsOrderly(INITIAL, LateFailure())
    ensures !Matched(After(INITIAL, LateFailure()).data)
  {
    var es := LateFailure();
    var answer := S.Known(S.SUCCEEDED, None, Some(1000), Some("UGX"));
    var pending := Payment(3, 7, 1000, PENDING, None);
    var s1 := State(Tables([pending], []), map[], []);
    var s2 := s1.(reconciles := map[0 := Started(0, pending)]);
    var s3 := s2.(reconciles := map[0 := Told(0, pending, answer)], answers := [(0, answer)]);
    var s4 := State(Tables([pending.(status := SUCCESS, voucherId := Some(0))], [Voucher(7, Some(3))]), map[],
                    [(0, answer)]);
    var s5 := s4.(data := StartFailedTables(s4.data, 0));
    assert Next(INITIAL, es[0]) == s1;
    assert Next(s1, es[1]) == s2;
    assert Next(s2, es[2]) == s3;
    assert Next(s3, es[3]) == s4;
    assert es[1..][1..] == es[2..] && es[2..][1..] == es[3..] && es[3..][1..] == es[4..] && es[4..][1..] == [];
    assert IsRun(s4, es[4..]) && After(s4, es[4..]) == s5;
    assert IsRun(s3, es[3..]) && After(s3, es[3..]) == s5;
    assert IsRun(s2, es[2..]) && After(s2, es[2..]) == s5;
    assert IsRun(s1, es[1..]) && After(s1, es[1..]) == s5;
    assert !Delivered(s5.data, 0);
  }
}
