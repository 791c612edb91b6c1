/**
 * The payment provider's client: which tries are repeated, and when a payout's
 * outcome counts as a sure "no".
 */
module Ssentezo {
  import opened Options

  const MAX_RETRIES := 2

  datatype TxStatus = PENDING | SUCCEEDED | FAILED | INDETERMINATE

  /**
   * What one HTTP try came to. NotConnected is a DNS or connect error, where the
   * request never left this box; Lost is any other transport error.
   */
  datatype Attempt =
    | NotConnected
    | Lost
    | Response(httpStatus: int, envelopeOk: bool, txStatus: Option<TxStatus>)

  datatype InitiateResult = Accepted(txStatus: TxStatus) | Uncertain | Refused

  /** What get_status said: a parsed transaction, "no such transaction", or no usable answer. */
  datatype StatusAnswer =
    | Known(txStatus: TxStatus, reference: Option<nat>, amount: Option<int>, currency: Option<string>)
    | NoRecord
    | NoAnswer

  /**
   * The response interceptor: repeats a try only while the request never left the box.
   * `tries` holds what each successive try would come to.
   */
  method PostWithRetry(tries: seq<Attempt>) returns (outcome: Attempt, used: nat)
    requires |tries| > MAX_RETRIES
    ensures 1 <= used <= MAX_RETRIES + 1 && outcome == tries[used - 1]
    ensures forall i :: 0 <= i < used - 1 ==> tries[i] == NotConnected
    ensures outcome == NotConnected ==> used == MAX_RETRIES + 1
    ensures forall i, j :: 0 <= i < j < used ==> tries[i] == NotConnected || tries[j] == NotConnected
  {
    outcome := tries[0];
    used := 1;
    var retryAttempt := 0;
    while outcome == NotConnected
      invariant retryAttempt == used - 1 <= MAX_RETRIES
      invariant outcome == tries[used - 1]
      invariant forall i :: 0 <= i < used - 1 ==> tries[i] == NotConnected
      decreases MAX_RETRIES - retryAttempt
    {
      retryAttempt := retryAttempt + 1;
      if retryAttempt > MAX_RETRIES { return; }
      outcome := tries[used];
      used := used + 1;
    }
  }

  predicate IsAcceptance(a: Attempt) {
    a.Response? && (a.httpStatus == 200 || a.httpStatus == 202) && a.envelopeOk
  }

  /** The sure/uncertain classification of a payout request. */
  function InitiateWithdrawal(configured: bool, a: Attempt): (r: InitiateResult)
    ensures r.Refused? <==> !configured || (a.Response? && a.httpStatus < 500 && !IsAcceptance(a))
    ensures r.Accepted? <==> configured && IsAcceptance(a) && a.txStatus.Some?
    ensures r.Accepted? ==> a.txStatus == Some(r.txStatus)
  {
    if !configured then Refused
    else match a
      case NotConnected => Uncertain
      case Lost => Uncertain
      case Response(httpStatus, _, txStatus) =>
        if !IsAcceptance(a) then if httpStatus >= 500 then Uncertain else Refused
        else match txStatus
          case None => Uncertain
          case Some(t) => Accepted(t)
  }
}
