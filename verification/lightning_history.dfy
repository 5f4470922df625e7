/** Payment history and on-chain deposit handling of the Lightning service:
    `getLightningTransactions`, `claimOnchainDeposit`, the two
    `approveClaimDepositRequest` variants and `refundClaimRequest`. SDK replies
    are parameters; an absent reply (None) stands for a call that threw. */
module LightningHistory {
  import opened Wrappers
  import opened Text
  import opened LightningService

  /** A payment from `listPayments`; empty strings are absent or falsy ids. */
  datatype Payment = Payment(id: string, amount: int, status: string, timestamp: int,
                             paymentType: string, txId: string, paymentHash: string)

  /** One row of the history screen. `from`/`to` are None for `null` or an absent address. */
  datatype TxView = TxView(amount: int, link: string, status: string, date: int,
                           from: Option<string>, to: Option<string>, totalCourse: string,
                           paymentType: string)

  const LinkLength: nat := 13

  /** The first truthy of transaction id, payment hash and payment id, else "N/A". */
  function TxHash(p: Payment): (h: string)
    ensures h != ""
    ensures h == p.txId || h == p.paymentHash || h == p.id || h == "N/A"
    ensures p.txId != "" ==> h == p.txId
    ensures p.txId == "" && p.paymentHash != "" ==> h == p.paymentHash
    ensures p.txId == "" && p.paymentHash == "" ==> h == (if p.id != "" then p.id else "N/A")
  {
    if p.txId != "" then p.txId
    else if p.paymentHash != "" then p.paymentHash
    else if p.id != "" then p.id
    else "N/A"
  }

  function Normalize(p: Payment, address: Option<string>): (v: TxView)
    ensures v.status == "SUCCESS" <==> Lower(p.status) == "completed"
    ensures v.status == "SUCCESS" || v.status == "Pending"
    ensures v.date == p.timestamp * 1000
    ensures |v.link| >= 3 && StartsWith(v.link, Take(TxHash(p), LinkLength)) && v.link[|v.link| - 3..] == "..."
    ensures |v.link| == if |TxHash(p)| < LinkLength then |TxHash(p)| + 3 else LinkLength + 3
    ensures p.paymentType == "send" ==> v.from == address && v.to.None?
    ensures p.paymentType != "send" ==> v.from.None? && v.to == address
    ensures v.amount == p.amount && v.paymentType == p.paymentType && v.totalCourse == "0$"
  {
    var send := p.paymentType == "send";
    TxView(
      amount := p.amount,
      link := Take(TxHash(p), LinkLength) + "...",
      status := if Lower(p.status) != "completed" then "Pending" else "SUCCESS",
      date := p.timestamp * 1000,
      from := if send then address else None,
      to := if send then None else address,
      totalCourse := "0$",
      paymentType := p.paymentType)
  }

  /** `getLightningTransactions(phrase)` of `wallet-lightning.service.js`: `payments`
      is the `listPayments` reply, or None when that call threw; `receiveAddress` is
      the spark address `receivePayment` returned, or None when that call threw (it
      is made only when there are payments). A None result is `undefined`. */
  function GetLightningTransactions(access: SdkAccess, payments: Option<seq<Payment>>,
                                    receiveAddress: Option<string>): (r: Option<seq<TxView>>)
    ensures r.None? <==> access.NotConnected?
    ensures access.ConnectFailed? || payments.None? ==> r == (if access.NotConnected? then None else Some([]))
    ensures access.Connected? && payments.Some? && |payments.value| > 0 && receiveAddress.None? ==> r == Some([])
    ensures access.Connected? && payments.Some? && (|payments.value| == 0 || receiveAddress.Some?) ==>
              r.Some? && |r.value| == |payments.value| &&
              forall i :: 0 <= i < |r.value| ==> r.value[i] == Normalize(payments.value[i], receiveAddress)
  {
    match access
    case NotConnected => None
    case ConnectFailed => Some([])
    case Connected(_) =>
      match payments
      case None => Some([])
      case Some(ps) =>
        if |ps| > 0 && receiveAddress.None? then Some([])
        else Some(seq(|ps|, i requires 0 <= i < |ps| => Normalize(ps[i], receiveAddress)))
  }

  /** The spark address shows up on every row: as sender of sends, as receiver otherwise. */
  lemma AddressOnEveryRow(h: Handle, ps: seq<Payment>, address: string)
    ensures var r := GetLightningTransactions(Connected(h), Some(ps), Some(address));
            r.Some? && forall i :: 0 <= i < |r.value| ==> Some(address) in {r.value[i].from, r.value[i].to}
  {
  }

  // ---------------------------------------------------------------------------
  // Deposits

  datatype ClaimError = ClaimError(kind: string, requiredFeeSats: Option<int>)

  /** An unclaimed on-chain deposit; `claimError` may be absent. */
  datatype Deposit = Deposit(txid: string, vout: int, amountSats: int, claimError: Option<ClaimError>)

  /** A row of `claimOnchainDeposit`, in satoshis (the display conversion to BTC is not modelled). */
  datatype DepositRow = DepositRow(txid: string, vout: int, amountSats: int, feeSats: int, receivedSats: int)

  /** A missing or zero `requiredFeeSats` counts as no fee. */
  function RequiredFee(e: ClaimError): (f: int)
    ensures e.requiredFeeSats.Some? ==> f == e.requiredFeeSats.value
    ensures e.requiredFeeSats.None? ==> f == 0
  {
    e.requiredFeeSats.GetOr(0)
  }

  predicate AllHaveClaimError(ds: seq<Deposit>) {
    forall i :: 0 <= i < |ds| ==> ds[i].claimError.Some?
  }

  /** `claimOnchainDeposit(phrase)` (same in both service files). A deposit without a
      claim error makes the loop throw, which discards every row and yields `[]`. */
  function ClaimOnchainDeposit(access: SdkAccess, deposits: Option<seq<Deposit>>): (r: Option<seq<DepositRow>>)
    ensures r.None? <==> access.NotConnected?
    ensures access.Connected? && deposits.Some? && AllHaveClaimError(deposits.value) ==>
              r.Some? && |r.value| == |deposits.value| &&
              forall i :: 0 <= i < |r.value| ==>
                var d := deposits.value[i];
                && r.value[i].txid == d.txid && r.value[i].vout == d.vout
                && r.value[i].amountSats == d.amountSats
                && r.value[i].feeSats == RequiredFee(d.claimError.value)
                && r.value[i].receivedSats + r.value[i].feeSats == d.amountSats
    ensures access.Connected? && deposits.Some? && !AllHaveClaimError(deposits.value) ==> r == Some([])
    ensures access.ConnectFailed? || (access.Connected? && deposits.None?) ==> r == Some([])
  {
    match access
    case NotConnected => None
    case ConnectFailed => Some([])
    case Connected(_) =>
      match deposits
      case None => Some([])
      case Some(ds) =>
        if !AllHaveClaimError(ds) then Some([])
        else Some(seq(|ds|, i requires 0 <= i < |ds| && AllHaveClaimError(ds) =>
          var fee := RequiredFee(ds[i].claimError.value);
          DepositRow(ds[i].txid, ds[i].vout, ds[i].amountSats, fee, ds[i].amountSats - fee)))
  }

  lemma DepositExample(h: Handle)
    ensures ClaimOnchainDeposit(Connected(h), Some([Deposit("t", 0, 100000, Some(ClaimError("maxDepositClaimFeeExceeded", Some(1500))))]))
            == Some([DepositRow("t", 0, 100000, 1500, 98500)])
  {
    var ds := [Deposit("t", 0, 100000, Some(ClaimError("maxDepositClaimFeeExceeded", Some(1500))))];
    assert AllHaveClaimError(ds) by { assert ds[0].claimError.Some?; }
    var r := ClaimOnchainDeposit(Connected(h), Some(ds));
    assert r.Some? && |r.value| == 1;
    assert r.value[0] == DepositRow("t", 0, 100000, 1500, 98500);
    assert r.value == [DepositRow("t", 0, 100000, 1500, 98500)];
  }

  /** What `claimDeposit` was asked for. */
  datatype ClaimRequest = ClaimRequest(txid: string, vout: int, maxFeeSats: int)

  /** The calls an approve or refund made and what it returned (None is `undefined`). */
  datatype ClaimRun = ClaimRun(request: Option<ClaimRequest>, result: Option<bool>)

  const FeeExceededKind := "maxDepositClaimFeeExceeded"

  /** Deposit `d` may be claimed automatically for (txid, vout) at the fastest fee rate. */
  predicate Claimable(d: Deposit, txid: string, vout: int, fastestFee: int) {
    && d.claimError.Some? && d.claimError.value.kind == FeeExceededKind
    && d.txid == txid && d.vout == vout
    && RequiredFee(d.claimError.value) <= fastestFee
  }

  /** The loop of the second service file: the first claimable deposit; a match whose
      fee is too high does not stop the search. */
  function FirstClaimable(ds: seq<Deposit>, txid: string, vout: int, fastestFee: int): (r: Option<nat>)
    ensures r.Some? ==> r.value < |ds| && Claimable(ds[r.value], txid, vout, fastestFee)
    ensures r.Some? ==> forall j :: 0 <= j < r.value ==> !Claimable(ds[j], txid, vout, fastestFee)
    ensures r.None? ==> forall j :: 0 <= j < |ds| ==> !Claimable(ds[j], txid, vout, fastestFee)
  {
    if ds == [] then None
    else if Claimable(ds[0], txid, vout, fastestFee) then Some(0)
    else match FirstClaimable(ds[1..], txid, vout, fastestFee)
      case None => None
      case Some(k) => Some(k + 1)
  }

  /** `approveClaimDepositRequest(phrase, txid, vout)` of `wallet.lightning.service.js`:
      `deposits` and `fastestFee` are the two SDK replies, `claimed` whether
      `claimDeposit` succeeded. Every failure is caught and returns false. */
  function ApproveClaimBySelection(access: SdkAccess, deposits: Option<seq<Deposit>>, fastestFee: Option<int>,
                                   txid: string, vout: int, claimed: bool): (r: ClaimRun)
    ensures r.result.None? <==> access.NotConnected?
    ensures r.request.Some? ==>
              && deposits.Some? && fastestFee.Some?
              && exists i :: 0 <= i < |deposits.value| && Claimable(deposits.value[i], txid, vout, fastestFee.value)
                   && r.request.value == ClaimRequest(txid, vout, RequiredFee(deposits.value[i].claimError.value))
    ensures r.result == Some(true) <==> r.request.Some? && claimed
    ensures access.Connected? && deposits.Some? && fastestFee.Some? ==>
              (r.request.Some? <==> exists i :: 0 <= i < |deposits.value| && Claimable(deposits.value[i], txid, vout, fastestFee.value))
  {
    match access
    case NotConnected => ClaimRun(None, None)
    case ConnectFailed => ClaimRun(None, Some(false))
    case Connected(_) =>
      if deposits.None? || fastestFee.None? then ClaimRun(None, Some(false))
      else match FirstClaimable(deposits.value, txid, vout, fastestFee.value)
        case None => ClaimRun(None, Some(false))
        case Some(i) =>
          var d := deposits.value[i];
          ClaimRun(Some(ClaimRequest(d.txid, d.vout, RequiredFee(d.claimError.value))), Some(claimed))
  }

  /** A matching deposit whose fee exceeds the fastest rate is never claimed. */
  lemma TooExpensiveNotClaimed(h: Handle, d: Deposit, fastestFee: int, claimed: bool)
    requires d.claimError.Some? && RequiredFee(d.claimError.value) > fastestFee
    ensures ApproveClaimBySelection(Connected(h), Some([d]), Some(fastestFee), d.txid, d.vout, claimed)
            == ClaimRun(None, Some(false))
  {
  }

  /** `approveClaimDepositRequest(phrase, {txid, vout, fees})` of
      `wallet-lightning.service.js`: claims with the caller's fee converted to
      satoshis (`feeSats`, an error when the conversion throws). */
  function ApproveClaimWithFee(access: SdkAccess, txid: string, vout: int, feeSats: Result<int>,
                               claimed: bool): (r: ClaimRun)
    ensures r.result.None? <==> access.NotConnected?
    ensures r.request.Some? <==> access.Connected? && feeSats.Ok?
    ensures r.request.Some? ==> r.request.value == ClaimRequest(txid, vout, feeSats.value)
    ensures r.result == Some(true) <==> r.request.Some? && claimed
  {
    match access
    case NotConnected => ClaimRun(None, None)
    case ConnectFailed => ClaimRun(None, Some(false))
    case Connected(_) =>
      match feeSats
      case Err(_) => ClaimRun(None, Some(false))
      case Ok(fee) => ClaimRun(Some(ClaimRequest(txid, vout, fee)), Some(claimed))
  }

  /** The refund fee table; the `fast` entry is always used. */
  const SlowRefundFee: int := 500
  const MediumRefundFee: int := 1000
  const FastRefundFee: int := 2000

  datatype RefundRequest = RefundRequest(txid: string, vout: int, destinationAddress: string, feeSats: int)
  datatype RefundRun = RefundRun(request: Option<RefundRequest>, result: Option<bool>)

  /** `refundClaimRequest`. `feesFetched` is false when the second service file's
      (unused) `recommendedFees` call throws; the first file makes no such call. */
  function RefundClaim(access: SdkAccess, txid: string, vout: int, destination: string,
                       feesFetched: bool, refunded: bool): (r: RefundRun)
    ensures r.result.None? <==> access.NotConnected?
    ensures r.request.Some? <==> access.Connected? && feesFetched
    ensures r.request.Some? ==> r.request.value == RefundRequest(txid, vout, destination, FastRefundFee)
    ensures r.result == Some(true) <==> r.request.Some? && refunded
  {
    match access
    case NotConnected => RefundRun(None, None)
    case ConnectFailed => RefundRun(None, Some(false))
    case Connected(_) =>
      if !feesFetched then RefundRun(None, Some(false))
      else RefundRun(Some(RefundRequest(txid, vout, destination, FastRefundFee)), Some(refunded))
  }
}
