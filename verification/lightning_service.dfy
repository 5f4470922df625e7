/** The process-wide state of the Lightning service modules
    (`wallet-lightning.service.js` and `wallet.lightning.service.js`, whose
    connect, prepare and send code is the same): the current SDK instance, the
    in-flight connect promise, the mnemonic -> instance map and the single
    prepared-send slot. A connect is split into its start (`Connect`) and the
    settling of the promise it created (`Complete`). */
module LightningService {
  import opened Wrappers

  /** An SDK instance built by `SdkBuilder.build()`. */
  type Handle = nat

  /** One call of `commonConnectSdk(mnemonic)`: the promise stored in `connectingPromise`. */
  datatype Attempt = Attempt(id: nat, mnemonic: string)

  datatype PaymentMethod =
    | BitcoinAddress(speedFastUserFeeSat: int)
    | SparkAddress(fee: int)
    | Bolt11Invoice(lightningFeeSats: int)
    | OtherMethod(kind: string)

  /** What `sdk.prepareSendPayment` resolves to; the payment method may be absent. */
  datatype PrepareResponse = PrepareResponse(paymentMethod: Option<PaymentMethod>, amount: int)

  datatype State = State(
    instance: Option<Handle>,
    connecting: Option<Attempt>,
    sdkMap: map<string, Handle>,
    prepared: Option<PrepareResponse>,
    nextId: nat)

  const Initial: State := State(None, None, map[], None, 0)

  /** The instance is one the map knows, and every promise was created by a connect. */
  ghost predicate Valid(s: State) {
    && (s.instance.Some? ==> s.instance.value in s.sdkMap.Values)
    && (s.connecting.Some? ==> s.connecting.value.id < s.nextId)
  }

  /** What a caller of `connectToSdk` awaits: a ready instance or a connect promise. */
  datatype Lookup = Ready(handle: Handle) | Awaiting(attempt: Attempt)

  datatype ConnectStep = ConnectStep(state: State, lookup: Lookup)

  /** `commonConnectSdk(mnemonic)` started and stored as `connectingPromise`. */
  function StartConnect(s: State, mnemonic: string): (r: ConnectStep)
    ensures r.lookup == Awaiting(Attempt(s.nextId, mnemonic))
    ensures r.state == s.(connecting := Some(Attempt(s.nextId, mnemonic)), nextId := s.nextId + 1)
  {
    var a := Attempt(s.nextId, mnemonic);
    ConnectStep(s.(connecting := Some(a), nextId := s.nextId + 1), Awaiting(a))
  }

  /** `connectToSdk(phrase)`; an empty mnemonic is the source's falsy phrase. */
  function Connect(s: State, mnemonic: string): (r: ConnectStep)
    ensures s.instance.Some? && mnemonic in s.sdkMap ==> r == ConnectStep(s, Ready(s.sdkMap[mnemonic]))
    ensures s.instance.Some? && mnemonic !in s.sdkMap && mnemonic == "" ==> r == ConnectStep(s, Ready(s.instance.value))
    ensures s.instance.None? && s.connecting.Some? ==> r == ConnectStep(s, Awaiting(s.connecting.value))
    // a new, non-empty mnemonic while an instance is live switches wallets, and with
    // neither an instance nor a pending promise the first attempt starts
    ensures (s.instance.Some? && mnemonic !in s.sdkMap && mnemonic != "") || (s.instance.None? && s.connecting.None?) ==>
              r == StartConnect(s, mnemonic)
    ensures r.lookup.Ready? ==> r.state == s
    ensures r.state != s ==> r.lookup == Awaiting(Attempt(s.nextId, mnemonic)) && r.state.connecting == Some(r.lookup.attempt)
    ensures r.state.instance == s.instance && r.state.sdkMap == s.sdkMap && r.state.prepared == s.prepared
  {
    if s.instance.Some? then
      if mnemonic in s.sdkMap then ConnectStep(s, Ready(s.sdkMap[mnemonic]))
      else if mnemonic == "" then ConnectStep(s, Ready(s.instance.value))
      else StartConnect(s, mnemonic)
    else if s.connecting.Some? then ConnectStep(s, Awaiting(s.connecting.value))
    else StartConnect(s, mnemonic)
  }

  /** The promise of attempt `a` settles: `built` is the new instance, None a thrown error.
      Success publishes the instance and records it for `a`'s mnemonic (the promise stays
      stored); failure clears both the instance and the stored promise and leaves the map. */
  function Complete(s: State, a: Attempt, built: Option<Handle>): (r: State)
    ensures built.Some? ==> r.instance == built && r.sdkMap == s.sdkMap[a.mnemonic := built.value] && r.connecting == s.connecting
    ensures built.None? ==> r.instance.None? && r.connecting.None? && r.sdkMap == s.sdkMap
    ensures r.prepared == s.prepared && r.nextId == s.nextId
  {
    match built
    case Some(h) => s.(instance := Some(h), sdkMap := s.sdkMap[a.mnemonic := h])
    case None => s.(instance := None, connecting := None)
  }

  lemma ConnectPreservesValid(s: State, mnemonic: string)
    requires Valid(s)
    ensures Valid(Connect(s, mnemonic).state)
  {
  }

  lemma CompletePreservesValid(s: State, a: Attempt, built: Option<Handle>)
    requires Valid(s)
    ensures Valid(Complete(s, a, built))
  {
    if built.Some? {
      var r := Complete(s, a, built);
      assert r.sdkMap[a.mnemonic] == built.value;
    }
  }

  /** Reuse: a second connect with the same mnemonic returns the instance of the
      first, and only one SDK build was ever started. */
  lemma SessionReuse(mnemonic: string, h: Handle)
    ensures var first := Connect(Initial, mnemonic);
            var settled := Complete(first.state, first.lookup.attempt, Some(h));
            var second := Connect(settled, mnemonic);
            second.lookup == Ready(h) && second.state == settled && second.state.nextId == 1
  {
  }

  /** The aliasing of the global in-flight promise: while the first connect is
      pending, a caller with a different mnemonic awaits the same promise and is
      handed the first mnemonic's instance, which the map records only for the first. */
  lemma InFlightAliasing(m1: string, m2: string, h: Handle)
    requires m1 != m2
    ensures var one := Connect(Initial, m1);
            var two := Connect(one.state, m2);
            && two.lookup == one.lookup
            && two.lookup.attempt.mnemonic == m1
            && var settled := Complete(two.state, two.lookup.attempt, Some(h));
               m1 in settled.sdkMap && settled.sdkMap[m1] == h && m2 !in settled.sdkMap
  {
  }

  /** After a failed connect nobody awaits the poisoned promise: the next call starts a fresh build. */
  lemma FailureRestartsConnect(s: State, a: Attempt, mnemonic: string)
    ensures var failed := Complete(s, a, None);
            Connect(failed, mnemonic) == StartConnect(failed, mnemonic)
  {
  }

  /** Without a live instance the map is not consulted, even for a known mnemonic. */
  lemma MapIgnoredWithoutInstance(s: State, mnemonic: string)
    requires s.instance.None? && s.connecting.None? && mnemonic in s.sdkMap
    ensures Connect(s, mnemonic).lookup == Awaiting(Attempt(s.nextId, mnemonic))
  {
  }

  /** How awaiting `connectToSdk` turned out for an operation: an instance, a falsy
      value, or a thrown connection error. */
  datatype SdkAccess = Connected(handle: Handle) | NotConnected | ConnectFailed

  /** The fee object `prepareAndSendPayment` resolves to; `Undefined` is a bare `return`. */
  datatype PrepareResult = Undefined | EmptyObject | Fees(lightningFee: int, sparkFee: string)

  /** Fee classification by payment-method kind. */
  function FeeOf(resp: PrepareResponse): (r: PrepareResult)
    ensures r != Undefined
    ensures r.Fees? ==> r.sparkFee == ""
    ensures r == EmptyObject <==> resp.paymentMethod.None? || resp.paymentMethod.value.OtherMethod?
    ensures resp.paymentMethod.Some? && resp.paymentMethod.value.BitcoinAddress? ==> r.lightningFee == resp.paymentMethod.value.speedFastUserFeeSat
    ensures resp.paymentMethod.Some? && resp.paymentMethod.value.SparkAddress? ==> r.lightningFee == resp.paymentMethod.value.fee
    ensures resp.paymentMethod.Some? && resp.paymentMethod.value.Bolt11Invoice? ==> r.lightningFee == resp.paymentMethod.value.lightningFeeSats
  {
    match resp.paymentMethod
    case Some(BitcoinAddress(fee)) => Fees(fee, "")
    case Some(SparkAddress(fee)) => Fees(fee, "")
    case Some(Bolt11Invoice(fee)) => Fees(fee, "")
    case _ => EmptyObject
  }

  datatype PrepareStep = PrepareStep(state: State, result: PrepareResult)

  /** `prepareAndSendPayment(phrase, paymentRequest, amount)`. `amountUnits` is the
      amount converted to satoshis (an `Err` when the conversion throws) and
      `response` what the SDK's prepare call resolved to (None when it threw). */
  function PrepareAndSend(s: State, access: SdkAccess, paymentRequest: string,
                          amountUnits: Result<int>, response: Option<PrepareResponse>): (r: PrepareStep)
    ensures r.state == s || r.state == s.(prepared := response)
    ensures !access.Connected? || paymentRequest == "" ==> r == PrepareStep(s, Undefined)
    ensures amountUnits.Err? || response.None? ==> r == PrepareStep(s, Undefined)
    ensures r.result == Undefined <==> r.state == s && (!access.Connected? || paymentRequest == "" || amountUnits.Err? || response.None?)
    ensures r.result != Undefined ==> response.Some? && r.state.prepared == response && r.result == FeeOf(response.value)
  {
    if !access.Connected? || paymentRequest == "" then PrepareStep(s, Undefined)
    else if amountUnits.Err? || response.None? then PrepareStep(s, Undefined)
    else PrepareStep(s.(prepared := response), FeeOf(response.value))
  }

  /** What `sendLightning` does: the prepared response it handed to the SDK, if it
      called it, and what it returned or threw. */
  datatype SendOutcome = SendUndefined | PaymentId(id: string) | SendThrew
  datatype SendRun = SendRun(sdkCall: Option<PrepareResponse>, outcome: SendOutcome)

  /** `sendLightning(phrase)`; `sent` is the SDK send's payment id, or its error. */
  function SendLightning(s: State, access: SdkAccess, sent: Result<string>): (r: SendRun)
    ensures r.sdkCall.Some? <==> access.Connected? && s.prepared.Some?
    ensures r.sdkCall.Some? ==> r.sdkCall == s.prepared
    ensures r.outcome.PaymentId? ==> r.sdkCall.Some? && sent == Ok(r.outcome.id)
    ensures access.ConnectFailed? ==> r.outcome == SendThrew
    ensures access.NotConnected? || (access.Connected? && s.prepared.None?) ==> r.outcome == SendUndefined
    ensures access.Connected? && s.prepared.Some? ==> r.outcome == (if sent.Ok? then PaymentId(sent.value) else SendThrew)
  {
    match access
    case ConnectFailed => SendRun(None, SendThrew)
    case NotConnected => SendRun(None, SendUndefined)
    case Connected(_) =>
      if s.prepared.None? then SendRun(None, SendUndefined)
      else match sent
        case Ok(id) => SendRun(s.prepared, PaymentId(id))
        case Err(_) => SendRun(s.prepared, SendThrew)
  }

  /** The slot is global: a second prepare before the send silently replaces the
      first, and the send uses the later response. */
  lemma LaterPrepareWins(s: State, h: Handle, req1: string, req2: string, amount1: int, amount2: int,
                         resp1: PrepareResponse, resp2: PrepareResponse, id: string)
    requires req1 != "" && req2 != ""
    ensures var p1 := PrepareAndSend(s, Connected(h), req1, Ok(amount1), Some(resp1));
            var p2 := PrepareAndSend(p1.state, Connected(h), req2, Ok(amount2), Some(resp2));
            SendLightning(p2.state, Connected(h), Ok(id)) == SendRun(Some(resp2), PaymentId(id))
  {
  }

  /** From a fresh process a send without a prepare never reaches the SDK. */
  lemma SendNeedsPrepare(h: Handle, sent: Result<string>)
    ensures SendLightning(Initial, Connected(h), sent) == SendRun(None, SendUndefined)
  {
  }

  const AcceptedKinds: set<string> := {"bitcoinAddress", "bolt11Invoice", "sparkAddress"}

  /** `isLightningAddressValid(address, phrase)`; `parsedKind` is the `type` of what
      `sdk.parse` returned, None when it threw; a None result is `undefined`. A
      failed connect or a throwing parse lands in the `catch`, which returns false. */
  function IsLightningAddressValid(access: SdkAccess, parsedKind: Option<string>): (r: Option<bool>)
    ensures r == Some(true) <==> access.Connected? && parsedKind.Some? && parsedKind.value in AcceptedKinds
    ensures r.None? <==> access.NotConnected?
    ensures access.ConnectFailed? || (access.Connected? && parsedKind.None?) ==> r == Some(false)
  {
    match access
    case ConnectFailed => Some(false)
    case NotConnected => None
    case Connected(_) =>
      match parsedKind
      case None => Some(false)
      case Some(kind) => Some(kind == "bitcoinAddress" || kind == "bolt11Invoice" || kind == "sparkAddress")
  }

  /** Errors are swallowed: a connect that fails or a parse that throws answers
      false, never `undefined` and never a rejected promise. */
  lemma ValidationErrorsAreFalse(access: SdkAccess, parsedKind: Option<string>)
    requires access.ConnectFailed? || (access.Connected? && parsedKind.None?)
    ensures IsLightningAddressValid(access, parsedKind) == Some(false)
  {
  }
}
