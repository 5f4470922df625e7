/** The two `waitForLightningConfirmation` strategies: polling `getPayment` every
    `interval` (`wallet-lightning.service.js`) and waiting for an SDK event with a
    90-second timer (`wallet.lightning.service.js`). Time is abstracted: the poll
    sees one reply per tick, the event waiter sees events stamped with the
    milliseconds elapsed since the listener was registered. */
module LightningConfirm {
  import opened Wrappers
  import opened LightningService

  /** One `getPayment` call: the payment's status and the whole reply, or a thrown error. */
  datatype Tick<R> = Reply(status: string, response: R) | Threw(error: string)

  /** How the poll promise settles, or `StillPolling` if the supplied ticks ran out first. */
  datatype PollOutcome<R> =
    | NoSdk            // `return` before the promise: the SDK value is falsy
    | NoTransaction    // `return null`: no transaction id
    | ConnectThrew     // `connectToSdk` rejected; there is no try around it
    | Resolved(response: R)
    | RejectedFailed   // `reject('failed')`
    | ResolvedPending  // `resolve('pending')` after the retry budget
    | RejectedError(error: string)
    | StillPolling

  predicate Terminal<R>(t: Tick<R>) {
    t.Threw? || t.status == "completed" || t.status == "failed"
  }

  /** The tick numbered `count` (1-based) settles the promise: a terminal reply, or
      the reply that brings the retry counter to `retries`. A non-positive
      `retries` stands for an absent one, which never equals the counter. */
  predicate Settles<R>(t: Tick<R>, count: nat, retries: int) {
    Terminal(t) || count == retries
  }

  /** The settlement a settling tick causes: its error, its completed reply, the
      `failed` rejection, or 'pending' when the counter reached the budget. */
  function SettleAt<R>(t: Tick<R>, count: nat, retries: int): (r: PollOutcome<R>)
    requires Settles(t, count, retries)
    ensures t.Threw? <==> r.RejectedError?
    ensures r.RejectedError? ==> r.error == t.error
    ensures r.Resolved? <==> t.Reply? && t.status == "completed"
    ensures r.Resolved? ==> r.response == t.response
    ensures r == RejectedFailed <==> t.Reply? && t.status == "failed"
    ensures r == ResolvedPending ==> !Terminal(t) && count == retries
    ensures r != StillPolling
  {
    match t
    case Threw(e) => RejectedError(e)
    case Reply(status, response) =>
      if status == "completed" then Resolved(response)
      else if status == "failed" then RejectedFailed
      else ResolvedPending
  }

  /** Reference definition: the outcome of the ticks from `k` on. */
  function PollFrom<R>(ticks: seq<Tick<R>>, retries: int, k: nat): PollOutcome<R>
    requires k <= |ticks|
    decreases |ticks| - k
  {
    if k == |ticks| then StillPolling
    else if Settles(ticks[k], k + 1, retries) then SettleAt(ticks[k], k + 1, retries)
    else PollFrom(ticks, retries, k + 1)
  }

  /** The reference poll runs on exactly when no tick settles; otherwise it ends at
      the first tick that settles, with that tick's settlement. */
  lemma {:induction false} FirstSettlingTick<R>(ticks: seq<Tick<R>>, retries: int, k: nat)
    requires k <= |ticks|
    ensures PollFrom(ticks, retries, k) == StillPolling <==> forall j :: k <= j < |ticks| ==> !Settles(ticks[j], j + 1, retries)
    ensures PollFrom(ticks, retries, k) != StillPolling ==>
              exists j :: k <= j < |ticks| && Settles(ticks[j], j + 1, retries)
                          && PollFrom(ticks, retries, k) == SettleAt(ticks[j], j + 1, retries)
                          && forall i :: k <= i < j ==> !Settles(ticks[i], i + 1, retries)
    decreases |ticks| - k
  {
    if k < |ticks| && !Settles(ticks[k], k + 1, retries) {
      FirstSettlingTick(ticks, retries, k + 1);
    }
  }

  /** The interval loop. `polls` is the number of `getPayment` calls made. */
  method WaitForPolledConfirmation<R>(access: SdkAccess, transaction: string, retries: int,
                                      ticks: seq<Tick<R>>)
    returns (r: PollOutcome<R>, polls: nat)
    ensures !access.Connected? || transaction == "" ==> polls == 0
    ensures access.ConnectFailed? ==> r == ConnectThrew
    ensures access.NotConnected? ==> r == NoSdk
    ensures access.Connected? && transaction == "" ==> r == NoTransaction
    ensures access.Connected? && transaction != "" ==> r == PollFrom(ticks, retries, 0)
    ensures polls <= |ticks|
    ensures forall j :: 0 <= j < polls - 1 ==> !Settles(ticks[j], j + 1, retries)
    ensures r == StillPolling ==> polls == |ticks| && (polls > 0 ==> !Settles(ticks[polls - 1], polls, retries))
    ensures r.Resolved? ==> polls > 0 && ticks[polls - 1] == Reply("completed", r.response)
    ensures r == RejectedFailed ==> polls > 0 && ticks[polls - 1].Reply? && ticks[polls - 1].status == "failed"
    ensures r == ResolvedPending ==> polls == retries && polls > 0 && !Terminal(ticks[polls - 1])
    ensures r.RejectedError? ==> polls > 0 && ticks[polls - 1] == Threw(r.error)
  {
    match access {
      case ConnectFailed => return ConnectThrew, 0;
      case NotConnected => return NoSdk, 0;
      case Connected(_) =>
    }
    if transaction == "" {
      return NoTransaction, 0;
    }
    var count: nat := 0;
    while count < |ticks|
      invariant count <= |ticks|
      invariant forall j :: 0 <= j < count ==> !Settles(ticks[j], j + 1, retries)
      invariant PollFrom(ticks, retries, count) == PollFrom(ticks, retries, 0)
    {
      var t := ticks[count];
      count := count + 1;
      if Settles(t, count, retries) {
        return SettleAt(t, count, retries), count;
      }
    }
    return StillPolling, count;
  }

  /** Once the counter has passed `retries` the poll can only end on a terminal
      reply: a payment that stays pending keeps the timer running for ever. */
  lemma {:induction false} PendingForeverWhenRetriesMissed<R>(ticks: seq<Tick<R>>, retries: int, k: nat)
    requires k <= |ticks| && k >= retries
    requires forall j :: k <= j < |ticks| ==> !Terminal(ticks[j])
    ensures PollFrom(ticks, retries, k) == StillPolling
    decreases |ticks| - k
  {
    if k < |ticks| {
      assert !Settles(ticks[k], k + 1, retries);
      PendingForeverWhenRetriesMissed(ticks, retries, k + 1);
    }
  }

  /** With a positive budget and enough pending replies the poll resolves 'pending'
      exactly at the `retries`-th call. */
  lemma {:induction false} BudgetExhaustion<R>(ticks: seq<Tick<R>>, retries: nat, k: nat)
    requires k < retries <= |ticks|
    requires forall j :: k <= j < retries ==> !Terminal(ticks[j])
    ensures PollFrom(ticks, retries, k) == ResolvedPending
    decreases retries - k
  {
    if k + 1 < retries {
      BudgetExhaustion(ticks, retries, k + 1);
    }
  }

  // ---------------------------------------------------------------------------
  // Event waiter

  /** An SDK event and the milliseconds after registration at which it arrives. */
  datatype Event = Event(atMs: nat, kind: string)

  const TimeoutMs: nat := 90_000

  /** The kinds that resolve the waiter; they are not matched against any payment. */
  predicate Confirms(e: Event) {
    e.kind == "PaymentSucceeded" || e.kind == "synced"
  }

  datatype WaitOutcome = Confirmed | TimedOut

  /** The first of listener-or-timer to fire wins; `resolved` ignores the rest.
      `events` is the listener's calls in the order they happen, so their `atMs`
      never decrease: the first event at or past the timeout marks the point where
      the timer has already fired. When the event stream ends before a confirming
      event, the timer fires. */
  function Settle(events: seq<Event>): (r: WaitOutcome)
    ensures events == [] ==> r == TimedOut
  {
    if events == [] then TimedOut
    else if events[0].atMs >= TimeoutMs then TimedOut
    else if Confirms(events[0]) then Confirmed
    else Settle(events[1..])
  }

  /** Event `i` is a confirmation that beats the timer. */
  predicate ConfirmsInTime(events: seq<Event>, i: nat)
    requires i < |events|
  {
    Confirms(events[i]) && forall j :: 0 <= j <= i ==> events[j].atMs < TimeoutMs
  }

  lemma {:induction false} SettleConfirmedIff(events: seq<Event>)
    ensures Settle(events) == Confirmed <==> exists i :: 0 <= i < |events| && ConfirmsInTime(events, i)
    decreases |events|
  {
    if events == [] {
    } else if events[0].atMs >= TimeoutMs {
      forall i | 0 <= i < |events|
        ensures !ConfirmsInTime(events, i)
      {
        assert events[0].atMs >= TimeoutMs;
      }
    } else if Confirms(events[0]) {
      assert ConfirmsInTime(events, 0);
    } else {
      var rest := events[1..];
      SettleConfirmedIff(rest);
      if Settle(events) == Confirmed {
        var i :| 0 <= i < |rest| && ConfirmsInTime(rest, i);
        assert ConfirmsInTime(events, i + 1) by {
          forall j | 0 <= j <= i + 1
            ensures events[j].atMs < TimeoutMs
          {
            if j > 0 { assert events[j] == rest[j - 1]; }
          }
        }
      }
      if exists i :: 0 <= i < |events| && ConfirmsInTime(events, i) {
        var i :| 0 <= i < |events| && ConfirmsInTime(events, i);
        assert i > 0;
        assert ConfirmsInTime(rest, i - 1) by {
          forall j | 0 <= j <= i - 1
            ensures rest[j].atMs < TimeoutMs
          {
            assert rest[j] == events[j + 1];
          }
        }
      }
    }
  }

  /** Settling happens at most once: whatever arrives after the deciding event changes nothing. */
  lemma {:induction false} LaterEventsIgnored(events: seq<Event>, later: seq<Event>)
    requires exists i :: 0 <= i < |events| && (events[i].atMs >= TimeoutMs || Confirms(events[i]))
    ensures Settle(events + later) == Settle(events)
    decreases |events|
  {
    var all := events + later;
    assert all[0] == events[0];
    if events[0].atMs < TimeoutMs && !Confirms(events[0]) {
      var i :| 0 <= i < |events| && (events[i].atMs >= TimeoutMs || Confirms(events[i]));
      assert i > 0;
      assert events[1..][i - 1] == events[i];
      assert all[1..] == events[1..] + later;
      LaterEventsIgnored(events[1..], later);
    }
  }

  datatype WaiterResult = WaiterUndefined | WaiterConnectThrew | WaiterRejected | Waited(outcome: WaitOutcome)

  /** The event-driven `waitForLightningConfirmation(phrase)`: `registered` is false
      when `addEventListener` threw, which rejects the promise. */
  function WaitForEventConfirmation(access: SdkAccess, registered: bool, events: seq<Event>): (r: WaiterResult)
    ensures r == Waited(Confirmed) <==> access.Connected? && registered && Settle(events) == Confirmed
    ensures access.Connected? && registered ==> r.Waited?
    ensures access.NotConnected? <==> r == WaiterUndefined
    ensures access.ConnectFailed? ==> r == WaiterConnectThrew
    ensures access.Connected? && !registered ==> r == WaiterRejected
  {
    match access
    case ConnectFailed => WaiterConnectThrew
    case NotConnected => WaiterUndefined
    case Connected(_) => if registered then Waited(Settle(events)) else WaiterRejected
  }

  /** Any confirming event in time resolves the waiter, even one for another payment. */
  lemma SyncedEventConfirms(h: Handle, t: nat)
    requires t < TimeoutMs
    ensures WaitForEventConfirmation(Connected(h), true, [Event(t, "synced")]) == Waited(Confirmed)
  {
  }

  /** A confirmation arriving at 90 seconds or later loses to the timer. */
  lemma LateConfirmationIsPending(h: Handle, t: nat)
    requires t >= TimeoutMs
    ensures WaitForEventConfirmation(Connected(h), true, [Event(t, "PaymentSucceeded")]) == Waited(TimedOut)
  {
  }
}
