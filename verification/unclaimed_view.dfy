/** The Lightning claims list (`BtcLightningUnclaimedData`): per-row approve,
    reject-then-refund with an address check, and what each row shows. The
    component state is an explicit record; chain calls and the address check
    are inputs. */
module UnclaimedView {
  import opened Wrappers
  import opened Text

  datatype ViewState = ViewState(
    activeRejectIndex: Option<nat>,
    destination: string,
    validationError: bool,
    loadingIndex: Option<nat>)

  const Idle := ViewState(None, "", false, None)

  /** A deposit row as the list holds it. */
  datatype Claim = Claim(txid: string, vout: int, amount: string)

  /** What a handler asked of the chain, and whether it closed the modal. */
  datatype ChainCall = Approve(txid: string, vout: int) | Refund(txid: string, vout: int, destination: string)
  datatype Step = Step(state: ViewState, call: Option<ChainCall>, hideModal: bool)

  /** How the chain step went: `BitcoinLightningChain(...)` rejected before any call
      was made, or the call was made and answered (truthy or not) or threw. */
  datatype ChainOutcome = ChainFailed | Called(answer: Result<bool>)

  /** `handleApprove(item, index)`: the approve call is made once the chain is built,
      and only a truthy answer closes the modal; every path clears the spinner. */
  function HandleApprove(s: ViewState, item: Claim, outcome: ChainOutcome): (r: Step)
    ensures r.call.Some? <==> outcome.Called?
    ensures r.call.Some? ==> r.call.value == Approve(item.txid, item.vout)
    ensures r.hideModal <==> outcome == Called(Ok(true))
    ensures r.state == s.(loadingIndex := None)
  {
    match outcome
    case ChainFailed => Step(s.(loadingIndex := None), None, false)
    case Called(answer) => Step(s.(loadingIndex := None), Some(Approve(item.txid, item.vout)), answer == Ok(true))
  }

  /** `handleReject(index)` opens the refund form of that row. */
  function HandleReject(s: ViewState, index: nat): (r: ViewState)
    ensures r.activeRejectIndex == Some(index)
    ensures r.destination == s.destination && r.validationError == s.validationError && r.loadingIndex == s.loadingIndex
  {
    s.(activeRejectIndex := Some(index))
  }

  /** `handleCancel()` */
  function HandleCancel(s: ViewState): (r: ViewState)
    ensures r.activeRejectIndex.None? && r.destination == "" && !r.validationError
    ensures r.loadingIndex == s.loadingIndex
  {
    s.(activeRejectIndex := None, destination := "", validationError := false)
  }

  /** `handleRefund(item, index)`; `addressValid` is the Bitcoin address check of
      the typed destination, made before the chain is built. */
  function HandleRefund(s: ViewState, item: Claim, addressValid: bool, outcome: ChainOutcome): (r: Step)
    ensures !addressValid ==> r == Step(s.(validationError := true, loadingIndex := None), None, false)
    ensures r.call.Some? <==> addressValid && outcome.Called?
    ensures r.call.Some? ==> r.call.value == Refund(item.txid, item.vout, s.destination)
    ensures addressValid ==> !r.state.validationError
    ensures r.hideModal <==> addressValid && outcome == Called(Ok(true))
    ensures r.state.loadingIndex.None?
    ensures r.state.activeRejectIndex == s.activeRejectIndex && r.state.destination == s.destination
  {
    if !addressValid then Step(s.(validationError := true, loadingIndex := None), None, false)
    else match outcome
      case ChainFailed => Step(s.(validationError := false, loadingIndex := None), None, false)
      case Called(answer) =>
        Step(s.(validationError := false, loadingIndex := None), Some(Refund(item.txid, item.vout, s.destination)),
             answer == Ok(true))
  }

  /** A rejected address is kept for correction; a cancel then clears the whole form. */
  lemma InvalidThenCancel(s: ViewState, item: Claim, outcome: ChainOutcome)
    ensures var bad := HandleRefund(s, item, false, outcome);
            bad.state.validationError && bad.state.destination == s.destination
            && HandleCancel(bad.state) == Idle.(loadingIndex := None)
  {
  }

  /** `txid.slice(0, 6) + '...' + txid.slice(-6)`: the head, an ellipsis, the tail. */
  function ShortTx(txid: string): (r: string)
    ensures |r| == |Take(txid, 6)| + 3 + |TakeLast(txid, 6)|
    ensures r[..|Take(txid, 6)|] == Take(txid, 6)
    ensures r[|Take(txid, 6)|..|Take(txid, 6)| + 3] == "..."
    ensures r[|Take(txid, 6)| + 3..] == TakeLast(txid, 6)
  {
    Take(txid, 6) + "..." + TakeLast(txid, 6)
  }

  /** For a txid of six characters or more: its first six, "...", its last six. */
  lemma ShortTxShowsEnds(txid: string)
    requires |txid| >= 6
    ensures |ShortTx(txid)| == 15
    ensures ShortTx(txid)[..6] == txid[..6]
    ensures ShortTx(txid)[6..9] == "..."
    ensures ShortTx(txid)[9..] == txid[|txid| - 6..]
  {
  }

  /** A txid shorter than seven characters shows its head and tail overlapping. */
  lemma ShortTxExample()
    ensures ShortTx("abc") == "abc...abc"
    ensures ShortTx("0123456789abcdef") == "012345...abcdef"
  {
    assert Take("abc", 6) == "abc" && TakeLast("abc", 6) == "abc";
    var long := "0123456789abcdef";
    assert Take(long, 6) == long[..6] == "012345";
    assert TakeLast(long, 6) == long[10..] == "abcdef";
  }

  datatype Header = Header(count: nat, caption: string)

  /** `unClaimedData?.length || 0` and its label. */
  function CountHeader(length: Option<nat>): (r: Header)
    ensures r.count == length.GetOr(0)
    ensures r.caption == "Claim" <==> length == Some(1)
    ensures r.caption == "Claim" || r.caption == "Claims"
  {
    Header(length.GetOr(0), if length == Some(1) then "Claim" else "Claims")
  }

  datatype Row = Loading | Card(showInput: bool, showActions: bool, showAddressError: bool)

  /** Row `index`: the loading card while it is busy, else its refund form or its buttons. */
  function RowView(s: ViewState, index: nat): (r: Row)
    ensures r == Loading <==> s.loadingIndex == Some(index)
    ensures r.Card? ==> (r.showInput <==> s.activeRejectIndex == Some(index)) && r.showActions == !r.showInput
    ensures r.Card? ==> (r.showAddressError <==> r.showInput && s.validationError)
  {
    if s.loadingIndex == Some(index) then Loading
    else
      var showInput := s.activeRejectIndex == Some(index);
      Card(showInput, !showInput, showInput && s.validationError)
  }

  /** At most one row shows the refund form. */
  lemma OneFormAtATime(s: ViewState, i: nat, j: nat)
    requires i != j
    ensures !(RowView(s, i).Card? && RowView(s, i).showInput && RowView(s, j).Card? && RowView(s, j).showInput)
  {
  }
}
