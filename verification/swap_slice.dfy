/** The "0x-swap" Redux slice (background/redux-slices/0x-swap.ts): the swap
    state, the five actions of its reducer, and its two selectors. */
module SwapSlice {
  import opened Wrappers
  import opened SwapUrl

  /** An indicative price, as far as the slice and its thunks read it. */
  datatype ZrxPrice = ZrxPrice(
    sellTokenAddress: string,
    buyTokenAddress: string,
    sellAmount: nat,
    buyAmount: nat,
    allowanceTarget: string)

  /** A firm quote: a price plus the transaction that fills it. */
  datatype ZrxQuote = ZrxQuote(
    price: ZrxPrice,
    to: string,
    data: string,
    value: nat,
    gas: nat,
    gasPrice: nat,
    chainId: nat)

  datatype SwapState = SwapState(
    latestQuoteRequest: Option<SwapQuoteRequest>,
    finalQuote: Option<ZrxQuote>,
    inProgressApprovalContract: Option<string>)

  /** `initialState`: nothing requested, quoted or being approved. */
  const InitialState: SwapState := SwapState(None, None, None)

  /** The actions the slice's reducers handle, with their payloads. */
  datatype SwapAction =
    | SetFinalSwapQuote(finalQuote: ZrxQuote)
    | SetLatestQuoteRequest(quoteRequest: SwapQuoteRequest)
    | SetInProgressApprovalContract(approvingContractAddress: string)
    | ClearInProgressApprovalContract
    | ClearSwapQuote

  /** The slice reducer: each case returns `{ ...state, <its fields> }`. */
  function SwapReducer(state: SwapState, action: SwapAction): (r: SwapState)
    ensures forall f :: f !in Writes(action) ==> SameField(r, state, f)
  {
    match action
    case SetFinalSwapQuote(quote) => state.(finalQuote := Some(quote))
    case SetLatestQuoteRequest(request) => state.(latestQuoteRequest := Some(request))
    case SetInProgressApprovalContract(address) => state.(inProgressApprovalContract := Some(address))
    case ClearInProgressApprovalContract => state.(inProgressApprovalContract := None)
    case ClearSwapQuote => state.(finalQuote := None, latestQuoteRequest := None)
  }

  datatype SwapField = LatestQuoteRequestField | FinalQuoteField | InProgressApprovalContractField

  /** The fields each action is declared to touch. */
  function Writes(action: SwapAction): set<SwapField> {
    match action
    case SetFinalSwapQuote(_) => {FinalQuoteField}
    case SetLatestQuoteRequest(_) => {LatestQuoteRequestField}
    case SetInProgressApprovalContract(_) => {InProgressApprovalContractField}
    case ClearInProgressApprovalContract => {InProgressApprovalContractField}
    case ClearSwapQuote => {FinalQuoteField, LatestQuoteRequestField}
  }

  /** `s` and `t` agree on field `f`. */
  predicate SameField(s: SwapState, t: SwapState, f: SwapField) {
    match f
    case LatestQuoteRequestField => s.latestQuoteRequest == t.latestQuoteRequest
    case FinalQuoteField => s.finalQuote == t.finalQuote
    case InProgressApprovalContractField => s.inProgressApprovalContract == t.inProgressApprovalContract
  }

  /** Each action leaves every field outside its own untouched, and sets its
      own fields to values that do not depend on the state it started from. */
  lemma ReducerFrame(s: SwapState, t: SwapState, action: SwapAction, f: SwapField)
    ensures f !in Writes(action) ==> SameField(SwapReducer(s, action), s, f)
    ensures f in Writes(action) ==> SameField(SwapReducer(s, action), SwapReducer(t, action), f)
  {
  }

  /** What each action stores: a setter its payload, a clear nothing;
      `clearSwapQuote` clears the quote and the request but keeps the approval
      marker. */
  lemma ReducerEffects(s: SwapState, quote: ZrxQuote, request: SwapQuoteRequest, address: string)
    ensures SwapReducer(s, SetFinalSwapQuote(quote)).finalQuote == Some(quote)
    ensures SwapReducer(s, SetLatestQuoteRequest(request)).latestQuoteRequest == Some(request)
    ensures SwapReducer(s, SetInProgressApprovalContract(address)).inProgressApprovalContract == Some(address)
    ensures SwapReducer(s, ClearInProgressApprovalContract).inProgressApprovalContract == None
    ensures SwapReducer(s, ClearSwapQuote)
         == SwapState(None, None, s.inProgressApprovalContract)
  {
  }

  /** Dispatching the same action twice is the same as dispatching it once. */
  lemma ReducerIdempotent(s: SwapState, action: SwapAction)
    ensures SwapReducer(SwapReducer(s, action), action) == SwapReducer(s, action)
  {
  }

  /** Actions on different fields commute. */
  lemma ReducersCommute(s: SwapState, a: SwapAction, b: SwapAction)
    requires Writes(a) !! Writes(b)
    ensures SwapReducer(SwapReducer(s, a), b) == SwapReducer(SwapReducer(s, b), a)
  {
  }

  /** The state after dispatching `actions` in order. */
  function Replay(s: SwapState, actions: seq<SwapAction>): SwapState {
    if actions == [] then s
    else SwapReducer(Replay(s, actions[..|actions| - 1]), actions[|actions| - 1])
  }

  /** After a run of actions, a field that none of them touches is as it was. */
  lemma {:induction false} ReplayUntouched(s: SwapState, actions: seq<SwapAction>, f: SwapField)
    requires forall j :: 0 <= j < |actions| ==> f !in Writes(actions[j])
    ensures SameField(Replay(s, actions), s, f)
  {
    if actions != [] {
      var last := |actions| - 1;
      ReplayUntouched(s, actions[..last], f);
      ReducerFrame(Replay(s, actions[..last]), s, actions[last], f);
    }
  }

  /** After a run of actions, a field holds what the last action touching it
      stored there. */
  lemma {:induction false} ReplayLastWriter(s: SwapState, actions: seq<SwapAction>, i: nat, f: SwapField)
    requires i < |actions| && f in Writes(actions[i])
    requires forall j :: i < j < |actions| ==> f !in Writes(actions[j])
    ensures SameField(Replay(s, actions), SwapReducer(s, actions[i]), f)
  {
    var last := |actions| - 1;
    if i == last {
      ReducerFrame(Replay(s, actions[..last]), s, actions[last], f);
    } else {
      ReplayLastWriter(s, actions[..last], i, f);
      ReducerFrame(Replay(s, actions[..last]), s, actions[last], f);
    }
  }

  /** The store as the selectors see it. */
  datatype RootState = RootState(swap: SwapState)

  function SelectLatestQuoteRequest(root: RootState): Option<SwapQuoteRequest> {
    root.swap.latestQuoteRequest
  }

  function SelectInProgressApprovalContract(root: RootState): Option<string> {
    root.swap.inProgressApprovalContract
  }

  /** The selectors read back what the matching actions stored, and nothing
      else moves them. */
  lemma SelectorsTrackActions(s: SwapState, action: SwapAction)
    ensures SelectLatestQuoteRequest(RootState(SwapReducer(s, action)))
         == match action
            case SetLatestQuoteRequest(request) => Some(request)
            case ClearSwapQuote => None
            case _ => SelectLatestQuoteRequest(RootState(s))
    ensures SelectInProgressApprovalContract(RootState(SwapReducer(s, action)))
         == match action
            case SetInProgressApprovalContract(address) => Some(address)
            case ClearInProgressApprovalContract => None
            case _ => SelectInProgressApprovalContract(RootState(s))
  {
  }
}
