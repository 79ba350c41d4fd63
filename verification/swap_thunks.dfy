/** The four thunks of the "0x-swap" slice (background/redux-slices/0x-swap.ts).
    A `SwapStore` holds the slice state together with the trace of everything
    the thunks did: the actions they dispatched and the calls they made to the
    0x API, to token contracts and to the signer. What those calls answer
    (the validated API response, the current allowance, how far an approval
    got) comes in as parameters. */
module SwapThunks {
  import opened Wrappers
  import opened SearchParams
  import opened JsText
  import opened SwapUrl
  import opened SwapSlice

  /** `ethers.constants.AddressZero`: the allowance target 0x reports when
      the sell asset is ETH. */
  const ZERO_ADDRESS: string := "0x0000000000000000000000000000000000000000"

  /** `ethers.constants.MaxUint256`, the amount an approval grants. */
  const MAX_UINT256: nat := 0xFFFF_FFFF_FFFF_FFFF_FFFF_FFFF_FFFF_FFFF_FFFF_FFFF_FFFF_FFFF_FFFF_FFFF_FFFF_FFFF

  /** The transaction `executeSwap` hands to the signer (a type-1 transaction). */
  datatype SwapTransaction = SwapTransaction(
    chainId: nat, data: string, gasLimit: nat, gasPrice: nat,
    to: string, value: nat, txType: nat)

  /** Everything a thunk does that leaves the thunk. */
  datatype Event =
    | Dispatched(action: SwapAction)
    | FetchedJson(url: Url, headers: map<string, string>)
    | QueriedAllowance(token: string, owner: string, spender: string)
    | SentApproval(token: string, spender: string, amount: nat)
    | AwaitedMining
    | SentTransaction(transaction: SwapTransaction)

  /** How far an approval got before it stopped: building the `approve` call
      failed, sending it failed, waiting for it failed, or it was mined. */
  datatype ApprovalOutcome = PopulateFailed | SendFailed | MiningFailed | Mined

  /** What `fetchSwapPrice` returns when the response validates. */
  datatype PriceResult = PriceResult(quote: ZrxPrice, needsApproval: bool)

  /** Why a thunk rejects: its URL could not be built, the allowance call
      rejected, or the signer rejected the swap transaction. */
  datatype ThunkError =
    | UrlError(error: SwapError)
    | AllowanceRejected
    | TransactionRejected

  /** `gatedHeaders`: the API key header, sent exactly when a usable key
      exists. */
  function GatedHeaders(env: BuildEnv): (r: map<string, string>)
    ensures "0x-api-key" in r <==> env.apiKey.Some? && !IsBlank(env.apiKey.value)
    ensures forall h :: h in r ==> h == "0x-api-key" && r[h] == env.apiKey.value
  {
    if env.apiKey.Some? then
      TrimEmptyIffBlank(env.apiKey.value);
      if HasApiKey(env) then map["0x-api-key" := env.apiKey.value] else map[]
    else map[]
  }

  /** The key header goes out exactly when the request goes to the gated
      host. */
  lemma GatedHeadersMatchHost(network: EVMNetwork, env: BuildEnv)
    requires network.chainID == "1" || network.chainID == "137"
    ensures Get0xApiBase(network, env).Success?
    ensures var host := Get0xApiBase(network, env).value;
      |host| > 6 && ("0x-api-key" in GatedHeaders(env) <==> host[..6] == "gated.")
  {
    var base := ChainIdTo0xApiBase(network.chainID).value;
    assert base[..6] != "gated." by {
      assert base[0] != "gated."[0];
    }
    if HasApiKey(env) {
      assert ("gated." + base)[..6] == "gated.";
    } else {
      assert "" + base == base;
    }
  }

  /** The actions dispatched in a trace, in order. */
  function Dispatches(trace: seq<Event>): seq<SwapAction> {
    if trace == [] then []
    else
      var last := trace[|trace| - 1];
      Dispatches(trace[..|trace| - 1]) + (if last.Dispatched? then [last.action] else [])
  }

  lemma {:induction false} DispatchesAppend(a: seq<Event>, b: seq<Event>)
    ensures Dispatches(a + b) == Dispatches(a) + Dispatches(b)
    decreases |b|
  {
    if b == [] {
      assert a + b == a;
    } else {
      var last := |b| - 1;
      assert (a + b)[..|a + b| - 1] == a + b[..last];
      DispatchesAppend(a, b[..last]);
    }
  }

  /** A trace of outside calls dispatches nothing. */
  lemma {:induction false} DispatchesNone(trace: seq<Event>)
    requires forall i :: 0 <= i < |trace| ==> !trace[i].Dispatched?
    ensures Dispatches(trace) == []
  {
    if trace != [] {
      DispatchesNone(trace[..|trace| - 1]);
    }
  }

  lemma DispatchesOne(e: Event)
    ensures Dispatches([e]) == if e.Dispatched? then [e.action] else []
  {
    assert [e][..0] == [];
  }

  lemma Regroup(a: seq<Event>, b: seq<Event>, c: seq<Event>, d: seq<Event>)
    ensures a + b + c + d == a + (b + c + d)
  {
  }

  /** The extra query parameters each request adds. */
  function QuoteAdditional(takerAddress: string): seq<Param> {
    [("intentOnFilling", "true"), ("takerAddress", takerAddress)]
  }

  function PriceAdditional(takerAddress: string): seq<Param> {
    [("takerAddress", takerAddress)]
  }

  /** What `fetchSwapQuote` does once its URL is built: fetch it, and store
      the quote if the response validates. */
  function QuoteEvents(url: Url, headers: map<string, string>, response: Option<ZrxQuote>): seq<Event> {
    [FetchedJson(url, headers)]
      + (if response.Some? then [Dispatched(SetFinalSwapQuote(response.value))] else [])
  }

  /** The quote fetch dispatches the quote only when it validates, and then
      the stored quote is that response; nothing else in the state moves. */
  lemma QuoteEventsDispatch(s: SwapState, url: Url, headers: map<string, string>, response: Option<ZrxQuote>)
    ensures Dispatches(QuoteEvents(url, headers, response))
         == if response.Some? then [SetFinalSwapQuote(response.value)] else []
    ensures Replay(s, Dispatches(QuoteEvents(url, headers, response)))
         == if response.Some? then s.(finalQuote := response) else s
  {
    DispatchesOne(FetchedJson(url, headers));
    if response.Some? {
      DispatchesOne(Dispatched(SetFinalSwapQuote(response.value)));
      DispatchesAppend([FetchedJson(url, headers)], [Dispatched(SetFinalSwapQuote(response.value))]);
    } else {
      assert QuoteEvents(url, headers, response) == [FetchedJson(url, headers)];
    }
  }

  /** Whether the price calls for an `approve` first: only a non-zero
      allowance target is checked, against the owner's current allowance. */
  function NeedsApproval(price: ZrxPrice, existingAllowance: nat): (r: bool)
    ensures r <==> price.allowanceTarget != ZERO_ADDRESS && existingAllowance < price.sellAmount
  {
    if price.allowanceTarget != ZERO_ADDRESS then existingAllowance < price.sellAmount else false
  }

  /** Whether `fetchSwapPrice` gets as far as remembering the request: the
      response validates, and the allowance call, when one is made, answers.
      `allowance` is that answer, None when the call rejected. */
  predicate PriceRecorded(response: Option<ZrxPrice>, allowance: Option<nat>) {
    response.Some? && (response.value.allowanceTarget == ZERO_ADDRESS || allowance.Some?)
  }

  /** What `fetchSwapPrice` does with a response that validates: look up
      the allowance unless the target is the zero address, then remember the
      request unless that lookup rejected. */
  function ValidPriceEvents(request: SwapQuoteRequest, takerAddress: string, price: ZrxPrice,
                            allowance: Option<nat>): seq<Event>
  {
    (if price.allowanceTarget != ZERO_ADDRESS
     then [QueriedAllowance(price.sellTokenAddress, takerAddress, price.allowanceTarget)]
     else [])
    + (if PriceRecorded(Some(price), allowance) then [Dispatched(SetLatestQuoteRequest(request))] else [])
  }

  /** What `fetchSwapPrice` does once its URL is built: fetch it and, if the
      response validates, go on as `ValidPriceEvents` says. */
  function PriceEvents(url: Url, headers: map<string, string>, request: SwapQuoteRequest,
                       takerAddress: string, response: Option<ZrxPrice>, allowance: Option<nat>): seq<Event>
  {
    [FetchedJson(url, headers)]
      + if response.None? then [] else ValidPriceEvents(request, takerAddress, response.value, allowance)
  }

  /** The price fetch dispatches only the request, and only when the
      response validates and no allowance call rejected; the allowance is
      asked for exactly when the response validates and the target is not the
      zero address. */
  lemma PriceEventsDispatch(s: SwapState, url: Url, headers: map<string, string>, request: SwapQuoteRequest,
                            takerAddress: string, response: Option<ZrxPrice>, allowance: Option<nat>)
    ensures Dispatches(PriceEvents(url, headers, request, takerAddress, response, allowance))
         == if PriceRecorded(response, allowance) then [SetLatestQuoteRequest(request)] else []
    ensures Replay(s, Dispatches(PriceEvents(url, headers, request, takerAddress, response, allowance)))
         == if PriceRecorded(response, allowance) then s.(latestQuoteRequest := Some(request)) else s
    ensures (exists e :: e in PriceEvents(url, headers, request, takerAddress, response, allowance) && e.QueriedAllowance?)
        <==> response.Some? && response.value.allowanceTarget != ZERO_ADDRESS
  {
    var events := PriceEvents(url, headers, request, takerAddress, response, allowance);
    var fetch := [FetchedJson(url, headers)];
    if response.None? {
      assert events == fetch;
      DispatchesOne(fetch[0]);
    } else {
      var price := response.value;
      var query := if price.allowanceTarget != ZERO_ADDRESS
        then [QueriedAllowance(price.sellTokenAddress, takerAddress, price.allowanceTarget)]
        else [];
      var last := if PriceRecorded(response, allowance) then [Dispatched(SetLatestQuoteRequest(request))] else [];
      assert events == (fetch + query) + last;
      assert Dispatches(events) == Dispatches(last) by {
        DispatchesNone(fetch + query);
        DispatchesAppend(fetch + query, last);
      }
      if last != [] {
        DispatchesOne(last[0]);
      }
      assert forall e :: e in events ==> e in fetch || e in query || e in last;
      if price.allowanceTarget != ZERO_ADDRESS {
        assert events[1].QueriedAllowance?;
      }
    }
  }

  /** The calls an approval makes before it stops. */
  function ApprovalCalls(token: string, spender: string, outcome: ApprovalOutcome): seq<Event> {
    match outcome
    case PopulateFailed => []
    case SendFailed => [SentApproval(token, spender, MAX_UINT256)]
    case MiningFailed => [SentApproval(token, spender, MAX_UINT256), AwaitedMining]
    case Mined => [SentApproval(token, spender, MAX_UINT256), AwaitedMining]
  }

  /** The whole of `approveTransfer`: mark, try, and clear the mark in any case. */
  function ApproveTransferEvents(token: string, spender: string, outcome: ApprovalOutcome): seq<Event> {
    [Dispatched(SetInProgressApprovalContract(token))]
      + ApprovalCalls(token, spender, outcome)
      + [Dispatched(ClearInProgressApprovalContract)]
  }

  /** However an approval ends, it dispatches exactly the mark and its
      clearing, so the approval marker is empty afterwards. */
  lemma ApproveTransferBracketed(s: SwapState, token: string, spender: string, outcome: ApprovalOutcome)
    ensures Dispatches(ApproveTransferEvents(token, spender, outcome))
         == [SetInProgressApprovalContract(token), ClearInProgressApprovalContract]
    ensures Replay(s, Dispatches(ApproveTransferEvents(token, spender, outcome))).inProgressApprovalContract == None
  {
    var mark := [Dispatched(SetInProgressApprovalContract(token))];
    var calls := ApprovalCalls(token, spender, outcome);
    var clear := [Dispatched(ClearInProgressApprovalContract)];
    DispatchesOne(mark[0]);
    DispatchesOne(clear[0]);
    DispatchesNone(calls);
    DispatchesAppend(mark, calls);
    DispatchesAppend(mark + calls, clear);
  }

  /** The only approval an approval sends is of `MaxUint256`, to the target,
      for the asset being marked. */
  lemma ApproveTransferInfinite(token: string, spender: string, outcome: ApprovalOutcome)
    ensures forall e :: e in ApproveTransferEvents(token, spender, outcome) && e.SentApproval? ==>
              e == SentApproval(token, spender, MAX_UINT256)
  {
  }

  /** The signer transaction built from a quote. */
  function SwapTransactionOf(quote: ZrxQuote): (t: SwapTransaction)
    ensures t.to == quote.to && t.data == quote.data && t.value == quote.value
    ensures t.gasLimit == quote.gas && t.gasPrice == quote.gasPrice
    ensures t.chainId == quote.chainId && t.txType == 1
  {
    SwapTransaction(quote.chainId, quote.data, quote.gas, quote.gasPrice, quote.to, quote.value, 1)
  }

  /** The whole of `executeSwap`: clear the quote, then send the swap. */
  function ExecuteSwapEvents(quote: ZrxQuote): seq<Event> {
    [Dispatched(ClearSwapQuote), SentTransaction(SwapTransactionOf(quote))]
  }

  /** The swap is sent only after the quote and request are cleared, and the
      approval marker survives it. */
  lemma ExecuteSwapClearsFirst(s: SwapState, quote: ZrxQuote)
    ensures |ExecuteSwapEvents(quote)| == 2
    ensures ExecuteSwapEvents(quote)[0] == Dispatched(ClearSwapQuote)
    ensures ExecuteSwapEvents(quote)[1] == SentTransaction(SwapTransactionOf(quote))
    ensures Dispatches(ExecuteSwapEvents(quote)) == [ClearSwapQuote]
    ensures var after := Replay(s, Dispatches(ExecuteSwapEvents(quote)));
      after.finalQuote == None && after.latestQuoteRequest == None
      && after.inProgressApprovalContract == s.inProgressApprovalContract
  {
    var events := ExecuteSwapEvents(quote);
    DispatchesOne(events[0]);
    DispatchesOne(events[1]);
    DispatchesAppend([events[0]], [events[1]]);
    assert events == [events[0]] + [events[1]];
    assert [ClearSwapQuote][..0] == [];
  }

  class SwapStore {
    var state: SwapState
    var trace: seq<Event>

    /** The state is always what the dispatched actions made of the initial
        state. */
    ghost predicate Valid()
      reads this
    {
      state == Replay(InitialState, Dispatches(trace))
    }

    constructor ()
      ensures Valid() && state == InitialState && trace == []
    {
      state := InitialState;
      trace := [];
    }

    /** `dispatch(action)`: run the reducer and log the action. */
    method Dispatch(action: SwapAction)
      requires Valid()
      modifies this
      ensures Valid()
      ensures state == SwapReducer(old(state), action)
      ensures trace == old(trace) + [Dispatched(action)]
    {
      assert (trace + [Dispatched(action)])[..|trace|] == trace;
      state := SwapReducer(state, action);
      trace := trace + [Dispatched(action)];
    }

    /** A call that leaves the store: logged, and the state does not move. */
    method Call(event: Event)
      requires Valid() && !event.Dispatched?
      modifies this
      ensures Valid()
      ensures state == old(state)
      ensures trace == old(trace) + [event]
    {
      assert (trace + [event])[..|trace|] == trace;
      assert Dispatches(trace + [event]) == Dispatches(trace) + [];
      assert Dispatches(trace) + [] == Dispatches(trace);
      trace := trace + [event];
    }

    /** `fetchSwapQuote`: build the /quote URL (with `intentOnFilling` and the
        taker), fetch it, and store the quote only if it validates. A URL that
        cannot be built fails the thunk before anything is fetched. */
    method FetchSwapQuote(request: SwapQuoteRequest, network: EVMNetwork, env: BuildEnv,
                          takerAddress: string, response: Option<ZrxQuote>)
      returns (r: Result<(), ThunkError>)
      requires Valid()
      modifies this
      ensures Valid()
      ensures match BuildUrl("/quote", request, network, env, QuoteAdditional(takerAddress))
        case Failure(e) => r == Failure(UrlError(e)) && state == old(state) && trace == old(trace)
        case Success(url) =>
          && r == Success(())
          && trace == old(trace) + QuoteEvents(url, GatedHeaders(env), response)
          && state == if response.Some? then old(state).(finalQuote := response) else old(state)
    {
      var built := Build0xUrlFromSwapRequest("/quote", request, network, env, QuoteAdditional(takerAddress));
      if built.Failure? {
        return Failure(UrlError(built.error));
      }
      Call(FetchedJson(built.value, GatedHeaders(env)));
      if response.Some? {
        Dispatch(SetFinalSwapQuote(response.value));
      }
      return Success(());
    }

    /** `fetchSwapPrice`: build the /price URL (with the taker), fetch it and,
        if it validates, look up the allowance when the target is not the
        zero address, remember the request, and report whether an approval is
        needed. `existingAllowance` is what the allowance call answers, None
        when it rejects; the thunk then rejects before remembering anything. */
    method FetchSwapPrice(request: SwapQuoteRequest, network: EVMNetwork, env: BuildEnv,
                          takerAddress: string, response: Option<ZrxPrice>, existingAllowance: Option<nat>)
      returns (r: Result<Option<PriceResult>, ThunkError>)
      requires Valid()
      modifies this
      ensures Valid()
      ensures match BuildUrl("/price", request, network, env, PriceAdditional(takerAddress))
        case Failure(e) => r == Failure(UrlError(e)) && state == old(state) && trace == old(trace)
        case Success(url) =>
          && trace == old(trace) + PriceEvents(url, GatedHeaders(env), request, takerAddress, response, existingAllowance)
          && state == (if PriceRecorded(response, existingAllowance)
                       then old(state).(latestQuoteRequest := Some(request)) else old(state))
          && r == (if response.None? then Success(None)
                   else if !PriceRecorded(response, existingAllowance) then Failure(AllowanceRejected)
                   else Success(Some(PriceResult(response.value,
                                                 NeedsApproval(response.value, existingAllowance.GetOr(0))))))
    {
      var built := Build0xUrlFromSwapRequest("/price", request, network, env, PriceAdditional(takerAddress));
      if built.Failure? {
        return Failure(UrlError(built.error));
      }
      r := ReceivePrice(built.value, GatedHeaders(env), request, takerAddress, response, existingAllowance);
    }

    /** The part of `fetchSwapPrice` from the fetch of a built URL on. */
    method ReceivePrice(url: Url, headers: map<string, string>, request: SwapQuoteRequest,
                        takerAddress: string, response: Option<ZrxPrice>, existingAllowance: Option<nat>)
      returns (r: Result<Option<PriceResult>, ThunkError>)
      requires Valid()
      modifies this
      ensures Valid()
      ensures trace == old(trace) + PriceEvents(url, headers, request, takerAddress, response, existingAllowance)
      ensures state == (if PriceRecorded(response, existingAllowance)
                        then old(state).(latestQuoteRequest := Some(request)) else old(state))
      ensures r == if response.None? then Success(None)
                   else if !PriceRecorded(response, existingAllowance) then Failure(AllowanceRejected)
                   else Success(Some(PriceResult(response.value,
                                                 NeedsApproval(response.value, existingAllowance.GetOr(0)))))
    {
      ghost var t0 := trace;
      ghost var fetch := [FetchedJson(url, headers)];
      Call(FetchedJson(url, headers));
      assert trace == t0 + fetch;
      if response.None? {
        assert PriceEvents(url, headers, request, takerAddress, response, existingAllowance) == fetch;
        return Success(None);
      }
      ghost var rest := ValidPriceEvents(request, takerAddress, response.value, existingAllowance);
      r := RecordPrice(request, takerAddress, response.value, existingAllowance);
      assert trace == (t0 + fetch) + rest;
      assert PriceEvents(url, headers, request, takerAddress, response, existingAllowance) == fetch + rest;
      assert (t0 + fetch) + rest == t0 + (fetch + rest);
    }

    /** The part of `fetchSwapPrice` after a response validated: the
        allowance lookup, when there is one, and the recording of the request. */
    method RecordPrice(request: SwapQuoteRequest, takerAddress: string, price: ZrxPrice,
                       existingAllowance: Option<nat>)
      returns (r: Result<Option<PriceResult>, ThunkError>)
      requires Valid()
      modifies this
      ensures Valid()
      ensures trace == old(trace) + ValidPriceEvents(request, takerAddress, price, existingAllowance)
      ensures state == (if PriceRecorded(Some(price), existingAllowance)
                        then old(state).(latestQuoteRequest := Some(request)) else old(state))
      ensures r == if !PriceRecorded(Some(price), existingAllowance) then Failure(AllowanceRejected)
                   else Success(Some(PriceResult(price, NeedsApproval(price, existingAllowance.GetOr(0)))))
    {
      ghost var t0 := trace;
      ghost var query: seq<Event> := [];
      var needsApproval := false;
      if price.allowanceTarget != ZERO_ADDRESS {
        query := [QueriedAllowance(price.sellTokenAddress, takerAddress, price.allowanceTarget)];
        Call(QueriedAllowance(price.sellTokenAddress, takerAddress, price.allowanceTarget));
        if existingAllowance.None? {
          assert ValidPriceEvents(request, takerAddress, price, existingAllowance) == query + [];
          return Failure(AllowanceRejected);
        }
        needsApproval := existingAllowance.value < price.sellAmount;
      }
      assert trace == t0 + query;
      Dispatch(SetLatestQuoteRequest(request));
      assert ValidPriceEvents(request, takerAddress, price, existingAllowance)
          == query + [Dispatched(SetLatestQuoteRequest(request))];
      assert trace == (t0 + query) + [Dispatched(SetLatestQuoteRequest(request))];
      return Success(Some(PriceResult(price, needsApproval)));
    }

    /** `approveTransfer`: mark the asset as being approved, approve the
        target for `MaxUint256` and wait for it to be mined, and clear the mark
        whatever happened. */
    method ApproveTransfer(assetContractAddress: string, approvalTarget: string, outcome: ApprovalOutcome)
      requires Valid()
      modifies this
      ensures Valid()
      ensures state == old(state).(inProgressApprovalContract := None)
      ensures trace == old(trace) + ApproveTransferEvents(assetContractAddress, approvalTarget, outcome)
    {
      ghost var t0 := trace;
      ghost var mark := [Dispatched(SetInProgressApprovalContract(assetContractAddress))];
      ghost var calls := ApprovalCalls(assetContractAddress, approvalTarget, outcome);
      ghost var clear := [Dispatched(ClearInProgressApprovalContract)];
      Dispatch(SetInProgressApprovalContract(assetContractAddress));
      assert trace == t0 + mark;
      TryApproval(assetContractAddress, approvalTarget, outcome);
      assert trace == t0 + mark + calls;
      Dispatch(ClearInProgressApprovalContract);
      assert trace == t0 + mark + calls + clear;
      Regroup(t0, mark, calls, clear);
    }

    /** The `try` block of `approveTransfer`: send the approval and wait for
        it, as far as `outcome` says it got. */
    method TryApproval(assetContractAddress: string, approvalTarget: string, outcome: ApprovalOutcome)
      requires Valid()
      modifies this
      ensures Valid()
      ensures state == old(state)
      ensures trace == old(trace) + ApprovalCalls(assetContractAddress, approvalTarget, outcome)
    {
      if outcome != PopulateFailed {
        Call(SentApproval(assetContractAddress, approvalTarget, MAX_UINT256));
        if outcome != SendFailed {
          Call(AwaitedMining);
        }
      }
    }

    /** `executeSwap`: clear the quote first, then hand the quote's
        transaction to the signer; `sendAccepted` says whether the signer
        took it, and when it did not the thunk rejects with the quote
        already cleared. */
    method ExecuteSwap(quote: ZrxQuote, sendAccepted: bool) returns (r: Result<(), ThunkError>)
      requires Valid()
      modifies this
      ensures Valid()
      ensures state == old(state).(finalQuote := None, latestQuoteRequest := None)
      ensures trace == old(trace) + ExecuteSwapEvents(quote)
      ensures r.Failure? <==> !sendAccepted
      ensures r.Failure? ==> r.error == TransactionRejected
    {
      Dispatch(ClearSwapQuote);
      Call(SentTransaction(SwapTransactionOf(quote)));
      if !sendAccepted {
        return Failure(TransactionRejected);
      }
      return Success(());
    }
  }
}
