/** Building the request to the 0x swap API (background/redux-slices/0x-swap.ts):
    the API host for a chain, and the query that a swap quote request becomes. */
module SwapUrl {
  import opened Wrappers
  import opened JsText
  import opened Decimal
  import opened SearchParams

  /** A fungible asset; `contractAddress` is present for smart-contract assets
      and absent for a chain's native asset. */
  datatype Asset = Asset(symbol: string, decimals: nat, contractAddress: Option<string>)

  /** Exactly one side of the trade is fixed, as a decimal string. */
  datatype SwapAmount = SellAmount(sellAmount: string) | BuyAmount(buyAmount: string)

  /** `slippageTolerance` is a JavaScript number; it is kept as the text its
      `toString()` gives, which is all the query uses. */
  datatype SwapQuoteRequest = SwapQuoteRequest(
    sellAsset: Asset,
    buyAsset: Asset,
    amount: SwapAmount,
    slippageTolerance: string,
    gasPrice: nat)

  datatype EVMNetwork = EVMNetwork(name: string, chainID: string)

  /** What the builder reads from outside its arguments: the `ZEROX_API_KEY`
      build variable (None when undefined) and `COMMUNITY_MULTISIG_ADDRESS`. */
  datatype BuildEnv = BuildEnv(apiKey: Option<string>, communityMultisigAddress: string)

  datatype SwapError =
    | UnsupportedNetwork(networkName: string)
    | InvalidAmount(amount: string, decimals: nat)

  /** The request URL: host, path and query; the scheme is always https. */
  datatype Url = Url(host: string, pathname: string, searchParams: seq<Param>)

  /** `SWAP_FEE` as its `toString()` renders it. */
  const SWAP_FEE: string := "0.005"

  const FEE_PARAMETERS: set<string> := {"buyTokenPercentageFee", "feeRecipient"}

  function ChainIdTo0xApiBase(chainID: string): (r: Option<string>)
    ensures r.Some? <==> chainID == "1" || chainID == "137"
  {
    if chainID == "1" then Some("api.0x.org")
    else if chainID == "137" then Some("polygon.api.0x.org")
    else None
  }

  /** The build has an API key: defined, and not empty after trimming. */
  predicate HasApiKey(env: BuildEnv) {
    env.apiKey.Some? && Trim(env.apiKey.value) != ""
  }

  /** `get0xApiBase`: the host for the network's chain, with the "gated." prefix
      when an API key is available; an unknown chain is an error. */
  function Get0xApiBase(network: EVMNetwork, env: BuildEnv): (r: Result<string, SwapError>)
    ensures r.Failure? <==> network.chainID != "1" && network.chainID != "137"
    ensures r.Failure? ==> r.error == UnsupportedNetwork(network.name)
  {
    var prefix := if HasApiKey(env) then "gated." else "";
    match ChainIdTo0xApiBase(network.chainID)
    case None => Failure(UnsupportedNetwork(network.name))
    case Some(base) => Success(prefix + base)
  }

  /** The hosts: api.0x.org for chain "1", polygon.api.0x.org for chain "137",
      each with "gated." in front exactly when the key has a character that is
      not white space. */
  lemma Get0xApiBaseHosts(network: EVMNetwork, env: BuildEnv)
    ensures var gated := env.apiKey.Some? && !IsBlank(env.apiKey.value);
      && (network.chainID == "1" ==>
            Get0xApiBase(network, env) == Success(if gated then "gated.api.0x.org" else "api.0x.org"))
      && (network.chainID == "137" ==>
            Get0xApiBase(network, env) == Success(if gated then "gated.polygon.api.0x.org" else "polygon.api.0x.org"))
  {
    if env.apiKey.Some? {
      TrimEmptyIffBlank(env.apiKey.value);
    }
    assert "gated." + "api.0x.org" == "gated.api.0x.org";
    assert "gated." + "polygon.api.0x.org" == "gated.polygon.api.0x.org";
    assert "" + "api.0x.org" == "api.0x.org";
    assert "" + "polygon.api.0x.org" == "polygon.api.0x.org";
  }

  /** Contract address when the asset has one, else its symbol. */
  function TokenIdentifier(asset: Asset): string {
    match asset.contractAddress
    case Some(address) => address
    case None => asset.symbol
  }

  function TradeField(amount: SwapAmount): string {
    if amount.BuyAmount? then "buyAmount" else "sellAmount"
  }

  function AmountText(amount: SwapAmount): string {
    match amount
    case BuyAmount(a) => a
    case SellAmount(a) => a
  }

  /** The decimals of the asset on the side the amount fixes. */
  function TradeDecimals(request: SwapQuoteRequest): nat {
    if request.amount.BuyAmount? then request.buyAsset.decimals else request.sellAsset.decimals
  }

  function GatedParameters(env: BuildEnv): seq<Param> {
    [ ("affiliateAddress", env.communityMultisigAddress),
      ("feeRecipient", env.communityMultisigAddress),
      ("buyTokenPercentageFee", SWAP_FEE) ]
  }

  /** The fields of the object literal, before duplicates are merged. */
  function BaseParameters(request: SwapQuoteRequest, tradeAmount: nat): seq<Param> {
    [ ("sellToken", TokenIdentifier(request.sellAsset)),
      ("buyToken", TokenIdentifier(request.buyAsset)),
      ("gasPrice", NatToDecimal(request.gasPrice)),
      ("slippagePercentage", request.slippageTolerance),
      (TradeField(request.amount), NatToDecimal(tradeAmount)) ]
  }

  function LiteralFields(request: SwapQuoteRequest, tradeAmount: nat, env: BuildEnv,
                         additional: seq<Param>): seq<Param> {
    BaseParameters(request, tradeAmount) + GatedParameters(env) + additional
  }

  /** `Object.entries` of the literal `{ sellToken, ..., ...gatedParameters,
      ...additionalParameters }`: later fields overwrite earlier ones. */
  function QueryEntries(request: SwapQuoteRequest, tradeAmount: nat, env: BuildEnv,
                        additional: seq<Param>): seq<Param> {
    PutAll([], LiteralFields(request, tradeAmount, env, additional))
  }

  /** The parameters the loop skips: both fee parameters when buying "ETH". */
  function SkippedParameters(buyToken: string): set<string> {
    if buyToken == "ETH" then FEE_PARAMETERS else {}
  }

  /** The query of the URL once the trade amount is known. */
  function SearchQuery(request: SwapQuoteRequest, tradeAmount: nat, env: BuildEnv,
                       additional: seq<Param>): seq<Param> {
    Without(QueryEntries(request, tradeAmount, env, additional),
            SkippedParameters(TokenIdentifier(request.buyAsset)))
  }

  /** What `build0xUrlFromSwapRequest` returns, or the error it throws. */
  function BuildUrl(requestPath: string, request: SwapQuoteRequest, network: EVMNetwork,
                    env: BuildEnv, additional: seq<Param>): (r: Result<Url, SwapError>)
    ensures r.Success? ==> UniqueKeys(r.value.searchParams)
  {
    match Get0xApiBase(network, env)
    case Failure(e) => Failure(e)
    case Success(host) =>
      match ParseUnits(AmountText(request.amount), TradeDecimals(request))
      case None => Failure(InvalidAmount(AmountText(request.amount), TradeDecimals(request)))
      case Some(tradeAmount) =>
        Success(Url(host, "/swap/v1" + requestPath, SearchQuery(request, tradeAmount, env, additional)))
  }

  /** `build0xUrlFromSwapRequest`: the host, the trade amount and the token
      identifiers, then a pass over the entries that sets each one on the URL's
      query, skipping the fee parameters when the buy token is "ETH". */
  method Build0xUrlFromSwapRequest(requestPath: string, request: SwapQuoteRequest,
                                   network: EVMNetwork, env: BuildEnv,
                                   additional: seq<Param>)
    returns (r: Result<Url, SwapError>)
    ensures r == BuildUrl(requestPath, request, network, env, additional)
  {
    var base := Get0xApiBase(network, env);
    if base.Failure? {
      return Failure(base.error);
    }
    var tradeAmount := ParseUnits(AmountText(request.amount), TradeDecimals(request));
    if tradeAmount.None? {
      return Failure(InvalidAmount(AmountText(request.amount), TradeDecimals(request)));
    }
    var entries := QueryEntries(request, tradeAmount.value, env, additional);
    var query := SetSearchParams(entries, TokenIdentifier(request.buyAsset));
    return Success(Url(base.value, "/swap/v1" + requestPath, query));
  }

  /** The `forEach` over the entries: each is set on the (initially empty)
      query, except the fee parameters when the buy token is "ETH". */
  method SetSearchParams(entries: seq<Param>, buyToken: string) returns (query: seq<Param>)
    requires UniqueKeys(entries)
    ensures query == Without(entries, SkippedParameters(buyToken))
  {
    ghost var skipped := SkippedParameters(buyToken);
    query := [];
    var i := 0;
    while i < |entries|
      invariant 0 <= i <= |entries|
      invariant query == Without(entries[..i], skipped)
    {
      var (parameter, value) := entries[i];
      QueryStep(entries, i, skipped);
      if buyToken == "ETH" && (parameter == "buyTokenPercentageFee" || parameter == "feeRecipient") {
        // the 0x API refuses a buy-token fee when the buy token is ETH
      } else {
        query := Put(query, parameter, value);
      }
      i := i + 1;
    }
    assert entries[..|entries|] == entries;
  }

  /** The parameter names that share a length still differ. */
  lemma ParameterNamesDistinct()
    ensures "gasPrice" != "buyToken" && "sellToken" != "buyAmount"
  {
    assert "gasPrice"[0] != "buyToken"[0];
    assert "sellToken"[0] != "buyAmount"[0];
  }

  /** One turn of the loop: a parameter not skipped is new to the query, so
      setting it appends it. */
  lemma QueryStep(entries: seq<Param>, i: nat, skipped: set<string>)
    requires UniqueKeys(entries) && i < |entries|
    ensures entries[i].0 in skipped ==> Without(entries[..i + 1], skipped) == Without(entries[..i], skipped)
    ensures entries[i].0 !in skipped ==>
      Without(entries[..i + 1], skipped) == Put(Without(entries[..i], skipped), entries[i].0, entries[i].1)
  {
    UniqueKeysPrefix(entries, i);
    KeysOfPrefix(entries, i);
    WithoutSnoc(entries[..i], entries[i], skipped);
    assert entries[..i + 1] == entries[..i] + [entries[i]];
  }

  lemma BaseParametersFacts(request: SwapQuoteRequest, tradeAmount: nat)
    ensures var base := BaseParameters(request, tradeAmount);
      && UniqueKeys(base)
      && Keys(base) == {"sellToken", "buyToken", "gasPrice", "slippagePercentage", TradeField(request.amount)}
      && Lookup(base, "sellToken") == Some(TokenIdentifier(request.sellAsset))
      && Lookup(base, "buyToken") == Some(TokenIdentifier(request.buyAsset))
      && Lookup(base, "gasPrice") == Some(NatToDecimal(request.gasPrice))
      && Lookup(base, "slippagePercentage") == Some(request.slippageTolerance)
      && Lookup(base, TradeField(request.amount)) == Some(NatToDecimal(tradeAmount))
  {
    ParameterNamesDistinct();
    var base := BaseParameters(request, tradeAmount);
    var t1, t2, t3, t4 := base[1..], base[2..], base[3..], base[4..];
    assert t1[1..] == t2 && t2[1..] == t3 && t3[1..] == t4 && t4[1..] == [];
    assert Keys(t4) == {TradeField(request.amount)};
    assert Keys(t3) == {"slippagePercentage", TradeField(request.amount)};
    assert Keys(t2) == {"gasPrice", "slippagePercentage", TradeField(request.amount)};
    assert Keys(t1) == {"buyToken", "gasPrice", "slippagePercentage", TradeField(request.amount)};
    assert UniqueKeys(t4) && UniqueKeys(t3) && UniqueKeys(t2) && UniqueKeys(t1);
    var field := TradeField(request.amount);
    assert Lookup(t4, field) == Some(NatToDecimal(tradeAmount));
    assert Lookup(t3, field) == Some(NatToDecimal(tradeAmount));
    assert Lookup(t2, field) == Some(NatToDecimal(tradeAmount));
    assert Lookup(t1, field) == Some(NatToDecimal(tradeAmount));
    assert Lookup(t3, "slippagePercentage") == Some(request.slippageTolerance);
    assert Lookup(t2, "slippagePercentage") == Some(request.slippageTolerance);
    assert Lookup(t1, "slippagePercentage") == Some(request.slippageTolerance);
    assert Lookup(t2, "gasPrice") == Some(NatToDecimal(request.gasPrice));
    assert Lookup(t1, "gasPrice") == Some(NatToDecimal(request.gasPrice));
  }

  lemma GatedParametersFacts(env: BuildEnv)
    ensures var gated := GatedParameters(env);
      && UniqueKeys(gated)
      && Keys(gated) == {"affiliateAddress", "feeRecipient", "buyTokenPercentageFee"}
      && Lookup(gated, "affiliateAddress") == Some(env.communityMultisigAddress)
      && Lookup(gated, "feeRecipient") == Some(env.communityMultisigAddress)
      && Lookup(gated, "buyTokenPercentageFee") == Some(SWAP_FEE)
  {
    var gated := GatedParameters(env);
    var t1, t2 := gated[1..], gated[2..];
    assert t1[1..] == t2 && t2[1..] == [];
    assert Keys(t2) == {"buyTokenPercentageFee"};
    assert Keys(t1) == {"feeRecipient", "buyTokenPercentageFee"};
    assert UniqueKeys(t2) && UniqueKeys(t1);
    assert Lookup(t2, "buyTokenPercentageFee") == Some(SWAP_FEE);
    assert Lookup(t1, "buyTokenPercentageFee") == Some(SWAP_FEE);
  }

  /** The value each parameter name should end up with, read off the object
      literal field by field: a caller parameter first, then the gated
      parameters, then the fields built from the request; the fee parameters
      are absent when the buy token is "ETH". */
  function ExpectedParameter(request: SwapQuoteRequest, tradeAmount: nat, env: BuildEnv,
                             additional: seq<Param>, k: string): Option<string> {
    if k in SkippedParameters(TokenIdentifier(request.buyAsset)) then None
    else if k in Keys(additional) then Some(LastValue(additional, k))
    else if k == "affiliateAddress" || k == "feeRecipient" then Some(env.communityMultisigAddress)
    else if k == "buyTokenPercentageFee" then Some(SWAP_FEE)
    else if k == "sellToken" then Some(TokenIdentifier(request.sellAsset))
    else if k == "buyToken" then Some(TokenIdentifier(request.buyAsset))
    else if k == "gasPrice" then Some(NatToDecimal(request.gasPrice))
    else if k == "slippagePercentage" then Some(request.slippageTolerance)
    else if k == TradeField(request.amount) then Some(NatToDecimal(tradeAmount))
    else None
  }

  /** The query holds each name at most once, with exactly the value the
      field-by-field reading gives it. */
  lemma SearchQueryLookup(request: SwapQuoteRequest, tradeAmount: nat, env: BuildEnv,
                          additional: seq<Param>, k: string)
    ensures UniqueKeys(SearchQuery(request, tradeAmount, env, additional))
    ensures Lookup(SearchQuery(request, tradeAmount, env, additional), k)
         == ExpectedParameter(request, tradeAmount, env, additional, k)
  {
    var entries := QueryEntries(request, tradeAmount, env, additional);
    var skipped := SkippedParameters(TokenIdentifier(request.buyAsset));
    var expected := ExpectedParameter(request, tradeAmount, env, additional, k);
    WithoutLookup(entries, skipped, k);
    if k !in skipped {
      assert Lookup(entries, k) == expected by {
        EntriesLookup(request, tradeAmount, env, additional, k);
        if k !in Keys(additional) {
          KeptLookup(request, tradeAmount, env, k);
        }
      }
    }
  }

  /** A name that no caller parameter sets gets its gated value, else the
      value built from the request. */
  lemma KeptLookup(request: SwapQuoteRequest, tradeAmount: nat, env: BuildEnv, k: string)
    ensures var base, gated := BaseParameters(request, tradeAmount), GatedParameters(env);
      (if k in Keys(gated) then Lookup(gated, k) else Lookup(base, k))
      == if k == "affiliateAddress" || k == "feeRecipient" then Some(env.communityMultisigAddress)
         else if k == "buyTokenPercentageFee" then Some(SWAP_FEE)
         else if k == "sellToken" then Some(TokenIdentifier(request.sellAsset))
         else if k == "buyToken" then Some(TokenIdentifier(request.buyAsset))
         else if k == "gasPrice" then Some(NatToDecimal(request.gasPrice))
         else if k == "slippagePercentage" then Some(request.slippageTolerance)
         else if k == TradeField(request.amount) then Some(NatToDecimal(tradeAmount))
         else None
  {
    ParameterNamesDistinct();
    GatedParametersFacts(env);
    BaseParametersFacts(request, tradeAmount);
  }

  /** Merging the literal's fields: a caller parameter wins over a gated one,
      which wins over a field built from the request. */
  lemma EntriesLookup(request: SwapQuoteRequest, tradeAmount: nat, env: BuildEnv,
                      additional: seq<Param>, k: string)
    ensures var base, gated := BaseParameters(request, tradeAmount), GatedParameters(env);
      Lookup(QueryEntries(request, tradeAmount, env, additional), k)
      == if k in Keys(additional) then Some(LastValue(additional, k))
         else if k in Keys(gated) then Lookup(gated, k)
         else Lookup(base, k)
  {
    var base, gated := BaseParameters(request, tradeAmount), GatedParameters(env);
    BaseParametersFacts(request, tradeAmount);
    GatedParametersFacts(env);
    var fields := LiteralFields(request, tradeAmount, env, additional);
    PutAllLookup([], fields, k);
    assert fields == (base + gated) + additional;
    KeysAppend(base, gated);
    KeysAppend(base + gated, additional);
    if k in Keys(fields) {
      LastValueAppend(base + gated, additional, k);
      if k !in Keys(additional) {
        LastValueAppend(base, gated, k);
        if k in Keys(gated) {
          LastValueUnique(gated, k);
        } else {
          LastValueUnique(base, k);
        }
      }
    }
  }

  /** An unsupported chain fails with UnsupportedNetwork whatever the request;
      otherwise the build fails only on an amount parseUnits refuses, and
      succeeds with the API host, the swap path and the query for the amount
      scaled by the decimals of the asset on the side it fixes. */
  lemma BuildUrlOutcome(requestPath: string, request: SwapQuoteRequest, network: EVMNetwork,
                        env: BuildEnv, additional: seq<Param>)
    ensures var r := BuildUrl(requestPath, request, network, env, additional);
      var decimals := match request.amount
                      case SellAmount(_) => request.sellAsset.decimals
                      case BuyAmount(_) => request.buyAsset.decimals;
      var tradeAmount := ParseUnits(AmountText(request.amount), decimals);
      && (network.chainID != "1" && network.chainID != "137" ==> r == Failure(UnsupportedNetwork(network.name)))
      && (r.Success? <==> (network.chainID == "1" || network.chainID == "137") && tradeAmount.Some?)
      && (r.Success? ==>
            r.value == Url(Get0xApiBase(network, env).value, "/swap/v1" + requestPath,
                           SearchQuery(request, tradeAmount.value, env, additional)))
  {
  }

  /** Exactly one trade-amount parameter: `buyAmount` for a buy amount,
      `sellAmount` for a sell amount, carrying the scaled amount's decimal
      rendering. */
  lemma SearchQueryTradeAmount(request: SwapQuoteRequest, tradeAmount: nat, env: BuildEnv,
                               additional: seq<Param>)
    requires "sellAmount" !in Keys(additional) && "buyAmount" !in Keys(additional)
    ensures var query := SearchQuery(request, tradeAmount, env, additional);
      match request.amount
      case SellAmount(_) =>
        Lookup(query, "sellAmount") == Some(NatToDecimal(tradeAmount)) && "buyAmount" !in Keys(query)
      case BuyAmount(_) =>
        Lookup(query, "buyAmount") == Some(NatToDecimal(tradeAmount)) && "sellAmount" !in Keys(query)
  {
    ParameterNamesDistinct();
    SearchQueryLookup(request, tradeAmount, env, additional, "sellAmount");
    SearchQueryLookup(request, tradeAmount, env, additional, "buyAmount");
  }

  /** `sellToken` and `buyToken` are the asset's contract address when it has
      one, otherwise its symbol. */
  lemma SearchQueryTokens(request: SwapQuoteRequest, tradeAmount: nat, env: BuildEnv,
                          additional: seq<Param>)
    requires "sellToken" !in Keys(additional) && "buyToken" !in Keys(additional)
    ensures var query := SearchQuery(request, tradeAmount, env, additional);
      && Lookup(query, "sellToken") == Some(if request.sellAsset.contractAddress.Some?
                                            then request.sellAsset.contractAddress.value
                                            else request.sellAsset.symbol)
      && Lookup(query, "buyToken") == Some(if request.buyAsset.contractAddress.Some?
                                           then request.buyAsset.contractAddress.value
                                           else request.buyAsset.symbol)
  {
    ParameterNamesDistinct();
    SearchQueryLookup(request, tradeAmount, env, additional, "sellToken");
    SearchQueryLookup(request, tradeAmount, env, additional, "buyToken");
  }

  /** Buying "ETH" drops `feeRecipient` and `buyTokenPercentageFee`; buying
      anything else keeps both. */
  lemma SearchQueryFeeParameters(request: SwapQuoteRequest, tradeAmount: nat, env: BuildEnv,
                                 additional: seq<Param>)
    ensures var query := SearchQuery(request, tradeAmount, env, additional);
      && (TokenIdentifier(request.buyAsset) == "ETH" <==> "feeRecipient" !in Keys(query))
      && (TokenIdentifier(request.buyAsset) == "ETH" <==> "buyTokenPercentageFee" !in Keys(query))
  {
    var query := SearchQuery(request, tradeAmount, env, additional);
    assert Lookup(query, "feeRecipient").Some? <==> TokenIdentifier(request.buyAsset) != "ETH" by {
      SearchQueryLookup(request, tradeAmount, env, additional, "feeRecipient");
    }
    assert Lookup(query, "buyTokenPercentageFee").Some? <==> TokenIdentifier(request.buyAsset) != "ETH" by {
      SearchQueryLookup(request, tradeAmount, env, additional, "buyTokenPercentageFee");
    }
  }

  /** A caller parameter overrides a built or gated parameter of the same name:
      its last value is the one sent, unless it is a fee parameter dropped for
      an "ETH" buy. */
  lemma SearchQueryCallerWins(request: SwapQuoteRequest, tradeAmount: nat, env: BuildEnv,
                              additional: seq<Param>, k: string)
    requires k in Keys(additional)
    ensures Lookup(SearchQuery(request, tradeAmount, env, additional), k)
         == if TokenIdentifier(request.buyAsset) == "ETH" && k in FEE_PARAMETERS
            then None else Some(LastValue(additional, k))
  {
    SearchQueryLookup(request, tradeAmount, env, additional, k);
  }

  /** Without a caller override, the gas price is sent as its decimal
      rendering. */
  lemma SearchQueryGasPrice(request: SwapQuoteRequest, tradeAmount: nat, env: BuildEnv,
                            additional: seq<Param>)
    requires "gasPrice" !in Keys(additional)
    ensures Lookup(SearchQuery(request, tradeAmount, env, additional), "gasPrice")
         == Some(NatToDecimal(request.gasPrice))
  {
    ParameterNamesDistinct();
    SearchQueryLookup(request, tradeAmount, env, additional, "gasPrice");
  }

  /** Without a caller override, the slippage tolerance is sent as given. */
  lemma SearchQuerySlippage(request: SwapQuoteRequest, tradeAmount: nat, env: BuildEnv,
                            additional: seq<Param>)
    requires "slippagePercentage" !in Keys(additional)
    ensures Lookup(SearchQuery(request, tradeAmount, env, additional), "slippagePercentage")
         == Some(request.slippageTolerance)
  {
    SearchQueryLookup(request, tradeAmount, env, additional, "slippagePercentage");
  }

  /** Without a caller override, the affiliate parameter carries the
      community multisig address, whatever the buy token. */
  lemma SearchQueryAffiliateDefault(request: SwapQuoteRequest, tradeAmount: nat, env: BuildEnv,
                                    additional: seq<Param>)
    requires "affiliateAddress" !in Keys(additional)
    ensures Lookup(SearchQuery(request, tradeAmount, env, additional), "affiliateAddress")
         == Some(env.communityMultisigAddress)
  {
    SearchQueryLookup(request, tradeAmount, env, additional, "affiliateAddress");
  }

  /** Without a caller override, a buy of anything but "ETH" pays the 0.005
      fee to the community multisig address. */
  lemma SearchQueryFeeDefaults(request: SwapQuoteRequest, tradeAmount: nat, env: BuildEnv,
                               additional: seq<Param>)
    requires "feeRecipient" !in Keys(additional) && "buyTokenPercentageFee" !in Keys(additional)
    requires TokenIdentifier(request.buyAsset) != "ETH"
    ensures var query := SearchQuery(request, tradeAmount, env, additional);
      && Lookup(query, "feeRecipient") == Some(env.communityMultisigAddress)
      && Lookup(query, "buyTokenPercentageFee") == Some("0.005")
  {
    SearchQueryLookup(request, tradeAmount, env, additional, "feeRecipient");
    SearchQueryLookup(request, tradeAmount, env, additional, "buyTokenPercentageFee");
  }
}
