# Tally Ho swap, signing and NFT description logic in Dafny

A model of three parts of the Tally Ho wallet extension, with proofs about them.

- **The 0x swap slice** (`background/redux-slices/0x-swap.ts`):
  - choosing the 0x API host for a chain (`get0xApiBase`);
  - turning a `SwapQuoteRequest` into the query of a `/quote` or `/price` request (`build0xUrlFromSwapRequest`);
  - the `SwapState` reducer with its five actions, and the two selectors;
  - what the four thunks `fetchSwapQuote`, `fetchSwapPrice`, `approveTransfer` and `executeSwap` do to the store.

  The thunks are methods of a `SwapStore` class. The class holds the slice state and a trace of everything the thunks did: dispatched actions, API fetches, allowance queries, approvals and transactions sent. Its invariant is that the state is always the replay of the dispatched actions from `initialState`. Whatever the outside world answers comes in as a method parameter:
  - the validated API response, or `None` when validation failed;
  - the current allowance, or `None` when the allowance call rejected;
  - how far an approval got before it stopped;
  - whether the signer accepted the swap transaction (`sendAccepted`).
- **The NFT description cleaning** (`ui/components/NFTS_update/NFTPreview.tsx`):
  - `LINK_REGEX` as a hand-written matcher;
  - the global `replace` in `removeMarkdownLinks`, as a left-to-right scan that resumes after each match;
  - the 180-character cut in `trimDescription`;
  - their composition in `parseDescription`.
- **The signing slice** (`background/redux-slices/signing.ts`): the state, its two reducers and the `selectTypedData` selector.

Modules:

| module | contents |
|---|---|
| `Wrappers` | `Option` and `Result` |
| `JsText` | the JavaScript white-space and `\w` classes, and `String.prototype.trim` |
| `Decimal` | decimal rendering of integers, and the well-formed part of ethers' `parseUnits` |
| `SearchParams` | ordered parameter lists without repeated names: an object literal with spreads, and a `URLSearchParams` |
| `SwapUrl` | the host, the query and the URL builder |
| `SwapSlice` | the slice state, the reducer, replay and the selectors |
| `SwapThunks` | the store class and the thunks |
| `NftDescription` | the description helpers |
| `Signing` | the signing slice |

## Model

| member | source | states |
|---|---|---|
| SwapUrl.ChainIdTo0xApiBase | background/redux-slices/0x-swap.ts:108-111 | Only chains "1" and "137" have an API host. |
| SwapUrl.Get0xApiBase | background/redux-slices/0x-swap.ts:108-127 | The call fails exactly when the chain is neither "1" nor "137", and the failure names the network. |
| SwapUrl.Get0xApiBaseHosts | background/redux-slices/0x-swap.ts:108-127 | Chain "1" gives `api.0x.org` and chain "137" gives `polygon.api.0x.org`. Each gets the `gated.` prefix exactly when the API key is defined and has a character that is not white space. |
| JsText.TrimEmptyIffBlank | background/redux-slices/0x-swap.ts:115-117 | `key.trim() !== ""` holds exactly when the key has a character that is not white space. |
| JsText.Trim | background/redux-slices/0x-swap.ts:115-117 | The trimmed key is a piece of the key with nothing but white space before and after it. It is empty, or starts and ends with a character that is not white space. |
| SwapThunks.GatedHeaders | background/redux-slices/0x-swap.ts:134-140 | The only header is `0x-api-key`, carrying the API key. It is present exactly when the key is defined and has a character that is not white space. |
| SwapThunks.GatedHeadersMatchHost | background/redux-slices/0x-swap.ts:113-140 | On a supported chain, the `0x-api-key` header is sent exactly when the host starts with `gated.`. |
| SwapUrl.BuildUrl | background/redux-slices/0x-swap.ts:145-198 | A URL that is built never repeats a parameter name. |
| SwapUrl.Build0xUrlFromSwapRequest | background/redux-slices/0x-swap.ts:145-198 | The method, which runs the loop over the entries, returns exactly the URL or error given by the reference definition `BuildUrl`. |
| SwapUrl.SetSearchParams | background/redux-slices/0x-swap.ts:183-195 | Setting each entry in turn on an empty query, skipping the two fee parameters when the buy token is "ETH", gives the entries with those names removed, in order. |
| SwapUrl.BuildUrlOutcome | background/redux-slices/0x-swap.ts:150-157 | An unsupported chain is an error whatever the request. Otherwise the build succeeds exactly when `parseUnits` accepts the amount with the decimals of the asset on the amount's side. On success the URL is the API host, the path `/swap/v1` plus the request path, and the query for that scaled amount. |
| SwapUrl.SearchQueryLookup | background/redux-slices/0x-swap.ts:175-195 | No parameter name repeats in the query. Each name carries exactly the value that reading the literal field by field gives it: the caller's last value, else the gated one, else the one built from the request. The fee names are absent for an "ETH" buy. |
| SwapUrl.EntriesLookup | background/redux-slices/0x-swap.ts:175-183 | Merging the literal's fields lets a caller parameter win over a gated one, which wins over a field built from the request. |
| SwapUrl.KeptLookup | background/redux-slices/0x-swap.ts:129-181 | Without a caller parameter, each of the eight built or gated names has its documented value, and every other name is absent. |
| SwapUrl.BaseParametersFacts | background/redux-slices/0x-swap.ts:159-180 | The five built fields have distinct names and carry the token identifiers, the gas price, the slippage and the scaled amount. |
| SwapUrl.GatedParametersFacts | background/redux-slices/0x-swap.ts:129-133 | The gated parameters are `affiliateAddress` and `feeRecipient`, both set to the community multisig address, and `buyTokenPercentageFee`, set to the fee. |
| SwapUrl.SearchQueryTradeAmount | background/redux-slices/0x-swap.ts:154-180 | Exactly one trade-amount parameter is present. A buy amount sends `buyAmount` and no `sellAmount`; a sell amount sends `sellAmount` and no `buyAmount`. Its value is the scaled amount. |
| SwapUrl.SearchQueryTokens | background/redux-slices/0x-swap.ts:159-177 | `sellToken` and `buyToken` are the asset's contract address when it has one, otherwise its symbol. |
| SwapUrl.SearchQueryFeeParameters | background/redux-slices/0x-swap.ts:184-193 | `feeRecipient` is absent, and so is `buyTokenPercentageFee`, exactly when the buy token is "ETH". |
| SwapUrl.SearchQueryCallerWins | background/redux-slices/0x-swap.ts:181-194 | A caller parameter's last value overrides a built or gated parameter of the same name. The exception is a fee parameter dropped for an "ETH" buy. |
| SwapUrl.SearchQueryGasPrice | background/redux-slices/0x-swap.ts:178 | Without a caller override, `gasPrice` is the decimal rendering of the gas price. |
| SwapUrl.SearchQuerySlippage | background/redux-slices/0x-swap.ts:179 | Without a caller override, `slippagePercentage` is the slippage tolerance as given. |
| SwapUrl.SearchQueryAffiliateDefault | background/redux-slices/0x-swap.ts:129-133 | Without a caller override, `affiliateAddress` is the community multisig address, including when the buy token is "ETH". |
| SwapUrl.SearchQueryFeeDefaults | background/redux-slices/0x-swap.ts:129-133 | Without a caller override and for a buy token other than "ETH", the fee of "0.005" goes to the community multisig address. |
| SearchParams.Put | background/redux-slices/0x-swap.ts:194 | Setting a name stores its value and leaves every other name's value alone. The set of names gains that one name. An existing name keeps its place; a new name is appended. |
| SearchParams.PutAll | background/redux-slices/0x-swap.ts:175-182 | Spreading entries into a literal gives the union of the names, and never repeats a name. |
| SearchParams.PutAllLookup | background/redux-slices/0x-swap.ts:175-182 | After the spread, each name carries the last value the entries give it, or its old value when they do not mention it. |
| SearchParams.Without | background/redux-slices/0x-swap.ts:188-193 | Skipping names removes exactly those names and keeps names unique. |
| SearchParams.WithoutLookup | background/redux-slices/0x-swap.ts:188-193 | A skipped name is absent, and every other name keeps its value. |
| Decimal.NatToDecimal | background/redux-slices/0x-swap.ts:178 | `toString()` of a non-negative bigint is a non-empty string of digits, without leading zeros, whose value is the number. |
| Decimal.ParseUnits | background/redux-slices/0x-swap.ts:154-157 | Accepted text is non-empty, starts and ends with a digit, and holds only digits and points. |
| Decimal.ParseUnitsSplit | background/redux-slices/0x-swap.ts:154-157 | Text whose first point splits it into W and F parses to the digits of W then F, scaled by 10^(decimals − \|F\|), when F is one to `decimals` digits. It is refused when F is longer. |
| Decimal.ParseUnitsWhole | background/redux-slices/0x-swap.ts:154-157 | An integer amount "N" parses to N × 10^decimals. |
| Decimal.ParseUnitsFraction | background/redux-slices/0x-swap.ts:154-157 | "W.F", with F no longer than the decimals, parses to W × 10^decimals + F × 10^(decimals − \|F\|). |
| Decimal.ParseUnitsTooPrecise | background/redux-slices/0x-swap.ts:154-157 | More fraction digits than the asset has decimals is refused. |
| Decimal.ParseUnitsOfRendering | background/redux-slices/0x-swap.ts:154-157 | The rendering of n parses back to n × 10^decimals. |
| SwapSlice.SwapReducer | background/redux-slices/0x-swap.ts:56-89 | Every field outside the action's write set keeps its value. |
| SwapSlice.ReducerFrame | background/redux-slices/0x-swap.ts:56-89 | Each action leaves every field outside its write set unchanged. The fields it writes do not depend on the previous state. |
| SwapSlice.ReducerEffects | background/redux-slices/0x-swap.ts:56-89 | Each setter stores its payload, and each clear stores nothing. `clearSwapQuote` clears the quote and the request and keeps the approval marker. |
| SwapSlice.ReducerIdempotent | background/redux-slices/0x-swap.ts:56-89 | Dispatching an action twice is the same as dispatching it once. |
| SwapSlice.ReducersCommute | background/redux-slices/0x-swap.ts:56-89 | Actions on disjoint fields commute. |
| SwapSlice.ReplayUntouched | background/redux-slices/0x-swap.ts:52-91 | A field that no action in a run writes keeps its value. |
| SwapSlice.ReplayLastWriter | background/redux-slices/0x-swap.ts:52-91 | After a run, a field holds what the last action that writes it stored. |
| SwapSlice.SelectorsTrackActions | background/redux-slices/0x-swap.ts:390-398 | The selectors read back what the matching actions stored, and no other action moves them. |
| SwapThunks.SwapStore.constructor | background/redux-slices/0x-swap.ts:48-50 | The store starts in `initialState`, with nothing requested, quoted or being approved, and an empty trace. |
| SwapThunks.QuoteEventsDispatch | background/redux-slices/0x-swap.ts:225-240 | The quote fetch dispatches `setFinalSwapQuote(response)` only for a validated response; otherwise it dispatches nothing and the state is unchanged. |
| SwapThunks.SwapStore.FetchSwapQuote | background/redux-slices/0x-swap.ts:207-242 | If the URL cannot be built, the thunk fails with that error (`UrlError`) before fetching anything. Otherwise it fetches the URL with the gated headers, and only a validated quote becomes `finalQuote`. |
| SwapThunks.NeedsApproval | background/redux-slices/0x-swap.ts:289-306 | An approval is needed exactly when the allowance target is not the zero address and the existing allowance is below the sell amount. |
| SwapThunks.PriceEventsDispatch | background/redux-slices/0x-swap.ts:272-310 | The price fetch dispatches only `setLatestQuoteRequest(request)`, and only for a validated response whose allowance call, if one was made, answered. The allowance is queried exactly when the response is valid and the target is not the zero address. |
| SwapThunks.SwapStore.FetchSwapPrice | background/redux-slices/0x-swap.ts:252-312 | A URL that cannot be built is an error before any fetch. An invalid response returns nothing and leaves the state alone. A rejected allowance call fails the thunk (`AllowanceRejected`) after the query, without recording the request. Otherwise the request is recorded and the price is returned with its `needsApproval` verdict. |
| SwapThunks.SwapStore.ReceivePrice | background/redux-slices/0x-swap.ts:272-310 | The steps from the fetch on: the trace, the new state and the returned result, as above. |
| SwapThunks.SwapStore.RecordPrice | background/redux-slices/0x-swap.ts:289-310 | The steps after a response validated: the allowance query when the target is not the zero address, then the recording of the request unless the query rejected, with the trace, state and result as above. |
| SwapThunks.ApproveTransferBracketed | background/redux-slices/0x-swap.ts:332-361 | On every outcome the approval dispatches exactly `setInProgressApprovalContract(asset)` and then `clearInProgressApprovalContract`, so the marker ends empty. |
| SwapThunks.ApproveTransferInfinite | background/redux-slices/0x-swap.ts:343-347 | Every approval sent is of `MaxUint256`, for the marked asset, to the target. |
| SwapThunks.SwapStore.ApproveTransfer | background/redux-slices/0x-swap.ts:320-363 | The thunk marks the asset, tries the approval and clears the mark. Its trace is the events of that outcome, and the state only loses its marker. |
| SwapThunks.SwapStore.TryApproval | background/redux-slices/0x-swap.ts:334-358 | The `try` block: a send followed by a wait, cut short where the outcome says. The state is unchanged. |
| SwapThunks.SwapTransactionOf | background/redux-slices/0x-swap.ts:378-386 | The swap transaction carries the quote's destination, data, value, gas, gas price and chain, with type 1. |
| SwapThunks.ExecuteSwapClearsFirst | background/redux-slices/0x-swap.ts:375-386 | The thunk does exactly two things: first it dispatches `clearSwapQuote`, then it sends the transaction. `clearSwapQuote` is the only dispatch. It clears the quote and the request and keeps the approval marker. |
| SwapThunks.SwapStore.ExecuteSwap | background/redux-slices/0x-swap.ts:369-388 | The state loses its quote and its request, and the trace gains the clear followed by the sent transaction. The thunk fails (`TransactionRejected`) exactly when the send rejects, and the clear has already happened then. |
| NftDescription.MatchLinkAt | ui/components/NFTS_update/NFTPreview.tsx:13 | A match at the start of the text is a well-formed link, and its rendering is a prefix of the text. |
| NftDescription.MatchedLink | ui/components/NFTS_update/NFTPreview.tsx:13 | The label and URL runs that the pattern's pieces find form a well-formed link that renders as the matched prefix. |
| NftDescription.MatchLinkAtComplete | ui/components/NFTS_update/NFTPreview.tsx:13 | Wherever the text starts with a well-formed link, the pattern matches exactly that link. |
| NftDescription.UnmatchedUrlNoMatch | ui/components/NFTS_update/NFTPreview.tsx:13 | For every label, scheme and run of URL characters: when the run ends at a character that is neither a URL character nor ')' (a '-', say), whatever follows, there is no match. |
| NftDescription.OtherSchemeNoMatch | ui/components/NFTS_update/NFTPreview.tsx:13 | For every label, when the text after `](` starts with neither `http://` nor `https://`, there is no match. |
| NftDescription.RemoveMarkdownLinks | ui/components/NFTS_update/NFTPreview.tsx:15-17 | Removing links never makes the text longer. |
| NftDescription.RemoveLinkAtFront | ui/components/NFTS_update/NFTPreview.tsx:15-17 | A link at the front is replaced by its label, and the scan resumes right after the link. |
| NftDescription.RemoveCopiesNonLink | ui/components/NFTS_update/NFTPreview.tsx:15-17 | A character that cannot start a link is copied, and the scan moves on. |
| NftDescription.RemoveWithoutBrackets | ui/components/NFTS_update/NFTPreview.tsx:15-17 | Text without '[' comes through unchanged. |
| NftDescription.UnmatchedUrlStays | ui/components/NFTS_update/NFTPreview.tsx:15-17 | Such a cut-short link keeps its '[' in the output, and the scan resumes right after it. |
| NftDescription.OtherSchemeStays | ui/components/NFTS_update/NFTPreview.tsx:15-17 | A link with another scheme keeps its '[' in the output, and the scan resumes right after it. |
| NftDescription.RemoveCopiesUnmatched | ui/components/NFTS_update/NFTPreview.tsx:15-17 | Where no link starts, the first character is copied and the scan moves on by one. |
| NftDescription.NoMatchUnchanged | ui/components/NFTS_update/NFTPreview.tsx:15-17 | Text in which no link starts at any position comes through unchanged. |
| NftDescription.TrimDescription | ui/components/NFTS_update/NFTPreview.tsx:19-22 | The result is at most 183 characters, and at most 3 longer than the input. |
| NftDescription.TrimDescriptionShape | ui/components/NFTS_update/NFTPreview.tsx:19-22 | The result is at most 183 characters and begins with the first 180 characters of the input. A text of at most 180 characters, including "", is unchanged. A longer one becomes its first 180 characters followed by "...", 183 characters in all. |
| NftDescription.TrimDescriptionIdempotent | ui/components/NFTS_update/NFTPreview.tsx:19-22 | Trimming twice is the same as trimming once. |
| NftDescription.ParseDescription | ui/components/NFTS_update/NFTPreview.tsx:24-26 | A missing description gives "". The result is at most 183 characters, and at most 3 longer than the input. |
| NftDescription.ParseDescriptionOfLink | ui/components/NFTS_update/NFTPreview.tsx:24-26 | A description that is one link with a label of at most 180 characters shows as the label alone. |
| Signing.SigningReducer | background/redux-slices/signing.ts:72-82 | Each action keeps the field it does not write. |
| Signing.SigningReducerEffects | background/redux-slices/signing.ts:72-82 | `signedTypedData` stores its payload and keeps the request. `typedDataRequest` stores its payload and keeps the signature. |
| Signing.SigningReducerAlgebra | background/redux-slices/signing.ts:72-82 | Each action is idempotent, and the two kinds of action commute. |
| Signing.ReplayKeepsLast | background/redux-slices/signing.ts:68-88 | After a run of actions, each field holds its last payload, or its old value when no action of its kind came. |
| Signing.SelectTypedDataAfter | background/redux-slices/signing.ts:90-93 | Starting from `initialState`, where both fields are undefined, `selectTypedData` returns the last request dispatched, or nothing when none was. |

## Left out

- The network, signer and provider calls of the thunks are not performed. Their results are method parameters:
  - `fetchJson`;
  - `getSigner().getAddress()`;
  - `callStatic.allowance`;
  - `populateTransaction.approve`;
  - `sendUncheckedTransaction`;
  - `waitForTransaction`;
  - `sendTransaction`.

  The trace records five of these calls as events:
  - `fetchJson`, with its URL and headers;
  - `callStatic.allowance`, with the token, owner and spender;
  - `sendUncheckedTransaction`, with the token, spender and amount of the `approve` call it sends;
  - `waitForTransaction`, without the transaction hash;
  - `sendTransaction`, with the transaction.

  `getAddress` leaves no event: its answer is the taker address parameter. `populateTransaction.approve` leaves no event of its own either, so an approval whose populate step fails leaves nothing between the mark and its clearing. A rejected allowance call and a rejected `sendTransaction` are modelled as failures of their thunks. A `fetchJson` or `getAddress` that throws is not modelled.
- `fetchSwapPrice` asks the signer for its address twice, once for the query and once for the allowance owner. The model uses one taker address for both.
- The validators `isValidSwapQuoteResponse` and `isValidSwapPriceResponse` are not part of this model. Their verdict is the `Option` response: `None` means validation failed. `ZrxPrice` and `ZrxQuote` hold a subset of the response fields, with amounts as natural numbers. `buyTokenAddress` and `buyAmount` are carried although no thunk reads them.
- Decimal.ParseUnits: the model of ethers' `parseUnits` covers only its intended inputs: digits, optionally followed by a point and more digits, with at most `decimals` fraction digits. The following are all refused as `InvalidAmount`:
  - a leading '-';
  - ".5" and "1.";
  - trailing fraction zeros beyond the decimals.

  ethers handles or reports some of these differently, and its error messages are not reproduced.
- Decimal.ParseUnitsSplit: states that a fraction longer than `decimals` is refused. This includes one whose extra digits are trailing zeros, which ethers strips before its precision check and accepts: ethers reads "1.50" at 1 decimal as 15, where the model refuses it.
- Decimal.ParseUnitsTooPrecise: refuses every fraction longer than `decimals`, again including one whose extra digits are trailing zeros that ethers strips and accepts.
- `slippageTolerance.toString()` and the rendering of `SWAP_FEE = 0.005` are JavaScript float formatting. The slippage is kept as its text, and the fee as the string "0.005".
- `process.env.ZEROX_API_KEY` and `COMMUNITY_MULTISIG_ADDRESS` are read from a `BuildEnv` parameter. The constants module is not part of this model.
- Serialising the URL with `toString()` is not modelled. The URL is its host, path and parameter list; the scheme is always https.
- `URLSearchParams` percent-encoding is not modelled.
- JavaScript objects list integer-like keys first, in numeric order. The model keeps insertion order for every name, so it differs when a caller parameter name looks like an integer.
- `chainIdTo0xApiBase[network.chainID]` also finds inherited `Object.prototype` members for chain IDs such as "toString". The model treats only "1" and "137" as known.
- The Redux machinery is framework wiring and is not modelled: `createSlice`, `createSelector` memoisation, and `createBackgroundAsyncThunk` with its rejected-promise plumbing. Reducers are functions, selectors are projections, and a thrown error is a `Failure` result.
- Thunks are modelled one at a time. The interleaving of concurrent thunks at their `await` points is not captured.
- Logging (`logger.warn`, `logger.debug`, `logger.error`) is left out.
- `slice(0, 180)` counts UTF-16 code units. The model counts characters, so it differs on descriptions with characters outside the Basic Multilingual Plane.
- The `|| "-"` fallback and the rest of the `NFTPreview` component lie outside the three helpers `removeMarkdownLinks`, `trimDescription` and `parseDescription`, and are left out.
- `parseDescription` does not trim white space, and the model does not either.
- A single replace pass can leave a link behind: "[[a](http://x)](http://y)" becomes "[a](http://y)". The model does the same, but no lemma states this case.
- The `signTypedData` thunk and `signingSliceEmitter` are event messaging and are left out.
- A typed-data message holds `unknown` values. The model keeps it as a map from names to strings.
