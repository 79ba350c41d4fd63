/** The "signing" Redux slice (background/redux-slices/signing.ts): the
    pending typed-data signing request, the last signature, their two
    reducers and the selector for the request. */
module Signing {
  import opened Wrappers

  /** One field of an EIP-712 struct type. */
  datatype TypedDataField = TypedDataField(name: string, fieldType: string)

  /** The EIP-712 domain; every part of it is optional. */
  datatype EIP712Domain = EIP712Domain(
    name: Option<string>,
    version: Option<string>,
    chainId: Option<int>,
    verifyingContract: Option<string>)

  datatype TypedData = TypedData(
    domain: EIP712Domain,
    types: map<string, seq<TypedDataField>>,
    message: map<string, string>,
    primaryType: string)

  datatype SignTypedDataRequest = SignTypedDataRequest(account: string, typedData: TypedData)

  datatype SigningState = SigningState(
    signedTypedData: Option<string>,
    typedDataRequest: Option<SignTypedDataRequest>)

  /** `initialState`: no request pending and nothing signed. */
  const InitialState: SigningState := SigningState(None, None)

  datatype SigningAction =
    | SignedTypedData(signature: string)
    | TypedDataRequest(request: SignTypedDataRequest)

  /** The slice reducer: each action replaces its own field. */
  function SigningReducer(state: SigningState, action: SigningAction): (r: SigningState)
    ensures action.SignedTypedData? ==> r.typedDataRequest == state.typedDataRequest
    ensures action.TypedDataRequest? ==> r.signedTypedData == state.signedTypedData
  {
    match action
    case SignedTypedData(signature) => state.(signedTypedData := Some(signature))
    case TypedDataRequest(request) => state.(typedDataRequest := Some(request))
  }

  /** Each action stores its payload in its own field and leaves the other
      as it was. */
  lemma SigningReducerEffects(state: SigningState, action: SigningAction)
    ensures action.SignedTypedData? ==>
      && SigningReducer(state, action).signedTypedData == Some(action.signature)
      && SigningReducer(state, action).typedDataRequest == state.typedDataRequest
    ensures action.TypedDataRequest? ==>
      && SigningReducer(state, action).typedDataRequest == Some(action.request)
      && SigningReducer(state, action).signedTypedData == state.signedTypedData
  {
  }

  /** The two actions commute, and each is idempotent. */
  lemma SigningReducerAlgebra(state: SigningState, a: SigningAction, b: SigningAction)
    ensures SigningReducer(SigningReducer(state, a), a) == SigningReducer(state, a)
    ensures a.SignedTypedData? != b.SignedTypedData? ==>
      SigningReducer(SigningReducer(state, a), b) == SigningReducer(SigningReducer(state, b), a)
  {
  }

  /** The state after dispatching `actions` in order, first to last. */
  function Replay(state: SigningState, actions: seq<SigningAction>): SigningState
    decreases |actions|
  {
    if actions == [] then state else Replay(SigningReducer(state, actions[0]), actions[1..])
  }

  lemma {:induction false} ReplaySnoc(state: SigningState, actions: seq<SigningAction>, action: SigningAction)
    ensures Replay(state, actions + [action]) == SigningReducer(Replay(state, actions), action)
    decreases |actions|
  {
    if actions == [] {
      assert actions + [action] == [action];
    } else {
      assert (actions + [action])[1..] == actions[1..] + [action];
      ReplaySnoc(SigningReducer(state, actions[0]), actions[1..], action);
    }
  }

  /** The last request in a run of actions, found by scanning from the end. */
  function LastRequest(actions: seq<SigningAction>): Option<SignTypedDataRequest> {
    if actions == [] then None
    else if actions[|actions| - 1].TypedDataRequest? then Some(actions[|actions| - 1].request)
    else LastRequest(actions[..|actions| - 1])
  }

  /** The last signature in a run of actions, found by scanning from the end. */
  function LastSignature(actions: seq<SigningAction>): Option<string> {
    if actions == [] then None
    else if actions[|actions| - 1].SignedTypedData? then Some(actions[|actions| - 1].signature)
    else LastSignature(actions[..|actions| - 1])
  }

  /** After a run of actions each field holds its last payload, or what it
      held before when no action of its kind came. */
  lemma {:induction false} ReplayKeepsLast(state: SigningState, actions: seq<SigningAction>)
    ensures Replay(state, actions).typedDataRequest
         == if LastRequest(actions).Some? then LastRequest(actions) else state.typedDataRequest
    ensures Replay(state, actions).signedTypedData
         == if LastSignature(actions).Some? then LastSignature(actions) else state.signedTypedData
    decreases |actions|
  {
    if actions != [] {
      var init := actions[..|actions| - 1];
      var last := actions[|actions| - 1];
      assert actions == init + [last];
      ReplaySnoc(state, init, last);
      ReplayKeepsLast(state, init);
    }
  }

  /** The store as the selector sees it. */
  datatype RootState = RootState(signing: SigningState)

  /** `selectTypedData`: the pending request. */
  function SelectTypedData(root: RootState): Option<SignTypedDataRequest> {
    root.signing.typedDataRequest
  }

  /** Starting from the initial state, the selector shows the last request
      dispatched, and nothing when none was. */
  lemma SelectTypedDataAfter(actions: seq<SigningAction>)
    ensures SelectTypedData(RootState(Replay(InitialState, actions))) == LastRequest(actions)
  {
    ReplayKeepsLast(InitialState, actions);
  }
}
