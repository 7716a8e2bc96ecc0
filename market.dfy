/** The market record and the per-market settlement-engine state of
    contracts/src/market.rs. The engine's constructor builds an empty ledger;
    its four trait operations (mint, burn, resolve, claim) are stubs that
    succeed and change nothing. The model keeps exactly that and proves that
    every state the engine can reach satisfies the ledger invariants of the
    design: collateral and token supplies agree with the per-user ledgers,
    and YES and NO supplies are equal. */
module Markets {
  import opened Base
  import Auth

  /** Every failure an engine operation can report. */
  datatype MarketError =
    | MarketNotActive
    | MarketNotExpired
    | MarketNotResolved
    | InsufficientBalance
    | InvalidOrder
    | InvalidAmount
    | Unauthorized
    | MarketAlreadyResolved
    | InvalidOracle
    | AuthError(cause: Auth.AuthError)
    | ApiError(message: string)
    | InsufficientCollateral
    | InvalidCollateralToken
    | CollateralTransferFailed
    | WithdrawalExceedsBalance
    | OrderPlacementFailed
    | OrderCancellationFailed
    | MarketSettlementFailed
    | InvalidSignature

  datatype MarketStatus = Active | Expired | Resolved

  /** One binary-outcome question. */
  datatype Market = Market(
    question: string,
    expiryTimestamp: U64,
    oracleId: string,
    collateralToken: string,
    status: MarketStatus,
    yesTokenAddress: string,
    noTokenAddress: string,
    resolvedOutcome: Option<bool>)

  /** The design's market invariant: an outcome is present only once the
      market is resolved. */
  predicate OutcomeOnlyWhenResolved(m: Market)
  {
    m.resolvedOutcome.Some? ==> m.status == Resolved
  }

  /** `MarketContractState` without its collaborators (auth manager, event
      emitter, exchange client), which hold no ledger state. */
  datatype EngineState = EngineState(
    market: Market,
    yesTokenSupply: U256,
    noTokenSupply: U256,
    userBalances: map<Address, (U256, U256)>,
    collateralBalances: map<Address, U256>,
    totalCollateral: U256)

  /** The sum of the amounts in a per-user ledger. */
  ghost function Total(ledger: map<Address, nat>): nat
    decreases ledger.Keys
  {
    if ledger.Keys == {} then 0
    else
      var user :| user in ledger.Keys;
      ledger[user] + Total(ledger - {user})
  }

  ghost function YesHoldings(balances: map<Address, (U256, U256)>): map<Address, nat>
  {
    map user | user in balances :: balances[user].0
  }

  ghost function NoHoldings(balances: map<Address, (U256, U256)>): map<Address, nat>
  {
    map user | user in balances :: balances[user].1
  }

  ghost function CollateralHoldings(balances: map<Address, U256>): map<Address, nat>
  {
    map user | user in balances :: balances[user]
  }

  /** The ledger invariants the engine's design promises at every
      observable instant. */
  ghost predicate LedgerConsistent(s: EngineState)
  {
    && Total(CollateralHoldings(s.collateralBalances)) == s.totalCollateral
    && Total(YesHoldings(s.userBalances)) == s.yesTokenSupply
    && Total(NoHoldings(s.userBalances)) == s.noTokenSupply
    && s.yesTokenSupply == s.noTokenSupply
  }

  /** `MarketContractState::new`: the given market over an empty ledger. */
  function NewEngine(market: Market): (s: EngineState)
    ensures s.market == market
    ensures LedgerConsistent(s)
    ensures forall user :: user !in s.userBalances && user !in s.collateralBalances
  {
    EngineState(market, 0, 0, map[], map[], 0)
  }

  /** What an engine operation returns, together with the engine afterwards. */
  datatype Step<+T> = Step(result: Result<T, MarketError>, state: EngineState)

  /** `mint_tokens`: a stub that reports success. */
  function MintTokens(s: EngineState, amount: U64): Step<()>
  {
    Step(Ok(()), s)
  }

  /** `burn_tokens`: a stub that reports success. */
  function BurnTokens(s: EngineState, yesAmount: U64, noAmount: U64): Step<()>
  {
    Step(Ok(()), s)
  }

  /** `resolve`: a stub that reports success. */
  function Resolve(s: EngineState, outcome: bool): Step<()>
  {
    Step(Ok(()), s)
  }

  /** `claim_winnings`: a stub that reports a payout of zero. */
  function ClaimWinnings(s: EngineState): Step<U64>
  {
    Step(Ok(0), s)
  }

  /** One call of the `MarketContract` trait. */
  datatype EngineCall =
    | Mint(amount: U64)
    | Burn(yesAmount: U64, noAmount: U64)
    | ResolveWith(outcome: bool)
    | Claim

  /** Whether a call reported success, and the engine after it. */
  function Perform(s: EngineState, call: EngineCall): (bool, EngineState)
  {
    match call
    case Mint(amount) =>
      var step := MintTokens(s, amount); (step.result.Ok?, step.state)
    case Burn(yesAmount, noAmount) =>
      var step := BurnTokens(s, yesAmount, noAmount); (step.result.Ok?, step.state)
    case ResolveWith(outcome) =>
      var step := Resolve(s, outcome); (step.result.Ok?, step.state)
    case Claim =>
      var step := ClaimWinnings(s); (step.result.Ok?, step.state)
  }

  /** The engine after a sequence of calls, in order. */
  function Run(s: EngineState, calls: seq<EngineCall>): EngineState
    decreases |calls|
  {
    if calls == [] then s else Run(Perform(s, calls[0]).1, calls[1..])
  }

  /** Minting always succeeds and leaves supplies, balances and total
      collateral as they were. */
  lemma MintLeavesLedger(s: EngineState, amount: U64)
    ensures MintTokens(s, amount).result.Ok?
    ensures var t := MintTokens(s, amount).state;
      && t.yesTokenSupply == s.yesTokenSupply && t.noTokenSupply == s.noTokenSupply
      && t.userBalances == s.userBalances && t.collateralBalances == s.collateralBalances
      && t.totalCollateral == s.totalCollateral
  {
  }

  /** Burning always succeeds and leaves supplies, balances and total
      collateral as they were, whatever amounts it is given. */
  lemma BurnLeavesLedger(s: EngineState, yesAmount: U64, noAmount: U64)
    ensures BurnTokens(s, yesAmount, noAmount).result.Ok?
    ensures var t := BurnTokens(s, yesAmount, noAmount).state;
      && t.yesTokenSupply == s.yesTokenSupply && t.noTokenSupply == s.noTokenSupply
      && t.userBalances == s.userBalances && t.collateralBalances == s.collateralBalances
      && t.totalCollateral == s.totalCollateral
  {
  }

  /** Resolving always succeeds and moves neither the status nor the
      recorded outcome, whatever outcome it is given. */
  lemma ResolveLeavesMarket(s: EngineState, outcome: bool)
    ensures Resolve(s, outcome).result.Ok?
    ensures Resolve(s, outcome).state.market.status == s.market.status
    ensures Resolve(s, outcome).state.market.resolvedOutcome == s.market.resolvedOutcome
  {
  }

  /** Claiming always succeeds, pays out nothing and changes no field. */
  lemma ClaimPaysNothing(s: EngineState)
    ensures ClaimWinnings(s).result == Ok(0)
    ensures ClaimWinnings(s).state == s
  {
  }

  /** Every call succeeds, and no sequence of calls changes the engine: the
      market keeps its status and outcome and the ledger its balances. */
  lemma {:induction false} RunChangesNothing(s: EngineState, calls: seq<EngineCall>)
    ensures forall i :: 0 <= i < |calls| ==> Perform(s, calls[i]).0
    ensures Run(s, calls) == s
    decreases |calls|
  {
    if calls != [] {
      RunChangesNothing(Perform(s, calls[0]).1, calls[1..]);
    }
  }

  /** Every engine reachable from `new` satisfies the ledger invariants, and
      its market still satisfies the market invariant if it did at creation. */
  lemma ReachableEnginesConsistent(market: Market, calls: seq<EngineCall>)
    ensures LedgerConsistent(Run(NewEngine(market), calls))
    ensures Run(NewEngine(market), calls).market == market
    ensures OutcomeOnlyWhenResolved(market) ==>
      OutcomeOnlyWhenResolved(Run(NewEngine(market), calls).market)
  {
    RunChangesNothing(NewEngine(market), calls);
  }
}
