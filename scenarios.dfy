/** The unit tests of the registry and the oracle, replayed against the
    model: what each asserts follows from the contracts alone. */
module Scenarios {
  import opened Base
  import Markets
  import MarketFactory
  import Oracle

  const ONE_DAY: nat := 86400

  /** `test_create_market`: whitelist the wallet as oracle, create a market
      that expires a day from now, and read it back as active. */
  method CreateMarketWithWhitelistedOracle(now: nat, wallet: Address, pairRequest: Remote)
    returns (created: bool, status: Option<Markets.MarketStatus>)
    requires now + ONE_DAY < 0x1_0000_0000_0000_0000
    ensures created <==> pairRequest.Succeeded?
    ensures created ==> status == Some(Markets.Active)
  {
    var factory := new MarketFactory.MarketFactoryState(100);
    var added := factory.AddOracle(wallet, Some(wallet));
    var result := factory.CreateMarket("Will ETH price be above $2000 tomorrow?", now + ONE_DAY,
                                       wallet, "USDC", now, Some(wallet), pairRequest);
    created := result.Ok?;
    status := None;
    if created {
      var market := factory.GetMarket(result.value);
      status := Some(market.value.status);
    }
  }

  /** `test_create_market_invalid_oracle`: with an empty whitelist the zero
      address is refused as oracle. */
  method CreateMarketWithUnknownOracle(now: nat, wallet: Address, pairRequest: Remote)
    returns (result: Result<string, MarketFactory.FactoryError>)
    requires now + ONE_DAY < 0x1_0000_0000_0000_0000
    ensures result == Err(MarketFactory.InvalidOracle)
  {
    var factory := new MarketFactory.MarketFactoryState(100);
    result := factory.CreateMarket("Will ETH price be above $2000 tomorrow?", now + ONE_DAY,
                                   0, "USDC", now, Some(wallet), pairRequest);
  }

  /** `test_outcome_submission`: a registered oracle whose signature is
      accepted and whose submission is forwarded sees its outcome stored. */
  method SubmitOutcomeAsRegisteredOracle(wallet: Address, publicKey: H256, signature: Oracle.Signature,
                                         now: U64, check: Oracle.SignatureCheck)
    returns (registered: Result<(), Oracle.OracleError>, submitted: Result<(), Oracle.OracleError>,
             outcome: Option<bool>)
    requires check(Oracle.OracleSubmission(wallet, "test_market", true, now, signature), wallet)
    ensures registered == Ok(())
    ensures submitted == Ok(())
    ensures outcome == Some(true)
  {
    var manager := new Oracle.OracleManagerState();
    registered := manager.RegisterOracle(wallet, publicKey, Some(wallet), Succeeded, Succeeded);
    submitted := manager.SubmitOutcome("test_market", true, signature, Some(wallet), now, check,
                                       Succeeded, Succeeded);
    outcome := manager.GetOutcome("test_market");
  }

  /** A second submission for the same market is refused and the first
      outcome stays. */
  method SecondSubmissionRefused(wallet: Address, publicKey: H256, signature: Oracle.Signature,
                                 now: U64, check: Oracle.SignatureCheck)
    returns (second: Result<(), Oracle.OracleError>, outcome: Option<bool>)
    requires check(Oracle.OracleSubmission(wallet, "test_market", true, now, signature), wallet)
    ensures second == Err(Oracle.OutcomeAlreadySubmitted)
    ensures outcome == Some(true)
  {
    var manager := new Oracle.OracleManagerState();
    var registered := manager.RegisterOracle(wallet, publicKey, Some(wallet), Succeeded, Succeeded);
    var first := manager.SubmitOutcome("test_market", true, signature, Some(wallet), now, check,
                                       Succeeded, Succeeded);
    second := manager.SubmitOutcome("test_market", false, signature, Some(wallet), now, check,
                                    Succeeded, Succeeded);
    outcome := manager.GetOutcome("test_market");
  }
}
