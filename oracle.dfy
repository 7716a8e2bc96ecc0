/** The oracle registry of contracts/src/oracle.rs: registered oracles with
    a reputation score and a submission count, and at most one accepted
    outcome per market. Every rejection of `submit_outcome` comes before its
    first write, and an accepted outcome is never replaced. The registry
    also keeps, as an invariant, that each oracle's two counters are exactly
    what the outcomes it has had accepted imply: `total_submissions` is their
    number (modulo 2^32, as a `u32` counter wraps) and `reputation_score` is
    100 plus their number, saturating at 2^32 - 1. */
module Oracle {
  import opened Base
  import Auth

  datatype OracleError =
    | OracleNotRegistered
    | OutcomeAlreadySubmitted
    | InvalidSignature
    | MarketNotFound
    | AuthError(cause: Auth.AuthError)
    | HyperliquidError(message: string)

  /** An ECDSA signature (r, s, v). */
  datatype Signature = Signature(r: U256, s: U256, v: U64)

  datatype OracleSubmission = OracleSubmission(
    oracleId: Address,
    marketId: string,
    outcome: bool,
    timestamp: U64,
    signature: Signature)

  datatype OracleInfo = OracleInfo(
    address: Address,
    publicKey: H256,
    reputationScore: U32,
    totalSubmissions: U32)

  const INITIAL_REPUTATION: U32 := 100

  /** Whether a submission's signature, checked against the keccak-256 hash
      of its `market:outcome:timestamp:oracle` message, recovers to the given
      address. The cryptography is not part of this model: callers supply
      the verdict as a function. */
  type SignatureCheck = (OracleSubmission, Address) -> bool

  /** The markets whose accepted outcome came from `oracle`. */
  ghost function SubmittedBy(outcomes: map<string, OracleSubmission>, oracle: Address): set<string>
  {
    set marketId | marketId in outcomes && outcomes[marketId].oracleId == oracle
  }

  /** The counters an oracle with `accepted` accepted outcomes carries. */
  ghost predicate CountersAgree(info: OracleInfo, accepted: nat)
  {
    && info.totalSubmissions == accepted % U32_MODULUS
    && info.reputationScore == Min(INITIAL_REPUTATION + accepted, U32_MAX)
  }

  /** The registry invariant: each record is filed under its own address
      and carries the counters its accepted outcomes imply; each outcome is
      filed under its own market and came from a registered oracle. */
  ghost predicate Consistent(oracles: map<Address, OracleInfo>, outcomes: map<string, OracleSubmission>)
  {
    && (forall address :: address in oracles ==>
          oracles[address].address == address
          && CountersAgree(oracles[address], |SubmittedBy(outcomes, address)|))
    && (forall marketId :: marketId in outcomes ==>
          outcomes[marketId].marketId == marketId && outcomes[marketId].oracleId in oracles)
  }

  /** The record `register_oracle` creates for a new address. */
  function NewOracleInfo(address: Address, publicKey: H256): (info: OracleInfo)
    ensures info.address == address && info.publicKey == publicKey
    ensures CountersAgree(info, 0)
  {
    OracleInfo(address, publicKey, INITIAL_REPUTATION, 0)
  }

  /** The oracles after `register_oracle(address, publicKey)` went through:
      a new address is added with fresh counters, a known one is left alone. */
  function Enrolled(oracles: map<Address, OracleInfo>, address: Address, publicKey: H256)
    : (enrolled: map<Address, OracleInfo>)
    ensures enrolled.Keys == oracles.Keys + {address}
    ensures forall known :: known in oracles ==> enrolled[known] == oracles[known]
    ensures address !in oracles ==> enrolled[address] == NewOracleInfo(address, publicKey)
  {
    if address in oracles then oracles else oracles[address := NewOracleInfo(address, publicKey)]
  }

  /** An oracle's record after one more of its outcomes was accepted. */
  function Credited(info: OracleInfo): (credited: OracleInfo)
    ensures credited.address == info.address && credited.publicKey == info.publicKey
    ensures info.totalSubmissions < U32_MAX ==> credited.totalSubmissions == info.totalSubmissions + 1
    ensures info.reputationScore < U32_MAX ==> credited.reputationScore == info.reputationScore + 1
    ensures credited.reputationScore >= info.reputationScore
  {
    info.(totalSubmissions := WrappingAddU32(info.totalSubmissions, 1),
          reputationScore := SaturatingAddU32(info.reputationScore, 1))
  }

  /** Registering keeps the registry consistent: a new oracle has no
      accepted outcomes yet, so its fresh counters are the right ones. */
  lemma EnrolPreservesConsistent(oracles: map<Address, OracleInfo>, outcomes: map<string, OracleSubmission>,
                                 address: Address, publicKey: H256)
    requires Consistent(oracles, outcomes)
    ensures Consistent(Enrolled(oracles, address, publicKey), outcomes)
  {
    if address !in oracles {
      assert SubmittedBy(outcomes, address) == {} by {
        forall marketId | marketId in outcomes
          ensures outcomes[marketId].oracleId != address
        {
        }
      }
    }
  }

  /** Registration is idempotent: registering a known address again changes
      nothing, whatever key it comes with. */
  lemma EnrolIdempotent(oracles: map<Address, OracleInfo>, address: Address, first: H256, second: H256)
    ensures address in Enrolled(oracles, address, first)
    ensures Enrolled(Enrolled(oracles, address, first), address, second) == Enrolled(oracles, address, first)
    ensures address in oracles ==> Enrolled(oracles, address, first) == oracles
  {
  }

  /** Accepting one more outcome moves a count on by one modulo 2^32. */
  lemma WrappingCount(accepted: nat)
    ensures WrappingAddU32(accepted % U32_MODULUS, 1) == (accepted + 1) % U32_MODULUS
  {
  }

  /** Accepting one more outcome moves the saturated score on by one. */
  lemma SaturatingScore(accepted: nat)
    ensures SaturatingAddU32(Min(INITIAL_REPUTATION + accepted, U32_MAX), 1)
            == Min(INITIAL_REPUTATION + accepted + 1, U32_MAX)
  {
  }

  /** Storing an outcome for a market that had none adds that market to its
      oracle's accepted set and to no other. */
  lemma SubmittedByAfterStore(outcomes: map<string, OracleSubmission>, submission: OracleSubmission,
                              oracle: Address)
    requires submission.marketId !in outcomes
    ensures var after := outcomes[submission.marketId := submission];
      |SubmittedBy(after, oracle)| ==
        |SubmittedBy(outcomes, oracle)| + if oracle == submission.oracleId then 1 else 0
  {
    var after := outcomes[submission.marketId := submission];
    if oracle == submission.oracleId {
      assert SubmittedBy(after, oracle) == SubmittedBy(outcomes, oracle) + {submission.marketId};
    } else {
      assert SubmittedBy(after, oracle) == SubmittedBy(outcomes, oracle);
    }
  }

  /** Accepting a registered oracle's outcome for a market without one, and
      crediting that oracle, keeps the registry consistent. */
  lemma AcceptPreservesConsistent(oracles: map<Address, OracleInfo>, outcomes: map<string, OracleSubmission>,
                                  submission: OracleSubmission)
    requires Consistent(oracles, outcomes)
    requires submission.oracleId in oracles
    requires submission.marketId !in outcomes
    ensures Consistent(oracles[submission.oracleId := Credited(oracles[submission.oracleId])],
                       outcomes[submission.marketId := submission])
  {
    var oracles' := oracles[submission.oracleId := Credited(oracles[submission.oracleId])];
    var outcomes' := outcomes[submission.marketId := submission];
    forall address | address in oracles'
      ensures oracles'[address].address == address
      ensures CountersAgree(oracles'[address], |SubmittedBy(outcomes', address)|)
    {
      SubmittedByAfterStore(outcomes, submission, address);
      if address == submission.oracleId {
        var accepted := |SubmittedBy(outcomes, address)|;
        WrappingCount(accepted);
        SaturatingScore(accepted);
      }
    }
  }

  /** In a consistent registry every oracle's reputation is at least the
      initial 100, and until the count wraps it is 100 more than the number
      of submissions recorded for it. */
  lemma ReputationTracksSubmissions(oracles: map<Address, OracleInfo>, outcomes: map<string, OracleSubmission>,
                                    address: Address)
    requires Consistent(oracles, outcomes)
    requires address in oracles
    ensures oracles[address].reputationScore >= INITIAL_REPUTATION
    ensures |SubmittedBy(outcomes, address)| + INITIAL_REPUTATION <= U32_MAX ==>
      oracles[address].reputationScore == oracles[address].totalSubmissions + INITIAL_REPUTATION
  {
  }

  class OracleManagerState {
    var registeredOracles: map<Address, OracleInfo>
    var marketOutcomes: map<string, OracleSubmission>

    ghost predicate Valid()
      reads this
    {
      Consistent(registeredOracles, marketOutcomes)
    }

    /** `OracleManagerState::new`: no oracles, no outcomes. */
    constructor ()
      ensures Valid()
      ensures registeredOracles == map[] && marketOutcomes == map[]
    {
      registeredOracles := map[];
      marketOutcomes := map[];
    }

    /** `verify_signature`: false for an unregistered oracle; otherwise the
        signature check against the oracle's registered address. */
    function VerifySignature(submission: OracleSubmission, check: SignatureCheck): (ok: bool)
      reads this
      ensures ok ==> submission.oracleId in registeredOracles
      ensures Valid() && submission.oracleId in registeredOracles ==>
        ok == check(submission, submission.oracleId)
    {
      if submission.oracleId in registeredOracles then
        check(submission, registeredOracles[submission.oracleId].address)
      else
        false
    }

    /** `register_oracle`, with the connected wallet `session`, the signer's
        answer to the request-signing step and the exchange's answer to the
        admin check passed in. */
    method RegisterOracle(address: Address, publicKey: H256, session: Option<Address>,
                          signing: Remote, adminCheck: Remote)
      returns (r: Result<(), OracleError>)
      requires Valid()
      modifies this`registeredOracles
      ensures Valid()
      ensures session.None? ==> r == Err(AuthError(Auth.NotAuthenticated))
      ensures session.Some? && signing.Failed? ==>
        r == Err(AuthError(Auth.ProviderError(signing.reason)))
      ensures session.Some? && signing.Succeeded? && adminCheck.Failed? ==>
        r == Err(HyperliquidError(adminCheck.reason))
      ensures r.Err? ==> registeredOracles == old(registeredOracles)
      ensures session.Some? && signing.Succeeded? && adminCheck.Succeeded? ==>
        r == Ok(()) && registeredOracles == Enrolled(old(registeredOracles), address, publicKey)
    {
      var caller := Auth.CurrentAddress(session);
      if caller.Err? {
        return Err(AuthError(caller.error));
      }
      if signing.Failed? {
        return Err(AuthError(Auth.ProviderError(signing.reason)));
      }
      if adminCheck.Failed? {
        return Err(HyperliquidError(adminCheck.reason));
      }
      EnrolPreservesConsistent(registeredOracles, marketOutcomes, address, publicKey);
      registeredOracles := Enrolled(registeredOracles, address, publicKey);
      r := Ok(());
    }

    /** `submit_outcome`, with the connected wallet `session`, the clock
        reading `now`, the signature verdict `check`, and the signer's and
        the exchange's answers for the forwarding step passed in. */
    method SubmitOutcome(marketId: string, outcome: bool, signature: Signature,
                         session: Option<Address>, now: U64, check: SignatureCheck,
                         signing: Remote, forwarding: Remote)
      returns (r: Result<(), OracleError>)
      requires Valid()
      modifies this`registeredOracles, this`marketOutcomes
      ensures Valid()
      // Rejections in order; none of them writes anything.
      ensures r.Err? ==>
        registeredOracles == old(registeredOracles) && marketOutcomes == old(marketOutcomes)
      ensures session.None? ==> r == Err(AuthError(Auth.NotAuthenticated))
      ensures session.Some? && session.value !in old(registeredOracles) ==>
        r == Err(OracleNotRegistered)
      ensures session.Some? && session.value in old(registeredOracles)
              && marketId in old(marketOutcomes) ==>
        r == Err(OutcomeAlreadySubmitted)
      ensures session.Some? && session.value in old(registeredOracles)
              && marketId !in old(marketOutcomes) ==>
        var submission := OracleSubmission(session.value, marketId, outcome, now, signature);
        && (!check(submission, session.value) ==> r == Err(InvalidSignature))
        && (check(submission, session.value) && signing.Failed? ==>
              r == Err(AuthError(Auth.ProviderError(signing.reason))))
        && (check(submission, session.value) && signing.Succeeded? && forwarding.Failed? ==>
              r == Err(HyperliquidError(forwarding.reason)))
        && (check(submission, session.value) && signing.Succeeded? && forwarding.Succeeded? ==>
              r == Ok(()))
      // An accepted outcome is never replaced.
      ensures forall m :: m in old(marketOutcomes) ==>
        m in marketOutcomes && marketOutcomes[m] == old(marketOutcomes)[m]
      // On success: the outcome is stored and only the caller is credited.
      ensures r.Ok? ==>
        && session.Some?
        && marketOutcomes == old(marketOutcomes)[marketId :=
             OracleSubmission(session.value, marketId, outcome, now, signature)]
        && registeredOracles == old(registeredOracles)[session.value :=
             Credited(old(registeredOracles)[session.value])]
        && GetOutcome(marketId) == Some(outcome)
    {
      var caller := Auth.CurrentAddress(session);
      if caller.Err? {
        return Err(AuthError(caller.error));
      }
      var oracleId := caller.value;
      if oracleId !in registeredOracles {
        return Err(OracleNotRegistered);
      }
      if marketId in marketOutcomes {
        return Err(OutcomeAlreadySubmitted);
      }
      var submission := OracleSubmission(oracleId, marketId, outcome, now, signature);
      if !VerifySignature(submission, check) {
        return Err(InvalidSignature);
      }
      if signing.Failed? {
        return Err(AuthError(Auth.ProviderError(signing.reason)));
      }
      if forwarding.Failed? {
        return Err(HyperliquidError(forwarding.reason));
      }
      AcceptPreservesConsistent(registeredOracles, marketOutcomes, submission);
      marketOutcomes := marketOutcomes[marketId := submission];
      registeredOracles := registeredOracles[oracleId := Credited(registeredOracles[oracleId])];
      r := Ok(());
    }

    /** `get_outcome`: the accepted outcome for a market, if there is one. */
    function GetOutcome(marketId: string): (r: Option<bool>)
      reads this
      ensures r.Some? <==> marketId in marketOutcomes
      ensures r.Some? ==> r.value == marketOutcomes[marketId].outcome
    {
      if marketId in marketOutcomes then Some(marketOutcomes[marketId].outcome) else None
    }

    /** `get_oracle_info`: an oracle's address, reputation and submission
        count, if it is registered. */
    function GetOracleInfo(address: Address): (r: Option<(Address, U32, U32)>)
      reads this
      ensures r.Some? <==> address in registeredOracles
      ensures r.Some? ==>
        r.value.1 == registeredOracles[address].reputationScore
        && r.value.2 == registeredOracles[address].totalSubmissions
      ensures r.Some? && Valid() ==> r.value.0 == address && r.value.1 >= INITIAL_REPUTATION
    {
      if address in registeredOracles then
        var info := registeredOracles[address];
        Some((info.address, info.reputationScore, info.totalSubmissions))
      else
        None
    }
  }
}
