# hypermarket contracts core, modelled in Dafny

This project models the three stateful components of the hypermarket
contracts crate (`contracts/src`), a binary-outcome prediction market built
on the Hyperliquid exchange:

- **Market record and settlement engine** (`market.dfy`, module `Markets`):
  the `Market` record, its `MarketStatus` (Active, Expired, Resolved), the
  `MarketError` taxonomy and the engine record `MarketContractState`
  (paired YES/NO supplies, per-user token and collateral ledgers, total
  collateral). In the code, the constructor builds an empty ledger and the
  four `MarketContract` operations (mint, burn, resolve, claim) are stubs
  that succeed and change nothing. The model keeps exactly that. It proves
  that every engine reachable from `new` satisfies the design's ledger
  invariants: per-user collateral sums to the total, per-user YES and NO
  holdings sum to the supplies, and the two supplies are equal.
- **Market registry** (`market_factory.dfy`, class
  `MarketFactory.MarketFactoryState`): an id counter that produces
  `MARKET_<n>`, the market table and the oracle whitelist. `create_market`
  rejects in a fixed order before anything changes: first a past expiry,
  then an unlisted oracle, then a missing caller. It then draws an id, which
  advances the counter even if the exchange then fails. It asks the exchange
  for the token pair and stores an Active market with no outcome. The class
  invariant says that every key reads back as a counter value below the
  current counter, every stored market is still Active with no outcome, and
  every stored market names the rendering of a whitelisted oracle.
  Together with the proof that an id reads back as the counter value it was
  made from (`decimal.dfy`), this shows that a new id never collides with a
  stored one.
- **Oracle registry** (`oracle.dfy`, class `Oracle.OracleManagerState`):
  registered oracles with reputation and submission counters, and a
  write-once map from market id to accepted submission. Registration is
  idempotent. Every rejection of `submit_outcome` comes before its first
  write. The class invariant ties each oracle's counters to the outcomes it
  has had accepted. `total_submissions` is their number modulo 2^32.
  `reputation_score` is 100 plus their number, saturating at 2^32 - 1.

`scenarios.dfy` replays three of the source's unit tests against the
contracts, and adds a fourth scenario (a second submission for a decided
market) that no source test covers. In `test_outcome_submission`
(`contracts/src/oracle.rs:311-343`) the signature check is not modelled:
the scenario assumes, as its precondition, that the signature is accepted.
Read as written, the test's fixture would not give that: it signs a message
with the fixed timestamp 1234567890 through `sign_message`, which hashes
with the EIP-191 prefix, while `verify_signature` rebuilds the message with
the wall-clock timestamp of the submission and verifies against the bare
keccak-256 hash (`contracts/src/oracle.rs:79-99`, `199-202`).

Collaborators are inputs, not code:
- The connected wallet is an `Option<Address>`; with no wallet, the caller
  lookup fails with `NotAuthenticated`.
- The clock reading is a `now` parameter.
- Each exchange or signer round trip (token-pair creation, request signing,
  the admin check, forwarding an outcome) is a `Remote` value that either
  succeeded or failed with a message.
- ECDSA verification of an oracle's signature is a function parameter
  (`SignatureCheck`).
- On success, the token pair is the market id with `YES` and `NO`
  appended. This is what the exchange client builds
  (`contracts/src/hyperliquid_client.rs:98-99`).

Where the design description and the code disagree, the model follows the
code:
- The engine operations are stubs. The design's deposit, withdraw, margin,
  order, expiry-check and claim-once rules are not in the code, so they are
  not modelled.
- `add_oracle` is meant to be admin-only. The code compares the caller's
  address with the current address, which is the same value. So every
  authenticated caller may whitelist, and a repeated address is appended
  again.
- `register_oracle` leaves the admin decision to the exchange's admin
  check.

## Model

| member | source | states |
|---|---|---|
| Markets.NewEngine | contracts/src/market.rs:89-106 | a fresh engine keeps the given market (status and outcome included), has no user entries, and satisfies the ledger invariants: zero, equal supplies matching the empty token ledger, and zero total collateral matching the empty collateral ledger |
| Markets.MintLeavesLedger | contracts/src/market.rs:111-114 | the contract of `Markets.MintTokens`: `mint_tokens` always returns Ok and leaves supplies, balances and total collateral unchanged |
| Markets.BurnLeavesLedger | contracts/src/market.rs:116-119 | the contract of `Markets.BurnTokens`: `burn_tokens` always returns Ok and leaves supplies, balances and total collateral unchanged, whatever amounts it is given |
| Markets.ResolveLeavesMarket | contracts/src/market.rs:121-124 | the contract of `Markets.Resolve`: `resolve` always returns Ok and changes neither the status nor the recorded outcome, whatever outcome it is given |
| Markets.ClaimPaysNothing | contracts/src/market.rs:126-129 | the contract of `Markets.ClaimWinnings`: `claim_winnings` always returns Ok(0) and changes no field |
| Markets.RunChangesNothing | contracts/src/market.rs:109-130 | every call in any sequence of mint/burn/resolve/claim calls succeeds, and the sequence leaves the engine as it was |
| Markets.ReachableEnginesConsistent | contracts/src/market.rs:88-130 | every engine reachable from `new` by trait calls satisfies the ledger invariants and still holds the market it was built with, so the market invariant "outcome only when resolved" is preserved |
| Decimal.Render | contracts/src/market_factory.rs:94 | the `{}` rendering of the counter is a non-empty string of decimal digits with no leading zero (a leading `0` only for 0 itself) |
| Decimal.ParseRender | contracts/src/market_factory.rs:94 | reading back the decimal rendering of the counter gives the counter |
| Decimal.RenderInjective | contracts/src/market_factory.rs:94 | distinct counter values render as distinct digit strings |
| MarketFactory.MarketIdOf | contracts/src/market_factory.rs:94 | `format!("MARKET_{}", id)` is `MARKET_` followed by at least one decimal digit |
| MarketFactory.ParseMarketIdOf | contracts/src/market_factory.rs:91-95 | the number after `MARKET_` in a generated id reads back as the counter value it was made from |
| MarketFactory.MarketIdInjective | contracts/src/market_factory.rs:91-95 | two counter values give the same `MARKET_<n>` id only if they are equal |
| MarketFactory.IssuedBelowExcludes | contracts/src/market_factory.rs:91-95 | an id that reads back as a counter value below n differs from the id produced at n, so successive ids are pairwise distinct |
| MarketFactory.TokenPair | contracts/src/hyperliquid_client.rs:98-99 | the YES and NO token ids the exchange client builds for a market are distinct |
| MarketFactory.DebugAddress | contracts/src/market_factory.rs:144 | the `{:?}` rendering of the oracle address is 42 characters: `0x` followed by forty lowercase hex digits, which read back as the address |
| MarketFactory.FixedHexValue | contracts/src/market_factory.rs:144 | reading back `width` hex digits of a number below 16^width gives the number |
| MarketFactory.DebugAddressInjective | contracts/src/market_factory.rs:144 | distinct oracle addresses are stored as distinct strings |
| MarketFactory.DebugString | contracts/src/market_factory.rs:145 | the `{:?}` rendering of the collateral token is enclosed in double quotes |
| MarketFactory.NewMarket | contracts/src/market_factory.rs:141-150 | the market stored for a new id has the given question and expiry, is Active with no outcome (so it meets the market invariant), and carries the exchange's token pair for that id |
| MarketFactory.RendersListedIff | contracts/src/market_factory.rs:127-129 | a stored oracle string is listed exactly when it is the `{:?}` rendering of some whitelisted address (both directions) |
| MarketFactory.RendersListedAppend | contracts/src/market_factory.rs:189 | appending to the whitelist keeps every listed oracle rendering listed, so `add_oracle` keeps the stored markets' oracles whitelisted |
| MarketFactory.NewEntryWellStored | contracts/src/market_factory.rs:127-150 | the market stored for counter value n, with a whitelisted oracle, is keyed by an id issued below n + 1, is as created, and names a whitelisted oracle |
| MarketFactory.MarketFactoryState.constructor | contracts/src/market_factory.rs:72-89 | a new registry has no markets, an empty whitelist and the counter at 0 |
| MarketFactory.MarketFactoryState.GenerateMarketId | contracts/src/market_factory.rs:91-95 | returns `MARKET_` and the decimal of the counter's old value, increments the counter by exactly 1, and the id is not a stored key |
| MarketFactory.CreationRejection | contracts/src/market_factory.rs:119-131 | validation in the source's order: an expiry not after `now` gives `InvalidExpiryTime`, then an unlisted oracle `InvalidOracle`, then a missing caller `NotAuthenticated`; it passes exactly when all three hold |
| MarketFactory.MarketFactoryState.CreateMarket | contracts/src/market_factory.rs:112-170 | a rejected request returns that rejection with the table and the counter unchanged. Otherwise the counter advances by one. A failed exchange call gives `ApiError` with no market stored. On success it returns the new id, which was not a stored key, and adds exactly one entry: an Active market with no outcome, the given question and expiry, and the exchange's token ids. Every other entry stays as it was |
| MarketFactory.MarketFactoryState.OpenMarket | contracts/src/market_factory.rs:133-152 | after validation: the counter advances by one whatever the exchange answers; a failed exchange call stores nothing; a successful one stores the new market under the fresh id and nothing else |
| MarketFactory.MarketFactoryState.GetMarket | contracts/src/market_factory.rs:172-174 | returns the stored market for an id, and None exactly when the id is not stored |
| MarketFactory.MarketFactoryState.ListMarkets | contracts/src/market_factory.rs:176-181 | lists every stored (id, market) pair exactly once and nothing else |
| MarketFactory.MarketFactoryState.AddOracle | contracts/src/market_factory.rs:183-201 | an authenticated caller is never refused (no `Unauthorized`), and the address is appended even if already listed, so the whitelist grows by exactly one; with no caller it fails with `NotAuthenticated` and the whitelist is unchanged |
| Base.SaturatingAddU32 | contracts/src/oracle.rs:228 | `u32::saturating_add`: the sum when it fits, 2^32 - 1 otherwise |
| Base.WrappingAddU32 | contracts/src/oracle.rs:226 | `+= 1` on a `u32` without overflow checks: the sum when it fits, the sum minus 2^32 otherwise |
| Auth.CurrentAddress | contracts/src/auth.rs:85-90 | the caller lookup succeeds exactly when a wallet is connected, with its address, and otherwise fails with `NotAuthenticated` |
| Oracle.Credited | contracts/src/oracle.rs:224-228 | an accepted outcome raises the oracle's submission count by one and its reputation by one, the reputation saturating and never decreasing; address and key are kept |
| Oracle.NewOracleInfo | contracts/src/oracle.rs:159-164 | the record for a newly registered oracle carries its address and key, and the counters of an oracle with no accepted outcomes: reputation 100 and no submissions |
| Oracle.Enrolled | contracts/src/oracle.rs:158-165 | after registration the address is registered and no other is added; every existing record, the registered address's included, is kept as it was; an unknown address gets a fresh record |
| Oracle.EnrolPreservesConsistent | contracts/src/oracle.rs:158-165 | registering keeps the registry invariant: a new oracle starts with reputation 100 and no submissions, which matches its empty set of accepted outcomes |
| Oracle.EnrolIdempotent | contracts/src/oracle.rs:158-177 | registering an address puts it in the registry, and registering a known address again, whatever key it comes with, changes nothing |
| Oracle.AcceptPreservesConsistent | contracts/src/oracle.rs:221-228 | storing a registered oracle's outcome for a market with none, and crediting that oracle, keeps each oracle's counters equal to what its accepted outcomes imply |
| Oracle.ReputationTracksSubmissions | contracts/src/oracle.rs:162-163 | in a consistent registry every reputation is at least 100, and it is 100 more than the submission count until the counters saturate or wrap |
| Oracle.OracleManagerState.constructor | contracts/src/oracle.rs:62-77 | a new registry has no oracles and no outcomes |
| Oracle.OracleManagerState.VerifySignature | contracts/src/oracle.rs:79-99 | false for an unregistered oracle; for a registered one, the verdict of the signature check against the oracle's own address |
| Oracle.OracleManagerState.RegisterOracle | contracts/src/oracle.rs:143-178 | the caller, signing and admin checks fail in that order with nothing changed. Otherwise it returns Ok, adds an unknown address with reputation 100 and no submissions, and keeps an existing record untouched |
| Oracle.OracleManagerState.SubmitOutcome | contracts/src/oracle.rs:180-247 | rejects in order: no caller, unregistered caller (`OracleNotRegistered`), market already decided (`OutcomeAlreadySubmitted`), signature refused, signing failure, forwarding failure. No rejection changes either map. An accepted outcome is never replaced. On success it stores the caller's submission (timestamp `now`), makes `get_outcome` return it, and credits the caller's counters and no other record |
| Oracle.OracleManagerState.GetOutcome | contracts/src/oracle.rs:249-251 | the stored outcome for a market, and None exactly when the market has no accepted submission |
| Oracle.OracleManagerState.GetOracleInfo | contracts/src/oracle.rs:253-257 | an oracle's address, reputation and submission count exactly when it is registered; in a consistent registry the address is the one asked for and the reputation is at least 100 |
| Scenarios.CreateMarketWithWhitelistedOracle | contracts/src/market_factory.rs:243-271 | after whitelisting the wallet, creating a market one day ahead succeeds exactly when the exchange call does, and the stored market is Active |
| Scenarios.CreateMarketWithUnknownOracle | contracts/src/market_factory.rs:273-293 | with an empty whitelist, creating a market with the zero address as oracle gives `InvalidOracle` |
| Scenarios.SubmitOutcomeAsRegisteredOracle | contracts/src/oracle.rs:311-343 | a registered oracle whose signature is accepted and whose submission is forwarded sees `get_outcome` return Some(true) |
| Scenarios.SecondSubmissionRefused | contracts/src/oracle.rs:194-196 | a second submission for an already decided market gives `OutcomeAlreadySubmitted`, and the first outcome stays |

## Left out

- Event emission (`contracts/src/events.rs`) is left out. It is fire-and-forget logging with no effect on state.
- The auth manager, the exchange client and the event emitter held by each state record are left out. They hold no ledger or registry state; their answers are parameters.
- Wallet handling, ECDSA signing and keccak-256 hashing are left out. The signature check is a function parameter. Its message includes a timestamp read from the wall clock, so the signature contents are not modelled.
- `generate_token_address` (`contracts/src/market_factory.rs:98-103`) is left out. It is a keccak-256 hash, and nothing calls it.
- The `listing_fee` is stored by the registry and used by nothing. It is kept as a constant field with no behaviour.
- `OracleManagerState::new` can fail when the exchange API client cannot be built. That failure is not modelled; the constructor always succeeds.
- MarketFactory.MarketFactoryState.GenerateMarketId: the counter is unbounded, so the `u64` overflow after 2^64 creations is not modelled.
- Oracle.OracleManagerState.SubmitOutcome: `total_submissions += 1` is modelled with release-build wrap-around. A debug build would panic on overflow after storing the outcome; that is not modelled.
- MarketFactory.DebugString: only the quote, backslash, newline, return, tab and NUL escapes of Rust's `{:?}` are modelled. The `\u{…}` escapes for other non-printable characters are not.
- `MarketError::ApiError` and the exchange errors carry the collaborator's message as a plain string; the exchange's own error types are not modelled.
- Everything under `backend/` (HTTP handlers, database schema and server wiring) is left out. It is a persistence mirror, not engine logic.
- The command-line binary and the example flow are left out.
- The deposit/withdraw, order placement, expiry check, margin model and claim-once rules of the design description are left out. The code does not implement them: its engine operations are stubs.
