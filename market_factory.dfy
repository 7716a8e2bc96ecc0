/** The market registry of contracts/src/market_factory.rs: a counter that
    hands out `MARKET_<n>` ids, the table of created markets and the oracle
    whitelist. `create_market` validates in a fixed order (expiry, oracle,
    caller) before it touches anything, then draws an id, asks the exchange
    for the YES/NO token pair and stores the new market. */
module MarketFactory {
  import opened Base
  import Auth
  import Decimal
  import Markets

  datatype FactoryError =
    | InvalidExpiryTime
    | InvalidOracle
    | AuthError(cause: Auth.AuthError)
    | ApiError(message: string)
    | Unauthorized

  /** `format!("MARKET_{}", n)`. */
  function MarketIdOf(n: nat): (id: string)
    ensures |id| > 7 && id[..7] == "MARKET_" && Decimal.AllDigits(id[7..])
  {
    "MARKET_" + Decimal.Render(n)
  }

  /** The counter value an id was made from: the number after the
      `MARKET_` prefix, if the id has that shape. */
  function ParseMarketId(id: string): Option<nat>
  {
    if |id| > 7 && id[..7] == "MARKET_" && Decimal.AllDigits(id[7..]) then Some(Decimal.Parse(id[7..]))
    else None
  }

  /** Reading back an id gives the counter value it was made from. */
  lemma ParseMarketIdOf(n: nat)
    ensures ParseMarketId(MarketIdOf(n)) == Some(n)
  {
    assert MarketIdOf(n)[..7] == "MARKET_";
    assert MarketIdOf(n)[7..] == Decimal.Render(n);
    Decimal.ParseRender(n);
  }

  /** Two counter values give the same id only if they are equal. */
  lemma MarketIdInjective(m: nat, n: nat)
    requires MarketIdOf(m) == MarketIdOf(n)
    ensures m == n
  {
    ParseMarketIdOf(m);
    ParseMarketIdOf(n);
  }

  /** `id` reads back as a counter value below `bound`: every id the counter
      produced before reaching `bound` does. */
  predicate IssuedBelow(id: string, bound: nat)
  {
    ParseMarketId(id).Some? && ParseMarketId(id).value < bound
  }

  /** An id issued below `bound` differs from the id the counter produces at
      `bound`. */
  lemma IssuedBelowExcludes(id: string, bound: nat)
    requires IssuedBelow(id, bound)
    ensures id != MarketIdOf(bound)
  {
    ParseMarketIdOf(bound);
  }

  /** The token pair the exchange client creates for a market: the id with
      `YES` and with `NO` appended. */
  function TokenPair(marketId: string): (pair: (string, string))
    ensures pair.0 != pair.1
  {
    var yes := marketId + "YES";
    var no := marketId + "NO";
    assert yes[|marketId|] == 'Y' && no[|marketId|] == 'N';
    (yes, no)
  }

  predicate IsHexDigit(c: char)
  {
    '0' <= c <= '9' || 'a' <= c <= 'f'
  }

  /** The lowercase hexadecimal digit for `d`. */
  function HexDigit(d: nat): (c: char)
    requires d < 16
    ensures IsHexDigit(c) && HexDigitValue(c) == d
  {
    if d < 10 then ('0' as int + d) as char else ('a' as int + (d - 10)) as char
  }

  function HexDigitValue(c: char): nat
    requires IsHexDigit(c)
  {
    if c <= '9' then c as int - '0' as int else c as int - 'a' as int + 10
  }

  function Pow16(k: nat): (p: nat)
    ensures p >= 1
  {
    if k == 0 then 1 else 16 * Pow16(k - 1)
  }

  /** The number a string of hexadecimal digits spells, most significant
      first. */
  function HexValue(s: string): nat
    requires forall i :: 0 <= i < |s| ==> IsHexDigit(s[i])
    decreases |s|
  {
    if s == [] then 0 else HexValue(s[..|s| - 1]) * 16 + HexDigitValue(s[|s| - 1])
  }

  /** The `width` lowest hexadecimal digits of `n`, most significant first. */
  function FixedHex(n: nat, width: nat): (s: string)
    ensures |s| == width
    ensures forall i :: 0 <= i < |s| ==> IsHexDigit(s[i])
    decreases width
  {
    if width == 0 then [] else FixedHex(n / 16, width - 1) + [HexDigit(n % 16)]
  }

  /** 16^(a + b) is 16^a times 16^b. */
  lemma {:induction false} Pow16Add(a: nat, b: nat)
    ensures Pow16(a + b) == Pow16(a) * Pow16(b)
    decreases a
  {
    if a > 0 {
      Pow16Add(a - 1, b);
    }
  }

  /** 16^40 is 2^160, one more than the largest address. */
  lemma Pow16Forty()
    ensures Pow16(40) == 0x1_0000_0000_0000_0000_0000_0000_0000_0000_0000_0000
  {
    assert Pow16(10) == 0x100_0000_0000;
    Pow16Add(10, 10);
    Pow16Add(20, 20);
  }

  /** Reading back `width` hexadecimal digits of a number below 16^width
      gives the number. */
  lemma {:induction false} FixedHexValue(n: nat, width: nat)
    requires n < Pow16(width)
    ensures HexValue(FixedHex(n, width)) == n
    decreases width
  {
    var s := FixedHex(n, width);
    if width > 0 {
      var prefix := FixedHex(n / 16, width - 1);
      assert s == prefix + [HexDigit(n % 16)];
      assert s[..|s| - 1] == prefix;
      FixedHexValue(n / 16, width - 1);
    }
  }

  /** `format!("{:?}", address)`: `0x` and all forty lowercase hex digits of
      the address, which read back as the address. */
  function DebugAddress(a: Address): (s: string)
    ensures |s| == 42 && s[..2] == "0x"
    ensures forall i :: 2 <= i < |s| ==> IsHexDigit(s[i])
    ensures HexValue(s[2..]) == a
  {
    Pow16Forty();
    FixedHexValue(a, 40);
    var s := "0x" + FixedHex(a, 40);
    assert s[2..] == FixedHex(a, 40);
    s
  }

  /** Distinct addresses render differently. */
  lemma DebugAddressInjective(a: Address, b: Address)
    requires DebugAddress(a) == DebugAddress(b)
    ensures a == b
  {
    assert DebugAddress(a)[2..] == DebugAddress(b)[2..];
  }

  /** The escape `{:?}` writes for one character of a string. */
  function EscapeChar(c: char): string
  {
    if c == '"' then "\\\""
    else if c == '\\' then "\\\\"
    else if c == '\n' then "\\n"
    else if c == '\r' then "\\r"
    else if c == '\t' then "\\t"
    else if c == '\0' then "\\0"
    else [c]
  }

  function Escape(s: string): string
    decreases |s|
  {
    if s == [] then "" else EscapeChar(s[0]) + Escape(s[1..])
  }

  /** `format!("{:?}", text)`: the text quoted, with quotes, backslashes and
      the common control characters escaped. */
  function DebugString(text: string): (s: string)
    ensures |s| >= 2 && s[0] == '"' && s[|s| - 1] == '"'
  {
    "\"" + Escape(text) + "\""
  }

  /** The validation `create_market` runs before it changes anything, in
      order: the expiry must lie after `now`, the oracle must be whitelisted,
      and a wallet must be connected. None when all three pass. */
  function CreationRejection(expiryTimestamp: U64, now: nat, oracleListed: bool,
                             session: Option<Address>): (rejection: Option<FactoryError>)
    ensures expiryTimestamp <= now ==> rejection == Some(InvalidExpiryTime)
    ensures expiryTimestamp > now && !oracleListed ==> rejection == Some(InvalidOracle)
    ensures expiryTimestamp > now && oracleListed && session.None? ==>
      rejection == Some(AuthError(Auth.NotAuthenticated))
    ensures rejection.None? <==> expiryTimestamp > now && oracleListed && session.Some?
  {
    if expiryTimestamp <= now then Some(InvalidExpiryTime)
    else if !oracleListed then Some(InvalidOracle)
    else
      match Auth.CurrentAddress(session)
      case Err(e) => Some(AuthError(e))
      case Ok(_) => None
  }

  /** The market `create_market` stores under `marketId`. */
  function NewMarket(marketId: string, question: string, expiryTimestamp: U64,
                     oracleId: Address, collateralToken: string): (m: Markets.Market)
    ensures m.question == question && m.expiryTimestamp == expiryTimestamp
    ensures m.status == Markets.Active && m.resolvedOutcome == None
    ensures (m.yesTokenAddress, m.noTokenAddress) == TokenPair(marketId)
    ensures Markets.OutcomeOnlyWhenResolved(m)
  {
    Markets.Market(question, expiryTimestamp, DebugAddress(oracleId), DebugString(collateralToken),
           Markets.Active, TokenPair(marketId).0, TokenPair(marketId).1, None)
  }

  /** What every stored market looks like: as created, never touched since. */
  predicate FreshlyCreated(marketId: string, m: Markets.Market)
  {
    && m.status == Markets.Active
    && m.resolvedOutcome == None
    && (m.yesTokenAddress, m.noTokenAddress) == TokenPair(marketId)
  }

  /** `oracleId` is the rendering of some address on `whitelist`. */
  predicate RendersListed(oracleId: string, whitelist: seq<Address>)
    decreases |whitelist|
  {
    whitelist != [] && (oracleId == DebugAddress(whitelist[0]) || RendersListed(oracleId, whitelist[1..]))
  }

  /** The rendering of a whitelisted address is listed, and one that is
      listed is the rendering of a whitelisted address. */
  lemma {:induction false} RendersListedIff(oracleId: string, whitelist: seq<Address>)
    ensures RendersListed(oracleId, whitelist) <==>
      exists oracle :: oracle in whitelist && oracleId == DebugAddress(oracle)
    decreases |whitelist|
  {
    if whitelist != [] {
      RendersListedIff(oracleId, whitelist[1..]);
      assert forall oracle :: oracle in whitelist <==> oracle == whitelist[0] || oracle in whitelist[1..];
    }
  }

  /** Appending to the whitelist keeps every listed rendering listed. */
  lemma {:induction false} RendersListedAppend(oracleId: string, whitelist: seq<Address>, added: Address)
    requires RendersListed(oracleId, whitelist)
    ensures RendersListed(oracleId, whitelist + [added])
    decreases |whitelist|
  {
    assert (whitelist + [added])[0] == whitelist[0];
    assert (whitelist + [added])[1..] == whitelist[1..] + [added];
    if oracleId != DebugAddress(whitelist[0]) {
      RendersListedAppend(oracleId, whitelist[1..], added);
    }
  }

  /** A table entry as the registry keeps it: its key is an id the counter
      produced before reaching `bound`, the market is still as created, and
      its oracle is the rendering of a whitelisted address. */
  predicate WellStored(id: string, m: Markets.Market, whitelist: seq<Address>, bound: nat)
  {
    && IssuedBelow(id, bound)
    && FreshlyCreated(id, m)
    && RendersListed(m.oracleId, whitelist)
  }

  predicate AllWellStored(markets: map<string, Markets.Market>, whitelist: seq<Address>, bound: nat)
  {
    forall id :: id in markets ==> WellStored(id, markets[id], whitelist, bound)
  }

  /** The market `create_market` stores when the counter stood at `n` is
      well stored once the counter has moved past `n`. */
  lemma NewEntryWellStored(n: nat, question: string, expiryTimestamp: U64, oracleId: Address,
                           collateralToken: string, whitelist: seq<Address>)
    requires oracleId in whitelist
    ensures WellStored(MarketIdOf(n), NewMarket(MarketIdOf(n), question, expiryTimestamp, oracleId, collateralToken),
                       whitelist, n + 1)
  {
    var m := NewMarket(MarketIdOf(n), question, expiryTimestamp, oracleId, collateralToken);
    RendersListedIff(m.oracleId, whitelist);
    ParseMarketIdOf(n);
  }

  /** Storing a well-stored entry keeps the whole table well stored. */
  lemma StoreKeepsWellStored(markets: map<string, Markets.Market>, whitelist: seq<Address>, bound: nat,
                             id: string, m: Markets.Market)
    requires AllWellStored(markets, whitelist, bound)
    requires WellStored(id, m, whitelist, bound)
    ensures AllWellStored(markets[id := m], whitelist, bound)
  {
  }

  class MarketFactoryState {
    var markets: map<string, Markets.Market>
    var oracleWhitelist: seq<Address>
    var nextMarketId: nat
    const listingFee: U256

    /** Every table entry is well stored. */
    ghost predicate Valid()
      reads this
    {
      AllWellStored(markets, oracleWhitelist, nextMarketId)
    }

    /** `MarketFactoryState::new`: no markets, no oracles, counter at 0. */
    constructor (listingFee: U256)
      ensures Valid()
      ensures markets == map[] && oracleWhitelist == [] && nextMarketId == 0
      ensures this.listingFee == listingFee
    {
      markets := map[];
      oracleWhitelist := [];
      nextMarketId := 0;
      this.listingFee := listingFee;
    }

    /** `generate_market_id`: the id of the counter's current value; the
        counter moves on by one. */
    method GenerateMarketId() returns (id: string)
      requires Valid()
      modifies this`nextMarketId
      ensures Valid()
      ensures id == MarketIdOf(old(nextMarketId))
      ensures nextMarketId == old(nextMarketId) + 1
      ensures id !in markets
    {
      id := MarketIdOf(nextMarketId);
      forall key | key in markets
        ensures key != id
      {
        IssuedBelowExcludes(key, nextMarketId);
      }
      nextMarketId := nextMarketId + 1;
    }

    /** `create_market`, with the clock reading `now`, the connected wallet
        `session` and the exchange's answer to the token-pair request passed
        in. Validation comes first and changes nothing; the rest is
        `OpenMarket`. */
    method CreateMarket(question: string, expiryTimestamp: U64, oracleId: Address,
                        collateralToken: string, now: nat, session: Option<Address>,
                        pairRequest: Remote)
      returns (r: Result<string, FactoryError>)
      requires Valid()
      modifies this`markets, this`nextMarketId
      ensures Valid()
      ensures var rejection := CreationRejection(expiryTimestamp, now, oracleId in oracleWhitelist, session);
        && (rejection.Some? ==>
              r == Err(rejection.value) && markets == old(markets) && nextMarketId == old(nextMarketId))
        // Past validation the counter has moved on, whatever the exchange says.
        && (rejection.None? ==> nextMarketId == old(nextMarketId) + 1)
        && (rejection.None? && pairRequest.Failed? ==>
              r == Err(ApiError(pairRequest.reason)) && markets == old(markets))
        && (rejection.None? && pairRequest.Succeeded? ==>
              && r == Ok(MarketIdOf(old(nextMarketId)))
              && r.value !in old(markets)
              && markets == old(markets)[r.value := NewMarket(r.value, question, expiryTimestamp, oracleId, collateralToken)]
              && |markets| == |old(markets)| + 1)
    {
      var rejection := CreationRejection(expiryTimestamp, now, oracleId in oracleWhitelist, session);
      if rejection.Some? {
        return Err(rejection.value);
      }
      r := OpenMarket(question, expiryTimestamp, oracleId, collateralToken, pairRequest);
    }

    /** The part of `create_market` after validation: draw an id, ask the
        exchange for the token pair, store the new market under the id. */
    method OpenMarket(question: string, expiryTimestamp: U64, oracleId: Address,
                      collateralToken: string, pairRequest: Remote)
      returns (r: Result<string, FactoryError>)
      requires Valid()
      requires oracleId in oracleWhitelist
      modifies this`markets, this`nextMarketId
      ensures Valid()
      ensures nextMarketId == old(nextMarketId) + 1
      ensures pairRequest.Failed? ==> r == Err(ApiError(pairRequest.reason)) && markets == old(markets)
      ensures pairRequest.Succeeded? ==>
        && r == Ok(MarketIdOf(old(nextMarketId)))
        && r.value !in old(markets)
        && markets == old(markets)[r.value := NewMarket(r.value, question, expiryTimestamp, oracleId, collateralToken)]
        && |markets| == |old(markets)| + 1
    {
      var marketId := GenerateMarketId();
      if pairRequest.Failed? {
        return Err(ApiError(pairRequest.reason));
      }
      var market := NewMarket(marketId, question, expiryTimestamp, oracleId, collateralToken);
      NewEntryWellStored(nextMarketId - 1, question, expiryTimestamp, oracleId, collateralToken, oracleWhitelist);
      StoreKeepsWellStored(markets, oracleWhitelist, nextMarketId, marketId, market);
      markets := markets[marketId := market];
      r := Ok(marketId);
    }

    /** `get_market`. */
    function GetMarket(marketId: string): (r: Option<Markets.Market>)
      reads this
      ensures r.Some? <==> marketId in markets
      ensures r.Some? ==> r.value == markets[marketId]
    {
      if marketId in markets then Some(markets[marketId]) else None
    }

    /** `list_markets`: every stored (id, market) pair exactly once, in no
        particular order. */
    method ListMarkets() returns (entries: seq<(string, Markets.Market)>)
      ensures |entries| == |markets|
      ensures forall i :: 0 <= i < |entries| ==>
        entries[i].0 in markets && markets[entries[i].0] == entries[i].1
      ensures forall id :: id in markets ==> exists i :: 0 <= i < |entries| && entries[i].0 == id
      ensures forall i, j :: 0 <= i < j < |entries| ==> entries[i].0 != entries[j].0
    {
      entries := [];
      var pending := markets.Keys;
      while pending != {}
        invariant pending <= markets.Keys
        invariant |entries| + |pending| == |markets.Keys|
        invariant forall i :: 0 <= i < |entries| ==>
          entries[i].0 in markets.Keys - pending && markets[entries[i].0] == entries[i].1
        invariant forall id :: id in markets.Keys - pending ==>
          exists i :: 0 <= i < |entries| && entries[i].0 == id
        invariant forall i, j :: 0 <= i < j < |entries| ==> entries[i].0 != entries[j].0
        decreases pending
      {
        var id :| id in pending;
        ghost var before, waiting := entries, pending;
        entries := entries + [(id, markets[id])];
        pending := pending - {id};
        forall listed | listed in markets.Keys - pending
          ensures exists i :: 0 <= i < |entries| && entries[i].0 == listed
        {
          if listed == id {
            assert entries[|entries| - 1].0 == listed;
          } else {
            assert listed in markets.Keys - waiting;
            var i :| 0 <= i < |before| && before[i].0 == listed;
            assert entries[i].0 == listed;
          }
        }
      }
      assert markets.Keys - pending == markets.Keys;
    }

    /** `add_oracle`. The permission check compares the caller's address
        with the current address, which is the same value, so an
        authenticated caller is never refused; the address is appended even
        when it is already whitelisted. */
    method AddOracle(oracleId: Address, session: Option<Address>)
      returns (r: Result<(), FactoryError>)
      requires Valid()
      modifies this`oracleWhitelist
      ensures Valid()
      ensures session.None? ==>
        r == Err(AuthError(Auth.NotAuthenticated)) && oracleWhitelist == old(oracleWhitelist)
      ensures session.Some? ==>
        r == Ok(()) && oracleWhitelist == old(oracleWhitelist) + [oracleId]
      ensures |oracleWhitelist| == |old(oracleWhitelist)| + if session.Some? then 1 else 0
    {
      var caller := Auth.CurrentAddress(session);
      if caller.Err? {
        return Err(AuthError(caller.error));
      }
      forall id | id in markets
        ensures RendersListed(markets[id].oracleId, oracleWhitelist + [oracleId])
      {
        RendersListedAppend(markets[id].oracleId, oracleWhitelist, oracleId);
      }
      oracleWhitelist := oracleWhitelist + [oracleId];
      r := Ok(());
    }
  }
}
