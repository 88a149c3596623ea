/** The global configuration: optional-field updates and the checks they must pass. */
module GlobalConfigs {
  import opened Base

  datatype Configs = Configs(
    authority: User,
    feeTreasury: User,
    marketFeeRateBps: U16,
    minOutbidRateBps: U16,
    lastMinutesForAuctionExtend: U8,
    auctionExtendMinutes: U8,
    minAuctionDuration: U64,
    maxAuctionDuration: U64,
    minRaffleTicketSupply: U16,
    maxRaffleTicketSupply: U16,
    maxRaffledNfts: U8,
    minRaffleDuration: U64,
    maxRaffleDuration: U64,
    auctionCreationEnabled: bool,
    raffleCreationEnabled: bool,
    totalAuctions: U64,
    totalRaffles: U64,
    numKeysPerIndexPage: U16)

  datatype UpdateConfigsInput = UpdateConfigsInput(
    marketFeeRateBps: Option<U16>,
    feeTreasury: Option<User>,
    minOutbidRateBps: Option<U16>,
    lastMinutesForAuctionExtend: Option<U8>,
    auctionExtendMinutes: Option<U8>,
    minAuctionDuration: Option<U64>,
    maxAuctionDuration: Option<U64>,
    minRaffleTicketSupply: Option<U16>,
    maxRaffleTicketSupply: Option<U16>,
    maxRaffledNfts: Option<U8>,
    minRaffleDuration: Option<U64>,
    maxRaffleDuration: Option<U64>,
    auctionCreationEnabled: Option<bool>,
    raffleCreationEnabled: Option<bool>)

  function Pick<T>(given: Option<T>, current: T): T {
    if given.Some? then given.value else current
  }

  /** The configuration an update asks for. The page size is not updatable outside a test environment. */
  function Updated(c: Configs, input: UpdateConfigsInput): Configs {
    c.(marketFeeRateBps := Pick(input.marketFeeRateBps, c.marketFeeRateBps),
       feeTreasury := Pick(input.feeTreasury, c.feeTreasury),
       minOutbidRateBps := Pick(input.minOutbidRateBps, c.minOutbidRateBps),
       lastMinutesForAuctionExtend := Pick(input.lastMinutesForAuctionExtend, c.lastMinutesForAuctionExtend),
       auctionExtendMinutes := Pick(input.auctionExtendMinutes, c.auctionExtendMinutes),
       minAuctionDuration := Pick(input.minAuctionDuration, c.minAuctionDuration),
       maxAuctionDuration := Pick(input.maxAuctionDuration, c.maxAuctionDuration),
       minRaffleTicketSupply := Pick(input.minRaffleTicketSupply, c.minRaffleTicketSupply),
       maxRaffleTicketSupply := Pick(input.maxRaffleTicketSupply, c.maxRaffleTicketSupply),
       maxRaffledNfts := Pick(input.maxRaffledNfts, c.maxRaffledNfts),
       minRaffleDuration := Pick(input.minRaffleDuration, c.minRaffleDuration),
       maxRaffleDuration := Pick(input.maxRaffleDuration, c.maxRaffleDuration),
       auctionCreationEnabled := Pick(input.auctionCreationEnabled, c.auctionCreationEnabled),
       raffleCreationEnabled := Pick(input.raffleCreationEnabled, c.raffleCreationEnabled))
  }

  /** The first check a configuration fails. */
  function ConfigError(c: Configs): Option<ErrorCode> {
    if c.marketFeeRateBps >= 10000 then Some(InvalidMarketFeeRate)
    else if c.minOutbidRateBps == 0 || c.minOutbidRateBps >= 10000 then Some(InvalidMinOutbidRate)
    else if c.lastMinutesForAuctionExtend == 0 || c.auctionExtendMinutes == 0 then
      Some(InvalidAuctionExtensionSettings)
    else if c.minAuctionDuration == 0 || c.maxAuctionDuration == 0 || c.minAuctionDuration >= c.maxAuctionDuration then
      Some(InvalidAuctionDurationRangeSettings)
    else if c.minRaffleTicketSupply == 0 || c.maxRaffleTicketSupply == 0
            || c.minRaffleTicketSupply >= c.maxRaffleTicketSupply then
      Some(InvalidRaffleTicketSupplyRangeSettings)
    else if c.minRaffleDuration == 0 || c.maxRaffleDuration == 0 || c.minRaffleDuration >= c.maxRaffleDuration then
      Some(InvalidRaffleDurationRangeSettings)
    else None
  }

  /** What every update validates. */
  predicate Validated(c: Configs) {
    ConfigError(c).None?
  }

  /** The same but for the fee, which initialization takes as it is given. */
  predicate ValidatedUpToFee(c: Configs) {
    Validated(c.(marketFeeRateBps := 0))
  }

  function UpdateConfigs(c: Configs, signer: User, input: UpdateConfigsInput): (r: Result<Configs>)
    ensures r.Ok? ==> r.value.numKeysPerIndexPage == c.numKeysPerIndexPage && Validated(r.value)
  {
    if signer != c.authority then Err(NotTheAuthority)
    else
      var updated := Updated(c, input);
      var failed := ConfigError(updated);
      if failed.Some? then Err(failed.value) else Ok(updated)
  }

  /* What an update does, field by field. */

  /** A given value is the new one, an absent one leaves the old. */
  predicate Assigned<T(==)>(given: Option<T>, before: T, after: T) {
    match given
    case Some(v) => after == v
    case None => after == before
  }

  /** `after` is `before` with the given values in place; nothing else may change. */
  predicate IsUpdateOf(before: Configs, input: UpdateConfigsInput, after: Configs) {
    && Assigned(input.marketFeeRateBps, before.marketFeeRateBps, after.marketFeeRateBps)
    && Assigned(input.feeTreasury, before.feeTreasury, after.feeTreasury)
    && Assigned(input.minOutbidRateBps, before.minOutbidRateBps, after.minOutbidRateBps)
    && Assigned(input.lastMinutesForAuctionExtend, before.lastMinutesForAuctionExtend,
                after.lastMinutesForAuctionExtend)
    && Assigned(input.auctionExtendMinutes, before.auctionExtendMinutes, after.auctionExtendMinutes)
    && Assigned(input.minAuctionDuration, before.minAuctionDuration, after.minAuctionDuration)
    && Assigned(input.maxAuctionDuration, before.maxAuctionDuration, after.maxAuctionDuration)
    && Assigned(input.minRaffleTicketSupply, before.minRaffleTicketSupply, after.minRaffleTicketSupply)
    && Assigned(input.maxRaffleTicketSupply, before.maxRaffleTicketSupply, after.maxRaffleTicketSupply)
    && Assigned(input.maxRaffledNfts, before.maxRaffledNfts, after.maxRaffledNfts)
    && Assigned(input.minRaffleDuration, before.minRaffleDuration, after.minRaffleDuration)
    && Assigned(input.maxRaffleDuration, before.maxRaffleDuration, after.maxRaffleDuration)
    && Assigned(input.auctionCreationEnabled, before.auctionCreationEnabled, after.auctionCreationEnabled)
    && Assigned(input.raffleCreationEnabled, before.raffleCreationEnabled, after.raffleCreationEnabled)
    && after.authority == before.authority && after.numKeysPerIndexPage == before.numKeysPerIndexPage
    && after.totalAuctions == before.totalAuctions && after.totalRaffles == before.totalRaffles
  }

  /** Rates below 100 per cent, a positive outbid rate and extension, and non-empty ranges above zero. The number of
      rewards is not limited. */
  predicate Usable(c: Configs) {
    && c.marketFeeRateBps < 10000 && 0 < c.minOutbidRateBps < 10000
    && 0 < c.lastMinutesForAuctionExtend && 0 < c.auctionExtendMinutes
    && 0 < c.minAuctionDuration < c.maxAuctionDuration
    && 0 < c.minRaffleTicketSupply < c.maxRaffleTicketSupply
    && 0 < c.minRaffleDuration < c.maxRaffleDuration
  }

  /** Why an update is refused: what each error code says about the signer and the configuration asked for. */
  predicate RefusalExplained(c: Configs, signer: User, asked: Configs, error: ErrorCode) {
    match error
    case NotTheAuthority => signer != c.authority
    case InvalidMarketFeeRate => asked.marketFeeRateBps >= 10000
    case InvalidMinOutbidRate => !(0 < asked.minOutbidRateBps < 10000)
    case InvalidAuctionExtensionSettings => asked.lastMinutesForAuctionExtend == 0 || asked.auctionExtendMinutes == 0
    case InvalidAuctionDurationRangeSettings => !(0 < asked.minAuctionDuration < asked.maxAuctionDuration)
    case InvalidRaffleTicketSupplyRangeSettings => !(0 < asked.minRaffleTicketSupply < asked.maxRaffleTicketSupply)
    case InvalidRaffleDurationRangeSettings => !(0 < asked.minRaffleDuration < asked.maxRaffleDuration)
    case _ => false
  }

  /** An update succeeds exactly when the authority signs it and the configuration it asks for is usable; the result is
      that configuration, and a refusal names a reason that holds. */
  lemma UpdateConfigsExact(c: Configs, signer: User, input: UpdateConfigsInput, asked: Configs)
    requires IsUpdateOf(c, input, asked)
    ensures var r := UpdateConfigs(c, signer, input);
            && (r.Ok? <==> signer == c.authority && Usable(asked))
            && (r.Ok? ==> r.value == asked)
            && (r.Err? ==> RefusalExplained(c, signer, asked, r.error))
  {
    assert Updated(c, input) == asked;
  }

  /** Every accepted update has exactly the given values, leaves everything else, and is usable. */
  lemma AcceptedUpdate(c: Configs, signer: User, input: UpdateConfigsInput)
    requires UpdateConfigs(c, signer, input).Ok?
    ensures signer == c.authority
    ensures IsUpdateOf(c, input, UpdateConfigs(c, signer, input).value) && Usable(UpdateConfigs(c, signer, input).value)
  {
    var asked := Updated(c, input);
    assert IsUpdateOf(c, input, asked);
    UpdateConfigsExact(c, signer, input, asked);
  }

  /** Some configuration is always the one an update asks for, and only one. */
  lemma UpdateDetermined(c: Configs, input: UpdateConfigsInput, a: Configs, b: Configs)
    ensures exists asked :: IsUpdateOf(c, input, asked)
    ensures IsUpdateOf(c, input, a) && IsUpdateOf(c, input, b) ==> a == b
  {
    assert IsUpdateOf(c, input, Updated(c, input));
  }

  ghost predicate UpdateRefusal(c: Configs, signer: User, input: UpdateConfigsInput, error: ErrorCode) {
    exists asked :: IsUpdateOf(c, input, asked) && RefusalExplained(c, signer, asked, error)
  }

  lemma UpdateRefused(c: Configs, signer: User, input: UpdateConfigsInput)
    ensures var r := UpdateConfigs(c, signer, input);
            r.Err? ==> UpdateRefusal(c, signer, input, r.error)
  {
    UpdateDetermined(c, input, c, c);
    var asked :| IsUpdateOf(c, input, asked);
    UpdateConfigsExact(c, signer, input, asked);
  }

  /** The update that sets the market fee and nothing else. */
  function SetFee(bps: U16): UpdateConfigsInput {
    UpdateConfigsInput(Some(bps), None, None, None, None, None, None, None, None, None, None, None, None, None)
  }

  /** The authority can set every fee below 100 per cent, and no other. */
  lemma FeeSettable(c: Configs, bps: U16)
    requires ValidatedUpToFee(c)
    ensures UpdateConfigs(c, c.authority, SetFee(bps)).Ok? <==> bps < 10000
    ensures bps < 10000 ==> UpdateConfigs(c, c.authority, SetFee(bps)) == Ok(c.(marketFeeRateBps := bps))
  {
  }

  /** The same field by field, as the program assigns the given fields one after the other. */
  method RunUpdateConfigs(c: Configs, signer: User, input: UpdateConfigsInput) returns (r: Result<Configs>)
    ensures r == UpdateConfigs(c, signer, input)
  {
    if signer != c.authority {
      return Err(NotTheAuthority);
    }
    var g := c;
    g := g.(marketFeeRateBps := Pick(input.marketFeeRateBps, g.marketFeeRateBps));
    g := g.(feeTreasury := Pick(input.feeTreasury, g.feeTreasury));
    g := g.(minOutbidRateBps := Pick(input.minOutbidRateBps, g.minOutbidRateBps));
    g := g.(lastMinutesForAuctionExtend := Pick(input.lastMinutesForAuctionExtend, g.lastMinutesForAuctionExtend));
    g := g.(auctionExtendMinutes := Pick(input.auctionExtendMinutes, g.auctionExtendMinutes));
    g := g.(minAuctionDuration := Pick(input.minAuctionDuration, g.minAuctionDuration));
    g := g.(maxAuctionDuration := Pick(input.maxAuctionDuration, g.maxAuctionDuration));
    g := g.(minRaffleTicketSupply := Pick(input.minRaffleTicketSupply, g.minRaffleTicketSupply));
    g := g.(maxRaffleTicketSupply := Pick(input.maxRaffleTicketSupply, g.maxRaffleTicketSupply));
    g := g.(maxRaffledNfts := Pick(input.maxRaffledNfts, g.maxRaffledNfts));
    g := g.(minRaffleDuration := Pick(input.minRaffleDuration, g.minRaffleDuration));
    g := g.(maxRaffleDuration := Pick(input.maxRaffleDuration, g.maxRaffleDuration));
    g := g.(auctionCreationEnabled := Pick(input.auctionCreationEnabled, g.auctionCreationEnabled));
    g := g.(raffleCreationEnabled := Pick(input.raffleCreationEnabled, g.raffleCreationEnabled));
    var failed := ConfigError(g);
    r := if failed.Some? then Err(failed.value) else Ok(g);
  }
}
