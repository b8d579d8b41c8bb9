/** GameConfig: the table's limits, with builder defaults and a validation that
    reports the first rule broken. */
module Config {
  import opened Wrappers

  datatype GameConfig = GameConfig(
    ante: int,          // paid by every player at the start of a hand
    fixedBet: int,      // the smallest raise
    maxDraw: int,       // most cards one player may exchange
    minPlayers: int,
    maxPlayers: int,
    initialChips: int)  // the stack of a newly seated player

  /** GameConfig.builder().ante(a).fixedBet(b).build(): the other fields keep their defaults. */
  function WithDefaults(ante: int, fixedBet: int): (c: GameConfig)
    ensures c.maxDraw == 3 && c.minPlayers == 2 && c.maxPlayers == 4 && c.initialChips == 1000
    ensures c.ante == ante && c.fixedBet == fixedBet
  {
    GameConfig(ante, fixedBet, 3, 2, 4, 1000)
  }

  /** The IllegalArgumentException validate() throws, one per rule. */
  datatype ConfigError =
    | NegativeAnte
    | NonPositiveFixedBet
    | MaxDrawOutOfRange
    | InvalidPlayerLimits
    | NonPositiveInitialChips

  /** Every rule validate() checks holds. */
  predicate IsValid(c: GameConfig) {
    c.ante >= 0 && c.fixedBet > 0 && 0 <= c.maxDraw <= 5
    && 2 <= c.minPlayers <= c.maxPlayers && c.initialChips > 0
  }

  /** GameConfig.validate(): the rules in their fixed order; the first one broken is reported. */
  function Validate(c: GameConfig): (r: Outcome<ConfigError>)
    ensures r == Pass <==> IsValid(c)
  {
    if c.ante < 0 then Fail(NegativeAnte)
    else if c.fixedBet <= 0 then Fail(NonPositiveFixedBet)
    else if c.maxDraw < 0 || c.maxDraw > 5 then Fail(MaxDrawOutOfRange)
    else if c.minPlayers < 2 || c.minPlayers > c.maxPlayers then Fail(InvalidPlayerLimits)
    else if c.initialChips <= 0 then Fail(NonPositiveInitialChips)
    else Pass
  }

  /** Each error is reported exactly when its rule is broken and every earlier rule holds. */
  lemma ValidateReportsFirstBrokenRule(c: GameConfig)
    ensures Validate(c) == Fail(NegativeAnte) <==> c.ante < 0
    ensures Validate(c) == Fail(NonPositiveFixedBet) <==> c.ante >= 0 && c.fixedBet <= 0
    ensures Validate(c) == Fail(MaxDrawOutOfRange) <==>
              c.ante >= 0 && c.fixedBet > 0 && (c.maxDraw < 0 || c.maxDraw > 5)
    ensures Validate(c) == Fail(InvalidPlayerLimits) <==>
              c.ante >= 0 && c.fixedBet > 0 && 0 <= c.maxDraw <= 5
              && (c.minPlayers < 2 || c.minPlayers > c.maxPlayers)
    ensures Validate(c) == Fail(NonPositiveInitialChips) <==>
              c.ante >= 0 && c.fixedBet > 0 && 0 <= c.maxDraw <= 5
              && 2 <= c.minPlayers <= c.maxPlayers && c.initialChips <= 0
  {
  }

  /** A config built with only ante and fixedBet validates exactly when the ante is
      not negative and the fixed bet is positive. */
  lemma DefaultsValidate(ante: int, fixedBet: int)
    ensures Validate(WithDefaults(ante, fixedBet)) == Pass <==> ante >= 0 && fixedBet > 0
  {
  }
}
