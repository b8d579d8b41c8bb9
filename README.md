# Five-card draw poker: a Dafny model

This project models the core of a client/server five-card draw poker system:

- **Cards and the deck** (`cards.dfy`, `deck.dfy`): ranks, suits and cards, their text forms and ordering; the 52-card deck built in suit-then-rank order, its Fisher–Yates shuffle (a permutation of the cards), drawing one or several cards, and resetting.
- **Hand ranks and the evaluator** (`handrank.dfy`, `evaluator.dfy`): the ten hand categories, the kicker list, their lexicographic comparison and text forms, and the classification of a five-card hand.
- **Players and tables** (`ids.dfy`, `config.dfy`, `decimal.dfy`, `players.dfy`, `tables.dfy`): player and game ids, the game configuration, a player's chips, hand, bet and state, and the seating order.
- **The game** (`rules.dfy`, `game.dfy`, `props.dfy`, `laws.dfy`, `payout.dfy`, `game_findings.dfy`): the state machine of one table — joining and leaving, starting a hand, the ante, dealing, the two betting rounds (check, call, raise, fold), the draw, the showdown, distributing the pot and resetting for the next hand — with the invariants it keeps: the ante, the betting actions, the deal, the draw and the payout conserve the chips on the table, dealing gives every active player five cards, and a draw keeps the size of a hand that holds no repeated card.
- **The line protocol** (`protocol.dfy`, `protocol_laws.dfy`, `messages.dfy`): the text form `GAME_ID PLAYER_ID ACTION KEY=VALUE ...` written by `toProtocolString` and read by `parse`, and the server and client message factories.
- **The server's connection handler** (`client.dfy`): framing a byte stream into trimmed lines, dispatching a parsed message to its handler, parsing the card-index list of a DRAW, and the ERR lines it queues for refused requests.

Choices made in the model:

- Randomness is a parameter: the shuffle takes `rnd`, a function whose k-th value stands for the k-th number the random source yields; the model proves only that the shuffle permutes the cards, not that it is unbiased.
- `HashMap` iteration order is a caller-given list of keys wherever the source's output depends on it: the order in which `toProtocolString` writes parameters and the order in which winners are paid.
- Java exceptions become values of error datatypes (`Result`, `GameError`, `MoveCode`, `PlayerError`, `DeckError`). Where the source changes state before it throws, the model keeps that partial change.
- Java `int` arithmetic on chips and the pot is modelled with unbounded integers.
- `PokerGame`, `Player`, `Deck` and the connection handler change their fields in place, so they are classes whose methods carry `modifies` clauses. Each method is proved against a pure function of the old state; the properties are proved about those functions. Parsing, evaluation and the message factories are pure in the source and are functions here.

Where the code and the system's written design disagree, the model follows the code:

- A wheel straight (A-2-3-4-5) gets the kicker ACE, not FIVE (`HandEvaluator.java`).
- A suited wheel is classified ROYAL_FLUSH, because the royal test only checks that the highest card is an ace.
- `draw` removes the discarded cards and appends the replacements at the end of the hand; the positions of the kept cards are not preserved.
- The betting actions check whose turn it is but not the game phase.
- When a betting round ends, the next turn is chosen before the players' states are reset.
- The `ALL_IN` clause in the round-completion test can never decide the outcome.
- A player whose stack equals the ante goes all in when paying it.
- The `GameConfig` builder does not validate its values; only `validate` does.

## Model

| member | source | states |
|---|---|---|
| Cards.RankOrder | poker-common/src/main/java/poker/common/cards/Card.java:22-28 | the thirteen ranks listed in ascending order, so each rank's position is its ordinal (Rank.java is not part of this model; its order is the one the comparisons above use) |
| Cards.SuitOrder | poker-common/src/main/java/poker/common/cards/Suit.java:7-11 | the four suits CLUBS, DIAMONDS, HEARTS, SPADES in declaration order, each at its ordinal |
| Cards.RankFromSymbol | poker-common/src/main/java/poker/common/cards/Card.java:56-59 | a symbol that names a rank yields exactly that rank; an unknown symbol yields nothing, and then no rank has that symbol |
| Cards.Compare | poker-common/src/main/java/poker/common/cards/Card.java:22-28 | zero exactly for equal cards; positive exactly when the rank is higher, or the rank is equal and the suit is later |
| Cards.CompareIsTotalOrder | poker-common/src/main/java/poker/common/cards/Card.java:22-28 | the card comparison is antisymmetric and transitive, both strictly and non-strictly |
| Cards.ToString | poker-common/src/main/java/poker/common/cards/Card.java:34-36 | a card is written as two characters: its rank symbol (one of 2-9, T, J, Q, K, A) followed by the first letter of its suit name (one of C, D, H, S); Cards.FromStringToString proves that fromString reads it back |
| Cards.SuitFromLetter | poker-common/src/main/java/poker/common/cards/Card.java:57-66 | a letter names a suit exactly when its upper-case form is one of C, D, H, S, and the suit found has that letter |
| Cards.FromString | poker-common/src/main/java/poker/common/cards/Card.java:51-69 | a missing string or one shorter than two characters is refused as an invalid card string; a parsed card's rank symbol is everything before the last character and its suit letter is the upper-cased last character |
| Cards.FromStringToString | poker-common/src/main/java/poker/common/cards/Card.java:34-69 | parsing the text a card writes gives back that card |
| Cards.ToStringInjective | poker-common/src/main/java/poker/common/cards/Card.java:34-36 | two cards with the same text are the same card |
| Cards.FromStringIgnoresSuitCase | poker-common/src/main/java/poker/common/cards/Card.java:57-66 | a lower-case suit letter parses to the same result as its upper-case form |
| Decks.SortedCards | poker-common/src/main/java/poker/common/cards/Deck.java:25-33 | the sorted deck holds 52 cards |
| Decks.SortedCardsComplete | poker-common/src/main/java/poker/common/cards/Deck.java:25-33 | the sorted deck has no repeated card, holds every card, and holds each card at position 13 times its suit ordinal plus its rank ordinal |
| Decks.BuildSortedCards | poker-common/src/main/java/poker/common/cards/Deck.java:25-33 | the nested suit-then-rank loop builds exactly the sorted deck |
| Decks.Deck.Sorted | poker-common/src/main/java/poker/common/cards/Deck.java:16-19 | a new deck holds the sorted cards with the draw cursor at the start |
| Decks.Deck.Remaining | poker-common/src/main/java/poker/common/cards/Deck.java:110-112 | the remaining count lies between zero and the deck size, and is zero exactly when the cursor is at the end |
| Decks.Deck.IsEmpty | poker-common/src/main/java/poker/common/cards/Deck.java:118-120 | the deck is empty exactly when the cursor is at the end |
| Decks.Deck.Shuffle | poker-common/src/main/java/poker/common/cards/Deck.java:66-70 | shuffling keeps the same multiset of cards and the same size, and puts the cursor back at the start |
| Decks.Deck.Draw | poker-common/src/main/java/poker/common/cards/Deck.java:77-82 | a draw succeeds exactly when cards remain; it returns the card under the cursor and advances it by one; an exhausted deck reports the error and keeps its cursor |
| Decks.Deck.DrawMany | poker-common/src/main/java/poker/common/cards/Deck.java:90-104 | a negative count is refused, a count above the remaining cards is refused, and both leave the cursor alone; otherwise the next count cards are returned in deck order and the cursor advances by count |
| Decks.Deck.Reset | poker-common/src/main/java/poker/common/cards/Deck.java:133-135 | reset puts the cursor back at the start |
| Decks.DrawFreshDeckDry | poker-common/src/test/java/poker/common/cards/DeckTest.java:21-31 | drawing 52 cards from a new deck yields the whole sorted deck, leaves nothing, and a further draw reports exhaustion |
| Decks.OverdrawFreshDeck | poker-common/src/test/java/poker/common/cards/DeckTest.java:76-79 | asking a new deck for 53 cards is refused and leaves all 52 in place |
| HandRanks.CategoryValueInjective | poker-model/src/main/java/poker/model/game/HandRank.java:13-23 | the ten categories have distinct values 1 to 10 |
| HandRanks.CompareKickersZero | poker-model/src/main/java/poker/model/game/HandRank.java:58-68 | the kicker comparison is zero exactly for equal kicker lists |
| HandRanks.CompareKickersAntisymmetric | poker-model/src/main/java/poker/model/game/HandRank.java:58-68 | swapping the kicker lists negates the comparison |
| HandRanks.CompareKickersTransitive | poker-model/src/main/java/poker/model/game/HandRank.java:58-68 | the kicker comparison is transitive, strictly and non-strictly |
| HandRanks.CompareZeroIffEqual | poker-model/src/main/java/poker/model/game/HandRank.java:50-69 | two hand ranks compare equal exactly when they are equal |
| HandRanks.CompareAntisymmetric | poker-model/src/main/java/poker/model/game/HandRank.java:50-69 | a hand beats another exactly when the other loses to it, and ties are symmetric |
| HandRanks.CompareTransitive | poker-model/src/main/java/poker/model/game/HandRank.java:50-69 | the hand comparison is transitive, strictly and non-strictly |
| HandRanks.CategoryDominates | poker-model/src/main/java/poker/model/game/HandRank.java:53-56 | a higher category beats a lower one whatever the kickers |
| HandRanks.FirstDifferingKickerDecides | poker-model/src/main/java/poker/model/game/HandRank.java:59-65 | within a category, the first position where the kickers differ decides the winner |
| HandRanks.KickersFirstDifference | poker-model/src/main/java/poker/model/game/HandRank.java:59-65 | the kicker comparison yields the ordinal difference at the first differing position |
| HandRanks.LongerKickersWin | poker-model/src/main/java/poker/model/game/HandRank.java:67-68 | within a category, a kicker list that extends the other one wins |
| HandRanks.KickersPrefix | poker-model/src/main/java/poker/model/game/HandRank.java:67-68 | a kicker list compares above each of its proper prefixes |
| HandRanks.Symbols | poker-model/src/main/java/poker/model/game/HandRank.java:89-91 | the kicker text has one character per kicker, each that kicker's symbol |
| HandRanks.ProtocolShape | poker-model/src/main/java/poker/model/game/HandRank.java:85-94 | the protocol text is the category name, then an underscore and one symbol character per kicker; it is the bare name exactly when there are no kickers |
| HandRanks.ProtocolStringInjective | poker-model/src/main/java/poker/model/game/HandRank.java:85-94 | two hand ranks with the same protocol text are equal |
| HandRanks.KickersAfterName | poker-model/src/main/java/poker/model/game/HandRank.java:87-92 | with kickers present, the text after the name and the underscore is the kicker symbols |
| HandRanks.CategoryFromShape | poker-model/src/main/java/poker/model/game/HandRank.java:86 | no protocol text can be read as starting with two different category names |
| HandRanks.SymbolsInjective | poker-model/src/main/java/poker/model/game/HandRank.java:89-91 | two kicker lists with the same symbol text are equal |
| HandRanks.SymbolInjective | poker-common/src/main/java/poker/common/cards/Card.java:35 | two ranks with the same symbol are the same rank |
| HandRanks.SymbolRoundTrip | poker-common/src/main/java/poker/common/cards/Card.java:59 | looking up a rank's own symbol gives back that rank |
| Evaluator.Ranks | poker-model/src/main/java/poker/model/game/HandEvaluator.java:61 | the ranks of a hand, position by position |
| Evaluator.Count | poker-model/src/main/java/poker/model/game/HandEvaluator.java:122-128 | a rank's count is at most the hand size and is positive exactly when the rank occurs |
| Evaluator.InsertByRank | poker-model/src/main/java/poker/model/game/HandEvaluator.java:28-29 | inserting one card adds exactly that card to the multiset |
| Evaluator.InsertKeepsOrder | poker-model/src/main/java/poker/model/game/HandEvaluator.java:28-29 | inserting into a list sorted by descending rank keeps it sorted |
| Evaluator.SortByRankDesc | poker-model/src/main/java/poker/model/game/HandEvaluator.java:28-29 | the sorted copy is a permutation of the hand, ordered by descending rank |
| Evaluator.HighestWithCount | poker-model/src/main/java/poker/model/game/HandEvaluator.java:130-136 | the rank found below the bound occurs exactly n times and no higher rank below the bound does; none found means no rank below the bound occurs n times |
| Evaluator.FindNOfAKind | poker-model/src/main/java/poker/model/game/HandEvaluator.java:130-136 | the rank found occurs exactly n times and is the highest such rank; none found means no rank occurs exactly n times |
| Evaluator.PairsBelow | poker-model/src/main/java/poker/model/game/HandEvaluator.java:138-144 | lists exactly the ranks below the bound that occur twice, highest first, without repeats |
| Evaluator.FindAllPairs | poker-model/src/main/java/poker/model/game/HandEvaluator.java:138-144 | lists exactly the ranks that occur twice, highest first, without repeats |
| Evaluator.Without | poker-model/src/main/java/poker/model/game/HandEvaluator.java:158-164 | dropping excluded ranks removes every copy of each excluded rank and keeps every other rank's count |
| Evaluator.WithoutKeepsOrder | poker-model/src/main/java/poker/model/game/HandEvaluator.java:158-164 | filtering a descending rank list keeps it descending |
| Evaluator.WithoutOneLength | poker-model/src/main/java/poker/model/game/HandEvaluator.java:154-156 | excluding one rank shortens the list by that rank's count |
| Evaluator.WithoutTwoLength | poker-model/src/main/java/poker/model/game/HandEvaluator.java:158-164 | excluding two distinct ranks shortens the list by both counts |
| Evaluator.FourOfAKindRank | poker-model/src/main/java/poker/model/game/HandEvaluator.java:46-50 | a four-of-a-kind hand rank is built from the quad rank and the odd card |
| Evaluator.ThreeOfAKindRank | poker-model/src/main/java/poker/model/game/HandEvaluator.java:71-75 | a three-of-a-kind hand rank is built from the triple rank and two kickers |
| Evaluator.TwoPairRank | poker-model/src/main/java/poker/model/game/HandEvaluator.java:78-84 | a two-pair hand rank is built from both pair ranks and one kicker |
| Evaluator.PairRank | poker-model/src/main/java/poker/model/game/HandEvaluator.java:87-91 | a pair hand rank is built from the pair rank and three kickers |
| Evaluator.Evaluate | poker-model/src/main/java/poker/model/game/HandEvaluator.java:23-26 | evaluation fails exactly when the hand does not hold five cards |
| Evaluator.RankCountBySuits | poker-model/src/main/java/poker/model/game/HandEvaluator.java:122-128 | a rank's count equals the number of cards of that rank in the four suits together |
| Evaluator.DescendingUnique | poker-model/src/main/java/poker/model/game/HandEvaluator.java:28-29 | two descending rank lists with the same counts are equal, so the sort's rank sequence depends only on the multiset |
| Evaluator.SameHead | poker-model/src/main/java/poker/model/game/HandEvaluator.java:28-29 | two descending rank lists with the same counts start with the same rank |
| Evaluator.FlushIsPermutationInvariant | poker-model/src/main/java/poker/model/game/HandEvaluator.java:98-101 | reordering the hand does not change whether it is a flush |
| Evaluator.EvaluateIgnoresOrder | poker-model/src/main/java/poker/model/game/HandEvaluator.java:23-96 | two hands holding the same cards in any order evaluate to the same result |
| Evaluator.StraightCharacterized | poker-model/src/main/java/poker/model/game/HandEvaluator.java:103-120 | sorted ranks form a straight exactly when they are the wheel A-5-4-3-2, or five distinct ranks spanning four values |
| Evaluator.WheelClassification | poker-model/src/main/java/poker/model/game/HandEvaluator.java:36-67 | the unsuited wheel is a straight with kicker ACE, and the suited wheel is a royal flush |
| Evaluator.StraightFlushes | poker-model/src/main/java/poker/model/game/HandEvaluator.java:36-43 | a suited straight led by an ace is a royal flush, otherwise a straight flush with its top rank; unsuited it is a straight with its top rank |
| Evaluator.StraightHasNoRepeats | poker-model/src/main/java/poker/model/game/HandEvaluator.java:103-120 | a straight never repeats a rank |
| Evaluator.SinglesStrictlyDescending | poker-model/src/main/java/poker/model/game/HandEvaluator.java:94-95 | a descending list in which each rank occurs once is strictly descending |
| Evaluator.FourOfAKindKickers | poker-model/src/main/java/poker/model/game/HandEvaluator.java:46-50 | a four-of-a-kind result carries the quad rank and then the single odd rank |
| Evaluator.FullHouseKickers | poker-model/src/main/java/poker/model/game/HandEvaluator.java:53-57 | a full-house result carries the triple rank then the pair rank |
| Evaluator.FlushKickers | poker-model/src/main/java/poker/model/game/HandEvaluator.java:59-63 | a flush result carries all five ranks, highest first, and arises only from a suited hand that is no straight and no four of a kind |
| Evaluator.UnsuitedIsNoFlush | poker-model/src/main/java/poker/model/game/HandEvaluator.java:59-63 | a hand of mixed suits is never classified as a flush |
| Evaluator.StraightKickers | poker-model/src/main/java/poker/model/game/HandEvaluator.java:65-68 | a straight result carries only its top rank and arises only from an unsuited straight |
| Evaluator.SinglesAfterRemoving | poker-model/src/main/java/poker/model/game/HandEvaluator.java:154-164 | removing the grouped rank from a hand whose other ranks are single leaves those singles, strictly descending |
| Evaluator.ThreeOfAKindSelected | poker-model/src/main/java/poker/model/game/HandEvaluator.java:53-75 | a three-of-a-kind result means a triple and no pair exist, and it is built around the highest triple |
| Evaluator.PairSelected | poker-model/src/main/java/poker/model/game/HandEvaluator.java:77-91 | a pair result means a pair, no triple and fewer than two pairs exist, and it is built around the highest pair |
| Evaluator.TripleOthersAsKickers | poker-model/src/main/java/poker/model/game/HandEvaluator.java:71-75 | the three-of-a-kind kickers are the triple rank then the remaining ranks in order |
| Evaluator.PairOthersAsKickers | poker-model/src/main/java/poker/model/game/HandEvaluator.java:87-91 | the pair kickers are the pair rank then the remaining ranks in order |
| Evaluator.ThreeOfAKindKickers | poker-model/src/main/java/poker/model/game/HandEvaluator.java:71-75 | a three-of-a-kind result carries the triple rank and then two single ranks, higher first |
| Evaluator.TwoPairKickers | poker-model/src/main/java/poker/model/game/HandEvaluator.java:78-84 | a two-pair result carries the higher pair, the lower pair and the single remaining rank |
| Evaluator.PairKickers | poker-model/src/main/java/poker/model/game/HandEvaluator.java:87-91 | a pair result carries the pair rank and then three single ranks in strictly descending order |
| Evaluator.HighCardKickers | poker-model/src/main/java/poker/model/game/HandEvaluator.java:93-95 | a high-card result carries all five ranks, comes only from an unsuited non-straight, and with no rank five times those ranks are distinct |
| Evaluator.AllSingles | poker-model/src/main/java/poker/model/game/HandEvaluator.java:93-95 | five sorted ranks with no pair, triple or quad are five distinct ranks, unless one rank fills the hand |
| Evaluator.DistinctMultiplicity | poker-common/src/main/java/poker/common/cards/Deck.java:25-33 | a hand without repeated cards holds each card at most once |
| Evaluator.DistinctCardsRankCounts | poker-model/src/main/java/poker/model/game/HandEvaluator.java:122-128 | a hand without repeated cards holds at most four cards of any rank |
| Evaluator.EvaluateHighCard | poker-model/src/main/java/poker/model/game/HandEvaluator.java:93-95 | a high-card result from five distinct cards lists five distinct ranks, highest first, namely the ranks that occur once |
| Evaluator.IsFlush | poker-model/src/main/java/poker/model/game/HandEvaluator.java:98-101 | checkFlush; Evaluator.FlushIsPermutationInvariant and Evaluator.UnsuitedIsNoFlush |
| Evaluator.IsStraight | poker-model/src/main/java/poker/model/game/HandEvaluator.java:103-120 | checkStraight; Evaluator.StraightCharacterized gives the wheel or five consecutive ranks, Evaluator.StraightHasNoRepeats the distinct ranks |
| Evaluator.FindKickers | poker-model/src/main/java/poker/model/game/HandEvaluator.java:154-164 | findKickers; Evaluator.TripleOthersAsKickers, Evaluator.PairOthersAsKickers and Evaluator.SinglesAfterRemoving give the remaining ranks in order |
| Evaluator.Classify | poker-model/src/main/java/poker/model/game/HandEvaluator.java:35-95 | the category tests in source order on the sorted ranks; Evaluator.WheelClassification, Evaluator.StraightFlushes and the kicker lemmas from Evaluator.FourOfAKindKickers to Evaluator.HighCardKickers give each category and its kickers |
| HandRanks.SymbolListLayout | poker-model/src/main/java/poker/model/game/HandRank.java:76-79 | the kicker list places kicker i's symbol at position 3i with ", " between neighbours |
| HandRanks.DisplayShape | poker-model/src/main/java/poker/model/game/HandRank.java:71-83 | the display text is the display name alone without kickers, otherwise the name, " (", each kicker symbol separated by ", ", and ")" |
| Config.WithDefaults | poker-model/src/main/java/poker/model/game/GameConfig.java:9-32 | a built configuration keeps the given ante and bet and takes the defaults: draw 3, between 2 and 4 players, 1000 initial chips |
| Config.Validate | poker-model/src/main/java/poker/model/game/GameConfig.java:34-50 | validation passes exactly when every rule holds |
| Config.ValidateReportsFirstBrokenRule | poker-model/src/main/java/poker/model/game/GameConfig.java:34-50 | each error is reported exactly when its rule is the first broken one, in the order ante, fixed bet, draw limit, player limits, initial chips |
| Config.DefaultsValidate | poker-model/src/main/java/poker/model/game/GameConfig.java:19-50 | a configuration with default limits is valid exactly when its ante is not negative and its bet is positive |
| Ids.PlayerIdOf | poker-model/src/main/java/poker/model/players/PlayerId.java:26-31 | a player id is made exactly from a present, non-blank text, and keeps that text |
| Ids.GameIdOf | poker-model/src/main/java/poker/model/game/GameId.java:26-31 | a game id is made exactly from a present, non-blank text, and keeps that text |
| Ids.RemoveDashes | poker-model/src/main/java/poker/model/players/PlayerId.java:23 | removing dashes leaves no dash and never lengthens the text |
| Ids.RemoveDashesAppend | poker-model/src/main/java/poker/model/players/PlayerId.java:23 | removing dashes distributes over concatenation |
| Ids.RemoveDashesNoDash | poker-model/src/main/java/poker/model/players/PlayerId.java:23 | a text without dashes is unchanged |
| Ids.UndashedPrefix | poker-model/src/main/java/poker/model/game/GameId.java:23 | the first twelve characters of an undashed UUID text are its first group followed by its second group |
| Ids.GeneratePlayerId | poker-model/src/main/java/poker/model/players/PlayerId.java:22-24 | a generated player id is the first eight characters of the UUID text and is accepted when read back |
| Ids.GenerateGameId | poker-model/src/main/java/poker/model/game/GameId.java:22-24 | a generated game id is the UUID's first two groups without the dash, twelve characters, and is accepted when read back |
| Decimal.NatDigits | poker-model/src/main/java/poker/model/protocol/ServerMessage.java:48-49 | a number is written as a non-empty run of decimal digits |
| Decimal.ParseInt | poker-model/src/main/java/poker/model/protocol/Message.java:47 | a parsed integer comes from non-empty text and lies in the 32-bit signed range |
| Decimal.NatDigitsValue | poker-model/src/main/java/poker/model/protocol/ServerMessage.java:48-49 | the digits written for a number have that number as their value |
| Decimal.IntRoundTrip | poker-model/src/main/java/poker/model/protocol/Message.java:47 | parsing the decimal text of any 32-bit integer gives back that integer |
| Players.BetSeat | poker-model/src/main/java/poker/model/players/Player.java:81-95 | a bet moves chips from the stack to the current bet without changing their sum or the hand; the seat goes all-in or keeps its state; an affordable bet keeps the seat valid |
| Players.ResetSeat | poker-model/src/main/java/poker/model/players/Player.java:101-106 | a new round clears the current bet, keeps chips and hand, and makes every player who is not sitting out active |
| Players.Selected | poker-model/src/main/java/poker/model/players/Player.java:61-68 | selection succeeds exactly when every index is in range and then yields the indexed cards in order; otherwise it reports the first index out of range |
| Players.RemoveAll | poker-model/src/main/java/poker/model/players/Player.java:69 | after removal, a card is in the hand exactly when it was there before and is not one of the removed cards; Players.RemoveAllOne, Players.RemoveAllAppend and Players.RemoveAllCopies state the order and the copies |
| Players.RemoveAllOne | poker-model/src/main/java/poker/model/players/Player.java:69 | a single card is kept exactly when it is not among the cards to remove |
| Players.RemoveAllAppend | poker-model/src/main/java/poker/model/players/Player.java:69 | removing from two parts of a hand one after the other gives the survivors of each part in order, so the kept cards keep their relative order |
| Players.RemoveAllCopies | poker-model/src/main/java/poker/model/players/Player.java:69 | every copy of a removed card goes and every copy of any other card stays |
| Players.RemoveAllLength | poker-model/src/main/java/poker/model/players/Player.java:69 | removing from a hand without repeats shortens it by the number of removed cards it held |
| Players.SelectedCount | poker-model/src/main/java/poker/model/players/Player.java:61-68 | distinct indices into a hand without repeats select that many distinct cards of the hand |
| Players.DiscardAndRefillKeepsSize | poker-model/src/main/java/poker/model/players/Player.java:54-69 | discarding cards at distinct indices and adding as many new cards keeps the hand size |
| Players.Player.constructor | poker-model/src/main/java/poker/model/players/Player.java:28-45 | a new player has the given id, name and chips, an empty hand, no bet and is active |
| Players.Player.Create | poker-model/src/main/java/poker/model/players/Player.java:28-45 | a missing id, then a missing or blank name, then negative chips are refused in that order; otherwise a new active player with an empty hand is made |
| Players.Player.AddCard | poker-model/src/main/java/poker/model/players/Player.java:47-52 | a card is appended exactly when the hand holds fewer than five cards; a full hand is left unchanged |
| Players.Player.AddCards | poker-model/src/main/java/poker/model/players/Player.java:54-59 | cards are appended exactly when the hand would not exceed five cards; otherwise the hand is left unchanged |
| Players.Player.RemoveCards | poker-model/src/main/java/poker/model/players/Player.java:61-70 | with every index in range, all copies of the selected cards leave the hand; otherwise the first bad index is reported and the hand is unchanged |
| Players.Player.ClearHand | poker-model/src/main/java/poker/model/players/Player.java:72-75 | clearing empties the hand and the current bet |
| Players.Player.Bet | poker-model/src/main/java/poker/model/players/Player.java:81-95 | a negative bet and a bet above the stack are refused and change nothing; an affordable bet moves the chips and goes all-in on an empty stack; chips plus current bet never change |
| Players.Player.Fold | poker-model/src/main/java/poker/model/players/Player.java:97-99 | a fold marks the player folded |
| Players.Player.ResetForNewRound | poker-model/src/main/java/poker/model/players/Player.java:101-106 | the new state is the round reset of the old one |
| Players.Player.AddChips | poker-model/src/main/java/poker/model/players/Player.java:120-125 | a negative amount is refused and changes nothing; otherwise the stack grows by the amount |
| Players.SelectedFirstInvalid | poker-model/src/main/java/poker/model/players/Player.java:63-66 | the error names the first out-of-range index |
| Players.ActiveCanAct | poker-model/src/main/java/poker/model/players/Player.java:108-114 | an active player can act, and a player can act exactly when not folded and not sitting out |
| Game.PokerGame.constructor | poker-model/src/main/java/poker/model/game/PokerGame.java:37-48 | a new game keeps its id and validated configuration and starts in the lobby with no players, an empty pot and no bet |
| Game.PokerGame.Create | poker-model/src/main/java/poker/model/game/PokerGame.java:37-41 | creating a game succeeds exactly when the configuration is valid; otherwise the first broken configuration rule is reported |
| Game.PokerGame.AddPlayer | poker-model/src/main/java/poker/model/game/PokerGame.java:53-74 | the game's new state and outcome are those of GameRules.Join: STATE_MISMATCH, GAME_FULL and ALREADY_JOINED each exactly when its check is the first to fail (GameLaws.JoinRefusals), and on success the seat, stack and dealer button of GameLaws.JoinAddsStack; a joined player holds the seat that was added |
| Game.PokerGame.RemovePlayer | poker-model/src/main/java/poker/model/game/PokerGame.java:79-90 | the game's new state and outcome are those of the leave rule |
| Game.PokerGame.StartGame | poker-model/src/main/java/poker/model/game/PokerGame.java:95-113 | the game's new state and outcome are those of the start rule |
| Game.PokerGame.RotateToFront | poker-model/src/main/java/poker/model/game/PokerGame.java:105-110 | the loop that moves the head to the back ends with the ring rotated so the dealer is first |
| Game.PokerGame.FindNextActivePlayer | poker-model/src/main/java/poker/model/game/PokerGame.java:452-466 | the scan of the turn order after the given player returns the first active player found, or none |
| Game.PokerGame.ActivePlayerCount | poker-model/src/main/java/poker/model/game/PokerGame.java:480-484 | counts the active players at the table |
| Game.PokerGame.ValidateTurn | poker-model/src/main/java/poker/model/game/PokerGame.java:403-416 | reports out of turn, player not found or player not active, in that order, and nothing otherwise |
| Game.PokerGame.CollectAnte | poker-model/src/main/java/poker/model/game/PokerGame.java:118-133 | the game's new state and outcome are those of the ante rule |
| Game.PokerGame.AnteRound | poker-model/src/main/java/poker/model/game/PokerGame.java:123-130 | the loop over the players applies the ante step to each and counts those who paid |
| Game.PokerGame.DealInitialCards | poker-model/src/main/java/poker/model/game/PokerGame.java:138-156 | outside the deal phase nothing changes and a state mismatch is reported; otherwise a fresh shuffled 52-card deck is made and the deal rule is applied to it |
| Game.PokerGame.DealRound | poker-model/src/main/java/poker/model/game/PokerGame.java:146-152 | the loop that gives five cards to each active player agrees with the deal function, cursor and hands included |
| Game.PokerGame.StartBettingRound | poker-model/src/main/java/poker/model/game/PokerGame.java:161-173 | the game's new state is that of the betting-round start rule |
| Game.PokerGame.ResetRound | poker-model/src/main/java/poker/model/game/PokerGame.java:170-172 | the loop resets each player for the new round |
| Game.PokerGame.StartSecondBettingRound | poker-model/src/main/java/poker/model/game/PokerGame.java:306-313 | the game's new state and outcome are those of the second-round rule |
| Game.PokerGame.PassTurn | poker-model/src/main/java/poker/model/game/PokerGame.java:449 | the turn passes as the turn-move rule says |
| Game.PokerGame.AdvanceTurn | poker-model/src/main/java/poker/model/game/PokerGame.java:418-450 | the game's new state is that of the advance rule: the round closes once every active player has acted and matched the bet, otherwise the turn moves on |
| Game.PokerGame.Check | poker-model/src/main/java/poker/model/game/PokerGame.java:178-188 | the game's new state and outcome are those of GameRules.Check: a validateTurn refusal, or CANNOT_CHECK when the player's bet is below the table bet, changes nothing; otherwise the turn advances with no chip or card moving (GameLaws.CheckOutcome) |
| Game.PokerGame.Call | poker-model/src/main/java/poker/model/game/PokerGame.java:193-208 | the game's new state and outcome are those of the call rule |
| Game.PokerGame.Raise | poker-model/src/main/java/poker/model/game/PokerGame.java:213-234 | the game's new state and outcome are those of the raise rule |
| Game.PokerGame.Fold | poker-model/src/main/java/poker/model/game/PokerGame.java:239-257 | the game's new state and outcome are those of the fold rule |
| Game.PokerGame.Draw | poker-model/src/main/java/poker/model/game/PokerGame.java:262-301 | the game's new state and outcome are those of the draw rule, checks included |
| Game.PokerGame.ExchangeCards | poker-model/src/main/java/poker/model/game/PokerGame.java:293-300 | the discard, draw and refill agree with the exchange rule |
| Game.PokerGame.Showdown | poker-model/src/main/java/poker/model/game/PokerGame.java:318-335 | the game's new state and outcome are those of the showdown rule |
| Game.PokerGame.RankContenders | poker-model/src/main/java/poker/model/game/PokerGame.java:327-332 | the loop evaluates the hand of each active or all-in player, as the ranking function does |
| Game.PokerGame.DistributePot | poker-model/src/main/java/poker/model/game/PokerGame.java:340-386 | the game's new state and outcome are those of the pot distribution rule |
| Game.PokerGame.PayShares | poker-model/src/main/java/poker/model/game/PokerGame.java:358-386 | the game's new state and outcome are those of the pay-out rule for the given winners |
| Game.PokerGame.PayWinners | poker-model/src/main/java/poker/model/game/PokerGame.java:363-371 | the payout loop pays each seated winner its share, the first one the remainder too, and records the new stacks; it stops at the first winner who has left |
| Game.PokerGame.SweepTable | poker-model/src/main/java/poker/model/game/PokerGame.java:373-383 | the game's new state is that of the sweep rule |
| Game.PokerGame.RemoveBroke | poker-model/src/main/java/poker/model/game/PokerGame.java:378 | keeps exactly the players with chips left, in order |
| Game.PokerGame.ResetForNextRound | poker-model/src/main/java/poker/model/game/PokerGame.java:391-401 | the game's new state and outcome are those of the dealer rotation rule |
| GameRules.DealFrom | poker-model/src/main/java/poker/model/game/PokerGame.java:146-152 | dealing keeps the table's players and never moves the deck cursor back |
| GameRules.TurnError | poker-model/src/main/java/poker/model/game/PokerGame.java:403-416 | no error exactly when it is the player's turn, the player is seated and active |
| GameRules.SeatedPrefix | poker-model/src/main/java/poker/model/game/PokerGame.java:363-366 | counts the winners paid before the first one who is no longer seated |
| GameRules.PayFirst | poker-model/src/main/java/poker/model/game/PokerGame.java:363-369 | paying winners keeps the same players at the table |
| GameRules.WinnersOf | poker-model/src/main/java/poker/model/game/PokerGame.java:348-355 | at least one winner, without repeats |
| GameRules.Join | poker-model/src/main/java/poker/model/game/PokerGame.java:53-74 | addPlayer on the table's state; GameLaws.JoinRefusals gives the refusal codes, GameLaws.JoinAddsStack the new seat, stack and dealer button, and GameProps.JoinConsistent the kept invariant |
| GameRules.Leave | poker-model/src/main/java/poker/model/game/PokerGame.java:79-90 | removePlayer; GameLaws.LeaveRemovesStack gives PLAYER_NOT_FOUND exactly for an unseated id and the stack that leaves, GameProps.LeaveConsistent the kept invariant, and GameFindings.StrandedDealerDiverges the button a leaver can keep |
| GameRules.Start | poker-model/src/main/java/poker/model/game/PokerGame.java:95-113 | startGame; GameLaws.StartRotatesToDealer gives the refusal codes and the turn order rotated to the dealer, GameProps.StartConsistent the kept invariant |
| GameRules.CollectAnte | poker-model/src/main/java/poker/model/game/PokerGame.java:118-133 | collectAnte; GameLaws.AnteConserves gives who sits out and who pays, the pot growth and the kept chip total |
| GameRules.Deal | poker-model/src/main/java/poker/model/game/PokerGame.java:138-156 | dealInitialCards after the shuffle; GameLaws.DealFillsHands gives exhaustion exactly when the deck is short and five cards for each active player otherwise, GameLaws.DealConserves the chip total |
| GameRules.Check | poker-model/src/main/java/poker/model/game/PokerGame.java:178-188 | check; GameLaws.CheckOutcome gives the refusals and the effect, GameLaws.CheckConserves the chip total, GameLaws.OutOfTurnChangesNothing the out-of-turn case |
| GameRules.Call | poker-model/src/main/java/poker/model/game/PokerGame.java:193-208 | call; GameLaws.CallConserves gives the pot growth by the call amount and the chip total |
| GameRules.Raise | poker-model/src/main/java/poker/model/game/PokerGame.java:213-234 | raise; GameLaws.RaiseLiftsTableBet gives NOT_ENOUGH_CHIPS, then RAISE_TOO_SMALL, then the lifted table bet, GameLaws.RaiseConserves the chip total |
| GameRules.Fold | poker-model/src/main/java/poker/model/game/PokerGame.java:239-257 | fold; GameLaws.LastActiveWins gives the showdown when one active player is left, GameLaws.FoldConserves the chip total |
| GameRules.Advance | poker-model/src/main/java/poker/model/game/PokerGame.java:418-450 | advanceTurn; GameLaws.AdvanceKeepsHoldings says no chip or card moves, GameLaws.AdvanceKeepsMatched that a matched bet stays matched |
| GameRules.DrawError | poker-model/src/main/java/poker/model/game/PokerGame.java:263-291 | the checks of draw in source order; GameLaws.DrawConserves says a refused draw changes nothing and reports the first failed check |
| GameRules.Exchange | poker-model/src/main/java/poker/model/game/PokerGame.java:293-300 | the discard, draw and refill of draw; GameLaws.ExchangeCases, GameLaws.ExchangeHands and GameLaws.ExchangeConserves give its cases, the new hand and the chip total |
| GameRules.RankFrom | poker-model/src/main/java/poker/model/game/PokerGame.java:327-332 | the ranking loop of showdown; GameProps.RankFromFails and GameProps.RankFromRanks give its failure and its result |
| GameRules.Distribute | poker-model/src/main/java/poker/model/game/PokerGame.java:340-386 | distributePot; PayoutLaws.DistributeRefuses, PayoutLaws.DistributePaysBest and PayoutLaws.DistributeConserves give the refusals, who is paid and the chip total |
| GameRules.PayPot | poker-model/src/main/java/poker/model/game/PokerGame.java:358-386 | the pay-out of distributePot; PayoutLaws.PayPotSplits, PayoutLaws.PayPotConserves and PayoutLaws.PayPotStopsAtMissingWinner give the shares, the totals and the stop at a winner who left |
| GameRules.Sweep | poker-model/src/main/java/poker/model/game/PokerGame.java:373-383 | the removal of broke players and the return to the lobby; PayoutLaws.SweepKeepsFunded and GameProps.SweepConsistent |
| GameRules.NextDealer | poker-model/src/main/java/poker/model/game/PokerGame.java:391-401 | resetForNextRound; GameLaws.NextDealerSeated gives the button moved one seat on and GameProps.NextDealerConsistent the kept invariant |
| Tables.SumChipsAgree | poker-model/src/main/java/poker/model/game/PokerGame.java:23 | two tables whose players hold the same chips have the same chip total |
| Tables.SumChipsUpdate | poker-model/src/main/java/poker/model/game/PokerGame.java:23 | replacing one seat changes the total by the difference of its chips |
| Tables.SumChipsAppend | poker-model/src/main/java/poker/model/game/PokerGame.java:64-65 | adding a player adds its chips to the total |
| Tables.RemoveId | poker-model/src/main/java/poker/model/game/PokerGame.java:84 | removal keeps every other player and drops the given one, without creating repeats |
| Tables.SumChipsRemove | poker-model/src/main/java/poker/model/game/PokerGame.java:84 | removing a player takes its chips out of the total |
| Tables.RemoveIdAbsent | poker-model/src/main/java/poker/model/game/PokerGame.java:84 | removing a player who is not there changes nothing |
| Tables.FundedSpec | poker-model/src/main/java/poker/model/game/PokerGame.java:378 | after the sweep a player remains exactly when seated with chips left, without repeats |
| Tables.SumChipsFunded | poker-model/src/main/java/poker/model/game/PokerGame.java:378 | the sweep keeps the chip total, since only empty stacks leave |
| Tables.UpdateEach | poker-model/src/main/java/poker/model/game/PokerGame.java:123-130 | a per-player loop keeps the same players |
| Tables.UpdateEachPointwise | poker-model/src/main/java/poker/model/game/PokerGame.java:123-130 | a per-player loop changes each listed player by the step and leaves others alone |
| Tables.UpdateEachCoversAll | poker-model/src/main/java/poker/model/game/PokerGame.java:170-172 | a loop over every player gives the same table as applying the step to each seat |
| Tables.PayersIgnoresOthers | poker-model/src/main/java/poker/model/game/PokerGame.java:123-130 | the number of ante payers depends only on the listed players |
| Tables.AnteConservesChips | poker-model/src/main/java/poker/model/game/PokerGame.java:123-130 | after the ante the stacks plus the ante paid by each payer add up to the old total |
| Tables.CountActive | poker-model/src/main/java/poker/model/game/PokerGame.java:480-484 | the active count is at most the number of players |
| Tables.CountActiveZero | poker-model/src/main/java/poker/model/game/PokerGame.java:480-484 | no active player exactly when none of the listed players is active |
| Tables.IndexOfId | poker-model/src/main/java/poker/model/game/PokerGame.java:453 | the index found holds the player and is its first position; -1 exactly when the player is absent |
| Tables.Rotate | poker-model/src/main/java/poker/model/game/PokerGame.java:105-110 | rotation keeps the length |
| Tables.RotatePermutes | poker-model/src/main/java/poker/model/game/PokerGame.java:105-110 | rotation keeps the same players |
| Tables.RotateIndex | poker-model/src/main/java/poker/model/game/PokerGame.java:105-110 | position i of the rotation holds the player k + i places along, wrapping round |
| Tables.RotateStep | poker-model/src/main/java/poker/model/game/PokerGame.java:108-110 | moving the head of a rotation to the back is the next rotation |
| Tables.ScanFromSpec | poker-model/src/main/java/poker/model/game/PokerGame.java:455-463 | the scan finds an active player of the ring, the first active one in scan order, or none when no scanned position is active |
| Tables.ScanVisitsAll | poker-model/src/main/java/poker/model/game/PokerGame.java:455-456 | the scan visits every position of the ring |
| Tables.NextActiveSpec | poker-model/src/main/java/poker/model/game/PokerGame.java:452-466 | the next active player is an active ring member, the first after the start, and there is none exactly when nobody in the ring is active |
| Tables.StartIndex | poker-model/src/main/java/poker/model/game/PokerGame.java:453 | the scan starts at a ring position or at -1 for an unknown player |
| Tables.MaxRank | poker-model/src/main/java/poker/model/game/PokerGame.java:348-350 | the best rank is one of the ranks and no rank compares above it |
| Tables.RanksInOrder | poker-model/src/main/java/poker/model/game/PokerGame.java:348 | lists each player's rank in order |
| Tables.Winners | poker-model/src/main/java/poker/model/game/PokerGame.java:352-355 | a player is a winner exactly when ranked and ranked equal to the best, without repeats |
| Tables.WinnersNonEmpty | poker-model/src/main/java/poker/model/game/PokerGame.java:348-355 | somebody holds the best rank |
| Tables.WinnersHoldTheMaximum | poker-model/src/main/java/poker/model/game/PokerGame.java:348-355 | the winners are exactly the ranked players whom no other rank beats |
| Tables.SharesSumToPot | poker-model/src/main/java/poker/model/game/PokerGame.java:358-367 | the shares add up to the whole pot |
| Tables.SharesClosedForm | poker-model/src/main/java/poker/model/game/PokerGame.java:358-367 | the first k shares add up to k equal parts plus the remainder when k is positive |
| Tables.SharesNonNegative | poker-model/src/main/java/poker/model/game/PokerGame.java:358-367 | no share is negative and none exceeds the first share |
| Tables.SlicesDisjoint | poker-model/src/main/java/poker/model/game/PokerGame.java:146-152 | distinct five-card slices of a deck without repeats share no card and repeat none |
| Tables.PermutationKeepsDistinct | poker-common/src/main/java/poker/common/cards/Deck.java:66-70 | a shuffle of a deck without repeats has no repeats |
| GameLaws.HoldingsKeepTotal | poker-model/src/main/java/poker/model/game/PokerGame.java:28 | two states with the same stacks, bets and pot hold the same chips in total |
| GameLaws.ResetKeepsHoldings | poker-model/src/main/java/poker/model/game/PokerGame.java:170-172 | resetting every player for a new round keeps every stack and hand |
| GameLaws.StartRoundKeepsHoldings | poker-model/src/main/java/poker/model/game/PokerGame.java:161-173 | starting a betting round keeps stacks, hands and pot, and keeps the state consistent |
| GameLaws.AdvanceKeepsHoldings | poker-model/src/main/java/poker/model/game/PokerGame.java:418-450 | advancing the turn keeps stacks, hands and pot, and keeps the state consistent |
| GameLaws.JoinAddsStack | poker-model/src/main/java/poker/model/game/PokerGame.java:53-74 | a refused join changes nothing; a join succeeds only in the lobby, with room and for a new id, appends the player with the initial chips, adds them to the total and makes the first player dealer |
| GameLaws.JoinRefusals | poker-model/src/main/java/poker/model/game/PokerGame.java:53-74 | a join is refused with STATE_MISMATCH outside the lobby, then GAME_FULL at the seat limit, then ALREADY_JOINED for a seated id, then the blank-name error of the new player, each exactly when every earlier check passes; it succeeds exactly when all checks pass |
| GameLaws.LeaveRemovesStack | poker-model/src/main/java/poker/model/game/PokerGame.java:79-90 | leaving fails exactly for an unknown player and then changes nothing; otherwise the player and its chips leave the table and a reassigned dealer is still seated |
| GameLaws.StartRotatesToDealer | poker-model/src/main/java/poker/model/game/PokerGame.java:95-113 | starting is refused outside the lobby or with too few players and then changes nothing; otherwise the turn order holds the same players rotated so the dealer comes first and the game moves to the ante |
| GameLaws.NextDealerSeated | poker-model/src/main/java/poker/model/game/PokerGame.java:391-401 | rotating the dealer moves the dealer index on by one, wrapping round, and names the seated player at that index |
| GameLaws.AnteConserves | poker-model/src/main/java/poker/model/game/PokerGame.java:118-133 | every player short of the ante sits out unchanged, every other one pays it into the pot, and the chip total is kept |
| GameLaws.CheckConserves | poker-model/src/main/java/poker/model/game/PokerGame.java:178-188 | a check keeps the state consistent and the chip total unchanged |
| GameLaws.CheckOutcome | poker-model/src/main/java/poker/model/game/PokerGame.java:178-188 | a check refused by validateTurn, or refused with CANNOT_CHECK because the table bet exceeds the player's bet, leaves the game unchanged; an allowed check is the turn advance and moves no chip, card or pot |
| GameLaws.CallConserves | poker-model/src/main/java/poker/model/game/PokerGame.java:193-208 | a call keeps the state consistent and the chip total unchanged, and a valid call adds the call amount to the pot |
| GameLaws.RaiseConserves | poker-model/src/main/java/poker/model/game/PokerGame.java:213-234 | a raise keeps the state consistent and the chip total unchanged |
| GameLaws.FoldConserves | poker-model/src/main/java/poker/model/game/PokerGame.java:239-257 | a fold keeps the state consistent and the chip total unchanged |
| GameLaws.OutOfTurnChangesNothing | poker-model/src/main/java/poker/model/game/PokerGame.java:403-416 | a player who may not act gets out of turn or not active, and check, call, raise and fold then change nothing |
| GameLaws.LastActiveWins | poker-model/src/main/java/poker/model/game/PokerGame.java:245-254 | a fold that leaves one active player moves the game straight to the showdown with the turn left where it was |
| GameLaws.AdvanceKeepsMatched | poker-model/src/main/java/poker/model/game/PokerGame.java:418-450 | a player who matched the table bet still matches it after the turn moves on |
| GameLaws.RaiseLiftsTableBet | poker-model/src/main/java/poker/model/game/PokerGame.java:213-234 | a raise above the stack is refused as not enough chips, one below the fixed bet as too small, both changing nothing; a raise that goes through adds call plus raise to the pot and makes the raiser's bet the table bet |
| GameLaws.DealFromKeepsStacks | poker-model/src/main/java/poker/model/game/PokerGame.java:146-152 | dealing leaves every stack and player state unchanged |
| GameLaws.DealFromFillsHands | poker-model/src/main/java/poker/model/game/PokerGame.java:146-152 | the deal completes exactly when the deck holds five cards per active player, uses exactly those cards and leaves every active player with five |
| GameLaws.CountActiveSameActive | poker-model/src/main/java/poker/model/game/PokerGame.java:480-484 | the active count depends only on who is active |
| GameLaws.DealLeavesLaterHands | poker-model/src/main/java/poker/model/game/PokerGame.java:146-152 | a player who already holds five cards still does after a completed deal |
| GameLaws.DealtTable | poker-model/src/main/java/poker/model/game/PokerGame.java:138-156 | dealing from a deck keeps the table consistent and the chip total unchanged |
| GameLaws.DealConserves | poker-model/src/main/java/poker/model/game/PokerGame.java:138-156 | the deal keeps the chip total and the state consistent |
| GameLaws.DealFillsHands | poker-model/src/main/java/poker/model/game/PokerGame.java:138-156 | the deal fails with an exhausted deck exactly when there are not five cards per active player; otherwise the game is in the first betting round, the deck cursor has passed those cards and every active player holds five |
| GameLaws.ExchangeCases | poker-model/src/main/java/poker/model/game/PokerGame.java:293-300 | a bad index fails with nothing changed; a refill that would overflow the hand fails after the discard; otherwise the hand is refilled from the deck and the turn moves on |
| GameLaws.RefillConserves | poker-model/src/main/java/poker/model/game/PokerGame.java:293-296 | replacing a hand and moving the deck cursor keeps the state consistent and the chips unchanged |
| GameLaws.ExchangeConserves | poker-model/src/main/java/poker/model/game/PokerGame.java:293-300 | an exchange keeps the state consistent and the chip total unchanged |
| GameLaws.DrawConserves | poker-model/src/main/java/poker/model/game/PokerGame.java:262-301 | a draw keeps the state consistent and the chip total unchanged, and a refused draw changes nothing and reports the first failed check |
| GameLaws.ExchangeHands | poker-model/src/main/java/poker/model/game/PokerGame.java:293-300 | a successful exchange returns the next cards of the deck, moves the cursor past them and leaves the player holding the kept cards followed by the new ones |
| GameLaws.ExchangeSucceeds | poker-model/src/main/java/poker/model/game/PokerGame.java:293-300 | a successful exchange selected valid indices, did not overflow the hand, returned the next deck cards, and left the deck and seats as the refill followed by the turn move |
| GameLaws.RefillHolds | poker-model/src/main/java/poker/model/game/PokerGame.java:293-296 | after a refill the player holds the given hand and the deck cursor is the given one |
| GameLaws.HoldingOf | poker-model/src/main/java/poker/model/game/PokerGame.java:418-450 | a state with the same holdings keeps each player's hand and the deck |
| GameLaws.DrawKeepsHandSize | poker-model/src/main/java/poker/model/game/PokerGame.java:262-301 | a successful draw returns one card per index, leaves the player the kept cards followed by the new ones, and keeps a hand without repeats at its size |
| GameProps.JoinConsistent | poker-model/src/main/java/poker/model/game/PokerGame.java:53-74 | a join keeps the game state consistent |
| GameProps.LeaveConsistent | poker-model/src/main/java/poker/model/game/PokerGame.java:79-90 | a leave keeps the game state consistent |
| GameProps.StartConsistent | poker-model/src/main/java/poker/model/game/PokerGame.java:95-113 | a start keeps the game state consistent |
| GameProps.NextDealerConsistent | poker-model/src/main/java/poker/model/game/PokerGame.java:391-401 | a dealer rotation keeps the game state consistent |
| GameProps.CollectAnteConsistent | poker-model/src/main/java/poker/model/game/PokerGame.java:118-133 | collecting a non-negative ante keeps the game state consistent |
| GameProps.StartRoundConsistent | poker-model/src/main/java/poker/model/game/PokerGame.java:161-173 | starting a betting round keeps the game state consistent |
| GameProps.BetConserves | poker-model/src/main/java/poker/model/game/PokerGame.java:204-205 | an affordable bet into the pot keeps the state consistent and the chip total unchanged |
| GameProps.DealtSeatsValid | poker-model/src/main/java/poker/model/game/PokerGame.java:146-152 | dealing keeps every seat valid |
| GameProps.ExchangeConsistent | poker-model/src/main/java/poker/model/game/PokerGame.java:293-296 | a refill keeps the game state consistent |
| GameProps.SweepConsistent | poker-model/src/main/java/poker/model/game/PokerGame.java:373-383 | the sweep keeps the game state consistent |
| GameProps.PayFirstValid | poker-model/src/main/java/poker/model/game/PokerGame.java:363-369 | paying non-negative shares keeps every seat valid |
| GameProps.PayPotConsistent | poker-model/src/main/java/poker/model/game/PokerGame.java:358-386 | paying the pot keeps the game state consistent |
| GameProps.RankFromFails | poker-model/src/main/java/poker/model/game/PokerGame.java:327-332 | ranking fails exactly when a contender's hand cannot be evaluated |
| GameProps.RankFromRanks | poker-model/src/main/java/poker/model/game/PokerGame.java:327-332 | a successful ranking adds the contenders' evaluations |
| GameProps.ContenderRanksAll | poker-model/src/main/java/poker/model/game/PokerGame.java:327-332 | with five cards each, the contenders' ranks are their hands' evaluations |
| GameProps.ShowdownRanksContenders | poker-model/src/main/java/poker/model/game/PokerGame.java:318-335 | the showdown fails exactly when some contender's hand cannot be evaluated; otherwise it ranks exactly the active and all-in players by evaluating their hands |
| PayoutLaws.PaidTotalOfShares | poker-model/src/main/java/poker/model/game/PokerGame.java:361-371 | payouts that carry the shares add up to the shares |
| PayoutLaws.PayFirstAddsShares | poker-model/src/main/java/poker/model/game/PokerGame.java:363-369 | paying the first k winners adds the first k shares to the chip total |
| PayoutLaws.PayFirstSkips | poker-model/src/main/java/poker/model/game/PokerGame.java:363-369 | a player who is not among the paid winners is left unchanged |
| PayoutLaws.PayFirstPaysOne | poker-model/src/main/java/poker/model/game/PokerGame.java:363-369 | the j-th winner's stack grows by exactly the j-th share |
| PayoutLaws.PayFirstPays | poker-model/src/main/java/poker/model/game/PokerGame.java:363-369 | every paid winner gets exactly its share and every other player is unchanged |
| PayoutLaws.PayPotSplits | poker-model/src/main/java/poker/model/game/PokerGame.java:358-371 | a completed pay-out gives one payout per winner in order, the first getting the equal part plus the remainder and the others the equal part, with new stacks reported, adding up to the pot |
| PayoutLaws.PayPotConserves | poker-model/src/main/java/poker/model/game/PokerGame.java:358-386 | after a pay-out the pot is empty, the chip total is kept, exactly the players with chips remain, and the game returns to the lobby exactly when enough players remain, otherwise it ends |
| PayoutLaws.PayPotStopsAtMissingWinner | poker-model/src/main/java/poker/model/game/PokerGame.java:363-370 | a winner who has left stops the pay-out with a null-pointer failure after the earlier winners were paid, leaving pot and phase as they were |
| PayoutLaws.SweepKeepsFunded | poker-model/src/main/java/poker/model/game/PokerGame.java:373-383 | the sweep keeps exactly the players with chips, unchanged, keeps the total, and returns to the lobby exactly when enough players remain |
| PayoutLaws.DistributeRefuses | poker-model/src/main/java/poker/model/game/PokerGame.java:340-350 | outside the showdown nothing changes and a state mismatch is reported; with no rankings the game moves to the pay-out phase and fails |
| PayoutLaws.WinnersAreBest | poker-model/src/main/java/poker/model/game/PokerGame.java:348-355 | the winners are exactly the players whose rank no other rank beats, without repeats |
| PayoutLaws.DistributePaysBest | poker-model/src/main/java/poker/model/game/PokerGame.java:340-386 | a completed distribution pays each best-ranked player once and nobody else |
| PayoutLaws.PayoutsFollowWinners | poker-model/src/main/java/poker/model/game/PokerGame.java:363-371 | payouts in winner order pay exactly the best players, each once |
| PayoutLaws.DistributeConserves | poker-model/src/main/java/poker/model/game/PokerGame.java:340-386 | a distribution keeps the state consistent, and when it completes it pays out exactly the pot, empties it and keeps the chip total |
| JavaStrings.LeadingTrimmable | poker-model/src/main/java/poker/model/protocol/Message.java:101 | counts the leading characters that trim removes: all of them are control or space characters and the next one is not |
| JavaStrings.TrailingCut | poker-model/src/main/java/poker/model/protocol/Message.java:101 | marks where the trailing run of control or space characters starts |
| JavaStrings.Trim | poker-model/src/main/java/poker/model/protocol/Message.java:101 | a trimmed text is no longer than the original, starts and ends with a character trim keeps, and a text that already does so is unchanged |
| JavaStrings.IndexOf | poker-model/src/main/java/poker/model/protocol/Message.java:104 | the index found holds the character and is the first one from the start position; -1 exactly when the character does not occur there |
| Protocol.Spaces | poker-model/src/main/java/poker/model/protocol/Message.java:153-155 | the leading-space count never exceeds the text |
| Protocol.ValueSpan | poker-model/src/main/java/poker/model/protocol/Message.java:164-192 | the value span never exceeds the text |
| Protocol.ValueLength | poker-model/src/main/java/poker/model/protocol/Message.java:160-192 | the value length never exceeds the text |
| Protocol.SpacesIs | poker-model/src/main/java/poker/model/protocol/Message.java:153-155 | the leading-space count is the position of the first non-space character |
| Protocol.IndexOfSuffix | poker-model/src/main/java/poker/model/protocol/Message.java:145 | searching from a position equals searching the suffix from there, offset by the position |
| Protocol.KeyAheadIff | poker-model/src/main/java/poker/model/protocol/Message.java:172-185 | a parameter starts here exactly when an equals sign follows with no space before it |
| Protocol.ValueSpanIs | poker-model/src/main/java/poker/model/protocol/Message.java:164-192 | the value ends at the first space that starts a new parameter |
| Protocol.ParamFollows | poker-model/src/main/java/poker/model/protocol/Message.java:165-188 | the check after a space says whether a new KEY= parameter begins there |
| Protocol.NoSpaceIn | poker-model/src/main/java/poker/model/protocol/Message.java:177-183 | the inner loop reports that the range holds no space exactly when it does not |
| Protocol.FindValueEnd | poker-model/src/main/java/poker/model/protocol/Message.java:160-192 | the value-end loop, which starts one character after the equals sign, ends where the value specification says |
| Protocol.ScanParams | poker-model/src/main/java/poker/model/protocol/Message.java:139-199 | the parameter loop yields exactly the parameter map the specification defines |
| Protocol.SkipSpaces | poker-model/src/main/java/poker/model/protocol/Message.java:151-155 | the key start is the first non-space position before the equals sign |
| Protocol.ScanStep | poker-model/src/main/java/poker/model/protocol/Message.java:143-197 | one round of the parameter loop stores the trimmed value under the key and continues after the value |
| Protocol.ScanRound | poker-model/src/main/java/poker/model/protocol/Message.java:143-197 | one round of the parameter scan, stated on the remaining text |
| Protocol.Parse | poker-model/src/main/java/poker/model/protocol/Message.java:92-202 | parsing a line yields exactly the result the parse specification defines, errors included |
| Protocol.ToProtocolString | poker-model/src/main/java/poker/model/protocol/Message.java:69-87 | the writer produces the header then each parameter in iteration order |
| Protocol.GetIntParam | poker-model/src/main/java/poker/model/protocol/Message.java:41-51 | an integer is read only from a present key and lies in the 32-bit range; a missing key reports MISSING_PARAM and a bad number INVALID_PARAM |
| Protocol.ParseLine | poker-model/src/main/java/poker/model/protocol/Message.java:92-202 | parse; ProtocolLaws.ParseRefuses gives its errors, ProtocolLaws.RoundTrip its inverse on written messages, ProtocolLaws.ParsedShape the header tokens, and Protocol.Parse is proved equal to it |
| Protocol.ParamsOf | poker-model/src/main/java/poker/model/protocol/Message.java:139-199 | the parameter scan; Protocol.ScanParams is proved equal to it, ProtocolLaws.ScanWritten reads written parameters back with it, and ProtocolFindings.EmptyValueSwallowsNext shows its empty-value defect |
| Protocol.ProtocolString | poker-model/src/main/java/poker/model/protocol/Message.java:69-87 | toProtocolString; ProtocolLaws.RoundTrip gives its inverse, and Protocol.ToProtocolString is proved equal to it |
| ProtocolLaws.SplitToken | poker-model/src/main/java/poker/model/protocol/Message.java:104-111 | a token followed by a space splits at that space into the token and the rest |
| ProtocolLaws.KeyAheadOfToken | poker-model/src/main/java/poker/model/protocol/Message.java:172-185 | a token followed by an equals sign starts a parameter |
| ProtocolLaws.NoKeyAhead | poker-model/src/main/java/poker/model/protocol/Message.java:172-185 | text without an equals sign before the next space does not start a parameter |
| ProtocolLaws.ValueSpanOfPlain | poker-model/src/main/java/poker/model/protocol/Message.java:164-192 | a value without spaces followed by a parameter or the end spans exactly its own characters |
| ProtocolLaws.ParamsTextStarts | poker-model/src/main/java/poker/model/protocol/Message.java:78-83 | written parameters begin with a parameter |
| ProtocolLaws.ParamsTextEnds | poker-model/src/main/java/poker/model/protocol/Message.java:78-83 | written parameters with plain values end in a character trim keeps |
| ProtocolLaws.MapOf | poker-model/src/main/java/poker/model/protocol/Message.java:78-83 | the map of the written keys holds exactly those keys |
| ProtocolLaws.ValueLengthOfWritten | poker-model/src/main/java/poker/model/protocol/Message.java:160-192 | a written plain value is read back to its exact length |
| ProtocolLaws.ScanOneParam | poker-model/src/main/java/poker/model/protocol/Message.java:143-197 | scanning a written KEY=VALUE stores that value under that key and continues with the rest |
| ProtocolLaws.ScanWritten | poker-model/src/main/java/poker/model/protocol/Message.java:139-199 | scanning written parameters yields the map of the written keys |
| ProtocolLaws.MapOfListing | poker-model/src/main/java/poker/model/protocol/Message.java:78 | writing every key in iteration order covers the whole map |
| ProtocolLaws.IdTextIsToken | poker-model/src/main/java/poker/model/protocol/Message.java:71-73 | a written id, or the dash for a missing one, reads back to the same id |
| ProtocolLaws.ParseUnpadded | poker-model/src/main/java/poker/model/protocol/Message.java:92-101 | a non-blank line of at most 512 characters that trim leaves unchanged is parsed from its trimmed form directly |
| ProtocolLaws.ParseGameToken | poker-model/src/main/java/poker/model/protocol/Message.java:104-111 | the first token is the game id and the rest is parsed after it |
| ProtocolLaws.ParsePlayerToken | poker-model/src/main/java/poker/model/protocol/Message.java:113-135 | the second token is the player id and the rest gives action and parameters |
| ProtocolLaws.ParseActionToken | poker-model/src/main/java/poker/model/protocol/Message.java:122-132 | the third token is the action and the trimmed remainder holds the parameters |
| ProtocolLaws.ParseActionAlone | poker-model/src/main/java/poker/model/protocol/Message.java:126-128 | a line ending after the action has no parameters |
| ProtocolLaws.ParseWrittenHeader | poker-model/src/main/java/poker/model/protocol/Message.java:92-135 | a written header of game id, player id and body parses back to those ids |
| ProtocolLaws.HeaderText | poker-model/src/main/java/poker/model/protocol/Message.java:101-120 | a written header line needs no trimming at any of its three stages |
| ProtocolLaws.ParseWrittenBody | poker-model/src/main/java/poker/model/protocol/Message.java:122-199 | the written action and parameters read back to the same action and parameter map |
| ProtocolLaws.WrittenScan | poker-model/src/main/java/poker/model/protocol/Message.java:139-199 | scanning the written parameter text yields the written map |
| ProtocolLaws.RoundTrip | poker-model/src/main/java/poker/model/protocol/Message.java:69-202 | parsing the protocol text of a writable message of at most 512 characters gives back that message |
| ProtocolLaws.IntendedParamsRoundTrip | poker-model/src/main/java/poker/model/protocol/Message.java:160-192 | with the value scan starting right after the equals sign, written parameters read back to the same map even when a value is empty |
| ProtocolLaws.IntendedScan | poker-model/src/main/java/poker/model/protocol/Message.java:160-192 | the corrected scan reads written parameters back to the written map |
| ProtocolLaws.ParseRefuses | poker-model/src/main/java/poker/model/protocol/Message.java:92-99 | a missing or blank line is refused as INVALID_FORMAT; MESSAGE_TOO_LONG is reported exactly for a non-blank line over 512 characters; no other error code arises |
| ProtocolLaws.TokenBeforeSpace | poker-model/src/main/java/poker/model/protocol/Message.java:104-110 | the text before the first space of a trimmed line is a header token |
| ProtocolLaws.ParsedShape | poker-model/src/main/java/poker/model/protocol/Message.java:92-202 | a parsed message has ids and an action that are header tokens |
| ProtocolLaws.TrimmedShape | poker-model/src/main/java/poker/model/protocol/Message.java:101-202 | the header fields read from a trimmed line are header tokens |
| ProtocolLaws.AfterGameShape | poker-model/src/main/java/poker/model/protocol/Message.java:111-135 | after the game id, the player id and action read are header tokens |
| ProtocolLaws.ActionShape | poker-model/src/main/java/poker/model/protocol/Message.java:122-132 | the action read is a header token |
| ProtocolLaws.IntParamRoundTrip | poker-model/src/main/java/poker/model/protocol/Message.java:41-51 | an integer written into a parameter reads back as that integer |
| ProtocolLaws.IntParamDefault | poker-model/src/main/java/poker/model/protocol/Message.java:53-63 | the defaulting reader returns the integer when one can be read and the default otherwise, in particular for a missing key |
| ProtocolFindings.TrimLeadingSpace | poker-model/src/main/java/poker/model/protocol/Message.java:194 | trimming a space-led value drops the space |
| ProtocolFindings.EmptyValueSwallowsNext | poker-model/src/main/java/poker/model/protocol/Message.java:160-195 | an empty value followed by another parameter swallows it: "A= B=1" reads as A mapped to "B=1" |
| ProtocolFindings.EmptyValueWritten | poker-model/src/main/java/poker/model/protocol/Message.java:77-84 | the writer turns A="" and B="1" into " A= B=1" |
| ProtocolFindings.EmptyValueListed | poker-model/src/main/java/poker/model/protocol/Message.java:78 | the two keys A then B are a valid iteration order of that map |
| ProtocolFindings.EmptyValuePlain | poker-model/src/main/java/poker/model/protocol/Message.java:77-84 | that map has only plain values, so nothing else stops it being written |
| ProtocolFindings.EmptyValueKept | poker-model/src/main/java/poker/model/protocol/Message.java:160-195 | the corrected scan reads "A= B=1" as A mapped to "" and B mapped to "1" |
| GameFindings.StrandedDealerDiverges | poker-model/src/main/java/poker/model/game/PokerGame.java:79-110 | join A, A leaves, join B and C: every step succeeds, A keeps the button with nobody named A seated, and startGame ends in the endless rotation |
| GameFindings.LeaveIntended | poker-model/src/main/java/poker/model/game/PokerGame.java:79-90 | removePlayer as intended, with the button going to nobody once the table is empty; specified by GameFindings.IntendedLeaveKeepsDealerSeated |
| GameFindings.JoinKeepsDealerSeated | poker-model/src/main/java/poker/model/game/PokerGame.java:53-74 | addPlayer keeps the button with a seated player, and with somebody exactly when somebody is seated |
| GameFindings.IntendedLeaveKeepsDealerSeated | poker-model/src/main/java/poker/model/game/PokerGame.java:79-90 | the intended removePlayer keeps the table consistent and the button with a seated player, whoever leaves |
| GameFindings.IntendedStartNeverDiverges | poker-model/src/main/java/poker/model/game/PokerGame.java:95-113 | with the button always seated, startGame never reaches the endless rotation |
| GameFindings.StrandedDealerIntended | poker-model/src/main/java/poker/model/game/PokerGame.java:79-113 | on the same joins and leave, the intended removePlayer gives the button to B and the game starts with B first |
| Messages.IntTextIsValue | poker-model/src/main/java/poker/model/protocol/ServerMessage.java:48 | a written integer is a plain parameter value |
| Messages.IntParamReadBack | poker-model/src/main/java/poker/model/protocol/Message.java:41-51 | a parameter holding a written 32-bit integer reads back as that integer |
| Messages.ServerScopes | poker-model/src/main/java/poker/model/protocol/ServerMessage.java:15-136 | the game-event messages carry the game id and no player id in the header; acknowledgements, errors and welcome carry neither |
| Messages.ActionArgs | poker-model/src/main/java/poker/model/protocol/ServerMessage.java:83-91 | an action notice carries ARGS exactly when non-empty arguments are given, besides PLAYER and TYPE |
| Messages.NameIsToken | poker-model/src/main/java/poker/model/protocol/Message.java:69-87 | a protocol name is a token, not the dash and a plain value |
| Messages.PlainAdd | poker-model/src/main/java/poker/model/protocol/Message.java:77-84 | adding a named plain value keeps every value plain |
| Messages.ErrorReadBack | poker-model/src/main/java/poker/model/protocol/ServerMessage.java:25-30 | an error reply with plain code and reason reads back to itself |
| Messages.TurnReadBack | poker-model/src/main/java/poker/model/protocol/ServerMessage.java:74-81 | a turn notice reads back to itself, and its call and minimum raise read back as the integers written |
| Messages.CreateReadBack | poker-model/src/main/java/poker/model/protocol/ClientMessage.java:21-27 | a create request reads back to itself, and its ante and bet read back as the integers written |
| Messages.BetReadBack | poker-model/src/main/java/poker/model/protocol/ClientMessage.java:44-48 | a bet request reads back to itself, and its amount reads back as the integer written |
| Messages.Acknowledge | poker-model/src/main/java/poker/model/protocol/ServerMessage.java:15-17 | ok(): action OK with no header ids and no parameters (Messages.ServerScopes) |
| Messages.AcknowledgeWith | poker-model/src/main/java/poker/model/protocol/ServerMessage.java:19-23 | ok(message): action OK with only MESSAGE and no header ids (Messages.ServerScopes) |
| Messages.ErrorReply | poker-model/src/main/java/poker/model/protocol/ServerMessage.java:25-30 | error(code, reason): action ERR with CODE and REASON and no header ids; Messages.ErrorReadBack reads it back |
| Messages.Welcome | poker-model/src/main/java/poker/model/protocol/ServerMessage.java:32-37 | welcome: GAME and PLAYER as parameters with no header ids (Messages.ServerScopes) |
| Messages.Lobby | poker-model/src/main/java/poker/model/protocol/ServerMessage.java:39-43 | lobby: game-scoped (Messages.ServerScopes) |
| Messages.Started | poker-model/src/main/java/poker/model/protocol/ServerMessage.java:45-51 | started: game-scoped (Messages.ServerScopes) |
| Messages.AnteRequest | poker-model/src/main/java/poker/model/protocol/ServerMessage.java:53-58 | anteRequest: game-scoped (Messages.ServerScopes) |
| Messages.AnteOk | poker-model/src/main/java/poker/model/protocol/ServerMessage.java:60-65 | anteOk: game-scoped (Messages.ServerScopes) |
| Messages.Deal | poker-model/src/main/java/poker/model/protocol/ServerMessage.java:67-72 | deal: game-scoped (Messages.ServerScopes) |
| Messages.Turn | poker-model/src/main/java/poker/model/protocol/ServerMessage.java:74-81 | turn: PLAYER, PHASE, CALL and MINRAISE, game-scoped; Messages.TurnReadBack reads it and its amounts back |
| Messages.ActionNotice | poker-model/src/main/java/poker/model/protocol/ServerMessage.java:83-91 | action: ARGS exactly when args is given and non-empty (Messages.ActionArgs), game-scoped |
| Messages.DrawOk | poker-model/src/main/java/poker/model/protocol/ServerMessage.java:93-99 | drawOk: action DRAWOK, game-scoped (Messages.ServerScopes) |
| Messages.Round | poker-model/src/main/java/poker/model/protocol/ServerMessage.java:101-106 | round: game-scoped (Messages.ServerScopes) |
| Messages.Showdown | poker-model/src/main/java/poker/model/protocol/ServerMessage.java:108-114 | showdown: game-scoped (Messages.ServerScopes) |
| Messages.Winner | poker-model/src/main/java/poker/model/protocol/ServerMessage.java:116-122 | winner: game-scoped (Messages.ServerScopes) |
| Messages.Payout | poker-model/src/main/java/poker/model/protocol/ServerMessage.java:124-130 | payout: game-scoped (Messages.ServerScopes) |
| Messages.End | poker-model/src/main/java/poker/model/protocol/ServerMessage.java:132-136 | end: game-scoped (Messages.ServerScopes) |
| Messages.Hello | poker-model/src/main/java/poker/model/protocol/ClientMessage.java:15-19 | hello: VERSION only, no header ids |
| Messages.Create | poker-model/src/main/java/poker/model/protocol/ClientMessage.java:21-27 | create: ANTE, BET and LIMIT=FIXED with no header ids; Messages.CreateReadBack reads it and its ints back |
| Messages.Join | poker-model/src/main/java/poker/model/protocol/ClientMessage.java:29-34 | join: GAME and NAME with no header ids |
| Messages.InGame | poker-model/src/main/java/poker/model/protocol/ClientMessage.java:36-74 | the requests that name both header ids and carry no parameters; Server.InGameReadBack reads them back |
| Messages.Bet | poker-model/src/main/java/poker/model/protocol/ClientMessage.java:44-48 | bet: AMOUNT as decimal text with both header ids; Messages.BetReadBack reads it and the amount back |
| Messages.Draw | poker-model/src/main/java/poker/model/protocol/ClientMessage.java:62-66 | draw: CARDS verbatim with both header ids; Server.DrawRouted reads written indices back |
| Server.LinesAreTrimmed | poker-server/src/main/java/poker/server/ClientHandler.java:85-91 | every message taken from the buffer is trimmed and non-empty |
| Server.PendingIsTail | poker-server/src/main/java/poker/server/ClientHandler.java:85-95 | what stays buffered is the text after the last newline, and holds no newline |
| Server.LinesStep | poker-server/src/main/java/poker/server/ClientHandler.java:85-91 | one round of the loop takes the trimmed text before the first newline, dropping it when empty, and continues after the newline |
| Server.NoNewline | poker-server/src/main/java/poker/server/ClientHandler.java:85 | a buffer without a newline yields no message and stays as it is |
| Server.ChunksCompose | poker-server/src/main/java/poker/server/ClientHandler.java:73-95 | the messages of two chunks received together are those of the first chunk followed by those of its leftover joined with the second |
| Server.ChunksKeep | poker-server/src/main/java/poker/server/ClientHandler.java:73-95 | what stays buffered after two chunks does not depend on whether they arrived separately or together |
| Server.Terminated | poker-server/src/main/java/poker/server/ClientHandler.java:146-149 | a queued message always ends in a newline; one that already did is unchanged, any other gets one appended |
| Server.WireReadBack | poker-server/src/main/java/poker/server/ClientHandler.java:85-91 | a queue of one-line messages, written out and read back, yields exactly those messages and nothing left over |
| Server.SplitAll | poker-server/src/main/java/poker/server/ClientHandler.java:361 | splitting always yields at least one piece |
| Server.DropTrailingEmpty | poker-server/src/main/java/poker/server/ClientHandler.java:361 | dropping trailing empty pieces keeps a prefix that does not end in an empty piece, and only empty pieces are dropped |
| Server.ParseEach | poker-server/src/main/java/poker/server/ClientHandler.java:361-364 | the pieces parse exactly when each trimmed piece is a 32-bit integer, and then give those integers in order |
| Server.Texts | poker-server/src/main/java/poker/server/ClientHandler.java:314 | each integer is written in decimal |
| Server.SplitJoin | poker-server/src/main/java/poker/server/ClientHandler.java:361 | splitting pieces joined by a separator they do not contain gives back the pieces |
| Server.JoinedTextIsValue | poker-server/src/main/java/poker/server/ClientHandler.java:357-361 | a comma-joined list of integers is a plain parameter value that starts with a digit or a minus sign |
| Server.IntTextStart | poker-server/src/main/java/poker/server/ClientHandler.java:357-361 | a written integer is non-empty, starts with a digit or a minus sign, and holds no comma |
| Server.NotNoneWord | poker-server/src/main/java/poker/server/ClientHandler.java:358 | text starting with a digit or a minus sign is never the word none, in any case |
| Server.SplitJoined | poker-server/src/main/java/poker/server/ClientHandler.java:361 | splitting comma-joined integer texts gives back the texts |
| Server.ParseTexts | poker-server/src/main/java/poker/server/ClientHandler.java:361-364 | parsing the written forms of 32-bit integers gives back those integers |
| Server.CardIndicesRoundTrip | poker-server/src/main/java/poker/server/ClientHandler.java:357-365 | a non-empty list of 32-bit indices written comma-separated is read back to the same list |
| Server.IntOf | poker-server/src/main/java/poker/server/ClientHandler.java:311 | an integer is read only from a present parameter whose text parses to it |
| Server.DispatchRefusals | poker-server/src/main/java/poker/server/ClientHandler.java:105-117 | an action is refused as unknown exactly when it is not one of the ten served; as not in a game exactly when a seated action lacks a game or player, or START lacks a game; action failures arise only from BET and DRAW; dispatch never reports a format error |
| Server.RouteRefusals | poker-server/src/main/java/poker/server/ClientHandler.java:98-122 | a line is answered with INVALID_FORMAT exactly when it does not parse |
| Server.BetRouted | poker-server/src/main/java/poker/server/ClientHandler.java:309-317 | a written bet request becomes a raise of the amount when a game and player are set, and NOT_IN_GAME otherwise |
| Server.BetDispatch | poker-server/src/main/java/poker/server/ClientHandler.java:309-317 | a parsed BET with a readable amount becomes a raise of that amount when seated, and NOT_IN_GAME otherwise |
| Server.DrawRouted | poker-server/src/main/java/poker/server/ClientHandler.java:328-365 | a written draw request with a comma-separated index list becomes an exchange of exactly those indices for a seated player |
| Server.InGameReadBack | poker-model/src/main/java/poker/model/protocol/ClientMessage.java:36-74 | a parameterless in-game request reads back to itself |
| Server.UnknownRouted | poker-server/src/main/java/poker/server/ClientHandler.java:116 | a parsed line with an action outside the ten served is answered with UNKNOWN_ACTION naming it |
| Server.StatusAndQuitUnknown | poker-server/src/main/java/poker/server/ClientHandler.java:105-117 | the client's STATUS and QUIT requests are answered with UNKNOWN_ACTION |
| Server.ClientHandler.constructor | poker-server/src/main/java/poker/server/ClientHandler.java:44-56 | a new handler has empty buffers, no dispatched lines, and no game or player |
| Server.ClientHandler.ProcessMessages | poker-server/src/main/java/poker/server/ClientHandler.java:81-96 | the loop hands exactly the complete lines of the buffer, in order, to processMessage and keeps the unterminated tail; the write queue gains the ERR line of each refused line, in line order (Server.RefusalReplies); the connection's game and player are unchanged |
| Server.ClientHandler.Receive | poker-server/src/main/java/poker/server/ClientHandler.java:67-78 | a received chunk is appended to the buffer and the complete lines of the result are processed: they are handed on in order, the ERR lines for the refused ones are queued, and the tail stays buffered |
| Server.ClientHandler.Send | poker-server/src/main/java/poker/server/ClientHandler.java:146-152 | the newline-terminated message is appended to the write queue and nothing else changes |
| Server.ClientHandler.SendError | poker-server/src/main/java/poker/server/ClientHandler.java:168-170 | an error reply with code and reason, written as protocol text, is queued |
| Server.ReceiveTwice | poker-server/src/main/java/poker/server/ClientHandler.java:67-96 | receiving two chunks one after the other dispatches the same lines and keeps the same tail as receiving them together |
| Server.Lines | poker-server/src/main/java/poker/server/ClientHandler.java:85-91 | the lines processMessages hands on; Server.LinesAreTrimmed, Server.ChunksCompose and Server.WireReadBack |
| Server.Pending | poker-server/src/main/java/poker/server/ClientHandler.java:94-95 | what stays buffered; Server.PendingIsTail and Server.ChunksKeep |
| Server.Split | poker-server/src/main/java/poker/server/ClientHandler.java:361 | String.split; Server.SplitJoin and Server.SplitJoined invert the comma join |
| Server.ParseCardIndices | poker-server/src/main/java/poker/server/ClientHandler.java:357-365 | parseCardIndices; Server.CardIndicesRoundTrip inverts the comma join of indices, Server.ParseEach gives the all-or-nothing parse |
| Server.Dispatch | poker-server/src/main/java/poker/server/ClientHandler.java:105-117 | the switch of processMessage with the handlers' guards; Server.DispatchRefusals gives each refusal exactly when its guard fails |
| Server.Route | poker-server/src/main/java/poker/server/ClientHandler.java:98-122 | processMessage's routing of a line; Server.RouteRefusals gives INVALID_FORMAT exactly when the line does not parse |
| Server.RefusalReply | poker-server/src/main/java/poker/server/ClientHandler.java:98-122 | a line gets at most one ERR line, and only when it is refused |
| Server.RefusalReplies | poker-server/src/main/java/poker/server/ClientHandler.java:81-96 | a run of lines gets at most one ERR line per line |
| Server.RefusalRepliesAppend | poker-server/src/main/java/poker/server/ClientHandler.java:81-96 | the replies to two consecutive runs of lines are the replies to the first run followed by those to the second |
| Server.UnknownActionReplied | poker-server/src/main/java/poker/server/ClientHandler.java:116 | a parsed line whose action has no case is answered with ERR CODE=UNKNOWN_ACTION and REASON "Unknown action: " and the action |
| Server.MalformedReplied | poker-server/src/main/java/poker/server/ClientHandler.java:118-121 | a line that does not parse is answered with ERR CODE=INVALID_FORMAT and REASON "Invalid message format" |
| Server.ClientHandler.ProcessMessage | poker-server/src/main/java/poker/server/ClientHandler.java:98-122 | the line is recorded as handed on, and the write queue gains exactly its ERR line when it is refused; the buffer and the connection's game and player are unchanged |

## Left out

- Sockets, the selector, channel reads and writes, partial writes, the write queue's flushing, broadcasts and `sendToPlayer`: network I/O in `ClientHandler.java` is not modelled; the handler model starts from the text a read delivered and ends at the lines queued for sending.
- The effects of the request handlers on the game manager, on games and on the handler's game and player ids: the model stops at the request a line is routed to (`Server.Dispatch`, `Server.Route`) and does not follow it into the handlers.
- Server.ClientHandler.ProcessMessages, Server.ClientHandler.Receive and Server.ClientHandler.ProcessMessage: only the ERR replies that `processMessage` and the handlers' guards send for a refused line are queued; the handlers' own replies and broadcasts, and the ACTION_FAILED reply of `handleGameAction`, whose reason is the text of a Java exception, are not queued in the model.
- Game.PokerGame.AddPlayer: the game keeps its players as values, so the returned player is a copy; in the source it is the object held in the game's map, through which later changes made by the game (chips, hand, folding) are visible to the caller.
- `PokerServer.java`, `PokerClient.java` and `GameManager.java` are not part of this model (the accept loop, the console client and the map of games).
- Concurrency: `synchronized` methods and virtual threads; the model is single-threaded.
- Logging, Lombok getters and builders, and the exception message texts, except the texts the server copies into its replies.
- `Card.toDisplayString` and its Unicode suit glyphs.
- `UUID`-based id generation: `Ids.GeneratePlayerId` and `Ids.GenerateGameId` take the random text as a parameter and keep only its length rule.
- The distribution of the shuffle: `Decks.Deck.Shuffle` is proved to permute the cards for every random source, not to be uniform.
- `HashMap` iteration order is a parameter (a list of keys), so the model holds for every order rather than for the one the JVM would choose.
- Java `int` overflow of chips, bets and the pot (32-bit wrap-around) is not modelled; amounts are unbounded integers.
- Java strings are sequences of UTF-16 code units; the model's strings are sequences of characters, `trim` removes the characters up to U+0020, and decoding a read buffer from UTF-8 (including a character split across two reads) is not modelled.
- `Integer.parseInt` is modelled on ASCII digits with an optional sign and the 32-bit range; the non-ASCII decimal digits Java also accepts are not.
- Null arguments are modelled only where the source checks for them (`Card.fromString`, `PlayerId.of`, `GameId.of`, `Message.parse`, a missing parameter or current turn), and apart from the `cards == null` test of `HandEvaluator.evaluate`); other null arguments are left out.
- Evaluator.Evaluate: a hand is a sequence and cannot be null, so the `cards == null` test of `HandEvaluator.evaluate` (which throws the same error as a hand of the wrong size) has no counterpart.
- Rank.java is not part of this model; its ranks, values and symbols are the ones the other files rely on (TWO to ACE, 2 to 14, symbols 2-9, T, J, Q, K, A).
- The `roundComplete` field of `PokerGame` is written but never read, so it has no effect in the model; `getPlayer`, `getAllPlayers` and the other getters are plain reads of the state.
- `Deck.size` and `Deck.getCards` are plain reads of the card list.
- Game.PokerGame.StartGame: when the dealer is not seated, the source's rotation loop never ends; the model returns `Diverges` instead of running forever. The second finding below shows how the dealer comes to be unseated.
- GameLaws.DrawKeepsHandSize: proved for a hand without repeated cards, because `removeCards` removes by value and would remove every copy of a repeated card.
- ProtocolLaws.RoundTrip: proved for messages whose header ids are tokens other than "-", whose action is a token, whose parameter values are non-empty, contain no '=' and start and end with a character `trim` keeps, and whose line is at most 512 characters; the other messages do not survive the round trip (one of them is the finding below).
- STATUS and QUIT, which the client library can build, are not served by the handler; `Server.StatusAndQuitUnknown` states that they are refused as unknown actions.

## Findings

| source | as written | input that shows it | evidently intended | confidence | as-written member | corrected member |
|---|---|---|---|---|---|---|
| poker-model/src/main/java/poker/model/protocol/Message.java:160-196 | the scan for the end of a value starts one character after the '=', so an empty value swallows the next parameter | `toProtocolString` writes the parameters {A: "", B: "1"} as " A= B=1"; `parse` reads the parameter text "A= B=1" as {A: "B=1"} | an empty value ends at the space before the next KEY=; the line reads back as {A: "", B: "1"} | not executed | ProtocolFindings.EmptyValueSwallowsNext | ProtocolLaws.IntendedParamsRoundTrip |
| poker-model/src/main/java/poker/model/game/PokerGame.java:79-110 | `removePlayer` hands the dealer button on only while somebody is still seated, so a dealer who empties the table keeps it; `startGame` then rotates the turn order looking for a dealer who is not in it, and never stops | join A, A leaves, join B and C, start | a dealer who empties the table gives up the button, and the next player to join takes it, so the game starts with B first | not executed | GameFindings.StrandedDealerDiverges | GameFindings.IntendedStartNeverDiverges |
