# Poker mini-game: verified model of the card and score logic

This project models the model layer of a Unity poker mini-game in Dafny:

- **Deck and deal.** Building a deck of `deckCount` copies of the 52 cards, each keyed `Suit_Rank_deck`. Dealing the whole deck into the dealt pile (container A) in random order.
- **Containers.** The two card containers: the dealt pile A and the selected hand B, which holds at most five cards.
- **Classifier.** The poker-hand classifier that labels hand B after every change. Its twelve categories run from high card to flush five of a kind, because a multi-deck game can hold five equal cards.
- **Card component.** The model logic of the card component: its dictionary key, its sprite name, the name shown on click, and the click that moves a card from A into B.
- **Config tables.** The comma-separated config tables and their loader.
- **Scores.** The running score, the best score kept in the player preferences, and the per-category points read from the `hand` table.

Modules, one file each:

| file | module | models |
|---|---|---|
| wrappers.dfy | Wrappers | `Option`, `Result` |
| text.dfy | Text | the C# string and number operations the code relies on: `Split`, `Trim`, `Split` with `RemoveEmptyEntries`, `int.Parse`, unchecked 32-bit arithmetic |
| card_types.dfy | CardTypes | the enums `CardSuit`, `CardRank`, `PokerHandType`, `CardType`, the card value and the card key format |
| enumeration.dfy | Enumeration | enumerating a `Dictionary` (`.Keys`, `.Values`), whose order C# leaves unspecified |
| hand_evaluator.dfy | HandEvaluator | the `Is*` category tests and the priority chain of `EvaluatePokerHand` |
| cards_collection_model.dfy | CardsCollection | class `CardsCollectionModel` with the events it raises |
| card_model.dfy | CardState | class `CardModel` |
| card_view.dfy | CardView | the model logic of `Card` (key, sprite name, display name, click) |
| card_manager.dfy | CardManager | `GeneratePokerDecks` and `DealCardsToContainerA` |
| config_data.dfy | Config | class `ConfigData` |
| score_model.dfy | Score | class `ScoreModel` |

Design decisions:

- **Events as state.** Each model class keeps its static C# events in a log field (`events` or `effects`), in the order the source raises them. The log also records:
  - the delayed clear the class asks the card controller for;
  - the destruction of a card's game object.
- **Dictionaries as maps.**
  - A `Dictionary` is a `map`.
  - Where the source enumerates one, the enumeration order is arbitrary. This is `Enumeration.KeysOf`, `Enumeration.ValuesOf` and the rows passed to `HandScore`.
  - The hand category is proved the same for every listing of the hand (`HandEvaluator.ClassifyPermutationInvariant`, `HandEvaluator.ClassifyAnyListing`).
  - The row `HandScore` scores is proved the same for every order of the table only when every row has a `HandType` and the rows naming the category are all the same row (`Score.FirstMatchOrderFree`).
- **Exceptions as errors.** An exception is an `Err` or error value. State changed before the throw stays changed, as in the source. An exception thrown by an event subscriber is the exception of that subscriber only; it does not reach the class raising the event (see `CardsCollection.CardsCollectionModel.EvaluatePokerHand` under Left out).
- **Unchecked 32-bit arithmetic.** The score uses C# unchecked `int` arithmetic, so `Score × Multiplier` and `_score += …` wrap around at 32 bits (`Text.Wrap32`).
- **The `Null` category.** `PokerHandType.Null` is used by `CardsCollectionModel.cs` (lines 193, 216, 231 and 255) but is not declared in `PokerHandType.cs:8-22`. The model adds it as a thirteenth category with enum value -1, below `HighCard`.

## Model

| member | source | states |
|---|---|---|
| CardTypes.RankValue | Scripts/Module/Card/CardRank.cs:13-73 | the enum value of a rank lies between 1 (Ace) and 13 (King) |
| CardTypes.KeyRoundTrip | Scripts/Module/Card/Card.cs:85-88 | the key `Suit_Rank_id` of a card, read back, gives its suit, rank and id |
| CardTypes.KeyInjective | Scripts/Module/Card/Card.cs:85-88 | two cards with different suit, rank or id have different keys |
| CardTypes.SuitNameRoundTrip | Scripts/Module/Card/CardSuit.cs:13-28 | every suit name reads back as its suit |
| CardTypes.RankNameRoundTrip | Scripts/Module/Card/CardRank.cs:13-73 | every rank name reads back as its rank |
| Text.Wrap32 | Scripts/Module/Game/ScoreModel.cs:80 | the result is in the 32-bit range and agrees with the input modulo 2^32, as unchecked C# `int` arithmetic does |
| Text.NatToString | Scripts/Module/Card/CardManager.cs:328 | the decimal text of a deck number is all digits; it is one digit exactly for numbers below 10 and starts with `0` only for 0, so there is no leading zero |
| Text.NatToStringRoundTrip | Scripts/Module/Card/CardManager.cs:328 | the decimal text of a deck number reads back as the number |
| Text.NatToStringInjective | Scripts/Module/Card/CardManager.cs:328 | different deck numbers give different decimal texts |
| Text.TrimStart | Scripts/Config/ConfigData.cs:56 | the result is a suffix of the input that does not start with white space, and everything dropped is white space |
| Text.TrimEnd | Scripts/Config/ConfigData.cs:56 | the result is a prefix of the input that does not end with white space, and everything dropped is white space |
| Text.Trim | Scripts/Config/ConfigData.cs:56 | the trimmed line neither starts nor ends with white space |
| Text.SplitPiecesHaveNoSeparator | Scripts/Config/ConfigData.cs:56 | no piece of `Split(",")` holds a comma |
| Text.SplitJoinRoundTrip | Scripts/Config/ConfigData.cs:60 | joining the pieces of a split with the separator gives back the text |
| Text.SplitRemoveEmpty | Scripts/Config/ConfigData.cs:54 | every line left by `Split("\n", RemoveEmptyEntries)` is non-empty and holds no line break |
| Text.NonEmptyKeepsMembers | Scripts/Config/ConfigData.cs:54 | `RemoveEmptyEntries` keeps exactly the non-empty pieces |
| Text.ParseInt32 | Scripts/Config/ConfigData.cs:66 | `int.Parse` never yields a value outside the 32-bit range |
| Text.ParseInt32Overflow | Scripts/Config/ConfigData.cs:66 | the decimal text of a number outside the 32-bit range makes `int.Parse` fail with an overflow, not a format error |
| Text.ParseInt32RoundTrip | Scripts/Module/Game/ScoreModel.cs:80 | every 32-bit integer written in decimal parses back to itself |
| Enumeration.DistinctCardinality | Scripts/Module/Card/CardsCollectionModel.cs:225 | a list of distinct keys has as many entries as the set it lists |
| Enumeration.ValuesAtEnumeration | Scripts/Module/Card/CardsCollectionModel.cs:260 | the values read through any listing of a dictionary's keys are a permutation of its values |
| Enumeration.RemoveKey | Scripts/Module/Card/CardsCollectionModel.cs:117 | `Dictionary.Remove` drops one entry when the key is present and changes nothing otherwise |
| Enumeration.KeysOf | Scripts/Module/Card/CardManager.cs:184 | `.Keys`: the keys in some order, each exactly once |
| Enumeration.ValuesOf | Scripts/Module/Card/CardsCollectionModel.cs:260 | `.Values`: the values in some order; as a multiset they are the dictionary's values |
| HandEvaluator.Classify | Scripts/Module/Card/CardsCollectionModel.cs:250-348 | the category is Null exactly for an empty hand |
| HandEvaluator.ClassifyIsHighestHolding | Scripts/Module/Card/CardsCollectionModel.cs:253-335 | the category chosen holds for the hand, and no category with a higher enum value holds |
| HandEvaluator.ClassifyPermutationInvariant | Scripts/Module/Card/CardsCollectionModel.cs:260 | hands holding the same cards in any order get the same category |
| HandEvaluator.ClassifyAnyListing | Scripts/Module/Card/CardModel.cs:265 | classifying `.Values` in whatever order the dictionary gives them yields the category of the hand |
| HandEvaluator.ClassifyHand | Scripts/Module/Card/CardsCollectionModel.cs:260 | classifying the values of a hand, in the order the dictionary gives them, yields the category of the hand |
| HandEvaluator.ClassifiedAsHandTypeOf | Scripts/Module/Card/CardModel.cs:265 | a label on which every listing of the hand's cards agrees is exactly the hand's category, and the category is such a label |
| HandEvaluator.HandTypeOf | Scripts/Module/Card/CardsCollectionModel.cs:250-348 | the category of a hand held in a dictionary; Null exactly for the empty hand |
| HandEvaluator.StraightCharacterization | Scripts/Module/Card/CardsCollectionModel.cs:475-508 | a hand is a straight exactly when it has five cards whose ranks are five consecutive values or 10-J-Q-K-A |
| HandEvaluator.LowStraightIsConsecutive | Scripts/Module/Card/CardsCollectionModel.cs:483-490 | the low-straight test A-2-3-4-5 only accepts hands the consecutive test accepts too |
| HandEvaluator.StraightHasDistinctRanks | Scripts/Module/Card/CardsCollectionModel.cs:475-508 | no two cards of a straight share a rank |
| HandEvaluator.SmallHands | Scripts/Module/Card/CardsCollectionModel.cs:253-335 | a hand of one to four cards is never a straight, flush, full house or five of a kind; one card is always HighCard |
| HandEvaluator.EnumValue | Scripts/Module/Card/PokerHandType.cs:8-22 | categories are ranked by their enum value, Null (-1) lowest |
| HandEvaluator.PermutationFeatures | Scripts/Module/Card/CardsCollectionModel.cs:353-571 | every feature the `Is*` tests look at (size, suits, rank counts, sorted ranks) is the same for a permutation of the hand |
| HandEvaluator.SortAscending | Scripts/Module/Card/CardsCollectionModel.cs:478 | the sorted rank list is sorted and a permutation of its input |
| HandEvaluator.SortedUnique | Scripts/Module/Card/CardsCollectionModel.cs:478 | two sorted lists holding the same values are equal, so the sorted ranks do not depend on the order of the cards |
| HandEvaluator.StraightRanks | Scripts/Module/Card/CardsCollectionModel.cs:475-508 | five sorted rank values pass the low, high or consecutive test exactly when they are 10-J-Q-K-A or five consecutive values |
| HandEvaluator.StraightTestsGiveRun | Scripts/Module/Card/CardsCollectionModel.cs:483-505 | sorted rank values that pass one of the three tests are such a run |
| HandEvaluator.RunPassesStraightTests | Scripts/Module/Card/CardsCollectionModel.cs:492-505 | every such run passes the high or the consecutive test |
| HandEvaluator.RankCounts | Scripts/Module/Card/CardsCollectionModel.cs:425-431 | the count kept for each rank is the number of cards of that rank |
| CardsCollection.EvaluationEvents | Scripts/Module/Card/CardsCollectionModel.cs:337-346 | when no subscriber throws, evaluating a hand raises the hand-type event, and raises the full-hand event and the delayed clear exactly when the hand has five cards |
| CardsCollection.CardsCollectionModel.constructor | Scripts/Module/Card/CardsCollectionModel.cs:87-91 | both containers start empty, the hand is labelled HighCard and no event has been raised |
| CardsCollection.CardsCollectionModel.AddCardToContainerA | Scripts/Module/Card/CardsCollectionModel.cs:99-106 | a new key is added and A's new size is reported; a key already in A changes nothing |
| CardsCollection.CardsCollectionModel.RemoveCardFromContainerA | Scripts/Module/Card/CardsCollectionModel.cs:113-137 | removes the key when present and reports A's new size; when A becomes empty, raises game over on level 2 and the empty event on any other level |
| CardsCollection.CardsCollectionModel.AddCardToContainerB | Scripts/Module/Card/CardsCollectionModel.cs:150-172 | adds the card exactly when B has fewer than five cards and not the key; then the hand is re-classified, with the full-hand events at five cards |
| CardsCollection.CardsCollectionModel.RemoveCardFromContainerB | Scripts/Module/Card/CardsCollectionModel.cs:179-199 | removes the key when present; a hand left non-empty is re-classified, an emptied one is labelled Null |
| CardsCollection.CardsCollectionModel.ClearContainerA | Scripts/Module/Card/CardsCollectionModel.cs:204-207 | A becomes empty and nothing else changes |
| CardsCollection.CardsCollectionModel.ClearContainerB | Scripts/Module/Card/CardsCollectionModel.cs:212-217 | B becomes empty and is labelled Null, whatever it held, so clearing twice is clearing once |
| CardsCollection.CardsCollectionModel.ClearContainerBWithDestroy | Scripts/Module/Card/CardsCollectionModel.cs:222-244 | B becomes empty and labelled Null, and exactly the cards B held are destroyed, once each |
| CardsCollection.CardsCollectionModel.EvaluatePokerHand | Scripts/Module/Card/CardsCollectionModel.cs:250-348 | the label becomes the category of B; events only for a non-empty hand, with the full-hand events at five cards |
| CardState.RemoveFirst | Scripts/Module/Card/CardModel.cs:235-241 | `List.Remove`: exactly one copy of the card leaves the list when present, otherwise the list is unchanged |
| CardState.RemoveFirstNoDuplicates | Scripts/Module/Card/CardModel.cs:235-241 | in a list without duplicates, removing a card removes it completely and keeps every other card |
| CardState.CardModel.NeverNull | Scripts/Module/Card/CardModel.cs:127-147 | this model never labels its hand Null |
| CardState.CardModel.constructor | Scripts/Module/Card/CardModel.cs:33-38 | no cards, an empty deck, both containers empty, the hand labelled HighCard |
| CardState.CardModel.AddCardToContainerA | Scripts/Module/Card/CardModel.cs:70-76 | a new key is added; a key already in A changes nothing |
| CardState.CardModel.RemoveCardFromContainerA | Scripts/Module/Card/CardModel.cs:83-90 | reports whether the key was in A and takes it out |
| CardState.CardModel.AddCardToContainerB | Scripts/Module/Card/CardModel.cs:98-120 | adds the card exactly when B has fewer than five cards and not the key; then the hand is re-classified and a delayed clear is requested at five cards |
| CardState.CardModel.RemoveCardFromContainerB | Scripts/Module/Card/CardModel.cs:127-147 | removes the key when present; a hand left non-empty is re-classified, an emptied one is labelled HighCard |
| CardState.CardModel.ClearContainerA | Scripts/Module/Card/CardModel.cs:152-155 | A becomes empty |
| CardState.CardModel.ClearContainerB | Scripts/Module/Card/CardModel.cs:160-165 | B becomes empty and is labelled HighCard |
| CardState.CardModel.ClearContainerBWithDestroy | Scripts/Module/Card/CardModel.cs:170-191 | B becomes empty and labelled HighCard, and exactly the cards B held are destroyed, once each |
| CardState.CardModel.SetCardDeck | Scripts/Module/Card/CardModel.cs:197-200 | the deck becomes the one given |
| CardState.CardModel.GetCardDeck | Scripts/Module/Card/CardModel.cs:206-209 | gives the deck held |
| CardState.CardModel.ClearCardDeck | Scripts/Module/Card/CardModel.cs:214-217 | the deck becomes empty |
| CardState.CardModel.AddCard | Scripts/Module/Card/CardModel.cs:223-229 | appends a card that is not null and not yet listed; the list never holds a card twice |
| CardState.CardModel.RemoveCard | Scripts/Module/Card/CardModel.cs:235-241 | the card is no longer listed and every other card still is |
| CardState.CardModel.ClearCards | Scripts/Module/Card/CardModel.cs:246-249 | the list becomes empty |
| CardState.CardModel.EvaluatePokerHand | Scripts/Module/Card/CardModel.cs:255-350 | the label becomes HighCard for an empty hand and the hand's category otherwise; a delayed clear is requested at five cards |
| CardView.GetCardKey | Scripts/Module/Card/Card.cs:85-88 | the key reads back as the card's suit, rank and unique id |
| CardView.DistinctIdsDistinctKeys | Scripts/Module/Card/Card.cs:64 | cards with different unique ids never share a key |
| CardView.FormatD2 | Scripts/Module/Card/Card.cs:149 | format `D2`: at least two decimal digits whose value is the number |
| CardView.ImageFileName | Scripts/Module/Card/Card.cs:131-149 | the sprite name is three characters: suit letter and two-digit rank |
| CardView.ImageFileNameRoundTrip | Scripts/Module/Card/Card.cs:131-149 | the sprite name reads back as the card's suit and rank |
| CardView.ImageFileNameInjective | Scripts/Module/Card/Card.cs:131-149 | different cards load different sprites |
| CardView.CardImagePathInjective | Scripts/Module/Card/Card.cs:126-161 | two poker cards load the same image path exactly when they have the same suit and rank |
| CardView.RankOfValue | Scripts/Module/Card/CardRank.cs:13-73 | a rank exists exactly for the values 1 to 13 and has that value |
| CardView.RankDisplayNameRoundTrip | Scripts/Module/Card/Card.cs:205-223 | the name shown for a rank (A, 2 … 10, J, Q, K) reads back as that rank, so no two ranks look alike |
| CardView.MoveCardToContainerB | Scripts/Module/Card/Card.cs:250-291 | with no model nothing moves; with a full hand nothing moves; otherwise the card moves from A to B exactly when its key was in A, and a fifth card in B requests the delayed clear; when nothing moves, the containers, the label and the effects are as before; the deal list and the deck never change |
| CardView.OnPointerClick | Scripts/Module/Card/Card.cs:166-245 | an overlapped or non-interactable card ignores the click; a poker card shows its name and, when container B is set up, tries the move, whose outcome (no model, hand full, not in A, moved) and effect on the model are those of `MoveCardToContainerB`; otherwise the model is untouched |
| CardManager.DeckKeyInjective | Scripts/Module/Card/CardManager.cs:328 | the key `suit_rank_deck` determines its suit, rank and deck number |
| CardManager.GeneratePokerDecks | Scripts/Module/Card/CardManager.cs:316-345 | the deck holds `52 × deckCount` cards (none for a count of zero or less); exactly the keys of decks 0 … deckCount-1 are present, each with its own suit and rank |
| CardManager.DecksUpToKeys | Scripts/Module/Card/CardManager.cs:321-340 | after the loops have reached a given deck, suit and rank, exactly the keys before that point are present |
| CardManager.DecksUpToEntries | Scripts/Module/Card/CardManager.cs:331-338 | every key present maps to the suit and rank it names |
| CardManager.DecksUpToSize | Scripts/Module/Card/CardManager.cs:321-340 | after the loops have reached a given deck, suit and rank, the deck holds one card per step taken |
| CardManager.DecksUpToFresh | Scripts/Module/Card/CardManager.cs:338 | the key about to be added is not yet present, so `Dictionary.Add` never throws |
| CardManager.DecksCopies | Scripts/Module/Card/CardManager.cs:316-345 | each of the 52 cards appears exactly deckCount times |
| CardManager.CopyKeys | Scripts/Module/Card/CardManager.cs:328 | the keys of the copies of one card across n decks number n |
| CardManager.DealCardsToContainerA | Scripts/Module/Card/CardManager.cs:134-214 | with no container A or a null or empty deck nothing happens; otherwise A is cleared and, when A is a RectTransform, every card of the deck is dealt exactly once with its own suit and rank |
| CardManager.DrawStep | Scripts/Module/Card/CardManager.cs:188-194 | drawing the key at any index keeps the drawn and the remaining keys apart, each drawn key once with its entry, and together the whole deck |
| CardManager.RemoveAtDistinct | Scripts/Module/Card/CardManager.cs:194 | taking the chosen key out of the remaining keys leaves the others, still distinct |
| Config.Lines | Scripts/Config/ConfigData.cs:54 | the lines of the file, without empty ones |
| Config.Fields | Scripts/Config/ConfigData.cs:56 | the comma-separated fields of a trimmed line |
| Config.RowPrefixSpec | Scripts/Config/ConfigData.cs:61-65 | building a row succeeds exactly when every field has a header and the headers used are distinct; the row maps each header to its field |
| Config.RowOfSpec | Scripts/Config/ConfigData.cs:61-65 | a row fails with an out-of-range column or a duplicate column exactly when the source's loop throws |
| Config.PairFields | Scripts/Config/ConfigData.cs:61-65 | the inner loop builds exactly the row of the line's fields, and fails as building that row fails |
| Config.LoadFromSuccess | Scripts/Config/ConfigData.cs:58-67 | a load without error adds one row per data line, under the row's parsed `Id`, none of them present before, and keeps the rows already present |
| Config.LoadFromDistinctIds | Scripts/Config/ConfigData.cs:66 | a load without error never meets the same id on two lines |
| Config.LoadFromKeySet | Scripts/Config/ConfigData.cs:58-67 | after a load without error the table holds exactly the ids it held before and the ids of the lines read |
| Config.LoadFromKeeps | Scripts/Config/ConfigData.cs:58-67 | a load, successful or not, never removes or changes a row already present |
| Config.LoadFromNeverNoLines | Scripts/Config/ConfigData.cs:58-67 | once past the header, a load never fails for want of lines |
| Config.LineRowNotNoLines | Scripts/Config/ConfigData.cs:60-66 | a data line never fails for want of lines |
| Config.LoadSpecNoLines | Scripts/Config/ConfigData.cs:54-56 | `Load` fails reading the header exactly when the text has no non-empty line |
| Config.LoadSpecKeeps | Scripts/Config/ConfigData.cs:51-68 | whether it succeeds or not, `Load` keeps every row stored before it |
| Config.LoadSpecSuccess | Scripts/Config/ConfigData.cs:51-68 | on success the header and description lines add nothing, and every later line adds its own row under a new id, so the table grows by the number of data lines |
| Config.LoadSpecKeySet | Scripts/Config/ConfigData.cs:51-68 | after a successful `Load` the table holds exactly the ids stored before and those of the data lines, and no two data lines share an id |
| Config.LoadSpecRepeatedLineFails | Scripts/Config/ConfigData.cs:66 | two data lines that read the same make `Load` fail |
| Config.ConfigData.constructor | Scripts/Config/ConfigData.cs:25-29 | keeps the file name and starts with no rows |
| Config.ConfigData.Load | Scripts/Config/ConfigData.cs:51-68 | the new rows and the error are those of the loading function on the old rows |
| Config.ConfigData.GetDataById | Scripts/Config/ConfigData.cs:75-82 | the row with that id, or none when there is none |
| Config.ConfigData.GetLines | Scripts/Config/ConfigData.cs:88-91 | all the rows |
| Score.FirstMatch | Scripts/Module/Game/ScoreModel.cs:76-78 | the first row whose `HandType` is the name, every earlier row having another name; none exactly when no row has it; an error when a row without the column comes first |
| Score.FirstMatchAt | Scripts/Module/Game/ScoreModel.cs:76-82 | the scan stops at the first row that matches or lacks the column |
| Score.FirstMatchErrAfter | Scripts/Module/Game/ScoreModel.cs:76-78 | an error means a row without `HandType` comes before any matching row |
| Score.FirstMatchOrderFree | Scripts/Module/Game/ScoreModel.cs:76-78 | when every row has a `HandType` and the rows naming the category are all the same row, any reordering of the table finds a match exactly when the original does, and the same row |
| Score.FirstMatchNone | Scripts/Module/Game/ScoreModel.cs:84 | when no row names the category, the scan finds nothing |
| Score.ColumnValue | Scripts/Module/Game/ScoreModel.cs:80 | a missing column is an error; a present column gives the 32-bit integer its text parses to, or the parse error when it does not parse |
| Score.Points | Scripts/Module/Game/ScoreModel.cs:80 | the points of a row are Score × Multiplier wrapped to 32 bits, and exist exactly when both columns parse |
| Score.HandTypeNameInjective | Scripts/Module/Card/PokerHandType.cs:8-22 | two categories never share a name, so a row scores for one category at most |
| Score.NoOverflowAddsProduct | Scripts/Module/Game/ScoreModel.cs:80 | when neither the product nor the new score overflows, the score `HandScore` computes from a row is the old score plus its Score × Multiplier |
| Score.WrapProductFirst | Scripts/Module/Game/ScoreModel.cs:80 | wrapping the product first and then the sum equals wrapping the exact sum once |
| Score.ScoreModel.constructor | Scripts/Module/Game/ScoreModel.cs:41-48 | the score starts at 0 and the best score is the one saved in the preferences, or 0 |
| Score.ScoreModel.LoadTotalScore | Scripts/Module/Game/ScoreModel.cs:50-61 | the best score is the saved one when there is one, else 0 |
| Score.ScoreModel.HandScore | Scripts/Module/Game/ScoreModel.cs:73-85 | the first row for the category adds its points (with 32-bit wrap-around) and raises the score event; no row changes nothing; a bad row is an error; the best score never changes here |
| Score.ScoreModel.GetTotalScore | Scripts/Module/Game/ScoreModel.cs:87-97 | a score above the best becomes the best, is announced and saved; otherwise nothing changes; the best never decreases |
| Score.ScoreModel.OnCollectionEvent | Scripts/Module/Game/ScoreModel.cs:45-47 | the handlers the constructor subscribes: a full hand scores its category as `HandScore` does, game over settles the best score as `GetTotalScore` does, an emptied pile A resets the score; any other event changes nothing |
| Score.ScoreModel.FirstLevelDown | Scripts/Module/Game/ScoreModel.cs:99-102 | the score returns to 0 |

## Left out

- Unity I/O is not modelled: `Debug.Log`, `GameObject.Destroy` (recorded as an event only), `SetParent`, positions, scaling and `Resources.Load`. Neither are `ConfigData.LoadFile` (`Scripts/Config/ConfigData.cs:35-38`) or `PlayerPrefs.Save`.
- Unique ids are `Guid.NewGuid()` in the source (`Scripts/Module/Card/Card.cs:64`). In the model they are values supplied by the caller; the key lemmas state what distinct ids give. `List<Card>.Contains` and `Remove` in `CardModel.AddCard` and `RemoveCard` (`Scripts/Module/Card/CardModel.cs:223-241`) compare object references, while the model compares card values (kind, suit, rank and id); the two agree because every card gets its own id.
- `random.Next` in the deal is an arbitrary choice of index. The model does not fix which one.
- CardManager.DealCardsToContainerA: the model does not create card objects or place them. It gives back the drawn keys with their entries, in draw order. `CreateCard` (`Scripts/Module/Card/CardManager.cs:82-128`) is not modelled, because it calls `SetCardInfo(suit, rank)` with an argument list that matches none of the overloads in `Card.cs:96`.
- `CardManager.MoveCardToContainerB` (`Scripts/Module/Card/CardManager.cs:221-244`) is left out. It is a second copy of the card-side move and is not on the click path (`Card.MoveCardToContainerB` is the one modelled).
- `CardInfo`'s declaration is not part of this model. It is taken to be a plain (suit, rank) value.
- Dictionary aliasing is not modelled:
  - `CardState.CardModel.SetCardDeck` stores the caller's dictionary by reference, so `ClearCardDeck` also empties the caller's copy.
  - The model stores the deck as a value.
- `CardsCollectionModel.levelModel` is created with the parameterless `LevelModel()` (`Scripts/Module/Card/CardsCollectionModel.cs:90`), which leaves `LeveNum` at 0, so in the game as written an empty A always raises the empty event and never game over. The model takes the level number as a constructor parameter, so both branches are covered.
- The parameterless `CardsCollectionModel()` (`Scripts/Module/Card/CardsCollectionModel.cs:78-81`) leaves `levelModel` null. It is not modelled.
- `CardOverlapDetector` is not modelled. Whether a card is overlapped is a parameter of `OnPointerClick`, and so are the button's `interactable` flag and whether container B is set up.
- Text.ParseInt32: culture-specific number formats and thousands separators are not modelled; the white space skipped around the number is the space and the controls U+0009 to U+000D.
- The comment at `Scripts/Module/Card/CardsCollectionModel.cs:482` says the ace counts as 14, while the enum gives it 1. The model follows the code. `HandEvaluator.LowStraightIsConsecutive` shows that the low-straight branch accepts nothing the consecutive test would reject.
- Score.ScoreModel.constructor: the three subscriptions are not kept as state, and no handler is ever removed; `OnCollectionEvent` is what they run when an event is raised.
- Score.ScoreModel.HandScore: the row scored is the first matching one in the table's enumeration order, so when two different rows share a `HandType`, or a row without `HandType` comes before the match, the points added or the error depend on that order; the model takes the order as given.
- CardView.GetCardKey: `SetCardInfo` sets the suit and rank only of a poker card (`Scripts/Module/Card/Card.cs:96-111`; treasure cards are set up at `Scripts/Module/Card/CardController.cs:104`), so a treasure card keeps the field defaults, suit `Spade` and rank 0, which no `CardRank` declares, and its key reads `Spade_0_<id>`. The model's cards always carry a declared suit and rank, so these keys are not modelled.
- Score.ScoreModel.HandScore: the `hand` table comes from `GameApp.ConfigManager.GetConfigData("hand")` (`Scripts/Module/Game/ScoreModel.cs:75`); the model takes its rows as a parameter, so the null reference thrown when no such table is loaded is not modelled.
- CardsCollection.CardsCollectionModel.EvaluatePokerHand: an exception thrown by a `HandCardMax` subscriber is not propagated. In the source, `ScoreModel.HandScore` (subscribed at `Scripts/Module/Game/ScoreModel.cs:45`) throws on a malformed or missing `hand` table and runs inside `HandCardMax?.Invoke` (`Scripts/Module/Card/CardsCollectionModel.cs:340`), so the evaluation stops after the label is set and the fifth card is in B: no delayed-clear request, no `HandTypeChanged`, and `AddCardToContainerB` throws instead of returning true. The model always logs all three events; the score handler's failure shows only as the error `Score.ScoreModel.OnCollectionEvent` reports.
- Concurrency and coroutines (the delayed clear itself) are not modelled. Only the request for the delayed clear is recorded.
