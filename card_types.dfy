/**
 * The value types of the poker mini-game: ranks, suits, card kinds, hand
 * categories, the (suit, rank) record a deck entry holds, and a card.
 * Also the enum names C# prints for them (`ToString()`), which the game
 * builds its dictionary keys from.
 */
module CardTypes {
  import opened Wrappers
  import Text

  /** CardRank: Ace = 1 up to King = 13. */
  datatype CardRank = Ace | Two | Three | Four | Five | Six | Seven | Eight | Nine | Ten | Jack | Queen | King

  /** CardSuit, in declaration order Spade, Heart, Club, Diamond. */
  datatype CardSuit = Spade | Heart | Club | Diamond

  /** CardType: an ordinary playing card or a treasure card. */
  datatype CardType = Poker | Treasure

  /**
   * PokerHandType, lowest to highest as declared, plus `Null`, the value
   * CardsCollectionModel assigns to an empty hand (no declaration of the enum
   * in the repository has it).
   */
  datatype PokerHandType =
    | Null | HighCard | OnePair | TwoPair | ThreeOfAKind | Straight | Flush | FullHouse
    | FourOfAKind | StraightFlush | FiveOfAKind | FlushFullHouse | FlushFiveOfAKind

  /** CardInfo: what a deck entry records. */
  datatype CardInfo = CardInfo(suit: CardSuit, rank: CardRank)

  /** A card as the model layer sees it: its kind, suit, rank and the unique id drawn when it was created. */
  datatype Card = Card(kind: CardType, suit: CardSuit, rank: CardRank, uniqueId: string)

  /** The enum value `(int)rank`. */
  function RankValue(r: CardRank): (v: int)
    ensures 1 <= v <= 13
  {
    match r
    case Ace => 1 case Two => 2 case Three => 3 case Four => 4 case Five => 5
    case Six => 6 case Seven => 7 case Eight => 8 case Nine => 9 case Ten => 10
    case Jack => 11 case Queen => 12 case King => 13
  }

  /** `Enum.GetValues(typeof(CardSuit))`, in enum order. */
  const AllSuits: seq<CardSuit> := [Spade, Heart, Club, Diamond]

  /** `Enum.GetValues(typeof(CardRank))`, in enum order. */
  const AllRanks: seq<CardRank> := [Ace, Two, Three, Four, Five, Six, Seven, Eight, Nine, Ten, Jack, Queen, King]

  /** The position of a suit in AllSuits, i.e. its enum value. */
  function SuitIndex(s: CardSuit): (i: nat)
    ensures i < 4 && AllSuits[i] == s
  {
    match s case Spade => 0 case Heart => 1 case Club => 2 case Diamond => 3
  }

  /** The position of a rank in AllRanks. */
  function RankIndex(r: CardRank): (i: nat)
    ensures i < 13 && AllRanks[i] == r && i == RankValue(r) - 1
  {
    RankValue(r) - 1
  }

  /** `suit.ToString()`. */
  function SuitName(s: CardSuit): string
  {
    match s case Spade => "Spade" case Heart => "Heart" case Club => "Club" case Diamond => "Diamond"
  }

  /** `rank.ToString()`. */
  function RankName(r: CardRank): string
  {
    match r
    case Ace => "Ace" case Two => "Two" case Three => "Three" case Four => "Four"
    case Five => "Five" case Six => "Six" case Seven => "Seven" case Eight => "Eight"
    case Nine => "Nine" case Ten => "Ten" case Jack => "Jack" case Queen => "Queen"
    case King => "King"
  }

  /** `handType.ToString()`. */
  function HandTypeName(t: PokerHandType): string
  {
    match t
    case Null => "Null" case HighCard => "HighCard" case OnePair => "OnePair"
    case TwoPair => "TwoPair" case ThreeOfAKind => "ThreeOfAKind" case Straight => "Straight"
    case Flush => "Flush" case FullHouse => "FullHouse" case FourOfAKind => "FourOfAKind"
    case StraightFlush => "StraightFlush" case FiveOfAKind => "FiveOfAKind"
    case FlushFullHouse => "FlushFullHouse" case FlushFiveOfAKind => "FlushFiveOfAKind"
  }

  function SuitOfName(name: string): (r: Option<CardSuit>)
  {
    if name == "Spade" then Some(Spade) else if name == "Heart" then Some(Heart)
    else if name == "Club" then Some(Club) else if name == "Diamond" then Some(Diamond)
    else None
  }

  function RankOfName(name: string): (r: Option<CardRank>)
  {
    if name == "Ace" then Some(Ace) else if name == "Two" then Some(Two)
    else if name == "Three" then Some(Three) else if name == "Four" then Some(Four)
    else if name == "Five" then Some(Five) else if name == "Six" then Some(Six)
    else if name == "Seven" then Some(Seven) else if name == "Eight" then Some(Eight)
    else if name == "Nine" then Some(Nine) else if name == "Ten" then Some(Ten)
    else if name == "Jack" then Some(Jack) else if name == "Queen" then Some(Queen)
    else if name == "King" then Some(King) else None
  }

  /**
   * The key format shared by `Card.GetCardKey` (`"{Suit}_{Rank}_{uniqueId}"`) and
   * `CardManager.GeneratePokerDecks` (`"{suit}_{rank}_{deck}"`).
   */
  function KeyOf(suit: CardSuit, rank: CardRank, tail: string): string
  {
    SuitName(suit) + "_" + RankName(rank) + "_" + tail
  }

  /** Reads a key back into its suit, its rank and whatever follows the second underscore. */
  function ParseKey(key: string): Option<(CardSuit, CardRank, string)>
  {
    match Text.SplitFirst(key, '_')
    case None => None
    case Some(first) =>
      match Text.SplitFirst(first.1, '_')
      case None => None
      case Some(second) =>
        match (SuitOfName(first.0), RankOfName(second.0))
        case (Some(s), Some(r)) => Some((s, r, second.1))
        case _ => None
  }

  lemma SuitNameRoundTrip(s: CardSuit)
    ensures SuitOfName(SuitName(s)) == Some(s) && '_' !in SuitName(s)
  {
    match s
    case Spade => case Heart => case Club => case Diamond =>
  }

  lemma RankNameRoundTrip(r: CardRank)
    ensures RankOfName(RankName(r)) == Some(r) && '_' !in RankName(r)
  {
    match r
    case Ace => case Two => case Three => case Four => case Five => case Six =>
    case Seven => case Eight => case Nine => case Ten => case Jack => case Queen =>
    case King =>
  }

  /** ParseKey inverts KeyOf: neither a suit name nor a rank name contains '_'. */
  lemma KeyRoundTrip(suit: CardSuit, rank: CardRank, tail: string)
    ensures ParseKey(KeyOf(suit, rank, tail)) == Some((suit, rank, tail))
  {
    var sn, rn := SuitName(suit), RankName(rank);
    SuitNameRoundTrip(suit);
    RankNameRoundTrip(rank);
    assert KeyOf(suit, rank, tail) == sn + ['_'] + (rn + ['_'] + tail);
    Text.SplitFirstOfJoin(sn, rn + ['_'] + tail, '_');
    Text.SplitFirstOfJoin(rn, tail, '_');
  }

  /** Two keys are equal only when suit, rank and tail all are. */
  lemma KeyInjective(s1: CardSuit, r1: CardRank, t1: string, s2: CardSuit, r2: CardRank, t2: string)
    ensures KeyOf(s1, r1, t1) == KeyOf(s2, r2, t2) ==> s1 == s2 && r1 == r2 && t1 == t2
  {
    KeyRoundTrip(s1, r1, t1);
    KeyRoundTrip(s2, r2, t2);
  }

  /** One record per card, in list order: what destroying a list of cards logs. */
  function PerCard<E>(cards: seq<Card>, record: Card -> E): (es: seq<E>)
    ensures |es| == |cards| && forall i :: 0 <= i < |cards| ==> es[i] == record(cards[i])
  {
    seq(|cards|, i requires 0 <= i < |cards| => record(cards[i]))
  }

  /** Handling one more card adds its record at the end. */
  lemma PerCardStep<E>(cards: seq<Card>, record: Card -> E, i: nat)
    requires i < |cards|
    ensures PerCard(cards[..i + 1], record) == PerCard(cards[..i], record) + [record(cards[i])]
  {
    assert cards[..i + 1] == cards[..i] + [cards[i]];
  }
}
