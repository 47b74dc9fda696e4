/**
 * The parts of the Card component that are model logic: the card's dictionary
 * key, the name of its sprite, the name shown when it is clicked, and the click
 * that moves it from the dealt pile into the hand through CardModel.
 */
module CardView {
  import opened Wrappers
  import opened CardTypes
  import Text
  import CardState

  // ---------------------------------------------------------------------------
  // Key
  // ---------------------------------------------------------------------------

  /** `GetCardKey`: suit name, rank name and unique id, joined by underscores. */
  function GetCardKey(card: Card): (key: string)
    ensures ParseKey(key) == Some((card.suit, card.rank, card.uniqueId))
  {
    KeyRoundTrip(card.suit, card.rank, card.uniqueId);
    KeyOf(card.suit, card.rank, card.uniqueId)
  }

  /** Cards with different unique ids never share a key. */
  lemma DistinctIdsDistinctKeys(a: Card, b: Card)
    requires a.uniqueId != b.uniqueId
    ensures GetCardKey(a) != GetCardKey(b)
  {
    KeyInjective(a.suit, a.rank, a.uniqueId, b.suit, b.rank, b.uniqueId);
  }

  // ---------------------------------------------------------------------------
  // Sprite name (UpdateCardImage)
  // ---------------------------------------------------------------------------

  function SuitPrefix(s: CardSuit): (p: char)
  {
    match s case Club => 'c' case Diamond => 'd' case Heart => 'h' case Spade => 's'
  }

  /** The format `D2`: the decimal digits of n, padded with zeros to at least two. */
  function FormatD2(n: nat): (s: string)
    ensures |s| >= 2 && Text.AllDigits(s) && Text.DigitsValue(s) == n
  {
    Text.NatToStringRoundTrip(n);
    var digits := Text.NatToString(n);
    if n < 10 then
      assert Text.DigitsValue(['0'] + digits) == n by {
        assert (['0'] + digits)[..1] == ['0'];
      }
      ['0'] + digits
    else digits
  }

  /** `$"{suitPrefix}{(int)Rank:D2}"`, e.g. "c01" for the ace of clubs and "s13" for the king of spades. */
  function ImageFileName(suit: CardSuit, rank: CardRank): (name: string)
    ensures |name| == 3
  {
    var d := FormatD2(RankValue(rank));
    assert |Text.NatToString(RankValue(rank))| <= 2;
    [SuitPrefix(suit)] + d
  }

  /** The Resources path UpdateCardImage loads for a card; a treasure card gets no image. */
  function CardImagePath(card: Card): (path: Option<string>)
    ensures path.Some? <==> card.kind == Poker
    ensures path.Some? ==> path.value == "Images/" + ImageFileName(card.suit, card.rank)
  {
    if card.kind != Poker then None else Some("Images/" + ImageFileName(card.suit, card.rank))
  }

  /** Two poker cards load the same sprite only when they show the same suit and rank. */
  lemma CardImagePathInjective(a: Card, b: Card)
    requires a.kind == Poker && b.kind == Poker
    ensures CardImagePath(a) == CardImagePath(b) <==> a.suit == b.suit && a.rank == b.rank
  {
    var pa, pb := CardImagePath(a).value, CardImagePath(b).value;
    if pa == pb {
      assert pa[7..] == ImageFileName(a.suit, a.rank);
      assert pb[7..] == ImageFileName(b.suit, b.rank);
      ImageFileNameInjective(a.suit, a.rank, b.suit, b.rank);
    }
  }

  function SuitOfPrefix(c: char): Option<CardSuit>
  {
    if c == 'c' then Some(Club) else if c == 'd' then Some(Diamond)
    else if c == 'h' then Some(Heart) else if c == 's' then Some(Spade) else None
  }

  /** The rank whose enum value is v, if any. */
  function RankOfValue(v: int): (r: Option<CardRank>)
    ensures r.Some? <==> 1 <= v <= 13
    ensures r.Some? ==> RankValue(r.value) == v
  {
    if 1 <= v <= 13 then Some(AllRanks[v - 1]) else None
  }

  /** Reads a sprite name back into the suit and rank it shows. */
  function ParseImageFileName(name: string): Option<(CardSuit, CardRank)>
  {
    if |name| != 3 || !Text.AllDigits(name[1..]) then None
    else match (SuitOfPrefix(name[0]), RankOfValue(Text.DigitsValue(name[1..])))
      case (Some(s), Some(r)) => Some((s, r))
      case _ => None
  }

  /** Every card has its own sprite: the file name gives back suit and rank. */
  lemma ImageFileNameRoundTrip(suit: CardSuit, rank: CardRank)
    ensures ParseImageFileName(ImageFileName(suit, rank)) == Some((suit, rank))
  {
    var name := ImageFileName(suit, rank);
    assert name[1..] == FormatD2(RankValue(rank));
    assert SuitOfPrefix(name[0]) == Some(suit) by {
      match suit case Club => case Diamond => case Heart => case Spade =>
    }
    assert RankOfValue(RankValue(rank)) == Some(rank) by {
      assert AllRanks[RankIndex(rank)] == rank;
    }
  }

  lemma ImageFileNameInjective(s1: CardSuit, r1: CardRank, s2: CardSuit, r2: CardRank)
    ensures ImageFileName(s1, r1) == ImageFileName(s2, r2) ==> s1 == s2 && r1 == r2
  {
    ImageFileNameRoundTrip(s1, r1);
    ImageFileNameRoundTrip(s2, r2);
  }

  // ---------------------------------------------------------------------------
  // Display name (OnPointerClick)
  // ---------------------------------------------------------------------------

  function SuitDisplayName(s: CardSuit): string
  {
    match s
    case Club => "梅花"
    case Diamond => "方块"
    case Heart => "红桃"
    case Spade => "黑桃"
  }

  /** A, J, Q, K for the face ranks and the ace, the decimal value for the others. */
  function RankDisplayName(r: CardRank): (name: string)
  {
    match r
    case Ace => "A"
    case Jack => "J"
    case Queen => "Q"
    case King => "K"
    case _ => Text.IntToString(RankValue(r))
  }

  /** Reads a display name back into a rank. */
  function RankOfDisplayName(name: string): Option<CardRank>
  {
    if name == "A" then Some(Ace)
    else if name == "J" then Some(Jack)
    else if name == "Q" then Some(Queen)
    else if name == "K" then Some(King)
    else if name != [] && Text.AllDigits(name) then
      match RankOfValue(Text.DigitsValue(name))
      case Some(r) => if r in {Ace, Jack, Queen, King} then None else Some(r)
      case None => None
    else None
  }

  /** No two ranks are shown with the same name. */
  lemma RankDisplayNameRoundTrip(r: CardRank)
    ensures RankOfDisplayName(RankDisplayName(r)) == Some(r)
  {
    if r !in {Ace, Jack, Queen, King} {
      var v := RankValue(r);
      var name := Text.NatToString(v);
      Text.NatToStringRoundTrip(v);
      assert RankDisplayName(r) == name;
      assert name != "A" && name != "J" && name != "Q" && name != "K" by {
        assert Text.IsDigit(name[0]);
      }
      assert AllRanks[RankIndex(r)] == r;
    }
  }

  /** The name OnPointerClick logs for a poker card: suit then rank. */
  function DisplayName(card: Card): string
  {
    SuitDisplayName(card.suit) + RankDisplayName(card.rank)
  }

  // ---------------------------------------------------------------------------
  // Moving a card into the hand
  // ---------------------------------------------------------------------------

  datatype MoveOutcome =
    | NoModel          // no CardModel registered with the card controller
    | HandFull         // container B already holds five cards
    | NotInContainerA  // the card's key is not in container A
    | Moved            // taken out of A and offered to B

  /** What a click asks of the model: the hand is full, the card is not dealt, or it moves. */
  function MoveOutcomeOf(containerA: map<string, Card>, containerB: map<string, Card>, card: Card): MoveOutcome
  {
    if |containerB| >= 5 then HandFull
    else if GetCardKey(card) !in containerA then NotInContainerA
    else Moved
  }

  /** Containers A and B, the hand label and the effects stay as they were. */
  twostate predicate Unmoved(model: CardState.CardModel)
    reads model
  {
    model.containerACards == old(model.containerACards) && model.containerBCards == old(model.containerBCards)
    && model.currentPokerHandType == old(model.currentPokerHandType) && model.effects == old(model.effects)
  }

  /**
   * The card's key has left container A and is in container B (added under the
   * key unless already there); a fifth card in the hand requests the delayed clear.
   */
  twostate predicate MovedToB(model: CardState.CardModel, card: Card)
    reads model
  {
    var key := GetCardKey(card);
    model.containerACards == old(model.containerACards) - {key}
    && model.containerBCards == (if key in old(model.containerBCards) then old(model.containerBCards)
                                 else old(model.containerBCards)[key := card])
    && key in model.containerBCards && key !in model.containerACards
    && model.effects == old(model.effects)
       + (if |model.containerBCards| >= 5 then [CardState.ClearContainerBWithDelayRequested] else [])
  }

  /**
   * `MoveCardToContainerB`: with room in the hand, takes the card's key out of
   * container A and, only if that succeeded, adds the card to container B under
   * the same key. The deal list and the deck are never touched.
   */
  method MoveCardToContainerB(model: CardState.CardModel?, card: Card) returns (outcome: MoveOutcome)
    requires model != null ==> model.Valid()
    modifies model
    ensures model == null ==> outcome == NoModel
    ensures model != null ==> model.Valid()
    ensures model != null ==>
      outcome == MoveOutcomeOf(old(model.containerACards), old(model.containerBCards), card)
    ensures model != null ==> unchanged(model`cards, model`cardDeck)
    ensures model != null && outcome != Moved ==> Unmoved(model)
    ensures model != null && outcome == Moved ==> MovedToB(model, card)
  {
    var cardKey := GetCardKey(card);
    if model == null {
      return NoModel;
    }
    if |model.containerBCards| >= 5 {
      return HandFull;
    }
    var removed := model.RemoveCardFromContainerA(cardKey);
    if !removed {
      assert Unmoved(model);
      return NotInContainerA;
    }
    ghost var before := model.containerBCards;
    var added := model.AddCardToContainerB(cardKey, card);
    assert !added ==> model.containerBCards == before && |before| < 5;
    assert MovedToB(model, card);
    return Moved;
  }

  /**
   * `OnPointerClick`: an overlapped or non-interactable card ignores the click;
   * a poker card logs its display name and, when container B is set up, moves
   * into the hand. Gives back the name logged, if any, and the move's outcome.
   */
  method OnPointerClick(model: CardState.CardModel?, card: Card, overlapped: bool, interactable: bool, containerBSet: bool)
    returns (shown: Option<string>, move: Option<MoveOutcome>)
    requires model != null ==> model.Valid()
    modifies model
    ensures model != null ==> model.Valid()
    ensures overlapped || !interactable || card.kind != Poker ==> shown == None && move == None
    ensures !overlapped && interactable && card.kind == Poker ==> shown == Some(DisplayName(card))
    ensures move.Some? <==> !overlapped && interactable && card.kind == Poker && containerBSet
    ensures move.Some? && model == null ==> move.value == NoModel
    ensures move.Some? && model != null ==>
      move.value == MoveOutcomeOf(old(model.containerACards), old(model.containerBCards), card)
    ensures model != null ==> unchanged(model`cards, model`cardDeck)
    ensures model != null && move != Some(Moved) ==> Unmoved(model)
    ensures model != null && move == Some(Moved) ==> MovedToB(model, card)
  {
    shown, move := None, None;
    if overlapped || !interactable {
      return;
    }
    if card.kind == Poker {
      shown := Some(DisplayName(card));
      if containerBSet {
        var outcome := MoveCardToContainerB(model, card);
        move := Some(outcome);
      }
    }
  }
}
