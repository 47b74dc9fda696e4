/**
 * CardModel: the model the card click path works on. It keeps the same two
 * containers and the same classifier as CardsCollectionModel, but labels an
 * empty hand HighCard (never Null) and raises no events of its own; besides the
 * containers it holds the list of live cards and the deck it was given.
 *
 * The delayed clear it asks the card controller for, and the destruction of a
 * card's game object, are appended to `effects` in the order the source causes them.
 */
module CardState {
  import opened Wrappers
  import opened CardTypes
  import Enumeration
  import opened HandEvaluator

  datatype Effect = ClearContainerBWithDelayRequested | CardDestroyed(card: Card)

  predicate NoDuplicates(cards: seq<Card>)
  {
    forall i, j :: 0 <= i < j < |cards| ==> cards[i] != cards[j]
  }

  /** `List.Remove`: drops the first occurrence of x, if any. */
  function RemoveFirst(cards: seq<Card>, x: Card): (r: seq<Card>)
    ensures x in cards ==> multiset(r) == multiset(cards) - multiset{x}
    ensures x !in cards ==> r == cards
  {
    if cards == [] then []
    else if cards[0] == x then
      assert cards == [x] + cards[1..];
      cards[1..]
    else
      assert cards == [cards[0]] + cards[1..];
      [cards[0]] + RemoveFirst(cards[1..], x)
  }

  lemma ConsNoDuplicates(c: Card, rest: seq<Card>)
    requires NoDuplicates(rest) && c !in rest
    ensures NoDuplicates([c] + rest)
  {
    var s := [c] + rest;
    forall i, j | 0 <= i < j < |s| ensures s[i] != s[j] {
      assert s[j] == rest[j - 1];
      if i > 0 { assert s[i] == rest[i - 1]; }
    }
  }

  /** In a list without duplicates, removing x removes every copy of it and keeps the rest distinct. */
  lemma {:induction false} RemoveFirstNoDuplicates(cards: seq<Card>, x: Card)
    requires NoDuplicates(cards)
    ensures NoDuplicates(RemoveFirst(cards, x))
    ensures forall y :: y in RemoveFirst(cards, x) <==> y in cards && y != x
  {
    if cards != [] {
      var rest := cards[1..];
      assert cards == [cards[0]] + rest;
      assert NoDuplicates(rest) by {
        forall i, j | 0 <= i < j < |rest| ensures rest[i] != rest[j] {
          assert rest[i] == cards[i + 1] && rest[j] == cards[j + 1];
        }
      }
      assert cards[0] !in rest by {
        forall k | 0 <= k < |rest| ensures rest[k] != cards[0] {
          assert rest[k] == cards[k + 1];
        }
      }
      if cards[0] != x {
        RemoveFirstNoDuplicates(rest, x);
        ConsNoDuplicates(cards[0], RemoveFirst(rest, x));
      }
    }
  }

  /** One CardDestroyed effect per card, in list order. */
  function DestroyEffects(cards: seq<Card>): (es: seq<Effect>)
  {
    PerCard(cards, c => CardDestroyed(c))
  }

  class CardModel {
    var cards: seq<Card>
    var cardDeck: map<string, CardInfo>
    var containerACards: map<string, Card>
    var containerBCards: map<string, Card>
    var currentPokerHandType: PokerHandType
    var effects: seq<Effect>

    /** No card is listed twice, B holds at most five cards, and the hand is labelled with its category, HighCard when empty. */
    ghost predicate Valid()
      reads this`cards, this`containerBCards, this`currentPokerHandType
    {
      NoDuplicates(cards)
      && |containerBCards| <= 5
      && (|containerBCards| > 0 ==> ClassifiedAs(containerBCards, currentPokerHandType))
      && (|containerBCards| == 0 ==> currentPokerHandType == HighCard)
    }

    /** The label is never Null, unlike CardsCollectionModel's. */
    lemma NeverNull()
      requires Valid()
      ensures currentPokerHandType != Null
    {
      if |containerBCards| > 0 {
        ClassifiedAsHandTypeOf(containerBCards, currentPokerHandType);
      }
    }

    constructor ()
      ensures Valid()
      ensures cards == [] && cardDeck == map[] && containerACards == map[] && containerBCards == map[]
      ensures currentPokerHandType == HighCard && effects == []
    {
      cards := [];
      cardDeck := map[];
      containerACards := map[];
      containerBCards := map[];
      currentPokerHandType := HighCard;
      effects := [];
    }

    method AddCardToContainerA(key: string, card: Card)
      requires Valid()
      modifies this`containerACards
      ensures Valid()
      ensures containerACards == if key in old(containerACards) then old(containerACards) else old(containerACards)[key := card]
    {
      if key !in containerACards {
        containerACards := containerACards[key := card];
      }
    }

    method RemoveCardFromContainerA(key: string) returns (removed: bool)
      requires Valid()
      modifies this`containerACards
      ensures Valid()
      ensures removed <==> key in old(containerACards)
      ensures containerACards == old(containerACards) - {key}
    {
      Enumeration.RemoveKey(containerACards, key);
      if key in containerACards {
        containerACards := containerACards - {key};
        return true;
      }
      return false;
    }

    /** Adds the card to the hand unless it already holds five cards or the key; on success the hand is re-classified. */
    method AddCardToContainerB(key: string, card: Card) returns (added: bool)
      requires Valid()
      modifies this`containerBCards, this`currentPokerHandType, this`effects
      ensures Valid()
      ensures added <==> |old(containerBCards)| < 5 && key !in old(containerBCards)
      ensures containerBCards == if added then old(containerBCards)[key := card] else old(containerBCards)
      ensures added ==> effects == old(effects) + (if |containerBCards| >= 5 then [ClearContainerBWithDelayRequested] else [])
      ensures !added ==> currentPokerHandType == old(currentPokerHandType) && effects == old(effects)
    {
      if |containerBCards| >= 5 {
        return false;
      }
      if key !in containerBCards {
        containerBCards := containerBCards[key := card];
        var _ := EvaluatePokerHand();
        return true;
      }
      return false;
    }

    /** Takes `key` out of the hand; a hand left non-empty is re-classified, an emptied one is labelled HighCard. */
    method RemoveCardFromContainerB(key: string) returns (removed: bool)
      requires Valid()
      modifies this`containerBCards, this`currentPokerHandType, this`effects
      ensures Valid()
      ensures removed <==> key in old(containerBCards)
      ensures containerBCards == old(containerBCards) - {key}
      ensures effects == old(effects)
      ensures !removed ==> currentPokerHandType == old(currentPokerHandType)
    {
      Enumeration.RemoveKey(containerBCards, key);
      if key in containerBCards {
        containerBCards := containerBCards - {key};
        if |containerBCards| >= 1 {
          var _ := EvaluatePokerHand();
        } else {
          currentPokerHandType := HighCard;
        }
        return true;
      }
      return false;
    }

    method ClearContainerA()
      requires Valid()
      modifies this`containerACards
      ensures Valid()
      ensures containerACards == map[]
    {
      containerACards := map[];
    }

    method ClearContainerB()
      requires Valid()
      modifies this`containerBCards, this`currentPokerHandType
      ensures Valid()
      ensures containerBCards == map[] && currentPokerHandType == HighCard
    {
      containerBCards := map[];
      currentPokerHandType := HighCard;
    }

    /** Empties the hand, labels it HighCard, then destroys every card the hand held (in the dictionary's order). */
    method ClearContainerBWithDestroy()
      requires Valid()
      modifies this`containerBCards, this`currentPokerHandType, this`effects
      ensures Valid()
      ensures containerBCards == map[] && currentPokerHandType == HighCard
      ensures exists destroyed: seq<Card> ::
        multiset(destroyed) == multiset(Enumeration.ValuesSeq(old(containerBCards)))
        && effects == old(effects) + DestroyEffects(destroyed)
    {
      var cardsToDestroy := Enumeration.ValuesOf(containerBCards);
      // The destructions are collected first and published once the hand is cleared.
      var destroyed: seq<Effect> := [];
      for i := 0 to |cardsToDestroy|
        invariant destroyed == DestroyEffects(cardsToDestroy[..i])
        modifies {}
      {
        destroyed := destroyed + [CardDestroyed(cardsToDestroy[i])];
        PerCardStep(cardsToDestroy, c => CardDestroyed(c), i);
      }
      assert cardsToDestroy[..|cardsToDestroy|] == cardsToDestroy;
      containerBCards := map[];
      currentPokerHandType := HighCard;
      effects := effects + destroyed;
      assert multiset(cardsToDestroy) == multiset(Enumeration.ValuesSeq(old(containerBCards)))
        && effects == old(effects) + DestroyEffects(cardsToDestroy);
    }

    method SetCardDeck(deck: map<string, CardInfo>)
      requires Valid()
      modifies this`cardDeck
      ensures Valid()
      ensures cardDeck == deck
    {
      cardDeck := deck;
    }

    method GetCardDeck() returns (deck: map<string, CardInfo>)
      ensures deck == cardDeck
    {
      return cardDeck;
    }

    method ClearCardDeck()
      requires Valid()
      modifies this`cardDeck
      ensures Valid()
      ensures cardDeck == map[]
    {
      cardDeck := map[];
    }

    /** Appends a card unless it is null or already listed. */
    method AddCard(card: Option<Card>)
      requires Valid()
      modifies this`cards
      ensures Valid()
      ensures cards == if card.Some? && card.value !in old(cards) then old(cards) + [card.value] else old(cards)
    {
      if card.Some? && card.value !in cards {
        cards := cards + [card.value];
      }
    }

    /** Removes a listed card; a null or unlisted one changes nothing. */
    method RemoveCard(card: Option<Card>)
      requires Valid()
      modifies this`cards
      ensures Valid()
      ensures card.None? ==> cards == old(cards)
      ensures card.Some? ==> cards == RemoveFirst(old(cards), card.value)
      ensures card.Some? ==> card.value !in cards
      ensures forall c :: c in cards <==> c in old(cards) && card != Some(c)
    {
      if card.Some? && card.value in cards {
        RemoveFirstNoDuplicates(cards, card.value);
        cards := RemoveFirst(cards, card.value);
      }
    }

    method ClearCards()
      requires Valid()
      modifies this`cards
      ensures Valid()
      ensures cards == []
    {
      cards := [];
    }

    /**
     * Re-classifies the hand: HighCard for an empty hand, otherwise its category,
     * asking for a delayed clear when the hand is full.
     */
    method EvaluatePokerHand() returns (t: PokerHandType)
      requires |containerBCards| <= 5 && NoDuplicates(cards)
      modifies this`currentPokerHandType, this`effects
      ensures Valid()
      ensures t == currentPokerHandType
      ensures |containerBCards| == 0 ==> t == HighCard
      ensures |containerBCards| > 0 ==> t == HandTypeOf(containerBCards)
      ensures effects == old(effects) + (if |containerBCards| >= 5 then [ClearContainerBWithDelayRequested] else [])
    {
      if |containerBCards| == 0 {
        currentPokerHandType := HighCard;
        return currentPokerHandType;
      }
      currentPokerHandType := ClassifyHand(containerBCards);
      ClassifiedAsHandTypeOf(containerBCards, currentPokerHandType);
      if |containerBCards| >= 5 {
        effects := effects + [ClearContainerBWithDelayRequested];
      }
      return currentPokerHandType;
    }
  }
}
