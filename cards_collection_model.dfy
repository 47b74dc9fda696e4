/**
 * CardsCollectionModel: the dealt pile (container A) and the selected hand
 * (container B, at most five cards), both keyed by card key, with the category
 * of the hand kept up to date after every change to B.
 *
 * The static C# events the class raises, and the delayed clear it asks the card
 * controller for, are appended to `events` in the order the source raises them;
 * destroying a card's game object is recorded the same way.
 */
module CardsCollection {
  import opened CardTypes
  import Enumeration
  import opened HandEvaluator

  datatype Event =
    | ContainerACardsCountChanged(count: nat)
    | ContainerANoCardsCount
    | GameOver
    | HandTypeChanged(handType: PokerHandType)
    | HandCardMax(handType: PokerHandType)
    | ClearContainerBWithDelayRequested
    | CardDestroyed(card: Card)

  /** The events EvaluatePokerHand raises for a non-empty hand of `size` cards classified as `t`. */
  function EvaluationEvents(size: nat, t: PokerHandType): (es: seq<Event>)
    ensures HandTypeChanged(t) in es
    ensures HandCardMax(t) in es <==> size >= 5
    ensures ClearContainerBWithDelayRequested in es <==> size >= 5
  {
    (if size >= 5 then [HandCardMax(t), ClearContainerBWithDelayRequested] else []) + [HandTypeChanged(t)]
  }

  /** One CardDestroyed event per card, in list order. */
  function DestroyEvents(cards: seq<Card>): (es: seq<Event>)
  {
    PerCard(cards, c => CardDestroyed(c))
  }

  class CardsCollectionModel {
    var containerACards: map<string, Card>
    var containerBCards: map<string, Card>
    var currentPokerHandType: PokerHandType
    var events: seq<Event>
    /** `levelModel.LeveNum`, read when container A runs out. */
    const levelNum: int

    /** B holds at most five cards, and a non-empty B is labelled with its category. */
    ghost predicate Valid()
      reads this`containerBCards, this`currentPokerHandType
    {
      |containerBCards| <= 5
      && (|containerBCards| > 0 ==> currentPokerHandType == HandTypeOf(containerBCards))
      && (|containerBCards| == 0 ==> currentPokerHandType in {Null, HighCard})
    }

    constructor (levelNum: int)
      ensures Valid()
      ensures containerACards == map[] && containerBCards == map[]
      ensures currentPokerHandType == HighCard && events == []
      ensures this.levelNum == levelNum
    {
      containerACards := map[];
      containerBCards := map[];
      currentPokerHandType := HighCard;
      events := [];
      this.levelNum := levelNum;
    }

    /** Adds the card under `key` unless the key is already in A, then reports A's new size. */
    method AddCardToContainerA(key: string, card: Card)
      requires Valid()
      modifies this`containerACards, this`events
      ensures Valid()
      ensures containerACards == if key in old(containerACards) then old(containerACards) else old(containerACards)[key := card]
      ensures events == old(events) + (if key in old(containerACards) then [] else [ContainerACardsCountChanged(|containerACards|)])
    {
      if key !in containerACards {
        containerACards := containerACards[key := card];
        events := events + [ContainerACardsCountChanged(|containerACards|)];
      }
    }

    /**
     * Takes `key` out of A. When that empties A it signals GameOver on level 2 and
     * ContainerANoCardsCount on any other level, and then reports A's new size.
     */
    method RemoveCardFromContainerA(key: string) returns (removed: bool)
      requires Valid()
      modifies this`containerACards, this`events
      ensures Valid()
      ensures removed <==> key in old(containerACards)
      ensures containerACards == old(containerACards) - {key}
      ensures !removed ==> events == old(events)
      ensures removed && |containerACards| > 0 ==> events == old(events) + [ContainerACardsCountChanged(|containerACards|)]
      ensures removed && |containerACards| == 0 ==>
        events == old(events) + [if levelNum == 2 then GameOver else ContainerANoCardsCount, ContainerACardsCountChanged(0)]
    {
      Enumeration.RemoveKey(containerACards, key);
      if key in containerACards {
        containerACards := containerACards - {key};
        if |containerACards| == 0 {
          if levelNum == 2 {
            events := events + [GameOver];
          } else {
            events := events + [ContainerANoCardsCount];
          }
        }
        events := events + [ContainerACardsCountChanged(|containerACards|)];
        return true;
      }
      return false;
    }

    /**
     * Adds the card to the hand unless the hand already holds five cards or the
     * key; on success the hand is re-classified.
     */
    method AddCardToContainerB(key: string, card: Card) returns (added: bool)
      requires Valid()
      modifies this`containerBCards, this`currentPokerHandType, this`events
      ensures Valid()
      ensures added <==> |old(containerBCards)| < 5 && key !in old(containerBCards)
      ensures containerBCards == if added then old(containerBCards)[key := card] else old(containerBCards)
      ensures added ==>
        (currentPokerHandType == HandTypeOf(containerBCards)
         && events == old(events) + EvaluationEvents(|containerBCards|, currentPokerHandType))
      ensures !added ==> currentPokerHandType == old(currentPokerHandType) && events == old(events)
    {
      if |containerBCards| >= 5 {
        return false;
      }
      if key !in containerBCards {
        containerBCards := containerBCards[key := card];
        var _ := EvaluatePokerHand();
        return true;
      }
      return false;
    }

    /**
     * Takes `key` out of the hand; a hand left non-empty is re-classified, an
     * emptied one is labelled Null without any event.
     */
    method RemoveCardFromContainerB(key: string) returns (removed: bool)
      requires Valid()
      modifies this`containerBCards, this`currentPokerHandType, this`events
      ensures Valid()
      ensures removed <==> key in old(containerBCards)
      ensures containerBCards == old(containerBCards) - {key}
      ensures removed && |containerBCards| > 0 ==>
        (currentPokerHandType == HandTypeOf(containerBCards)
         && events == old(events) + [HandTypeChanged(currentPokerHandType)])
      ensures removed && |containerBCards| == 0 ==> currentPokerHandType == Null && events == old(events)
      ensures !removed ==> currentPokerHandType == old(currentPokerHandType) && events == old(events)
    {
      Enumeration.RemoveKey(containerBCards, key);
      if key in containerBCards {
        containerBCards := containerBCards - {key};
        if |containerBCards| >= 1 {
          var _ := EvaluatePokerHand();
        } else {
          currentPokerHandType := Null;
        }
        return true;
      }
      return false;
    }

    method ClearContainerA()
      requires Valid()
      modifies this`containerACards
      ensures Valid()
      ensures containerACards == map[]
    {
      containerACards := map[];
    }

    /** Empties the hand and labels it Null, raising nothing. */
    method ClearContainerB()
      modifies this`containerBCards, this`currentPokerHandType
      ensures Valid()
      ensures containerBCards == map[] && currentPokerHandType == Null
    {
      containerBCards := map[];
      currentPokerHandType := Null;
    }

    /**
     * Empties the hand, labels it Null, reports the change, then destroys every
     * card the hand held (in the dictionary's order).
     */
    method ClearContainerBWithDestroy()
      modifies this`containerBCards, this`currentPokerHandType, this`events
      ensures Valid()
      ensures containerBCards == map[] && currentPokerHandType == Null
      ensures exists destroyed: seq<Card> ::
        multiset(destroyed) == multiset(Enumeration.ValuesSeq(old(containerBCards)))
        && events == old(events) + [HandTypeChanged(Null)] + DestroyEvents(destroyed)
    {
      var cardsToDestroy := Enumeration.ValuesOf(containerBCards);
      // The destroy requests are collected first and published after the
      // container is cleared and the cleared hand type is announced.
      var destroyedEvents: seq<Event> := [];
      for i := 0 to |cardsToDestroy|
        invariant destroyedEvents == DestroyEvents(cardsToDestroy[..i])
        modifies {}
      {
        destroyedEvents := destroyedEvents + [CardDestroyed(cardsToDestroy[i])];
        PerCardStep(cardsToDestroy, c => CardDestroyed(c), i);
      }
      assert cardsToDestroy[..|cardsToDestroy|] == cardsToDestroy;
      containerBCards := map[];
      currentPokerHandType := Null;
      events := events + [HandTypeChanged(Null)] + destroyedEvents;
      assert multiset(cardsToDestroy) == multiset(Enumeration.ValuesSeq(old(containerBCards)))
        && events == old(events) + [HandTypeChanged(Null)] + DestroyEvents(cardsToDestroy);
    }

    /**
     * Re-classifies the hand: Null and no event for an empty hand; otherwise the
     * hand's category, preceded by HandCardMax and a delayed-clear request when
     * the hand is full, and followed by HandTypeChanged.
     */
    method EvaluatePokerHand() returns (t: PokerHandType)
      requires |containerBCards| <= 5
      modifies this`currentPokerHandType, this`events
      ensures Valid()
      ensures t == currentPokerHandType == HandTypeOf(containerBCards)
      ensures |containerBCards| == 0 ==> events == old(events)
      ensures |containerBCards| > 0 ==> events == old(events) + EvaluationEvents(|containerBCards|, t)
    {
      if |containerBCards| == 0 {
        currentPokerHandType := Null;
        return currentPokerHandType;
      }
      currentPokerHandType := ClassifyHand(containerBCards);
      if |containerBCards| >= 5 {
        events := events + [HandCardMax(currentPokerHandType), ClearContainerBWithDelayRequested];
      }
      events := events + [HandTypeChanged(currentPokerHandType)];
      return currentPokerHandType;
    }
  }
}
