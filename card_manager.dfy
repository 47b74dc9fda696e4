/**
 * CardManager's deck logic: building `deckCount` full 52-card decks keyed
 * "{suit}_{rank}_{deck}", and the deal loop that draws every key of a deck once,
 * in random order.
 */
module CardManager {
  import opened Wrappers
  import opened CardTypes
  import Text
  import Enumeration

  /** The key GeneratePokerDecks gives the card of `suit` and `rank` in deck number `deck`. */
  function DeckKey(suit: CardSuit, rank: CardRank, deck: nat): string
  {
    KeyOf(suit, rank, Text.NatToString(deck))
  }

  lemma DeckKeyInjective(s1: CardSuit, r1: CardRank, d1: nat, s2: CardSuit, r2: CardRank, d2: nat)
    ensures DeckKey(s1, r1, d1) == DeckKey(s2, r2, d2) ==> s1 == s2 && r1 == r2 && d1 == d2
  {
    KeyInjective(s1, r1, Text.NatToString(d1), s2, r2, Text.NatToString(d2));
    Text.NatToStringInjective(d1, d2);
  }

  /** The card (deck, suit, rank) comes before position (d, si, ri) of the three nested loops. */
  predicate Before(deck: nat, suit: CardSuit, rank: CardRank, d: nat, si: nat, ri: nat)
  {
    deck < d || (deck == d && (SuitIndex(suit) < si || (SuitIndex(suit) == si && RankIndex(rank) < ri)))
  }

  /** Every key is a deck key for the suit and rank it records. */
  ghost predicate KeysMatchEntries(cardDeck: map<string, CardInfo>)
  {
    forall key | key in cardDeck :: exists d: nat :: key == DeckKey(cardDeck[key].suit, cardDeck[key].rank, d)
  }

  /** What GeneratePokerDecks(n) builds: one entry for each suit, rank and deck number below n, and nothing else. */
  ghost predicate IsDecks(cardDeck: map<string, CardInfo>, n: int)
  {
    (forall deck: nat, suit, rank :: DeckKey(suit, rank, deck) in cardDeck <==> deck < n)
    && KeysMatchEntries(cardDeck)
  }

  /** Position si of AllSuits and position ri of AllRanks hold the suit and rank whose indices they are. */
  lemma PositionIndices(si: nat, ri: nat)
    requires si < 4 && ri < 13
    ensures SuitIndex(AllSuits[si]) == si && RankIndex(AllRanks[ri]) == ri
  {
    assert AllSuits[SuitIndex(AllSuits[si])] == AllSuits[si];
    assert AllRanks[RankIndex(AllRanks[ri])] == AllRanks[ri];
  }

  /** The loops' position (d, si, ri) names the card of suit AllSuits[si] and rank AllRanks[ri] in deck d. */
  lemma BeforeStep(deck: nat, s: CardSuit, r: CardRank, d: nat, si: nat, ri: nat)
    requires si < 4 && ri < 13
    ensures Before(deck, s, r, d, si, ri + 1) <==>
      Before(deck, s, r, d, si, ri) || (deck == d && s == AllSuits[si] && r == AllRanks[ri])
  {
    if SuitIndex(s) == si { assert s == AllSuits[si]; }
    if RankIndex(r) == ri { assert r == AllRanks[ri]; }
    if s == AllSuits[si] { assert SuitIndex(s) == si by { assert AllSuits[SuitIndex(s)] == s; } }
    if r == AllRanks[ri] { assert RankIndex(r) == ri by { assert AllRanks[RankIndex(r)] == r; } }
  }

  /** Exactly the cards before (d, si, ri) have their key in the deck. */
  ghost predicate KeysBefore(cardDeck: map<string, CardInfo>, d: nat, si: nat, ri: nat)
  {
    forall deck: nat, suit, rank :: DeckKey(suit, rank, deck) in cardDeck <==> Before(deck, suit, rank, d, si, ri)
  }

  /** Adding the card at (d, si, ri) adds exactly that card's key. */
  lemma KeyAfterStep(cardDeck: map<string, CardInfo>, d: nat, si: nat, ri: nat, deck: nat, s: CardSuit, r: CardRank)
    requires si < 4 && ri < 13
    requires DeckKey(s, r, deck) in cardDeck <==> Before(deck, s, r, d, si, ri)
    ensures var key := DeckKey(AllSuits[si], AllRanks[ri], d);
      DeckKey(s, r, deck) in cardDeck[key := CardInfo(AllSuits[si], AllRanks[ri])] <==> Before(deck, s, r, d, si, ri + 1)
  {
    DeckKeyInjective(s, r, deck, AllSuits[si], AllRanks[ri], d);
    BeforeStep(deck, s, r, d, si, ri);
  }

  lemma KeysBeforeStep(cardDeck: map<string, CardInfo>, d: nat, si: nat, ri: nat)
    requires si < 4 && ri < 13 && KeysBefore(cardDeck, d, si, ri)
    ensures DeckKey(AllSuits[si], AllRanks[ri], d) !in cardDeck
    ensures KeysBefore(cardDeck[DeckKey(AllSuits[si], AllRanks[ri], d) := CardInfo(AllSuits[si], AllRanks[ri])], d, si, ri + 1)
  {
    var suit, rank := AllSuits[si], AllRanks[ri];
    var key := DeckKey(suit, rank, d);
    PositionIndices(si, ri);
    assert !Before(d, suit, rank, d, si, ri);
    var next := cardDeck[key := CardInfo(suit, rank)];
    forall deck: nat, s, r ensures DeckKey(s, r, deck) in next <==> Before(deck, s, r, d, si, ri + 1) {
      KeyAfterStep(cardDeck, d, si, ri, deck, s, r);
    }
  }

  lemma KeysMatchEntriesStep(cardDeck: map<string, CardInfo>, suit: CardSuit, rank: CardRank, d: nat)
    requires KeysMatchEntries(cardDeck)
    ensures KeysMatchEntries(cardDeck[DeckKey(suit, rank, d) := CardInfo(suit, rank)])
  {
    var key := DeckKey(suit, rank, d);
    var next := cardDeck[key := CardInfo(suit, rank)];
    forall k | k in next ensures exists n: nat :: k == DeckKey(next[k].suit, next[k].rank, n) {
      if k == key {
        assert k == DeckKey(next[k].suit, next[k].rank, d);
      } else {
        assert next[k] == cardDeck[k];
      }
    }
  }

  lemma KeysBeforeNextSuit(cardDeck: map<string, CardInfo>, d: nat, si: nat)
    requires KeysBefore(cardDeck, d, si, 13)
    ensures KeysBefore(cardDeck, d, si + 1, 0)
  {
    forall deck: nat, s, r ensures Before(deck, s, r, d, si, 13) == Before(deck, s, r, d, si + 1, 0) {
      assert RankIndex(r) < 13;
    }
  }

  lemma KeysBeforeNextDeck(cardDeck: map<string, CardInfo>, d: nat)
    requires KeysBefore(cardDeck, d, 4, 0)
    ensures KeysBefore(cardDeck, d + 1, 0, 0)
  {
    forall deck: nat, s, r ensures Before(deck, s, r, d, 4, 0) == Before(deck, s, r, d + 1, 0, 0) {
      assert SuitIndex(s) < 4;
    }
  }

  /**
   * The deck the three nested loops have built when they reach position
   * (d, si, ri): each step adds the card of suit AllSuits[si] and rank
   * AllRanks[ri] in deck d.
   */
  ghost function DecksUpTo(d: nat, si: nat, ri: nat): map<string, CardInfo>
    requires si < 4 || (si == 4 && ri == 0)
    requires ri <= 13
    decreases d, si, ri
  {
    if ri > 0 then
      DecksUpTo(d, si, ri - 1)[DeckKey(AllSuits[si], AllRanks[ri - 1], d) := CardInfo(AllSuits[si], AllRanks[ri - 1])]
    else if si > 0 then DecksUpTo(d, si - 1, 13)
    else if d > 0 then DecksUpTo(d - 1, 4, 0)
    else map[]
  }

  /** The deck built up to (d, si, ri) holds the key of exactly the cards before that position. */
  lemma {:induction false} DecksUpToKeys(d: nat, si: nat, ri: nat)
    requires si < 4 || (si == 4 && ri == 0)
    requires ri <= 13
    ensures KeysBefore(DecksUpTo(d, si, ri), d, si, ri)
    decreases d, si, ri
  {
    if ri > 0 {
      DecksUpToKeys(d, si, ri - 1);
      KeysBeforeStep(DecksUpTo(d, si, ri - 1), d, si, ri - 1);
    } else if si > 0 {
      DecksUpToKeys(d, si - 1, 13);
      KeysBeforeNextSuit(DecksUpTo(d, si - 1, 13), d, si - 1);
    } else if d > 0 {
      DecksUpToKeys(d - 1, 4, 0);
      KeysBeforeNextDeck(DecksUpTo(d - 1, 4, 0), d - 1);
    }
  }

  /** Every entry of the deck built so far records the suit and rank its key names. */
  lemma {:induction false} DecksUpToEntries(d: nat, si: nat, ri: nat)
    requires si < 4 || (si == 4 && ri == 0)
    requires ri <= 13
    ensures KeysMatchEntries(DecksUpTo(d, si, ri))
    decreases d, si, ri
  {
    if ri > 0 {
      DecksUpToEntries(d, si, ri - 1);
      KeysMatchEntriesStep(DecksUpTo(d, si, ri - 1), AllSuits[si], AllRanks[ri - 1], d);
    } else if si > 0 {
      DecksUpToEntries(d, si - 1, 13);
    } else if d > 0 {
      DecksUpToEntries(d - 1, 4, 0);
    }
  }

  /** The key the next step adds is not in the deck yet, so Dictionary.Add never throws. */
  lemma DecksUpToFresh(d: nat, si: nat, ri: nat)
    requires si < 4 && ri < 13
    ensures DeckKey(AllSuits[si], AllRanks[ri], d) !in DecksUpTo(d, si, ri)
  {
    DecksUpToKeys(d, si, ri);
    KeysBeforeStep(DecksUpTo(d, si, ri), d, si, ri);
  }

  /** Each step adds one entry: 52 per deck, 13 per suit. */
  lemma {:induction false} DecksUpToSize(d: nat, si: nat, ri: nat)
    requires si < 4 || (si == 4 && ri == 0)
    requires ri <= 13
    ensures |DecksUpTo(d, si, ri)| == d * 52 + si * 13 + ri
    decreases d, si, ri
  {
    if ri > 0 {
      DecksUpToSize(d, si, ri - 1);
      DecksUpToFresh(d, si, ri - 1);
    } else if si > 0 {
      DecksUpToSize(d, si - 1, 13);
    } else if d > 0 {
      DecksUpToSize(d - 1, 4, 0);
    }
  }

  /** After `n` full decks (none when n is not positive) the loops have built exactly IsDecks(_, n). */
  lemma DecksUpToDone(d: nat, n: int)
    requires d == n || (n <= 0 && d == 0)
    ensures IsDecks(DecksUpTo(d, 0, 0), n)
    ensures |DecksUpTo(d, 0, 0)| == if n > 0 then n * 52 else 0
  {
    var cardDeck := DecksUpTo(d, 0, 0);
    DecksUpToKeys(d, 0, 0);
    DecksUpToEntries(d, 0, 0);
    DecksUpToSize(d, 0, 0);
    forall deck: nat, s, r ensures DeckKey(s, r, deck) in cardDeck <==> deck < n {
      assert DeckKey(s, r, deck) in cardDeck <==> Before(deck, s, r, d, 0, 0);
    }
  }

  /**
   * `GeneratePokerDecks(deckCount)`: for each deck number, each suit and each rank
   * in enum order, adds the key "{suit}_{rank}_{deck}" with that suit and rank.
   * No key is added twice (Dictionary.Add would throw), so there are 52 entries
   * per deck, and none when deckCount is not positive.
   */
  method GeneratePokerDecks(deckCount: int) returns (cardDeck: map<string, CardInfo>)
    ensures |cardDeck| == if deckCount > 0 then deckCount * 52 else 0
    ensures IsDecks(cardDeck, deckCount)
  {
    cardDeck := map[];
    var deck := 0;
    while deck < deckCount
      invariant 0 <= deck <= (if deckCount > 0 then deckCount else 0)
      invariant cardDeck == DecksUpTo(deck, 0, 0)
    {
      for si := 0 to |AllSuits|
        invariant cardDeck == DecksUpTo(deck, si, 0)
      {
        var suit := AllSuits[si];
        for ri := 0 to |AllRanks|
          invariant cardDeck == DecksUpTo(deck, si, ri)
        {
          var rank := AllRanks[ri];
          var cardKey := DeckKey(suit, rank, deck);
          DecksUpToFresh(deck, si, ri);
          assert cardKey !in cardDeck;
          cardDeck := cardDeck[cardKey := CardInfo(suit, rank)];
        }
      }
      deck := deck + 1;
    }
    DecksUpToDone(deck, deckCount);
  }

  /** Every entry of a generated deck records the suit and rank its key names, with a deck number below n. */
  lemma DecksEntries(cardDeck: map<string, CardInfo>, n: int, key: string)
    requires IsDecks(cardDeck, n) && key in cardDeck
    ensures exists d: nat :: d < n && key == DeckKey(cardDeck[key].suit, cardDeck[key].rank, d)
  {
    var d: nat :| key == DeckKey(cardDeck[key].suit, cardDeck[key].rank, d);
    assert DeckKey(cardDeck[key].suit, cardDeck[key].rank, d) in cardDeck;
  }

  /** The keys of the copies of one card, one per deck number below n. */
  function CopyKeys(suit: CardSuit, rank: CardRank, n: nat): (keys: set<string>)
    ensures |keys| == n
    ensures forall d: nat :: DeckKey(suit, rank, d) in keys <==> d < n
    ensures forall key | key in keys :: exists d: nat :: d < n && key == DeckKey(suit, rank, d)
  {
    if n == 0 then {}
    else
      var keys := CopyKeys(suit, rank, n - 1);
      forall d: nat ensures DeckKey(suit, rank, d) == DeckKey(suit, rank, n - 1) <==> d == n - 1 {
        DeckKeyInjective(suit, rank, d, suit, rank, n - 1);
      }
      keys + {DeckKey(suit, rank, n - 1)}
  }

  lemma CopyIsCopyKey(cardDeck: map<string, CardInfo>, n: int, suit: CardSuit, rank: CardRank, key: string)
    requires IsDecks(cardDeck, n) && n > 0
    requires key in cardDeck && cardDeck[key] == CardInfo(suit, rank)
    ensures key in CopyKeys(suit, rank, n)
  {
    DecksEntries(cardDeck, n, key);
    var d: nat :| d < n && key == DeckKey(suit, rank, d);
  }

  lemma CopyKeyIsCopy(cardDeck: map<string, CardInfo>, n: int, suit: CardSuit, rank: CardRank, key: string)
    requires IsDecks(cardDeck, n) && n > 0
    requires key in CopyKeys(suit, rank, n)
    ensures key in cardDeck && cardDeck[key] == CardInfo(suit, rank)
  {
    var d: nat :| d < n && key == DeckKey(suit, rank, d);
    assert key in cardDeck;
    DecksEntries(cardDeck, n, key);
    var d': nat :| d' < n && key == DeckKey(cardDeck[key].suit, cardDeck[key].rank, d');
    DeckKeyInjective(suit, rank, d, cardDeck[key].suit, cardDeck[key].rank, d');
  }

  /** In n generated decks each suit and rank occurs exactly n times (none when n is not positive). */
  lemma DecksCopies(cardDeck: map<string, CardInfo>, n: int, suit: CardSuit, rank: CardRank)
    requires IsDecks(cardDeck, n)
    ensures |set key | key in cardDeck && cardDeck[key] == CardInfo(suit, rank)| == if n > 0 then n else 0
  {
    var copies := set key | key in cardDeck && cardDeck[key] == CardInfo(suit, rank);
    if n <= 0 {
      forall key | key in cardDeck ensures false {
        DecksEntries(cardDeck, n, key);
      }
      assert copies == {};
    } else {
      var expected := CopyKeys(suit, rank, n);
      forall key | key in copies ensures key in expected {
        CopyIsCopyKey(cardDeck, n, suit, rank, key);
      }
      forall key | key in expected ensures key in copies {
        CopyKeyIsCopy(cardDeck, n, suit, rank, key);
      }
      assert copies == expected;
    }
  }

  // ---------------------------------------------------------------------------
  // Dealing
  // ---------------------------------------------------------------------------

  /** `List.RemoveAt` on a list without repeats: the element at i goes, the rest stay, still without repeats. */
  lemma RemoveAtDistinct(keys: seq<string>, i: nat)
    requires i < |keys| && Enumeration.Distinct(keys)
    ensures var rest := keys[..i] + keys[i + 1..];
      Enumeration.Distinct(rest)
      && keys[i] !in rest
      && |rest| == |keys| - 1
      && forall k :: k in keys <==> k in rest || k == keys[i]
  {
    var rest := keys[..i] + keys[i + 1..];
    assert keys == keys[..i] + [keys[i]] + keys[i + 1..];
    forall k | 0 <= k < |rest| ensures rest[k] != keys[i] {
      if k < i { assert rest[k] == keys[k]; }
      else { assert rest[k] == keys[k + 1]; }
    }
    forall a, b | 0 <= a < b < |rest| ensures rest[a] != rest[b] {
      var a' := if a < i then a else a + 1;
      var b' := if b < i then b else b + 1;
      assert rest[a] == keys[a'] && rest[b] == keys[b'];
    }
  }

  /**
   * The deal loop's state: `drawn` holds the keys already drawn, each once and with
   * its deck entry, `cardKeys` the keys still to draw, and together they are the deck.
   */
  ghost predicate Drawing(deck: map<string, CardInfo>, cardKeys: seq<string>, drawn: seq<(string, CardInfo)>)
  {
    Enumeration.Distinct(cardKeys)
    && (forall i, j :: 0 <= i < j < |drawn| ==> drawn[i].0 != drawn[j].0)
    && (forall i :: 0 <= i < |drawn| ==> drawn[i].0 in deck && drawn[i].1 == deck[drawn[i].0] && drawn[i].0 !in cardKeys)
    && (forall key :: key in deck <==> key in cardKeys || exists i :: 0 <= i < |drawn| && drawn[i].0 == key)
    && |drawn| + |cardKeys| == |deck|
  }

  /** Drawing the key at any index keeps the loop's state consistent. */
  lemma DrawStep(deck: map<string, CardInfo>, cardKeys: seq<string>, drawn: seq<(string, CardInfo)>, index: nat)
    requires Drawing(deck, cardKeys, drawn) && index < |cardKeys|
    ensures Drawing(deck, cardKeys[..index] + cardKeys[index + 1..], drawn + [(cardKeys[index], deck[cardKeys[index]])])
  {
    var cardKey := cardKeys[index];
    var rest := cardKeys[..index] + cardKeys[index + 1..];
    var next := drawn + [(cardKey, deck[cardKey])];
    RemoveAtDistinct(cardKeys, index);
    forall i | 0 <= i < |next| ensures next[i].0 in deck && next[i].1 == deck[next[i].0] && next[i].0 !in rest {
      if i < |drawn| { assert next[i] == drawn[i]; }
    }
    forall key | key in deck ensures key in rest || exists i :: 0 <= i < |next| && next[i].0 == key {
      if key !in rest && key != cardKey {
        var i :| 0 <= i < |drawn| && drawn[i].0 == key;
        assert next[i].0 == key;
      } else if key == cardKey {
        assert next[|next| - 1].0 == key;
      }
    }
  }

  /**
   * `DealCardsToContainerA`: nothing happens without a container A or with a null
   * or empty deck. Otherwise container A is asked to clear; a container without a
   * RectTransform stops there. Then the deck's keys are listed and, while any
   * remain, the one at an arbitrary index (the source's `random.Next`) is taken
   * out and a card of its suit and rank is dealt. Gives back whether the clear was
   * requested and the drawn keys with their entries, in draw order.
   */
  method DealCardsToContainerA(hasContainerA: bool, cardDeck: Option<map<string, CardInfo>>, isRectTransform: bool)
    returns (cleared: bool, drawn: seq<(string, CardInfo)>)
    ensures cleared <==> hasContainerA && cardDeck.Some? && cardDeck.value != map[]
    ensures !cleared || !isRectTransform ==> drawn == []
    ensures cleared && isRectTransform ==>
      |drawn| == |cardDeck.value|
      && (forall i, j :: 0 <= i < j < |drawn| ==> drawn[i].0 != drawn[j].0)
      && (forall key :: key in cardDeck.value <==> exists i :: 0 <= i < |drawn| && drawn[i].0 == key)
      && (forall i :: 0 <= i < |drawn| ==> drawn[i].0 in cardDeck.value && drawn[i].1 == cardDeck.value[drawn[i].0])
  {
    cleared, drawn := false, [];
    if !hasContainerA {
      return;
    }
    if cardDeck.None? || |cardDeck.value| == 0 {
      return;
    }
    cleared := true;
    if !isRectTransform {
      return;
    }
    var deck := cardDeck.value;
    var cardKeys := Enumeration.KeysOf(deck);
    assert forall key :: key in deck <==> key in cardKeys by {
      forall key ensures key in deck <==> key in cardKeys {
        assert key in cardKeys <==> key in (set k | k in cardKeys);
      }
    }
    while |cardKeys| > 0
      invariant Drawing(deck, cardKeys, drawn)
      decreases |cardKeys|
    {
      var randomIndex :| 0 <= randomIndex < |cardKeys|;
      DrawStep(deck, cardKeys, drawn, randomIndex);
      drawn := drawn + [(cardKeys[randomIndex], deck[cardKeys[randomIndex]])];
      cardKeys := cardKeys[..randomIndex] + cardKeys[randomIndex + 1..];
    }
  }
}
