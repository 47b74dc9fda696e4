/**
 * The hand classifier that CardsCollectionModel and CardModel both run over the
 * cards of container B (the two classes carry textually identical copies of it).
 * A hand is the list of cards in B, in whatever order the dictionary lists them;
 * each `Is*` test looks only at suits, ranks and rank counts, and the classifier
 * returns the first category of a fixed chain whose test holds.
 */
module HandEvaluator {
  import opened CardTypes
  import Enumeration

  // ---------------------------------------------------------------------------
  // Views of a hand
  // ---------------------------------------------------------------------------

  /** `cards.Select(f)`. */
  function Project<T>(cards: seq<Card>, f: Card -> T): (r: seq<T>)
    ensures |r| == |cards|
    ensures forall i :: 0 <= i < |cards| ==> r[i] == f(cards[i])
  {
    if cards == [] then [] else [f(cards[0])] + Project(cards[1..], f)
  }

  lemma {:induction false} ProjectAppend<T>(a: seq<Card>, b: seq<Card>, f: Card -> T)
    ensures Project(a + b, f) == Project(a, f) + Project(b, f)
  {
    var lhs, rhs := Project(a + b, f), Project(a, f) + Project(b, f);
    assert |lhs| == |rhs|;
    forall i | 0 <= i < |lhs| ensures lhs[i] == rhs[i] {
      if i < |a| { assert (a + b)[i] == a[i]; } else { assert (a + b)[i] == b[i - |a|]; }
    }
  }

  /** Taking one card out of a hand takes its projection out of the projected values. */
  lemma ProjectRemove<T>(b: seq<Card>, k: nat, f: Card -> T)
    requires k < |b|
    ensures multiset(Project(b, f)) == multiset{f(b[k])} + multiset(Project(b[..k] + b[k + 1..], f))
  {
    var p := Project(b, f);
    var rest := b[..k] + b[k + 1..];
    var q := Project(rest, f);
    forall i | 0 <= i < |q| ensures q[i] == (p[..k] + p[k + 1..])[i] {
      if i < k { assert rest[i] == b[i]; } else { assert rest[i] == b[i + 1]; }
    }
    assert q == p[..k] + p[k + 1..];
    RemoveAtMultiset(p, k);
  }

  lemma RemoveAtMultiset<T>(p: seq<T>, k: nat)
    requires k < |p|
    ensures multiset(p) == multiset{p[k]} + multiset(p[..k] + p[k + 1..])
  {
    assert p == p[..k] + [p[k]] + p[k + 1..];
  }

  /** Reordering the cards reorders their projections: the multiset of projected values depends only on the multiset of cards. */
  lemma {:induction false} ProjectPermutation<T>(a: seq<Card>, b: seq<Card>, f: Card -> T)
    requires multiset(a) == multiset(b)
    ensures multiset(Project(a, f)) == multiset(Project(b, f))
    decreases |a|
  {
    if a == [] {
      assert |b| == |multiset(b)| == 0;
    } else {
      var x := a[0];
      assert x in multiset(b);
      var k :| 0 <= k < |b| && b[k] == x;
      var b' := b[..k] + b[k + 1..];
      assert multiset(b') == multiset(b) - multiset{x} by {
        assert b == b[..k] + [x] + b[k + 1..];
        assert multiset(b) == multiset(b[..k]) + multiset{x} + multiset(b[k + 1..]);
      }
      assert multiset(a[1..]) == multiset(a) - multiset{x} by {
        assert a == [x] + a[1..];
        assert multiset(a) == multiset{x} + multiset(a[1..]);
      }
      ProjectPermutation(a[1..], b', f);
      ProjectRemove(b, k, f);
      assert Project(a, f) == [f(x)] + Project(a[1..], f);
    }
  }

  function RankOf(c: Card): CardRank { c.rank }

  function RankValueOf(c: Card): int { RankValue(c.rank) }

  /** The ranks of the cards, in hand order. */
  function Ranks(cards: seq<Card>): (rs: seq<CardRank>)
    ensures |rs| == |cards| && forall i :: 0 <= i < |cards| ==> rs[i] == cards[i].rank
  {
    Project(cards, RankOf)
  }

  /** `cards.Select(card => (int)card.Rank)`. */
  function RankValues(cards: seq<Card>): (vs: seq<int>)
    ensures |vs| == |cards| && forall i :: 0 <= i < |cards| ==> vs[i] == RankValue(cards[i].rank)
  {
    Project(cards, RankValueOf)
  }

  /** How many cards of the hand have rank r. */
  function RankCount(cards: seq<Card>, r: CardRank): (n: nat)
    ensures n <= |cards|
    ensures n > 0 <==> exists i :: 0 <= i < |cards| && cards[i].rank == r
  {
    var rs := Ranks(cards);
    assert |multiset(rs)| == |rs|;
    assert multiset(rs)[r] <= |multiset(rs)| by {
      assert multiset(rs) == multiset(rs)[r := 0] + multiset{}[r := multiset(rs)[r]];
    }
    assert multiset(rs)[r] > 0 ==> r in rs;
    multiset(rs)[r]
  }

  /** The `rankCounts` dictionary the predicates build: each rank present in the hand, with its number of cards. */
  function RankCounts(cards: seq<Card>): (counts: map<CardRank, nat>)
    ensures forall r :: r in counts <==> RankCount(cards, r) > 0
    ensures forall r :: r in counts ==> counts[r] == RankCount(cards, r)
  {
    map r | r in Ranks(cards) :: RankCount(cards, r)
  }

  /** Two hands holding the same cards (in any order) have the same rank counts. */
  lemma RankCountsPermutation(a: seq<Card>, b: seq<Card>)
    requires multiset(a) == multiset(b)
    ensures RankCounts(a) == RankCounts(b)
  {
    ProjectPermutation(a, b, RankOf);
    forall r ensures RankCount(a, r) == RankCount(b, r) {
    }
  }

  // ---------------------------------------------------------------------------
  // Sorting the rank values (`OrderBy(r => r)`)
  // ---------------------------------------------------------------------------

  predicate Sorted(s: seq<int>)
  {
    forall i, j :: 0 <= i <= j < |s| ==> s[i] <= s[j]
  }

  /** A list holding the values of s and x is bounded below by any bound of both. */
  lemma BoundedBelow(r: seq<int>, s: seq<int>, x: int, lo: int)
    requires multiset(r) == multiset(s) + multiset{x}
    requires lo <= x && forall i :: 0 <= i < |s| ==> lo <= s[i]
    ensures forall i :: 0 <= i < |r| ==> lo <= r[i]
  {
    forall i | 0 <= i < |r| ensures lo <= r[i] {
      assert r[i] in multiset(r);
      if r[i] != x {
        assert r[i] in multiset(s);
      }
    }
  }

  function Insert(x: int, s: seq<int>): (r: seq<int>)
    requires Sorted(s)
    ensures Sorted(r) && multiset(r) == multiset(s) + multiset{x}
  {
    if s == [] || x <= s[0] then [x] + s
    else
      assert s == [s[0]] + s[1..];
      var rest := Insert(x, s[1..]);
      BoundedBelow(rest, s[1..], x, s[0]);
      [s[0]] + rest
  }

  /** The values of s in ascending order. */
  function SortAscending(s: seq<int>): (r: seq<int>)
    ensures Sorted(r) && multiset(r) == multiset(s)
  {
    if s == [] then []
    else
      assert s == [s[0]] + s[1..];
      Insert(s[0], SortAscending(s[1..]))
  }

  /** The head of an ascending list is its least value. */
  lemma SortedHeadIsLeast(s: seq<int>, x: int)
    requires Sorted(s) && x in multiset(s)
    ensures s[0] <= x
  {
    var k :| 0 <= k < |s| && s[k] == x;
  }

  lemma SortedTail(s: seq<int>)
    requires Sorted(s) && s != []
    ensures Sorted(s[1..])
  {
    forall i, j | 0 <= i <= j < |s| - 1 ensures s[1..][i] <= s[1..][j] {
      assert s[1..][i] == s[i + 1] && s[1..][j] == s[j + 1];
    }
  }

  /** Two ascending listings of one non-empty multiset start alike and continue with the same multiset. */
  lemma SortedHeads(a: seq<int>, b: seq<int>)
    requires Sorted(a) && Sorted(b) && multiset(a) == multiset(b) && a != []
    ensures b != [] && a[0] == b[0] && multiset(a[1..]) == multiset(b[1..])
  {
    assert |b| == |multiset(b)| == |multiset(a)| == |a|;
    assert a[0] in multiset(a) && b[0] in multiset(b);
    SortedHeadIsLeast(a, b[0]);
    SortedHeadIsLeast(b, a[0]);
    MultisetTail(a);
    MultisetTail(b);
  }

  /** Dropping the head of a list drops one copy of it from the multiset. */
  lemma MultisetTail(s: seq<int>)
    requires s != []
    ensures multiset(s[1..]) == multiset(s) - multiset{s[0]}
  {
    assert s == [s[0]] + s[1..];
    assert multiset(s) == multiset{s[0]} + multiset(s[1..]);
  }

  /** A multiset has one ascending listing. */
  lemma {:induction false} SortedUnique(a: seq<int>, b: seq<int>)
    requires Sorted(a) && Sorted(b) && multiset(a) == multiset(b)
    ensures a == b
    decreases |a|
  {
    if a == [] {
      assert |b| == |multiset(b)| == 0;
    } else {
      SortedHeads(a, b);
      SortedTail(a);
      SortedTail(b);
      SortedUnique(a[1..], b[1..]);
      assert a == [a[0]] + a[1..];
      assert b == [b[0]] + b[1..];
    }
  }

  /** The `ranks` list IsStraight works on: rank values, ascending. */
  function SortedRankValues(cards: seq<Card>): (vs: seq<int>)
    ensures Sorted(vs) && multiset(vs) == multiset(RankValues(cards))
  {
    SortAscending(RankValues(cards))
  }

  // ---------------------------------------------------------------------------
  // The predicates
  // ---------------------------------------------------------------------------

  /** Every card has the suit of the first card. */
  predicate AllSameSuit(cards: seq<Card>)
  {
    forall i :: 0 <= i < |cards| ==> cards[i].suit == cards[0].suit
  }

  /** Every card has the rank of the first card. */
  predicate AllSameRank(cards: seq<Card>)
  {
    forall i :: 0 <= i < |cards| ==> cards[i].rank == cards[0].rank
  }

  /** Exactly two ranks, one held three times and one twice. */
  predicate IsFullHouseShape(counts: map<CardRank, nat>)
  {
    |counts| == 2 && 3 in counts.Values && 2 in counts.Values
  }

  /** Some rank is held at least n times (`rankCounts.Values.Any(count => count >= n)`). */
  predicate SomeRankAtLeast(counts: map<CardRank, nat>, n: nat)
  {
    exists r :: r in counts && counts[r] >= n
  }

  /** `rankCounts.Values.Count(count => count >= 2)`. */
  function PairCount(counts: map<CardRank, nat>): (n: nat)
    ensures n <= |counts|
  {
    var pairs := set r | r in counts && counts[r] >= 2;
    assert pairs <= counts.Keys;
    Cardinality(pairs, counts.Keys);
    |pairs|
  }

  lemma Cardinality<T>(a: set<T>, b: set<T>)
    requires a <= b
    ensures |a| <= |b|
  {
    assert b == a + (b - a);
  }

  predicate IsFlushFiveOfAKind(cards: seq<Card>)
  {
    |cards| >= 5
    && forall i :: 0 <= i < |cards| ==> cards[i].suit == cards[0].suit && cards[i].rank == cards[0].rank
  }

  predicate IsFlushFullHouse(cards: seq<Card>)
  {
    |cards| == 5 && AllSameSuit(cards) && IsFullHouseShape(RankCounts(cards))
  }

  predicate IsFiveOfAKind(cards: seq<Card>)
  {
    |cards| >= 5 && AllSameRank(cards)
  }

  predicate IsStraightFlush(cards: seq<Card>)
  {
    |cards| == 5 && IsFlush(cards) && IsStraight(cards)
  }

  predicate IsFourOfAKind(cards: seq<Card>)
  {
    |cards| >= 4 && SomeRankAtLeast(RankCounts(cards), 4)
  }

  predicate IsFullHouse(cards: seq<Card>)
  {
    |cards| == 5 && IsFullHouseShape(RankCounts(cards))
  }

  predicate IsFlush(cards: seq<Card>)
  {
    |cards| >= 5 && AllSameSuit(cards)
  }

  /** A-2-3-4-5 all present. */
  predicate IsLowStraight(ranks: seq<int>)
  {
    1 in ranks && 2 in ranks && 3 in ranks && 4 in ranks && 5 in ranks
  }

  /** 10-J-Q-K-A all present. */
  predicate IsHighStraight(ranks: seq<int>)
  {
    10 in ranks && 11 in ranks && 12 in ranks && 13 in ranks && 1 in ranks
  }

  /** Each value is one more than the one before. */
  predicate IsConsecutive(ranks: seq<int>)
  {
    forall i :: 1 <= i < |ranks| ==> ranks[i] == ranks[i - 1] + 1
  }

  predicate IsStraight(cards: seq<Card>)
  {
    |cards| == 5
    && var ranks := SortedRankValues(cards);
       IsLowStraight(ranks) || IsHighStraight(ranks) || IsConsecutive(ranks)
  }

  predicate IsThreeOfAKind(cards: seq<Card>)
  {
    |cards| >= 3 && SomeRankAtLeast(RankCounts(cards), 3)
  }

  predicate IsTwoPair(cards: seq<Card>)
  {
    |cards| >= 4 && PairCount(RankCounts(cards)) >= 2
  }

  predicate IsOnePair(cards: seq<Card>)
  {
    |cards| >= 2 && SomeRankAtLeast(RankCounts(cards), 2)
  }

  // ---------------------------------------------------------------------------
  // The classifier
  // ---------------------------------------------------------------------------

  /** The enum value of a category: HighCard = 0 up to FlushFiveOfAKind = 11; Null, which no declaration gives a value, sits below them all. */
  function EnumValue(t: PokerHandType): (v: int)
    ensures -1 <= v <= 11
    ensures v == -1 <==> t == Null
  {
    match t
    case Null => -1 case HighCard => 0 case OnePair => 1 case TwoPair => 2
    case ThreeOfAKind => 3 case Straight => 4 case Flush => 5 case FullHouse => 6
    case FourOfAKind => 7 case StraightFlush => 8 case FiveOfAKind => 9
    case FlushFullHouse => 10 case FlushFiveOfAKind => 11
  }

  /** The test for each category; HighCard holds of any non-empty hand, Null of the empty one. */
  predicate Holds(t: PokerHandType, cards: seq<Card>)
  {
    match t
    case Null => cards == []
    case HighCard => cards != []
    case OnePair => IsOnePair(cards)
    case TwoPair => IsTwoPair(cards)
    case ThreeOfAKind => IsThreeOfAKind(cards)
    case Straight => IsStraight(cards)
    case Flush => IsFlush(cards)
    case FullHouse => IsFullHouse(cards)
    case FourOfAKind => IsFourOfAKind(cards)
    case StraightFlush => IsStraightFlush(cards)
    case FiveOfAKind => IsFiveOfAKind(cards)
    case FlushFullHouse => IsFlushFullHouse(cards)
    case FlushFiveOfAKind => IsFlushFiveOfAKind(cards)
  }

  /**
   * EvaluatePokerHand's decision: Null for an empty hand, otherwise the first
   * category of the chain FlushFiveOfAKind, FlushFullHouse, FiveOfAKind,
   * StraightFlush, FourOfAKind, FullHouse, Flush, Straight, ThreeOfAKind, TwoPair,
   * OnePair whose test holds, and HighCard when none does. Because the chain runs
   * down the enum's declaration order, the answer is the highest category whose
   * test holds.
   */
  function Classify(cards: seq<Card>): (t: PokerHandType)
    ensures t == Null <==> cards == []
  {
    if cards == [] then Null
    else if IsFlushFiveOfAKind(cards) then FlushFiveOfAKind
    else if IsFlushFullHouse(cards) then FlushFullHouse
    else if IsFiveOfAKind(cards) then FiveOfAKind
    else if IsStraightFlush(cards) then StraightFlush
    else if IsFourOfAKind(cards) then FourOfAKind
    else if IsFullHouse(cards) then FullHouse
    else if IsFlush(cards) then Flush
    else if IsStraight(cards) then Straight
    else if IsThreeOfAKind(cards) then ThreeOfAKind
    else if IsTwoPair(cards) then TwoPair
    else if IsOnePair(cards) then OnePair
    else HighCard
  }

  lemma ClassifyIsHighestHolding(cards: seq<Card>)
    ensures Holds(Classify(cards), cards)
    ensures forall u :: Holds(u, cards) ==> EnumValue(u) <= EnumValue(Classify(cards))
  {
    var t := Classify(cards);
    forall u | Holds(u, cards) ensures EnumValue(u) <= EnumValue(t) {
    }
  }

  // ---------------------------------------------------------------------------
  // Properties
  // ---------------------------------------------------------------------------

  /** AllSameSuit compares with the first card, but it means that any two cards share a suit. */
  lemma SameSuitMembers(cards: seq<Card>)
    ensures AllSameSuit(cards) <==> forall x, y :: x in cards && y in cards ==> x.suit == y.suit
  {
    if AllSameSuit(cards) {
      forall x, y | x in cards && y in cards ensures x.suit == y.suit {
        var i :| 0 <= i < |cards| && cards[i] == x;
        var j :| 0 <= j < |cards| && cards[j] == y;
      }
    }
  }

  lemma SameRankMembers(cards: seq<Card>)
    ensures AllSameRank(cards) <==> forall x, y :: x in cards && y in cards ==> x.rank == y.rank
  {
    if AllSameRank(cards) {
      forall x, y | x in cards && y in cards ensures x.rank == y.rank {
        var i :| 0 <= i < |cards| && cards[i] == x;
        var j :| 0 <= j < |cards| && cards[j] == y;
      }
    }
  }

  /** Two hands holding the same cards sort to the same rank list. */
  lemma SortedRankValuesPermutation(a: seq<Card>, b: seq<Card>)
    requires multiset(a) == multiset(b)
    ensures SortedRankValues(a) == SortedRankValues(b)
  {
    ProjectPermutation(a, b, RankValueOf);
    SortedUnique(SortedRankValues(a), SortedRankValues(b));
  }

  /** Same cards, in any order: same size, same suit and rank agreement, same rank counts, same sorted ranks. */
  lemma PermutationFeatures(a: seq<Card>, b: seq<Card>)
    requires multiset(a) == multiset(b)
    ensures |a| == |b|
    ensures AllSameSuit(a) == AllSameSuit(b) && AllSameRank(a) == AllSameRank(b)
    ensures IsFlushFiveOfAKind(a) == IsFlushFiveOfAKind(b)
    ensures RankCounts(a) == RankCounts(b)
    ensures SortedRankValues(a) == SortedRankValues(b)
  {
    assert |a| == |multiset(a)| == |multiset(b)| == |b|;
    forall x ensures x in a <==> x in b {
      assert x in a <==> x in multiset(a);
      assert x in b <==> x in multiset(b);
    }
    SameSuitMembers(a);
    SameSuitMembers(b);
    SameRankMembers(a);
    SameRankMembers(b);
    assert IsFlushFiveOfAKind(a) <==> |a| >= 5 && AllSameSuit(a) && AllSameRank(a);
    assert IsFlushFiveOfAKind(b) <==> |b| >= 5 && AllSameSuit(b) && AllSameRank(b);
    RankCountsPermutation(a, b);
    SortedRankValuesPermutation(a, b);
  }

  /**
   * The category depends only on which cards the hand holds, not on the order
   * the dictionary lists them in.
   */
  lemma ClassifyPermutationInvariant(a: seq<Card>, b: seq<Card>)
    requires multiset(a) == multiset(b)
    ensures Classify(a) == Classify(b)
  {
    PermutationFeatures(a, b);
    assert IsFlushFullHouse(a) == IsFlushFullHouse(b);
    assert IsFiveOfAKind(a) == IsFiveOfAKind(b);
    assert IsFlush(a) == IsFlush(b);
    assert IsStraight(a) == IsStraight(b);
    assert IsStraightFlush(a) == IsStraightFlush(b);
    assert IsFourOfAKind(a) == IsFourOfAKind(b);
    assert IsFullHouse(a) == IsFullHouse(b);
    assert IsThreeOfAKind(a) == IsThreeOfAKind(b);
    assert IsTwoPair(a) == IsTwoPair(b);
    assert IsOnePair(a) == IsOnePair(b);
  }

  /** Every rank value of a hand lies between Ace (1) and King (13). */
  lemma SortedRankValuesInRange(cards: seq<Card>)
    ensures forall i :: 0 <= i < |SortedRankValues(cards)| ==> 1 <= SortedRankValues(cards)[i] <= 13
  {
    var s := SortedRankValues(cards);
    forall i | 0 <= i < |s| ensures 1 <= s[i] <= 13 {
      assert s[i] in multiset(RankValues(cards));
      var j :| 0 <= j < |cards| && RankValues(cards)[j] == s[i];
    }
  }

  /** A sorted list of five values containing five given increasing values is exactly those values. */
  lemma SortedFiveContaining(s: seq<int>, t: seq<int>)
    requires Sorted(s) && |s| == 5 && |t| == 5
    requires forall k :: 0 <= k < 4 ==> t[k] < t[k + 1]
    requires forall k :: 0 <= k < 5 ==> t[k] in s
    ensures s == t
  {
    var i0 :| 0 <= i0 < 5 && s[i0] == t[0];
    var i1 :| 0 <= i1 < 5 && s[i1] == t[1];
    var i2 :| 0 <= i2 < 5 && s[i2] == t[2];
    var i3 :| 0 <= i3 < 5 && s[i3] == t[3];
    var i4 :| 0 <= i4 < 5 && s[i4] == t[4];
    assert i0 < i1 < i2 < i3 < i4;
  }

  /** Five consecutive values starting at lo. */
  function Run(lo: int): (r: seq<int>)
    ensures |r| == 5 && Sorted(r)
    ensures forall k :: 0 <= k < 5 ==> r[k] == lo + k
  {
    [lo, lo + 1, lo + 2, lo + 3, lo + 4]
  }

  /** 10-J-Q-K-A by rank value. */
  const TenToAce: seq<int> := [1, 10, 11, 12, 13]

  /**
   * Since Ace is 1, a hand holding A-2-3-4-5 already has consecutive sorted
   * ranks: the A-2-3-4-5 test never decides anything the consecutive test does not.
   */
  lemma LowStraightIsConsecutive(ranks: seq<int>)
    requires Sorted(ranks) && |ranks| == 5 && IsLowStraight(ranks)
    ensures IsConsecutive(ranks)
  {
    SortedFiveContaining(ranks, Run(1));
  }

  /** The straight test on a sorted list of five rank values, restated. */
  lemma StraightRanks(s: seq<int>)
    requires Sorted(s) && |s| == 5
    requires forall i :: 0 <= i < 5 ==> 1 <= s[i] <= 13
    ensures IsLowStraight(s) || IsHighStraight(s) || IsConsecutive(s)
      <==> s == TenToAce || exists lo :: 1 <= lo <= 9 && s == Run(lo)
  {
    if IsLowStraight(s) || IsHighStraight(s) || IsConsecutive(s) {
      StraightTestsGiveRun(s);
    }
    if s == TenToAce || exists lo :: 1 <= lo <= 9 && s == Run(lo) {
      RunPassesStraightTests(s);
    }
  }

  /** A run of five consecutive values, or 10-J-Q-K-A, passes one of the three straight tests. */
  lemma RunPassesStraightTests(s: seq<int>)
    requires s == TenToAce || exists lo :: 1 <= lo <= 9 && s == Run(lo)
    ensures IsHighStraight(s) || IsConsecutive(s)
  {
    if s == TenToAce {
      assert s[1] == 10 && s[2] == 11 && s[3] == 12 && s[4] == 13 && s[0] == 1;
    } else {
      var lo :| 1 <= lo <= 9 && s == Run(lo);
      assert IsConsecutive(Run(lo));
    }
  }

  /** Sorted rank values that pass one of the three straight tests are such a run. */
  lemma StraightTestsGiveRun(s: seq<int>)
    requires Sorted(s) && |s| == 5
    requires forall i :: 0 <= i < 5 ==> 1 <= s[i] <= 13
    requires IsLowStraight(s) || IsHighStraight(s) || IsConsecutive(s)
    ensures s == TenToAce || exists lo :: 1 <= lo <= 9 && s == Run(lo)
  {
    if IsLowStraight(s) {
      SortedFiveContaining(s, Run(1));
    } else if IsHighStraight(s) {
      SortedFiveContaining(s, TenToAce);
    } else {
      assert s[1] == s[0] + 1 && s[2] == s[1] + 1 && s[3] == s[2] + 1 && s[4] == s[3] + 1;
      assert s == Run(s[0]);
    }
  }

  /** Rank values 10-J-Q-K-A, or five consecutive values starting at 1 to 9. */
  predicate StraightRankSet(ms: multiset<int>)
  {
    ms == multiset(TenToAce) || exists lo :: 1 <= lo <= 9 && ms == multiset(Run(lo))
  }

  lemma SortedTenToAce(s: seq<int>)
    requires Sorted(s) && multiset(s) == multiset(TenToAce)
    ensures s == TenToAce
  {
    SortedUnique(s, TenToAce);
  }

  lemma SortedRun(s: seq<int>, lo: int)
    requires Sorted(s) && multiset(s) == multiset(Run(lo))
    ensures s == Run(lo)
  {
    SortedUnique(s, Run(lo));
  }

  /** For an ascending list, StraightRankSet says what the list is. */
  lemma SortedStraightRankSet(s: seq<int>)
    requires Sorted(s)
    ensures StraightRankSet(multiset(s)) <==> s == TenToAce || exists lo :: 1 <= lo <= 9 && s == Run(lo)
  {
    if StraightRankSet(multiset(s)) {
      if multiset(s) == multiset(TenToAce) {
        SortedTenToAce(s);
      } else {
        var lo :| 1 <= lo <= 9 && multiset(s) == multiset(Run(lo));
        SortedRun(s, lo);
      }
    }
  }

  predicate StrictlyIncreasing(s: seq<int>)
  {
    forall i, j :: 0 <= i < j < |s| ==> s[i] < s[j]
  }

  /** A strictly increasing list holds each value at most once. */
  lemma {:induction false} IncreasingSingles(s: seq<int>, v: int)
    requires StrictlyIncreasing(s)
    ensures multiset(s)[v] <= 1
  {
    if s != [] {
      IncreasingSingles(s[1..], v);
      assert s == [s[0]] + s[1..];
      if s[0] == v {
        assert v !in s[1..];
      }
    }
  }

  lemma TenToAceSingles(v: int)
    ensures multiset(TenToAce)[v] <= 1
  {
    assert StrictlyIncreasing(TenToAce);
    IncreasingSingles(TenToAce, v);
  }

  lemma RunSingles(lo: int, v: int)
    ensures multiset(Run(lo))[v] <= 1
  {
    assert StrictlyIncreasing(Run(lo));
    IncreasingSingles(Run(lo), v);
  }

  /** Each value occurs at most once in a straight's rank values. */
  lemma StraightRankSetSingles(ms: multiset<int>, v: int)
    requires StraightRankSet(ms)
    ensures ms[v] <= 1
  {
    if lo :| 1 <= lo <= 9 && ms == multiset(Run(lo)) {
      RunSingles(lo, v);
    } else {
      TenToAceSingles(v);
    }
  }

  /**
   * A hand is a straight exactly when it has five cards whose ranks are
   * 10-J-Q-K-A or five consecutive values from A-2-3-4-5 up to 9-10-J-Q-K.
   */
  lemma StraightCharacterization(cards: seq<Card>)
    ensures IsStraight(cards) <==> |cards| == 5 && StraightRankSet(multiset(RankValues(cards)))
  {
    var s := SortedRankValues(cards);
    SortedStraightRankSet(s);
    if |cards| == 5 {
      SortedRankValuesInRange(cards);
      StraightRanks(s);
    }
  }

  /** A value found at two positions of a list is counted twice. */
  lemma RepeatedValueCount(s: seq<int>, i: nat, j: nat)
    requires i < j < |s| && s[i] == s[j]
    ensures multiset(s)[s[i]] >= 2
  {
    assert s == s[..j] + [s[j]] + s[j + 1..];
    assert s[i] in s[..j];
  }

  /** No straight holds two cards of the same rank. */
  lemma StraightHasDistinctRanks(cards: seq<Card>)
    requires IsStraight(cards)
    ensures forall i, j :: 0 <= i < j < |cards| ==> cards[i].rank != cards[j].rank
  {
    StraightCharacterization(cards);
    var vs := RankValues(cards);
    forall i, j | 0 <= i < j < |cards| ensures cards[i].rank != cards[j].rank {
      if cards[i].rank == cards[j].rank {
        RepeatedValueCount(vs, i, j);
        StraightRankSetSingles(multiset(vs), vs[i]);
      }
    }
  }

  /**
   * Fewer than five cards can never make Flush, Straight, FullHouse,
   * StraightFlush, FiveOfAKind, FlushFullHouse or FlushFiveOfAKind, and a single
   * card is always HighCard.
   */
  lemma SmallHands(cards: seq<Card>)
    requires 1 <= |cards| < 5
    ensures Classify(cards) in {HighCard, OnePair, TwoPair, ThreeOfAKind, FourOfAKind}
    ensures |cards| == 1 ==> Classify(cards) == HighCard
  {
  }

  // ---------------------------------------------------------------------------
  // Classifying a container
  // ---------------------------------------------------------------------------

  /**
   * The category of the cards held in a container keyed by card key, whatever
   * order the dictionary lists them in.
   */
  ghost function HandTypeOf(hand: map<string, Card>): (t: PokerHandType)
    ensures t == Null <==> hand == map[]
  {
    Classify(Enumeration.ValuesSeq(hand))
  }

  /** Classifying any listing of a container's cards gives HandTypeOf. */
  lemma ClassifyAnyListing(hand: map<string, Card>, cards: seq<Card>)
    requires multiset(cards) == multiset(Enumeration.ValuesSeq(hand))
    ensures Classify(cards) == HandTypeOf(hand)
  {
    ClassifyPermutationInvariant(cards, Enumeration.ValuesSeq(hand));
  }

  /** `t` is the category of the hand however the dictionary lists its cards. */
  ghost predicate ClassifiedAs(hand: map<string, Card>, t: PokerHandType)
  {
    forall cards {:trigger Classify(cards)} ::
      multiset(cards) == multiset(Enumeration.ValuesSeq(hand)) ==> Classify(cards) == t
  }

  /** The label every listing agrees on is exactly HandTypeOf. */
  lemma ClassifiedAsHandTypeOf(hand: map<string, Card>, t: PokerHandType)
    ensures ClassifiedAs(hand, t) <==> t == HandTypeOf(hand)
  {
    if t == HandTypeOf(hand) {
      forall cards | multiset(cards) == multiset(Enumeration.ValuesSeq(hand))
        ensures Classify(cards) == t
      {
        ClassifyAnyListing(hand, cards);
      }
    } else {
      assert Classify(Enumeration.ValuesSeq(hand)) == HandTypeOf(hand);
    }
  }

  /**
   * The classification both model classes run: list the container's cards with
   * `.Values` and pass them down the chain.
   */
  method ClassifyHand(hand: map<string, Card>) returns (t: PokerHandType)
    ensures t == HandTypeOf(hand)
  {
    var cards := Enumeration.ValuesOf(hand);
    ClassifyAnyListing(hand, cards);
    t := Classify(cards);
  }
}
