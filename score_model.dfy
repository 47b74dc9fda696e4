/**
 * ScoreModel: the running score of a game and the best score ever reached,
 * which is kept in the player preferences under "PokerGameTotalScore".
 *
 * The preferences store is the field `prefs`; the hand table is given to
 * `HandScore` as its rows in the order the table enumerates them. The static
 * C# events are appended to `events`. C# `int` arithmetic is unchecked, so the
 * score wraps around at 32 bits.
 */
module Score {
  import opened Wrappers
  import opened CardTypes
  import Text
  import CardsCollection

  type Row = map<string, string>

  const TotalScoreKey: string := "PokerGameTotalScore"

  datatype Event = ScoreChanged(score: int) | TotalScoreChanged(totalScore: int)

  /** Why `HandScore` throws: a row lacks a column, or a number does not parse. */
  datatype ScoreError = MissingColumn(column: string) | BadNumber(column: string, reason: Text.ParseError)

  /**
   * The first row whose "HandType" is `name`, scanning in order, or None when no
   * row has it; a row without a "HandType" column met first is an error.
   */
  function FirstMatch(rows: seq<Row>, name: string): (r: Result<Option<nat>, ScoreError>)
    ensures r.Ok? && r.value.Some? ==>
      var i := r.value.value;
      i < |rows| && "HandType" in rows[i] && rows[i]["HandType"] == name
      && forall k :: 0 <= k < i ==> "HandType" in rows[k] && rows[k]["HandType"] != name
    ensures r == Ok(None) <==> forall k :: 0 <= k < |rows| ==> "HandType" in rows[k] && rows[k]["HandType"] != name
    ensures r.Err? ==>
      (r.error == MissingColumn("HandType") && exists i :: 0 <= i < |rows| && "HandType" !in rows[i])
  {
    if rows == [] then Ok(None)
    else if "HandType" !in rows[0] then Err(MissingColumn("HandType"))
    else if rows[0]["HandType"] == name then Ok(Some(0))
    else match FirstMatch(rows[1..], name)
      case Err(e) => Err(e)
      case Ok(None) => Ok(None)
      case Ok(Some(i)) => Ok(Some(i + 1))
  }

  /** `int.Parse(row[column])`. */
  function ColumnValue(row: Row, column: string): (r: Result<int, ScoreError>)
    ensures r.Ok? ==> column in row && Text.ParseInt32(row[column]) == Ok(r.value) && Text.InInt32(r.value)
    ensures column !in row ==> r == Err(MissingColumn(column))
    ensures column in row && Text.ParseInt32(row[column]).Ok? ==> r == Ok(Text.ParseInt32(row[column]).value)
    ensures column in row && Text.ParseInt32(row[column]).Err? ==>
      r == Err(BadNumber(column, Text.ParseInt32(row[column]).error))
  {
    if column !in row then Err(MissingColumn(column))
    else match Text.ParseInt32(row[column])
      case Err(e) => Err(BadNumber(column, e))
      case Ok(v) => Ok(v)
  }

  /** Score × Multiplier of a row, as 32-bit C# arithmetic: the product wraps around. */
  function Points(row: Row): (r: Result<int, ScoreError>)
    ensures r.Ok? ==> Text.InInt32(r.value)
    ensures r.Ok? <==> ColumnValue(row, "Score").Ok? && ColumnValue(row, "Multiplier").Ok?
    ensures r.Ok? ==> r.value == Text.Wrap32(ColumnValue(row, "Score").value * ColumnValue(row, "Multiplier").value)
  {
    match ColumnValue(row, "Score")
    case Err(e) => Err(e)
    case Ok(s) =>
      match ColumnValue(row, "Multiplier")
      case Err(e) => Err(e)
      case Ok(m) => Ok(Text.Wrap32(s * m))
  }

  /** Two hand categories never share a name, so a row scores for at most one of them. */
  lemma HandTypeNameInjective(a: PokerHandType, b: PokerHandType)
    ensures HandTypeName(a) == HandTypeName(b) ==> a == b
  {
  }

  /**
   * When nothing overflows, the score `HandScore` computes from a row (the old
   * score plus the row's points, wrapped) is the old score plus Score × Multiplier.
   */
  lemma NoOverflowAddsProduct(score: int, row: Row)
    requires ColumnValue(row, "Score").Ok? && ColumnValue(row, "Multiplier").Ok?
    requires Text.InInt32(ColumnValue(row, "Score").value * ColumnValue(row, "Multiplier").value)
    requires Text.InInt32(score + ColumnValue(row, "Score").value * ColumnValue(row, "Multiplier").value)
    ensures Points(row).Ok?
    ensures Text.Wrap32(score + Points(row).value)
         == score + ColumnValue(row, "Score").value * ColumnValue(row, "Multiplier").value
  {
  }

  /** Wrapping the product first, as C# does, gives the same score as wrapping only the sum. */
  lemma WrapProductFirst(score: int, p: int)
    ensures Text.Wrap32(score + Text.Wrap32(p)) == Text.Wrap32(score + p)
  {
    var w := Text.Wrap32(p);
    var a := Text.Wrap32(score + w);
    var b := Text.Wrap32(score + p);
    assert (a - b) % 0x1_0000_0000 == 0 by {
      assert (a - (score + w)) % 0x1_0000_0000 == 0;
      assert (b - (score + p)) % 0x1_0000_0000 == 0;
      assert (w - p) % 0x1_0000_0000 == 0;
      Mod32Sum(a - (score + w), w - p, -(b - (score + p)));
    }
    Mod32Unique(a, b);
  }

  lemma Mod32Sum(x: int, y: int, z: int)
    requires x % 0x1_0000_0000 == 0 && y % 0x1_0000_0000 == 0 && z % 0x1_0000_0000 == 0
    ensures (x + y + z) % 0x1_0000_0000 == 0
  {
    var qx, qy, qz := x / 0x1_0000_0000, y / 0x1_0000_0000, z / 0x1_0000_0000;
    assert x == qx * 0x1_0000_0000 && y == qy * 0x1_0000_0000 && z == qz * 0x1_0000_0000;
    assert x + y + z == (qx + qy + qz) * 0x1_0000_0000;
  }

  lemma Mod32Unique(a: int, b: int)
    requires Text.InInt32(a) && Text.InInt32(b) && (a - b) % 0x1_0000_0000 == 0
    ensures a == b
  {
    var q := (a - b) / 0x1_0000_0000;
    assert a - b == q * 0x1_0000_0000;
    assert -0x1_0000_0000 < a - b < 0x1_0000_0000;
  }

  class ScoreModel {
    var score: int
    var totalScore: int
    /** PlayerPrefs: the integers stored by key. */
    var prefs: map<string, int>
    var events: seq<Event>

    /** Both scores are 32-bit; the stored best is the one in memory, and 0 means none is stored yet. */
    ghost predicate Valid()
      reads this
    {
      Text.InInt32(score) && Text.InInt32(totalScore)
      && (TotalScoreKey in prefs ==> prefs[TotalScoreKey] == totalScore)
      && (TotalScoreKey !in prefs ==> totalScore == 0)
    }

    /** A new model: score 0, and the best score read from the store (LoadTotalScore). */
    constructor (prefs: map<string, int>)
      requires TotalScoreKey in prefs ==> Text.InInt32(prefs[TotalScoreKey])
      ensures Valid()
      ensures score == 0 && this.prefs == prefs && events == []
      ensures totalScore == if TotalScoreKey in prefs then prefs[TotalScoreKey] else 0
    {
      score := 0;
      this.prefs := prefs;
      events := [];
      new;
      LoadTotalScore();
    }

    /** Reads the best score from the store, 0 when none is stored. */
    method LoadTotalScore()
      requires TotalScoreKey in prefs ==> Text.InInt32(prefs[TotalScoreKey])
      modifies this`totalScore
      ensures totalScore == if TotalScoreKey in prefs then prefs[TotalScoreKey] else 0
    {
      if TotalScoreKey in prefs {
        totalScore := prefs[TotalScoreKey];
      } else {
        totalScore := 0;
      }
    }

    /**
     * What `HandScore` does to the model: the best score and the store stay; the
     * first row for the category adds its points and reports the new score; no
     * such row, or an error, leaves the score and the events as they were.
     */
    twostate predicate HandScored(handType: PokerHandType, rows: seq<Row>, new error: Option<ScoreError>)
      reads this
    {
      totalScore == old(totalScore) && prefs == old(prefs)
      && match FirstMatch(rows, HandTypeName(handType))
        case Err(e) => error == Some(e) && score == old(score) && events == old(events)
        case Ok(None) => error == None && score == old(score) && events == old(events)
        case Ok(Some(i)) =>
          match Points(rows[i])
          case Err(e) => error == Some(e) && score == old(score) && events == old(events)
          case Ok(p) =>
            error == None && score == Text.Wrap32(old(score) + p) && events == old(events) + [ScoreChanged(score)]
    }

    /**
     * `HandScore(handType)`: scans the hand table's rows in order; the first row
     * whose "HandType" is the category's name adds its Score × Multiplier and
     * reports the new score. With no such row nothing changes. A missing column
     * or a bad number throws before anything changes.
     */
    method HandScore(handType: PokerHandType, rows: seq<Row>) returns (error: Option<ScoreError>)
      requires Valid()
      modifies this`score, this`events
      ensures Valid()
      ensures HandScored(handType, rows, error)
    {
      var name := HandTypeName(handType);
      for i := 0 to |rows|
        invariant forall k :: 0 <= k < i ==> "HandType" in rows[k] && rows[k]["HandType"] != name
      {
        if "HandType" !in rows[i] {
          FirstMatchAt(rows, name, i);
          return Some(MissingColumn("HandType"));
        }
        if rows[i]["HandType"] == name {
          FirstMatchAt(rows, name, i);
          var s := ColumnValue(rows[i], "Score");
          if s.Err? {
            return Some(s.error);
          }
          var m := ColumnValue(rows[i], "Multiplier");
          if m.Err? {
            return Some(m.error);
          }
          score := Text.Wrap32(score + Text.Wrap32(s.value * m.value));
          events := events + [ScoreChanged(score)];
          return None;
        }
      }
      FirstMatchNone(rows, name);
      return None;
    }

    /** `GetTotalScore`: a score above the best becomes the best, is reported and is stored; otherwise nothing happens. */
    method GetTotalScore()
      requires Valid()
      modifies this`totalScore, this`events, this`prefs
      ensures Valid()
      ensures score == old(score)
      ensures old(score) > old(totalScore) ==>
        totalScore == score && events == old(events) + [TotalScoreChanged(score)]
        && prefs == old(prefs)[TotalScoreKey := score]
      ensures old(score) <= old(totalScore) ==>
        totalScore == old(totalScore) && events == old(events) && prefs == old(prefs)
      ensures totalScore >= old(totalScore) && totalScore >= score
    {
      if score > totalScore {
        totalScore := score;
        events := events + [TotalScoreChanged(totalScore)];
        prefs := prefs[TotalScoreKey := totalScore];
      }
    }

    /**
     * The subscriptions the constructor makes to CardsCollectionModel's events: a
     * full hand scores its category (`HandScore`), game over settles the best score
     * (`GetTotalScore`) and an emptied dealt pile resets the score (`FirstLevelDown`).
     * The model has no handler for any other event, which leaves it unchanged.
     */
    method OnCollectionEvent(e: CardsCollection.Event, rows: seq<Row>) returns (error: Option<ScoreError>)
      requires Valid()
      modifies this`score, this`totalScore, this`events, this`prefs
      ensures Valid()
      ensures e.HandCardMax? ==> HandScored(e.handType, rows, error)
      ensures e.GameOver? ==> error == None && score == old(score)
      ensures e.GameOver? && old(score) > old(totalScore) ==>
        totalScore == score && events == old(events) + [TotalScoreChanged(score)]
        && prefs == old(prefs)[TotalScoreKey := score]
      ensures e.GameOver? && old(score) <= old(totalScore) ==>
        totalScore == old(totalScore) && events == old(events) && prefs == old(prefs)
      ensures e.ContainerANoCardsCount? ==>
        error == None && score == 0 && totalScore == old(totalScore) && events == old(events) && prefs == old(prefs)
      ensures !(e.HandCardMax? || e.GameOver? || e.ContainerANoCardsCount?) ==>
        error == None && score == old(score) && totalScore == old(totalScore)
        && events == old(events) && prefs == old(prefs)
    {
      error := None;
      match e
      case HandCardMax(handType) =>
        error := HandScore(handType, rows);
      case GameOver =>
        GetTotalScore();
      case ContainerANoCardsCount =>
        FirstLevelDown();
      case _ =>
    }

    /** `FirstLevelDown`: the score goes back to 0; the best score stays. */
    method FirstLevelDown()
      requires Valid()
      modifies this`score
      ensures Valid()
      ensures score == 0
    {
      score := 0;
    }
  }

  /**
   * When every row before i has a "HandType" other than `name`, FirstMatch
   * is decided by row i: an error without the column, i itself on a match.
   */
  lemma FirstMatchAt(rows: seq<Row>, name: string, i: nat)
    requires i < |rows|
    requires forall k :: 0 <= k < i ==> "HandType" in rows[k] && rows[k]["HandType"] != name
    ensures "HandType" !in rows[i] ==> FirstMatch(rows, name) == Err(MissingColumn("HandType"))
    ensures "HandType" in rows[i] && rows[i]["HandType"] == name ==> FirstMatch(rows, name) == Ok(Some(i))
  {
    var r := FirstMatch(rows, name);
    if "HandType" !in rows[i] {
    } else if rows[i]["HandType"] == name {
      if r.Ok? && r.value.Some? {
        var j := r.value.value;
        assert !(j < i) && !(i < j);
      }
      if r.Err? {
        FirstMatchErrAfter(rows, name);
      }
    }
  }

  /** An error from FirstMatch comes from a row without the column that precedes every match. */
  lemma {:induction false} FirstMatchErrAfter(rows: seq<Row>, name: string)
    ensures FirstMatch(rows, name).Err? ==>
      exists i :: 0 <= i < |rows| && "HandType" !in rows[i]
        && forall k :: 0 <= k < i ==> "HandType" in rows[k] && rows[k]["HandType"] != name
  {
    if rows != [] && "HandType" in rows[0] && rows[0]["HandType"] != name {
      FirstMatchErrAfter(rows[1..], name);
      if FirstMatch(rows, name).Err? {
        var i :| 0 <= i < |rows[1..]| && "HandType" !in rows[1..][i]
          && forall k :: 0 <= k < i ==> "HandType" in rows[1..][k] && rows[1..][k]["HandType"] != name;
        assert "HandType" !in rows[i + 1];
        forall k | 0 <= k < i + 1 ensures "HandType" in rows[k] && rows[k]["HandType"] != name {
          if k > 0 { assert rows[k] == rows[1..][k - 1]; }
        }
      }
    } else if rows != [] && "HandType" !in rows[0] {
      assert "HandType" !in rows[0];
    }
  }

  /**
   * The row `HandScore` scores does not depend on the order the table lists its
   * rows in, as long as every row has a "HandType" and the rows naming the
   * category are all the same row.
   */
  lemma FirstMatchOrderFree(rows: seq<Row>, other: seq<Row>, name: string)
    requires multiset(rows) == multiset(other)
    requires forall k :: 0 <= k < |rows| ==> "HandType" in rows[k]
    requires forall k, l ::
      0 <= k < |rows| && 0 <= l < |rows| && rows[k]["HandType"] == name && rows[l]["HandType"] == name ==>
        rows[k] == rows[l]
    ensures FirstMatch(rows, name).Ok? && FirstMatch(other, name).Ok?
    ensures FirstMatch(rows, name).value.Some? <==> FirstMatch(other, name).value.Some?
    ensures FirstMatch(rows, name).value.Some? ==>
      rows[FirstMatch(rows, name).value.value] == other[FirstMatch(other, name).value.value]
  {
    forall j | 0 <= j < |other| ensures "HandType" in other[j] {
      assert other[j] in multiset(rows);
    }
    var r, o := FirstMatch(rows, name), FirstMatch(other, name);
    if r.Ok? && r.value.Some? {
      var i := r.value.value;
      assert rows[i] in multiset(other);
      var j :| 0 <= j < |other| && other[j] == rows[i];
      assert !(forall k :: 0 <= k < |other| ==> "HandType" in other[k] && other[k]["HandType"] != name);
      var m := o.value.value;
      assert other[m] in multiset(rows);
      var k :| 0 <= k < |rows| && rows[k] == other[m];
    }
    if o.Ok? && o.value.Some? {
      var j := o.value.value;
      assert other[j] in multiset(rows);
      var i :| 0 <= i < |rows| && rows[i] == other[j];
      assert !(forall k :: 0 <= k < |rows| ==> "HandType" in rows[k] && rows[k]["HandType"] != name);
    }
  }

  lemma FirstMatchNone(rows: seq<Row>, name: string)
    requires forall k :: 0 <= k < |rows| ==> "HandType" in rows[k] && rows[k]["HandType"] != name
    ensures FirstMatch(rows, name) == Ok(None)
  {
  }
}
