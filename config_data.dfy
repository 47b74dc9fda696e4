/**
 * ConfigData: a CSV table held in memory. The first non-empty line names the
 * columns, the second is a description and is skipped, and every later line is
 * one row, keyed by the integer in its "Id" column.
 *
 * The exceptions `Load` can raise part-way (an index out of range, a duplicate
 * dictionary key, a missing key, a bad integer) are modelled as a returned
 * `LoadError`; rows stored before the failing line stay stored, as in the source.
 */
module Config {
  import opened Wrappers
  import Text
  import Enumeration

  type Row = map<string, string>

  datatype LoadError =
    | NoLines                         // no non-empty line: reading line 0 is out of range
    | ColumnIndexOutOfRange           // a line has more fields than the header has names
    | DuplicateColumn                 // the header repeats a column name used by a line
    | MissingId                       // a row has no "Id" column
    | BadId(reason: Text.ParseError)  // the "Id" field is not a 32-bit integer
    | DuplicateId                     // a row's id is already stored

  /** The non-empty lines of a file. */
  function Lines(txt: string): (lines: seq<string>)
    ensures forall i :: 0 <= i < |lines| ==> lines[i] != []
  {
    Text.SplitRemoveEmpty(txt, '\n')
  }

  /** The comma-separated fields of one line, surrounding white space trimmed. */
  function Fields(line: string): (fields: seq<string>)
    ensures |fields| >= 1
  {
    Text.Split(Text.Trim(line), ',')
  }

  /** The row the inner loop has built after its first j fields, or the error it stopped on. */
  function RowPrefix(header: seq<string>, fields: seq<string>, j: nat): Result<Row, LoadError>
    requires j <= |fields|
  {
    if j == 0 then Ok(map[])
    else match RowPrefix(header, fields, j - 1)
      case Err(e) => Err(e)
      case Ok(row) =>
        if j - 1 >= |header| then Err(ColumnIndexOutOfRange)
        else if header[j - 1] in row then Err(DuplicateColumn)
        else Ok(row[header[j - 1] := fields[j - 1]])
  }

  /** The row a line's fields make: column name j maps to field j. */
  function RowOf(header: seq<string>, fields: seq<string>): Result<Row, LoadError>
  {
    RowPrefix(header, fields, |fields|)
  }

  /** A line's row together with its parsed id. */
  function LineRow(header: seq<string>, line: string): Result<(int, Row), LoadError>
  {
    match RowOf(header, Fields(line))
    case Err(e) => Err(e)
    case Ok(row) =>
      if "Id" !in row then Err(MissingId)
      else match Text.ParseInt32(row["Id"])
        case Err(e) => Err(BadId(e))
        case Ok(id) => Ok((id, row))
  }

  /** Each line's row with its id, or the error that line raises. */
  function LineRows(header: seq<string>, lines: seq<string>): seq<Result<(int, Row), LoadError>>
  {
    seq(|lines|, k requires 0 <= k < |lines| => LineRow(header, lines[k]))
  }

  datatype LoadOutcome = LoadOutcome(datas: map<int, Row>, error: Option<LoadError>)

  /** The rows of lines i, i+1, ... added to `datas`, up to the first line that fails. */
  function LoadFrom(datas: map<int, Row>, rows: seq<Result<(int, Row), LoadError>>, i: nat): LoadOutcome
    decreases |rows| - i
  {
    if i >= |rows| then LoadOutcome(datas, None)
    else match rows[i]
      case Err(e) => LoadOutcome(datas, Some(e))
      case Ok((id, row)) =>
        if id in datas then LoadOutcome(datas, Some(DuplicateId))
        else LoadFrom(datas[id := row], rows, i + 1)
  }

  /** What `Load(txt)` leaves in the table and whether it failed. */
  function LoadSpec(datas: map<int, Row>, txt: string): LoadOutcome
  {
    var lines := Lines(txt);
    if |lines| == 0 then LoadOutcome(datas, Some(NoLines))
    else LoadFrom(datas, LineRows(Fields(lines[0]), lines), 2)
  }

  // ---------------------------------------------------------------------------
  // Properties of the specification
  // ---------------------------------------------------------------------------

  /** A failed prefix stays failed with the same error. */
  lemma {:induction false} RowPrefixErrSticks(header: seq<string>, fields: seq<string>, j: nat, k: nat)
    requires j <= k <= |fields| && RowPrefix(header, fields, j).Err?
    ensures RowPrefix(header, fields, k) == RowPrefix(header, fields, j)
    decreases k - j
  {
    if j < k {
      RowPrefixErrSticks(header, fields, j, k - 1);
    }
  }

  /**
   * The first j fields make a row exactly when the header has at least j names,
   * none repeated among its first j; the row then maps name m to field m, m < j.
   */
  lemma {:induction false} RowPrefixSpec(header: seq<string>, fields: seq<string>, j: nat)
    requires j <= |fields|
    ensures RowPrefix(header, fields, j).Ok? <==> j <= |header| && Enumeration.Distinct(header[..j])
    ensures RowPrefix(header, fields, j).Ok? ==>
      var row := RowPrefix(header, fields, j).value;
      row.Keys == (set m | 0 <= m < j :: header[m])
      && forall m :: 0 <= m < j ==> row[header[m]] == fields[m]
  {
    if j > 0 {
      RowPrefixSpec(header, fields, j - 1);
      if j <= |header| {
        assert header[..j] == header[..j - 1] + [header[j - 1]];
        DistinctSnoc(header[..j - 1], header[j - 1]);
        if RowPrefix(header, fields, j - 1).Ok? {
          var row := RowPrefix(header, fields, j - 1).value;
          assert header[j - 1] in row <==> header[j - 1] in header[..j - 1] by {
            assert header[j - 1] in row <==> exists m :: 0 <= m < j - 1 && header[m] == header[j - 1];
          }
        }
      } else if j - 1 < |header| {
        // unreachable: j > |header| >= j
        assert false;
      } else {
        if RowPrefix(header, fields, j - 1).Ok? {
          assert RowPrefix(header, fields, j) == Err(ColumnIndexOutOfRange);
        }
      }
    }
  }

  /** A sequence with one more element is distinct exactly when the shorter one is and does not hold it. */
  lemma DistinctSnoc<T>(s: seq<T>, x: T)
    ensures Enumeration.Distinct(s + [x]) <==> Enumeration.Distinct(s) && x !in s
  {
    var t := s + [x];
    if Enumeration.Distinct(t) {
      forall i, j | 0 <= i < j < |s| ensures s[i] != s[j] {
        assert s[i] == t[i] && s[j] == t[j];
      }
      forall i | 0 <= i < |s| ensures s[i] != x {
        assert s[i] == t[i] && x == t[|s|];
      }
    }
  }

  /** A line makes a row exactly when it has no more fields than the header names, and those names are distinct. */
  lemma RowOfSpec(header: seq<string>, fields: seq<string>)
    ensures RowOf(header, fields).Ok? <==> |fields| <= |header| && Enumeration.Distinct(header[..|fields|])
    ensures RowOf(header, fields).Ok? ==>
      RowOf(header, fields).value.Keys == (set m | 0 <= m < |fields| :: header[m])
      && forall m :: 0 <= m < |fields| ==> RowOf(header, fields).value[header[m]] == fields[m]
    ensures RowOf(header, fields).Err? ==> RowOf(header, fields).error in {ColumnIndexOutOfRange, DuplicateColumn}
  {
    RowPrefixSpec(header, fields, |fields|);
    RowPrefixErrors(header, fields, |fields|);
  }

  lemma {:induction false} RowPrefixErrors(header: seq<string>, fields: seq<string>, j: nat)
    requires j <= |fields|
    ensures RowPrefix(header, fields, j).Err? ==> RowPrefix(header, fields, j).error in {ColumnIndexOutOfRange, DuplicateColumn}
  {
    if j > 0 {
      RowPrefixErrors(header, fields, j - 1);
    }
  }

  /**
   * A load that succeeds from line i stores one new row per remaining line under
   * that line's id, none of which was stored before, and keeps every earlier row.
   */
  lemma {:induction false} LoadFromSuccess(datas: map<int, Row>, rows: seq<Result<(int, Row), LoadError>>, i: nat)
    requires LoadFrom(datas, rows, i).error == None
    ensures var result := LoadFrom(datas, rows, i).datas;
      |result| == |datas| + (if i < |rows| then |rows| - i else 0)
      && (forall id | id in datas :: id in result && result[id] == datas[id])
      && forall k | i <= k < |rows| ::
           rows[k].Ok? && rows[k].value.0 !in datas && rows[k].value.0 in result && result[rows[k].value.0] == rows[k].value.1
    decreases |rows| - i
  {
    if i < |rows| {
      var id, row := rows[i].value.0, rows[i].value.1;
      var next := datas[id := row];
      LoadFromSuccess(next, rows, i + 1);
      assert LoadFrom(datas, rows, i) == LoadFrom(next, rows, i + 1);
      forall k | i < k < |rows| ensures rows[k].value.0 !in datas {
        assert rows[k].value.0 !in next;
      }
    }
  }

  /** The ids of the rows from line i on. */
  function IdsFrom(rows: seq<Result<(int, Row), LoadError>>, i: nat): set<int>
  {
    set k | i <= k < |rows| && rows[k].Ok? :: rows[k].value.0
  }

  /** A successful load meets no id twice. */
  lemma {:induction false} LoadFromDistinctIds(datas: map<int, Row>, rows: seq<Result<(int, Row), LoadError>>, i: nat)
    requires LoadFrom(datas, rows, i).error == None
    ensures forall k, l | i <= k < l < |rows| && rows[k].Ok? && rows[l].Ok? :: rows[k].value.0 != rows[l].value.0
    decreases |rows| - i
  {
    if i < |rows| {
      var id, row := rows[i].value.0, rows[i].value.1;
      var next := datas[id := row];
      assert LoadFrom(datas, rows, i) == LoadFrom(next, rows, i + 1);
      LoadFromDistinctIds(next, rows, i + 1);
      LoadFromSuccess(next, rows, i + 1);
    }
  }

  /** After a successful load the table holds exactly the old ids and those of the lines read. */
  lemma {:induction false} LoadFromKeySet(datas: map<int, Row>, rows: seq<Result<(int, Row), LoadError>>, i: nat)
    requires LoadFrom(datas, rows, i).error == None
    ensures LoadFrom(datas, rows, i).datas.Keys == datas.Keys + IdsFrom(rows, i)
    decreases |rows| - i
  {
    if i < |rows| {
      var id, row := rows[i].value.0, rows[i].value.1;
      var next := datas[id := row];
      assert LoadFrom(datas, rows, i) == LoadFrom(next, rows, i + 1);
      LoadFromKeySet(next, rows, i + 1);
      assert IdsFrom(rows, i) == {id} + IdsFrom(rows, i + 1);
    } else {
      assert IdsFrom(rows, i) == {};
    }
  }

  /** Whatever happens, a load keeps the rows stored before it. */
  lemma {:induction false} LoadFromKeeps(datas: map<int, Row>, rows: seq<Result<(int, Row), LoadError>>, i: nat)
    ensures var result := LoadFrom(datas, rows, i).datas;
      forall id | id in datas :: id in result && result[id] == datas[id]
    decreases |rows| - i
  {
    if i < |rows| && rows[i].Ok? && rows[i].value.0 !in datas {
      var next := datas[rows[i].value.0 := rows[i].value.1];
      LoadFromKeeps(next, rows, i + 1);
      assert LoadFrom(datas, rows, i) == LoadFrom(next, rows, i + 1);
    }
  }

  /** `Load` fails with NoLines exactly when the file has no non-empty line. */
  lemma LoadSpecNoLines(datas: map<int, Row>, txt: string)
    ensures LoadSpec(datas, txt).error == Some(NoLines) <==> |Lines(txt)| == 0
  {
    var lines := Lines(txt);
    if |lines| > 0 {
      var header := Fields(lines[0]);
      var rows := LineRows(header, lines);
      forall k | 2 <= k < |rows| ensures rows[k] != Err(NoLines) {
        LineRowNotNoLines(header, lines[k]);
      }
      LoadFromNeverNoLines(datas, rows, 2);
    }
  }

  /** Whether it succeeds or not, `Load` keeps the rows stored before it. */
  lemma LoadSpecKeeps(datas: map<int, Row>, txt: string)
    ensures forall id | id in datas :: id in LoadSpec(datas, txt).datas && LoadSpec(datas, txt).datas[id] == datas[id]
  {
    var lines := Lines(txt);
    if |lines| > 0 {
      LoadFromKeeps(datas, LineRows(Fields(lines[0]), lines), 2);
    }
  }

  /**
   * A successful `Load` stores one row per non-empty line after the first two,
   * each under that line's id, none of which was stored before.
   */
  lemma LoadSpecSuccess(datas: map<int, Row>, txt: string)
    requires LoadSpec(datas, txt).error == None
    ensures var lines := Lines(txt);
      |LoadSpec(datas, txt).datas| == |datas| + (if |lines| > 2 then |lines| - 2 else 0)
      && forall k | 2 <= k < |lines| ::
           var line := LineRow(Fields(lines[0]), lines[k]);
           line.Ok? && line.value.0 !in datas && line.value.0 in LoadSpec(datas, txt).datas
           && LoadSpec(datas, txt).datas[line.value.0] == line.value.1
  {
    var lines := Lines(txt);
    var header := Fields(lines[0]);
    var rows := LineRows(header, lines);
    var result := LoadFrom(datas, rows, 2).datas;
    assert LoadSpec(datas, txt).datas == result;
    LoadFromSuccess(datas, rows, 2);
    forall k | 2 <= k < |lines|
      ensures var line := LineRow(header, lines[k]);
        line.Ok? && line.value.0 !in datas && line.value.0 in result && result[line.value.0] == line.value.1
    {
      assert rows[k] == LineRow(header, lines[k]);
    }
  }

  /**
   * After a successful `Load` the table holds exactly the ids stored before and
   * those of the data lines, no two data lines sharing an id.
   */
  lemma LoadSpecKeySet(datas: map<int, Row>, txt: string)
    requires LoadSpec(datas, txt).error == None
    ensures var lines := Lines(txt);
      LoadSpec(datas, txt).datas.Keys == datas.Keys + IdsFrom(LineRows(Fields(lines[0]), lines), 2)
    ensures var lines := Lines(txt);
      forall k, l | 2 <= k < l < |lines| && LineRow(Fields(lines[0]), lines[k]).Ok? && LineRow(Fields(lines[0]), lines[l]).Ok? ::
        LineRow(Fields(lines[0]), lines[k]).value.0 != LineRow(Fields(lines[0]), lines[l]).value.0
  {
    var lines := Lines(txt);
    var header := Fields(lines[0]);
    var rows := LineRows(header, lines);
    assert LoadSpec(datas, txt) == LoadFrom(datas, rows, 2);
    LoadFromKeySet(datas, rows, 2);
    LoadFromDistinctIds(datas, rows, 2);
    forall k, l | 2 <= k < l < |lines| && LineRow(header, lines[k]).Ok? && LineRow(header, lines[l]).Ok?
      ensures LineRow(header, lines[k]).value.0 != LineRow(header, lines[l]).value.0
    {
      assert rows[k] == LineRow(header, lines[k]) && rows[l] == LineRow(header, lines[l]);
    }
  }

  /** Two data lines that read the same make `Load` fail: the second repeats the first one's id. */
  lemma LoadSpecRepeatedLineFails(datas: map<int, Row>, txt: string, k: nat, l: nat)
    requires 2 <= k < l < |Lines(txt)| && Lines(txt)[k] == Lines(txt)[l]
    ensures LoadSpec(datas, txt).error.Some?
  {
    if LoadSpec(datas, txt).error == None {
      LoadSpecSuccess(datas, txt);
      LoadSpecKeySet(datas, txt);
      assert false;
    }
  }

  /** No line raises NoLines: that error only comes from a file without lines. */
  lemma LineRowNotNoLines(header: seq<string>, line: string)
    ensures LineRow(header, line) != Err(NoLines)
  {
    RowOfSpec(header, Fields(line));
  }

  /** A load over lines none of which raises NoLines does not end with it. */
  lemma {:induction false} LoadFromNeverNoLines(datas: map<int, Row>, rows: seq<Result<(int, Row), LoadError>>, i: nat)
    requires forall k | i <= k < |rows| :: rows[k] != Err(NoLines)
    ensures LoadFrom(datas, rows, i).error != Some(NoLines)
    decreases |rows| - i
  {
    if i < |rows| && rows[i].Ok? && rows[i].value.0 !in datas {
      LoadFromNeverNoLines(datas[rows[i].value.0 := rows[i].value.1], rows, i + 1);
    }
  }

  /** One step of LoadFrom on a line that does not make a row with an id. */
  lemma LoadFromLineFails(datas: map<int, Row>, rows: seq<Result<(int, Row), LoadError>>, i: nat, e: LoadError)
    requires i < |rows| && rows[i] == Err(e)
    ensures LoadFrom(datas, rows, i) == LoadOutcome(datas, Some(e))
  {
  }

  /** One step of LoadFrom on a line that makes a row with an id. */
  lemma LoadFromLineRow(datas: map<int, Row>, rows: seq<Result<(int, Row), LoadError>>, i: nat, id: int, row: Row)
    requires i < |rows| && rows[i] == Ok((id, row))
    ensures LoadFrom(datas, rows, i) ==
      if id in datas then LoadOutcome(datas, Some(DuplicateId)) else LoadFrom(datas[id := row], rows, i + 1)
  {
  }

  /**
   * The inner loop of `Load`: pairs field j with column name j, stopping at the
   * first field past the header or at a column name already used.
   */
  method PairFields(titleArr: seq<string>, tempArr: seq<string>) returns (result: Result<Row, LoadError>)
    ensures result == RowOf(titleArr, tempArr)
  {
    var tempData: Row := map[];
    var j := 0;
    while j < |tempArr|
      invariant 0 <= j <= |tempArr|
      invariant RowPrefix(titleArr, tempArr, j) == Ok(tempData)
    {
      if j >= |titleArr| {
        RowPrefixErrSticks(titleArr, tempArr, j + 1, |tempArr|);
        return Err(ColumnIndexOutOfRange);
      }
      if titleArr[j] in tempData {
        RowPrefixErrSticks(titleArr, tempArr, j + 1, |tempArr|);
        return Err(DuplicateColumn);
      }
      tempData := tempData[titleArr[j] := tempArr[j]];
      j := j + 1;
    }
    return Ok(tempData);
  }

  // ---------------------------------------------------------------------------
  // The table
  // ---------------------------------------------------------------------------

  class ConfigData {
    /** The rows loaded so far, by id. */
    var datas: map<int, Row>
    const fileName: string

    constructor (fileName: string)
      ensures this.fileName == fileName && datas == map[]
    {
      this.fileName := fileName;
      datas := map[];
    }

    /**
     * `Load(txt)`: the header is the first non-empty line; from the third line
     * on, each line's fields are paired with the column names and the row is
     * stored under its integer id. Stops at the first failing line.
     */
    method Load(txt: string) returns (error: Option<LoadError>)
      modifies this`datas
      ensures LoadOutcome(datas, error) == LoadSpec(old(datas), txt)
    {
      var dataArr := Lines(txt);
      if |dataArr| == 0 {
        return Some(NoLines);
      }
      var titleArr := Fields(dataArr[0]);
      ghost var rows := LineRows(titleArr, dataArr);
      var i := 2;
      while i < |dataArr|
        invariant 2 <= i
        invariant LoadFrom(datas, rows, i) == LoadSpec(old(datas), txt)
        decreases |dataArr| - i
      {
        var tempArr := Fields(dataArr[i]);
        var paired := PairFields(titleArr, tempArr);
        if paired.Err? {
          LoadFromLineFails(datas, rows, i, paired.error);
          return Some(paired.error);
        }
        var tempData := paired.value;
        if "Id" !in tempData {
          LoadFromLineFails(datas, rows, i, MissingId);
          return Some(MissingId);
        }
        var parsed := Text.ParseInt32(tempData["Id"]);
        if parsed.Err? {
          LoadFromLineFails(datas, rows, i, BadId(parsed.error));
          return Some(BadId(parsed.error));
        }
        LoadFromLineRow(datas, rows, i, parsed.value, tempData);
        if parsed.value in datas {
          return Some(DuplicateId);
        }
        datas := datas[parsed.value := tempData];
        i := i + 1;
      }
      return None;
    }

    /** The row stored under `id`, or null. */
    function GetDataById(id: int): (row: Option<Row>)
      reads this
      ensures row.Some? <==> id in datas
      ensures row.Some? ==> row.value == datas[id]
    {
      if id in datas then Some(datas[id]) else None
    }

    /** Every row loaded so far. */
    method GetLines() returns (lines: map<int, Row>)
      ensures lines == datas
    {
      return datas;
    }
  }
}
