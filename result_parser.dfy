/** Decoding of Athena result sets (layers/utils/athena.py): the column header
    (`parse_query_result_metadata`) and one pivoted result row turned into per-park readings
    (`parse_query_result_row`). */
module ResultParser {
  import opened Wrappers
  import opened Text
  import opened CivilTime
  import opened Decimal
  import QueryBuilder

  // ---------------------------------------------------------------------------------------
  // Column header

  /** One `ColumnInfo` entry as boto3 returns it: a dictionary keyed by `Name`, `Type`, ... */
  type ColumnInfo = map<string, string>

  /** The `{'name': ..., 'type': ...}` dictionary the parser builds for each column. */
  datatype Column = Column(name: string, dataType: string)

  predicate HasNameAndType(info: ColumnInfo) {
    "Name" in info && "Type" in info
  }

  /** The list comprehension over `ColumnInfo`: one column per entry, in order; an entry
      without `Name` or `Type` raises KeyError. */
  function ParseColumns(infos: seq<ColumnInfo>): (r: Result<seq<Column>>)
    ensures r.Success? <==> forall i :: 0 <= i < |infos| ==> HasNameAndType(infos[i])
    ensures r.Failure? ==> r.error == KeyError
    ensures r.Success? ==> |r.value| == |infos|
    ensures r.Success? ==> forall i :: 0 <= i < |infos| ==>
      r.value[i].name == infos[i]["Name"] && r.value[i].dataType == infos[i]["Type"]
  {
    if infos == [] then Success([])
    else if !HasNameAndType(infos[0]) then Failure(KeyError)
    else
      var rest :- ParseColumns(infos[1..]);
      Success([Column(infos[0]["Name"], infos[0]["Type"])] + rest)
  }

  /** `parse_query_result_metadata(metadata)`: the header is the `ColumnInfo` list copied entry
      by entry; a missing `ColumnInfo`, `Name` or `Type` key raises KeyError. */
  function ParseQueryResultMetadata(metadata: map<string, seq<ColumnInfo>>): (r: Result<seq<Column>>)
    ensures r.Success? <==>
      "ColumnInfo" in metadata && forall i :: 0 <= i < |metadata["ColumnInfo"]| ==> HasNameAndType(metadata["ColumnInfo"][i])
    ensures r.Failure? ==> r.error == KeyError
    ensures r.Success? ==> |r.value| == |metadata["ColumnInfo"]|
    ensures r.Success? ==> forall i :: 0 <= i < |r.value| ==>
      r.value[i] == Column(metadata["ColumnInfo"][i]["Name"], metadata["ColumnInfo"][i]["Type"])
  {
    if "ColumnInfo" in metadata then ParseColumns(metadata["ColumnInfo"]) else Failure(KeyError)
  }

  /** The two-column header of the module's own example. */
  lemma ParseQueryResultMetadataExample()
    ensures ParseQueryResultMetadata(map["ColumnInfo" := [
              map["Name" := "col1", "Type" := "varchar"], map["Name" := "col2", "Type" := "int"]]])
         == Success([Column("col1", "varchar"), Column("col2", "int")])
  {
    var infos := [map["Name" := "col1", "Type" := "varchar"], map["Name" := "col2", "Type" := "int"]];
    var r := ParseQueryResultMetadata(map["ColumnInfo" := infos]);
    assert HasNameAndType(infos[0]) && HasNameAndType(infos[1]);
    assert r.Success? && |r.value| == 2;
    assert r.value[0] == Column("col1", "varchar");
    assert r.value[1] == Column("col2", "int");
    assert r.value == [Column("col1", "varchar"), Column("col2", "int")];
  }

  // ---------------------------------------------------------------------------------------
  // Cells and their conversions

  /** A cell of a result row: `{'VarCharValue': text}`, or `{}` for an SQL NULL. */
  type Cell = Option<string>

  /** `value['VarCharValue']`. */
  function CellValue(cell: Cell): (r: Result<string>)
    ensures r.Success? <==> cell.Some?
    ensures r.Failure? ==> r.error == KeyError
    ensures r.Success? ==> r.value == cell.value
  {
    match cell
    case Some(text) => Success(text)
    case None => Failure(KeyError)
  }

  /** `datetime.strptime(text, '%Y-%m-%d %H:%M:%S.%f').strftime('%Y-%m-%dT%H:%M:%SZ')`. */
  function ConvertTimestamp(text: string): (r: Result<string>)
    ensures r.Success? <==> Strptime(text).Success?
    ensures r.Failure? ==> r.error == ValueError
    ensures r.Success? ==> |r.value| == 20
  {
    var dt :- Strptime(text);
    Success(IsoFormat(dt))
  }

  /** A converted timestamp keeps the date and the whole seconds of the text, puts 'T' in place
      of the space, drops the fraction and appends 'Z'. */
  lemma ConvertTimestampLayout(text: string)
    requires ConvertTimestamp(text).Success?
    ensures ConvertTimestamp(text).value == text[..10] + "T" + text[11..19] + "Z"
  {
    var dt := Strptime(text).value;
    StrftimeOfStrptime(text);
    IsoFormatOfStrftime(dt);
    var t := Strftime(dt);
    assert t[..10] == text[..10];
    assert t[11..] == text[11..19];
  }

  // ---------------------------------------------------------------------------------------
  // One row

  /** One reading `{'timestamp': ..., 'energy_value': ...}`; `energyValue` is None until an
      energy cell fills it in. */
  datatype Reading = Reading(timestamp: string, energyValue: Option<real>)

  /** Park id to its readings, in the order they were appended. */
  type ParkReadings = map<string, seq<Reading>>

  /** The two local variables of the row loop: `current_park_id` and `formatted_row`. */
  datatype RowState = RowState(currentParkId: string, formattedRow: ParkReadings)

  const InitialRowState := RowState("", map[])

  /** The effect of one cell, selected by the name of its column:
      - exactly `park_id`: the cell's text becomes the current park, with an empty list if new;
      - starting with `timestamp`: a reading with the converted timestamp is appended to the
        current park's list (KeyError if no park is current yet);
      - starting with `energy_value`: the number sets the energy value of the current park's
        last reading (IndexError if that list is empty);
      - anything else: nothing, whatever the cell holds. */
  function Step(st: RowState, columnName: string, cell: Cell): Result<RowState> {
    if columnName == "park_id" then
      var parkId :- CellValue(cell);
      var formatted := if parkId in st.formattedRow then st.formattedRow else st.formattedRow[parkId := []];
      Success(RowState(parkId, formatted))
    else if StartsWith(columnName, "timestamp") then
      var text :- CellValue(cell);
      var timestamp :- ConvertTimestamp(text);
      if st.currentParkId !in st.formattedRow then Failure(KeyError)
      else
        var readings := st.formattedRow[st.currentParkId];
        Success(st.(formattedRow := st.formattedRow[st.currentParkId := readings + [Reading(timestamp, None)]]))
    else if StartsWith(columnName, "energy_value") then
      var text :- CellValue(cell);
      var energyValue :- ParseFloat(text);
      if st.currentParkId !in st.formattedRow then Failure(KeyError)
      else
        var readings := st.formattedRow[st.currentParkId];
        if |readings| == 0 then Failure(IndexError)
        else
          var last := readings[|readings| - 1].(energyValue := Some(energyValue));
          Success(st.(formattedRow := st.formattedRow[st.currentParkId := readings[|readings| - 1 := last]]))
    else
      Success(st)
  }

  /** The state after the first `n` cells; the column of cell `i` is `metadata[i]`, and a cell
      without a column raises IndexError. */
  function ParsePrefix(row: seq<Cell>, metadata: seq<Column>, n: nat): Result<RowState>
    requires n <= |row|
    decreases n, 1
  {
    if n == 0 then Success(InitialRowState) else ParseCell(row, metadata, n)
  }

  /** The turn of cell `n - 1`, on the state the cells before it give. */
  function ParseCell(row: seq<Cell>, metadata: seq<Column>, n: nat): Result<RowState>
    requires 0 < n <= |row|
    decreases n, 0
  {
    var st :- ParsePrefix(row, metadata, n - 1);
    if n - 1 >= |metadata| then Failure(IndexError)
    else Step(st, metadata[n - 1].name, row[n - 1])
  }

  /** One more cell: a failure so far stays, a cell without a column raises IndexError, and
      otherwise the cell takes its turn. */
  lemma PrefixOneMore(row: seq<Cell>, metadata: seq<Column>, n: nat)
    requires n < |row|
    ensures var before := ParsePrefix(row, metadata, n);
      ParsePrefix(row, metadata, n + 1)
      == if before.Failure? then before
         else if n >= |metadata| then Failure(IndexError)
         else Step(before.value, metadata[n].name, row[n])
  {
  }

  /** `parse_query_result_row(row, metadata)` as a function of its inputs. */
  function ParseRow(row: seq<Cell>, metadata: seq<Column>): Result<ParkReadings> {
    var st :- ParsePrefix(row, metadata, |row|);
    Success(st.formattedRow)
  }

  /** `parse_query_result_row`: one pass over the cells, keeping the current park and the
      readings built so far. */
  method ParseQueryResultRow(row: seq<Cell>, metadata: seq<Column>) returns (r: Result<ParkReadings>)
    ensures r == ParseRow(row, metadata)
  {
    var formattedRow: ParkReadings := map[];
    var currentParkId := "";
    var index := 0;
    while index < |row|
      invariant 0 <= index <= |row|
      invariant ParsePrefix(row, metadata, index) == Success(RowState(currentParkId, formattedRow))
    {
      PrefixOneMore(row, metadata, index);
      if index >= |metadata| {
        FailureSticks(row, metadata, index + 1, |row|);
        return Failure(IndexError);
      }
      var next := ReadCell(RowState(currentParkId, formattedRow), metadata[index].name, row[index]);
      if next.Failure? {
        FailureSticks(row, metadata, index + 1, |row|);
        return Failure(next.error);
      }
      currentParkId, formattedRow := next.value.currentParkId, next.value.formattedRow;
      index := index + 1;
    }
    return Success(formattedRow);
  }

  /** The body of the row loop for one cell, on the current park and the readings so far. */
  method ReadCell(st: RowState, columnName: string, value: Cell) returns (r: Result<RowState>)
    ensures r == Step(st, columnName, value)
  {
    var currentParkId, formattedRow := st.currentParkId, st.formattedRow;
    if columnName == "park_id" {
      if value.None? {
        return Failure(KeyError);
      }
      currentParkId := value.value;
      if currentParkId !in formattedRow {
        formattedRow := formattedRow[currentParkId := []];
      }
    } else if StartsWith(columnName, "timestamp") {
      if value.None? {
        return Failure(KeyError);
      }
      var timestamp := ConvertTimestamp(value.value);
      if timestamp.Failure? {
        return Failure(timestamp.error);
      }
      if currentParkId !in formattedRow {
        return Failure(KeyError);
      }
      formattedRow := formattedRow[currentParkId := formattedRow[currentParkId] + [Reading(timestamp.value, None)]];
    } else if StartsWith(columnName, "energy_value") {
      if value.None? {
        return Failure(KeyError);
      }
      var energyValue := ParseFloat(value.value);
      if energyValue.Failure? {
        return Failure(energyValue.error);
      }
      if currentParkId !in formattedRow {
        return Failure(KeyError);
      }
      var readings := formattedRow[currentParkId];
      if |readings| == 0 {
        return Failure(IndexError);
      }
      var last := readings[|readings| - 1].(energyValue := Some(energyValue.value));
      formattedRow := formattedRow[currentParkId := readings[|readings| - 1 := last]];
    }
    r := Success(RowState(currentParkId, formattedRow));
  }

  /** Once a cell raises, the rest of the row is not looked at: the error is the row's result. */
  lemma {:induction false} FailureSticks(row: seq<Cell>, metadata: seq<Column>, n: nat, m: nat)
    requires n <= m <= |row|
    requires ParsePrefix(row, metadata, n).Failure?
    ensures ParsePrefix(row, metadata, m) == ParsePrefix(row, metadata, n)
    ensures ParseRow(row, metadata) == Failure(ParsePrefix(row, metadata, n).error)
    decreases |row| - n
  {
    if n < |row| {
      FailureSticks(row, metadata, n + 1, |row|);
      if n < m {
        FailureSticks(row, metadata, n + 1, m);
      }
    }
  }

  // ---------------------------------------------------------------------------------------
  // Properties of one row

  /** The texts of the non-NULL `park_id` cells among the first `n` cells. */
  function ParkIdCells(row: seq<Cell>, metadata: seq<Column>, n: nat): set<string>
    requires n <= |row|
  {
    set i | 0 <= i < n && i < |metadata| && metadata[i].name == "park_id" && row[i].Some? :: row[i].value
  }

  /** After any prefix that parses, the parks with an entry are exactly the `park_id` cells seen
      so far, and the current park is one of them once there is any. */
  lemma {:induction false} PrefixKeys(row: seq<Cell>, metadata: seq<Column>, n: nat)
    requires n <= |row| && ParsePrefix(row, metadata, n).Success?
    ensures var st := ParsePrefix(row, metadata, n).value;
      && st.formattedRow.Keys == ParkIdCells(row, metadata, n)
      && (st.formattedRow.Keys == {} ==> st.currentParkId == "")
      && (st.formattedRow.Keys != {} ==> st.currentParkId in st.formattedRow)
  {
    if n > 0 {
      PrefixKeys(row, metadata, n - 1);
      var before := ParkIdCells(row, metadata, n - 1);
      var name := metadata[n - 1].name;
      if name == "park_id" {
        assert ParkIdCells(row, metadata, n) == before + {row[n - 1].value};
      } else {
        assert ParkIdCells(row, metadata, n) == before;
      }
    }
  }

  /** The keys of a parsed row are exactly the texts of its `park_id` cells; a repeated id
      shares one entry. */
  lemma ParseRowKeys(row: seq<Cell>, metadata: seq<Column>)
    requires ParseRow(row, metadata).Success?
    ensures |row| <= |metadata|
    ensures ParseRow(row, metadata).value.Keys
         == set i | 0 <= i < |row| && metadata[i].name == "park_id" :: row[i].GetOr("")
  {
    if |row| > 0 {
      CellsBeforeSuccess(row, metadata, |row| - 1);
    }
    PrefixKeys(row, metadata, |row|);
    forall i | 0 <= i < |row|
      ensures i < |metadata| && (metadata[i].name == "park_id" ==> row[i].Some?)
    {
      CellsBeforeSuccess(row, metadata, i);
    }
  }

  /** In a row that parses, every cell has a column and every `park_id` cell holds text. */
  lemma CellsBeforeSuccess(row: seq<Cell>, metadata: seq<Column>, i: nat)
    requires i < |row| && ParseRow(row, metadata).Success?
    ensures i < |metadata| && (metadata[i].name == "park_id" ==> row[i].Some?)
  {
    PrefixOneMore(row, metadata, i);
    if ParsePrefix(row, metadata, i).Failure? {
      FailureSticks(row, metadata, i, |row|);
    } else if ParsePrefix(row, metadata, i + 1).Failure? {
      FailureSticks(row, metadata, i + 1, |row|);
    }
  }

  /** A reading cell (timestamp or energy value) met before any `park_id` cell makes the row
      fail; when the cells before it parse and its own text is well formed, with KeyError. */
  lemma ReadingBeforeParkIdFails(row: seq<Cell>, metadata: seq<Column>, j: nat)
    requires j < |row| && j < |metadata|
    requires forall i :: 0 <= i < j && i < |metadata| ==> metadata[i].name != "park_id"
    requires metadata[j].name != "park_id"
    requires StartsWith(metadata[j].name, "timestamp") || StartsWith(metadata[j].name, "energy_value")
    ensures ParseRow(row, metadata).Failure?
    ensures ParsePrefix(row, metadata, j).Success? && row[j].Some?
         && (StartsWith(metadata[j].name, "timestamp") ==> Strptime(row[j].value).Success?)
         && (!StartsWith(metadata[j].name, "timestamp") ==> Numeral(row[j].value))
        ==> ParseRow(row, metadata) == Failure(KeyError)
  {
    PrefixOneMore(row, metadata, j);
    if ParsePrefix(row, metadata, j).Success? {
      PrefixKeys(row, metadata, j);
      assert ParkIdCells(row, metadata, j) == {};
    }
    FailureSticks(row, metadata, j + 1, |row|);
  }

  /** An energy value right after the `park_id` cell of a park not seen before has no reading to
      fill: the row fails, with IndexError when the cells before parse and the number is well
      formed. */
  lemma EnergyBeforeTimestampFails(row: seq<Cell>, metadata: seq<Column>, j: nat)
    requires 0 < j < |row| && j < |metadata|
    requires metadata[j - 1].name == "park_id" && row[j - 1].Some?
    requires row[j - 1].value !in ParkIdCells(row, metadata, j - 1)
    requires metadata[j].name != "park_id" && !StartsWith(metadata[j].name, "timestamp")
    requires StartsWith(metadata[j].name, "energy_value")
    ensures ParseRow(row, metadata).Failure?
    ensures ParsePrefix(row, metadata, j - 1).Success? && row[j].Some? && Numeral(row[j].value)
        ==> ParseRow(row, metadata) == Failure(IndexError)
  {
    PrefixOneMore(row, metadata, j - 1);
    PrefixOneMore(row, metadata, j);
    if ParsePrefix(row, metadata, j - 1).Success? {
      PrefixKeys(row, metadata, j - 1);
      var st := ParsePrefix(row, metadata, j).value;
      assert st.formattedRow[st.currentParkId] == [];
    } else {
      FailureSticks(row, metadata, j - 1, j);
    }
    FailureSticks(row, metadata, j + 1, |row|);
  }

  /** A column that is not `park_id` and starts with neither `timestamp` nor `energy_value` is
      ignored: whatever its cell holds, NULL included, the row parses to the same result. */
  lemma IgnoredColumn(row: seq<Cell>, metadata: seq<Column>, j: nat, cell: Cell)
    requires j < |row| && j < |metadata|
    requires var name := metadata[j].name;
      name != "park_id" && !StartsWith(name, "timestamp") && !StartsWith(name, "energy_value")
    ensures ParseRow(row[j := cell], metadata) == ParseRow(row, metadata)
  {
    IgnoredColumnPrefix(row, metadata, j, cell, |row|);
  }

  lemma {:induction false} IgnoredColumnPrefix(row: seq<Cell>, metadata: seq<Column>, j: nat, cell: Cell, n: nat)
    requires j < |row| && j < |metadata| && n <= |row|
    requires var name := metadata[j].name;
      name != "park_id" && !StartsWith(name, "timestamp") && !StartsWith(name, "energy_value")
    ensures ParsePrefix(row[j := cell], metadata, n) == ParsePrefix(row, metadata, n)
  {
    if n > 0 {
      var m := n - 1;
      IgnoredColumnPrefix(row, metadata, j, cell, m);
      PrefixOneMore(row[j := cell], metadata, m);
      PrefixOneMore(row, metadata, m);
      if m != j {
        assert row[j := cell][m] == row[m];
      } else if ParsePrefix(row, metadata, m).Success? {
        IgnoredStep(ParsePrefix(row, metadata, m).value, metadata[j].name, cell, row[j]);
      }
    }
  }

  lemma IgnoredStep(st: RowState, columnName: string, cell: Cell, other: Cell)
    requires columnName != "park_id" && !StartsWith(columnName, "timestamp")
    requires !StartsWith(columnName, "energy_value")
    ensures Step(st, columnName, cell) == Step(st, columnName, other) == Success(st)
  {
  }

  /** A timestamp cell appends exactly one reading, without energy value, to the current park's
      list and changes nothing else. */
  lemma StepTimestamp(st: RowState, columnName: string, cell: Cell)
    requires columnName != "park_id" && StartsWith(columnName, "timestamp")
    requires Step(st, columnName, cell).Success?
    ensures var after := Step(st, columnName, cell).value;
      && after.currentParkId == st.currentParkId
      && st.currentParkId in st.formattedRow
      && after.formattedRow.Keys == st.formattedRow.Keys
      && after.formattedRow[st.currentParkId]
         == st.formattedRow[st.currentParkId] + [Reading(ConvertTimestamp(cell.value).value, None)]
      && forall p :: p in st.formattedRow && p != st.currentParkId ==> after.formattedRow[p] == st.formattedRow[p]
  {
  }

  /** An energy cell sets the energy value of the current park's last reading and changes
      nothing else. */
  lemma StepEnergy(st: RowState, columnName: string, cell: Cell)
    requires columnName != "park_id" && !StartsWith(columnName, "timestamp")
    requires StartsWith(columnName, "energy_value")
    requires Step(st, columnName, cell).Success?
    ensures var after := Step(st, columnName, cell).value;
      && after.currentParkId == st.currentParkId
      && st.currentParkId in st.formattedRow
      && after.formattedRow.Keys == st.formattedRow.Keys
      && var before, now := st.formattedRow[st.currentParkId], after.formattedRow[st.currentParkId];
      && |before| > 0 && |now| == |before|
      && now[..|now| - 1] == before[..|before| - 1]
      && now[|now| - 1] == Reading(before[|before| - 1].timestamp, Some(ParseFloat(cell.value).value))
      && forall p :: p in st.formattedRow && p != st.currentParkId ==> after.formattedRow[p] == st.formattedRow[p]
  {
  }

  // ---------------------------------------------------------------------------------------
  // Rows of the pivoted query

  /** The three cells a row of the pivoted query holds for one park: its id, a timestamp and an
      energy value. */
  datatype Sample = Sample(parkId: string, timestamp: string, energyValue: string)

  function SampleCells(s: Sample): seq<Cell> {
    [Some(s.parkId), Some(s.timestamp), Some(s.energyValue)]
  }

  function SampleGroups(samples: seq<Sample>): (r: seq<seq<Cell>>)
    ensures |r| == |samples| && forall i :: 0 <= i < |samples| ==> r[i] == SampleCells(samples[i])
  {
    seq(|samples|, i requires 0 <= i < |samples| => SampleCells(samples[i]))
  }

  /** A result row: the cells of every park, one park after the other. */
  function PivotedRow(samples: seq<Sample>): seq<Cell> {
    Concat(SampleGroups(samples))
  }

  /** A header repeating `park_id`, a `timestamp...` column and an `energy_value...` column
      `n` times, as the SELECT list of the built query lays them out. */
  predicate PivotedLayout(metadata: seq<Column>, n: nat) {
    && |metadata| == 3 * n
    && forall i :: 0 <= i < n ==>
         && metadata[3 * i].name == "park_id"
         && StartsWith(metadata[3 * i + 1].name, "timestamp")
         && StartsWith(metadata[3 * i + 2].name, "energy_value")
  }

  /** Both texts of a sample are well formed: the timestamp parses and the energy is a number. */
  predicate SampleValid(s: Sample) {
    Strptime(s.timestamp).Success? && Numeral(s.energyValue)
  }

  /** The complete reading a well-formed sample stands for. */
  function ReadingOf(s: Sample): Reading {
    var timestamp := match ConvertTimestamp(s.timestamp) case Success(t) => t case Failure(_) => "";
    var energyValue := match ParseFloat(s.energyValue) case Success(e) => e case Failure(_) => 0.0;
    Reading(timestamp, Some(energyValue))
  }

  /** The readings of the samples that belong to park `id`, in order. */
  function ReadingsFor(samples: seq<Sample>, id: string): seq<Reading> {
    if samples == [] then []
    else
      var last := samples[|samples| - 1];
      ReadingsFor(samples[..|samples| - 1], id) + (if last.parkId == id then [ReadingOf(last)] else [])
  }

  function SampleIds(samples: seq<Sample>): set<string> {
    set i | 0 <= i < |samples| :: samples[i].parkId
  }

  /** What a pivoted row means: each park of the row with the readings of its samples. */
  function Pivot(samples: seq<Sample>): ParkReadings {
    map id | id in SampleIds(samples) :: ReadingsFor(samples, id)
  }

  /** A row of well-formed samples under a pivoted header parses to its pivot: one entry per
      park, holding one complete reading per sample of that park, in row order. */
  lemma ParsePivotedRow(samples: seq<Sample>, metadata: seq<Column>)
    requires PivotedLayout(metadata, |samples|)
    requires forall i :: 0 <= i < |samples| ==> SampleValid(samples[i])
    ensures ParseRow(PivotedRow(samples), metadata) == Success(Pivot(samples))
  {
    var row := PivotedRow(samples);
    ConcatLength(SampleGroups(samples), 3);
    AllValidUpTo(samples, |samples|);
    PivotedPrefix(samples, metadata, |samples|);
    assert samples[..|samples|] == samples;
  }

  /** The first `k` samples are well formed (stated step by step, for the induction below). */
  predicate ValidUpTo(samples: seq<Sample>, k: nat)
    requires k <= |samples|
  {
    k == 0 || (ValidUpTo(samples, k - 1) && SampleValid(samples[k - 1]))
  }

  lemma {:induction false} AllValidUpTo(samples: seq<Sample>, k: nat)
    requires k <= |samples| && forall i :: 0 <= i < |samples| ==> SampleValid(samples[i])
    ensures ValidUpTo(samples, k)
  {
    if k > 0 {
      AllValidUpTo(samples, k - 1);
    }
  }

  lemma {:induction false} PivotedPrefix(samples: seq<Sample>, metadata: seq<Column>, k: nat)
    requires PivotedLayout(metadata, |samples|)
    requires |PivotedRow(samples)| == 3 * |samples| && k <= |samples| && ValidUpTo(samples, k)
    ensures ParsePrefix(PivotedRow(samples), metadata, 3 * k)
         == Success(RowState(if k == 0 then "" else samples[k - 1].parkId, Pivot(samples[..k])))
  {
    if k == 0 {
      assert Pivot(samples[..0]) == map[];
    } else {
      PivotedPrefix(samples, metadata, k - 1);
      PivotedSample(samples, metadata, k - 1, k);
    }
  }

  /** The cells of sample `i` extend the pivot of the samples before it to the first `next`. */
  lemma PivotedSample(samples: seq<Sample>, metadata: seq<Column>, i: nat, next: nat)
    requires PivotedLayout(metadata, |samples|) && next == i + 1 && next <= |samples|
    requires ValidUpTo(samples, next)
    requires |PivotedRow(samples)| == 3 * |samples|
    requires ParsePrefix(PivotedRow(samples), metadata, 3 * i)
          == Success(RowState(if i == 0 then "" else samples[i - 1].parkId, Pivot(samples[..i])))
    ensures ParsePrefix(PivotedRow(samples), metadata, 3 * next)
         == Success(RowState(samples[i].parkId, Pivot(samples[..next])))
  {
    var row := PivotedRow(samples);
    var s := samples[i];
    assert SampleValid(s);
    PivotedCells(samples, i);
    ColumnKinds(metadata, |samples|, i);
    var st0 := RowState(if i == 0 then "" else samples[i - 1].parkId, Pivot(samples[..i]));
    SampleCellsStep(row, metadata, 3 * i, 3 * next, st0, s);
    PivotPrefixExtend(samples, i, next);
  }

  /** The pivot of the first `next` samples adds sample `next - 1` to the pivot of those before. */
  lemma PivotPrefixExtend(samples: seq<Sample>, i: nat, next: nat)
    requires next == i + 1 && next <= |samples|
    ensures Pivot(samples[..next]) == AddReading(Pivot(samples[..i]), samples[i])
  {
    var prefix := samples[..next];
    assert |prefix| - 1 == i;
    assert prefix[..i] == samples[..i];
    PivotExtend(prefix);
    assert prefix[i] == samples[i];
  }

  lemma PivotedCells(samples: seq<Sample>, i: nat)
    requires i < |samples|
    ensures |PivotedRow(samples)| == 3 * |samples|
    ensures PivotedRow(samples)[3 * i] == Some(samples[i].parkId)
    ensures PivotedRow(samples)[3 * i + 1] == Some(samples[i].timestamp)
    ensures PivotedRow(samples)[3 * i + 2] == Some(samples[i].energyValue)
  {
    var groups := SampleGroups(samples);
    ConcatLength(groups, 3);
    ConcatAt(groups, 3, i, 0);
    ConcatAt(groups, 3, i, 1);
    ConcatAt(groups, 3, i, 2);
    assert groups[i][0] == Some(samples[i].parkId);
    assert groups[i][1] == Some(samples[i].timestamp);
    assert groups[i][2] == Some(samples[i].energyValue);
    assert PivotedRow(samples)[3 * i + 0] == groups[i][0];
  }

  /** A `park_id` cell after a prefix that parses. */
  lemma PrefixParkId(row: seq<Cell>, metadata: seq<Column>, n: nat, st: RowState, id: string)
    requires n < |row| && n < |metadata| && ParsePrefix(row, metadata, n) == Success(st)
    requires metadata[n].name == "park_id" && row[n] == Some(id)
    ensures var f := st.formattedRow;
      ParsePrefix(row, metadata, n + 1) == Success(RowState(id, if id in f then f else f[id := []]))
  {
    ParkStep(st, id);
  }

  /** A well-formed timestamp cell after a prefix that parses, with a current park. */
  lemma PrefixTimestamp(row: seq<Cell>, metadata: seq<Column>, n: nat, st: RowState, text: string)
    requires n < |row| && n < |metadata| && ParsePrefix(row, metadata, n) == Success(st)
    requires metadata[n].name != "park_id" && StartsWith(metadata[n].name, "timestamp")
    requires row[n] == Some(text) && Strptime(text).Success? && st.currentParkId in st.formattedRow
    ensures var f, p := st.formattedRow, st.currentParkId;
      ParsePrefix(row, metadata, n + 1)
      == Success(RowState(p, f[p := f[p] + [Reading(ConvertTimestamp(text).value, None)]]))
  {
    TimestampStep(st, metadata[n].name, text);
  }

  /** The energy cell of a well-formed sample completes the reading its timestamp started. */
  lemma PrefixEnergy(row: seq<Cell>, metadata: seq<Column>, n: nat, f1: ParkReadings, s: Sample)
    requires SampleValid(s) && s.parkId in f1
    requires var f2 := f1[s.parkId := f1[s.parkId] + [Reading(ConvertTimestamp(s.timestamp).value, None)]];
      n < |row| && n < |metadata| && ParsePrefix(row, metadata, n) == Success(RowState(s.parkId, f2))
    requires var e := metadata[n].name;
      e != "park_id" && !StartsWith(e, "timestamp") && StartsWith(e, "energy_value")
    requires row[n] == Some(s.energyValue)
    ensures ParsePrefix(row, metadata, n + 1)
         == Success(RowState(s.parkId, f1[s.parkId := f1[s.parkId] + [ReadingOf(s)]]))
  {
    var p := s.parkId;
    var r := Reading(ConvertTimestamp(s.timestamp).value, None);
    var f2 := f1[p := f1[p] + [r]];
    PrefixOneMore(row, metadata, n);
    EnergyStep(RowState(p, f2), metadata[n].name, s.energyValue);
    var complete := r.(energyValue := Some(ParseFloat(s.energyValue).value));
    assert complete == ReadingOf(s);
    FillLast(f1[p], r, complete);
    assert f2[p := f1[p] + [complete]] == f1[p := f1[p] + [complete]];
  }

  lemma FillLast(readings: seq<Reading>, r: Reading, complete: Reading)
    ensures (readings + [r])[|readings| := complete] == readings + [complete]
  {
  }

  lemma ParkStep(st: RowState, id: string)
    ensures var f := st.formattedRow;
      Step(st, "park_id", Some(id)) == Success(RowState(id, if id in f then f else f[id := []]))
  {
  }

  lemma TimestampStep(st: RowState, column: string, text: string)
    requires column != "park_id" && StartsWith(column, "timestamp")
    requires Strptime(text).Success? && st.currentParkId in st.formattedRow
    ensures var f, p := st.formattedRow, st.currentParkId;
      Step(st, column, Some(text))
      == Success(RowState(p, f[p := f[p] + [Reading(ConvertTimestamp(text).value, None)]]))
  {
  }

  lemma EnergyStep(st: RowState, column: string, text: string)
    requires column != "park_id" && !StartsWith(column, "timestamp") && StartsWith(column, "energy_value")
    requires Numeral(text) && st.currentParkId in st.formattedRow && |st.formattedRow[st.currentParkId]| > 0
    ensures var f, p := st.formattedRow, st.currentParkId;
      var readings := f[p];
      var last := readings[|readings| - 1].(energyValue := Some(ParseFloat(text).value));
      Step(st, column, Some(text)) == Success(RowState(p, f[p := readings[|readings| - 1 := last]]))
  {
  }

  /** The entries after one more sample: its park gets an entry if new, and its reading. */
  function AddReading(f: ParkReadings, s: Sample): ParkReadings {
    var f1 := if s.parkId in f then f else f[s.parkId := []];
    f1[s.parkId := f1[s.parkId] + [ReadingOf(s)]]
  }

  /** Adding one sample to the pivot adds its reading to its park's list. */
  lemma PivotExtend(samples: seq<Sample>)
    requires |samples| > 0
    ensures Pivot(samples) == AddReading(Pivot(samples[..|samples| - 1]), samples[|samples| - 1])
  {
    var init, s := samples[..|samples| - 1], samples[|samples| - 1];
    var before := Pivot(init);
    var f1 := if s.parkId in before then before else before[s.parkId := []];
    var after := AddReading(before, s);
    SampleIdsSnoc(samples);
    EntryBeforeReading(init, s.parkId, f1);
    assert Pivot(samples).Keys == after.Keys;
    forall id | id in after ensures Pivot(samples)[id] == after[id] {
      ReadingsForSnoc(samples, id);
    }
  }

  /** The three cells of a well-formed sample under the three columns of its park. */
  lemma SampleCellsStep(row: seq<Cell>, metadata: seq<Column>, n: nat, m: nat, st: RowState, s: Sample)
    requires m == n + 3 && m <= |row| && m <= |metadata| && ParsePrefix(row, metadata, n) == Success(st)
    requires row[n] == Some(s.parkId) && row[n + 1] == Some(s.timestamp) && row[n + 2] == Some(s.energyValue)
    requires metadata[n].name == "park_id"
    requires var t := metadata[n + 1].name; t != "park_id" && StartsWith(t, "timestamp")
    requires var e := metadata[n + 2].name;
      e != "park_id" && !StartsWith(e, "timestamp") && StartsWith(e, "energy_value")
    requires SampleValid(s)
    ensures ParsePrefix(row, metadata, m) == Success(RowState(s.parkId, AddReading(st.formattedRow, s)))
  {
    var before := st.formattedRow;
    var f1 := if s.parkId in before then before else before[s.parkId := []];
    var f2 := f1[s.parkId := f1[s.parkId] + [Reading(ConvertTimestamp(s.timestamp).value, None)]];
    PrefixParkId(row, metadata, n, st, s.parkId);
    PrefixTimestamp(row, metadata, n + 1, RowState(s.parkId, f1), s.timestamp);
    PrefixEnergy(row, metadata, n + 2, f1, s);
  }

  /** Before the sample's reading is added, its park's entry holds the park's earlier readings. */
  lemma EntryBeforeReading(init: seq<Sample>, id: string, f1: ParkReadings)
    requires f1 == if id in Pivot(init) then Pivot(init) else Pivot(init)[id := []]
    ensures f1.Keys == SampleIds(init) + {id}
    ensures forall p :: p in f1 ==> f1[p] == ReadingsFor(init, p)
  {
    if id !in SampleIds(init) {
      NoReadingsForAbsent(init, id);
    }
  }

  lemma ReadingsForSnoc(samples: seq<Sample>, id: string)
    requires |samples| > 0
    ensures var init, s := samples[..|samples| - 1], samples[|samples| - 1];
      ReadingsFor(samples, id) == ReadingsFor(init, id) + (if s.parkId == id then [ReadingOf(s)] else [])
  {
  }

  lemma SampleIdsSnoc(samples: seq<Sample>)
    requires |samples| > 0
    ensures SampleIds(samples) == SampleIds(samples[..|samples| - 1]) + {samples[|samples| - 1].parkId}
  {
    var init := samples[..|samples| - 1];
    forall id | id in SampleIds(samples) ensures id in SampleIds(init) + {samples[|samples| - 1].parkId} {
      var j :| 0 <= j < |samples| && samples[j].parkId == id;
      if j < |samples| - 1 {
        assert init[j] == samples[j];
      }
    }
    forall id | id in SampleIds(init) ensures id in SampleIds(samples) {
      var j :| 0 <= j < |init| && init[j].parkId == id;
      assert samples[j] == init[j];
    }
  }

  lemma {:induction false} NoReadingsForAbsent(samples: seq<Sample>, id: string)
    requires id !in SampleIds(samples)
    ensures ReadingsFor(samples, id) == []
  {
    if samples != [] {
      SampleIdsSnoc(samples);
      NoReadingsForAbsent(samples[..|samples| - 1], id);
    }
  }

  /** The three columns of park `i` select the three branches of the row loop in order. */
  lemma ColumnKinds(metadata: seq<Column>, n: nat, i: nat)
    requires PivotedLayout(metadata, n) && i < n
    ensures metadata[3 * i].name == "park_id"
    ensures var t := metadata[3 * i + 1].name; t != "park_id" && StartsWith(t, "timestamp")
    ensures var e := metadata[3 * i + 2].name;
      e != "park_id" && !StartsWith(e, "timestamp") && StartsWith(e, "energy_value")
  {
    var e := metadata[3 * i + 2].name;
    assert e[0] == "energy_value"[0];
  }

  function ColumnNamesOf(metadata: seq<Column>): (names: seq<string>)
    ensures |names| == |metadata| && forall j :: 0 <= j < |metadata| ==> names[j] == metadata[j].name
  {
    seq(|metadata|, j requires 0 <= j < |metadata| => metadata[j].name)
  }

  /** The header of the query the builder writes is a pivoted header. */
  lemma BuiltQueryHeader(metadata: seq<Column>, n: nat)
    requires ColumnNamesOf(metadata) == QueryBuilder.ColumnNames(n)
    ensures PivotedLayout(metadata, n)
  {
    QueryBuilder.ColumnNamesShape(n);
    assert |metadata| == 3 * n;
    assert forall j :: 0 <= j < |metadata| ==> metadata[j].name == QueryBuilder.ColumnNames(n)[j] by {
      forall j | 0 <= j < |metadata| ensures metadata[j].name == QueryBuilder.ColumnNames(n)[j] {
        assert ColumnNamesOf(metadata)[j] == metadata[j].name;
      }
    }
    forall i | 0 <= i < n
      ensures && metadata[3 * i].name == "park_id"
              && StartsWith(metadata[3 * i + 1].name, "timestamp")
              && StartsWith(metadata[3 * i + 2].name, "energy_value")
    {
      var tail := NatToString(i);
      assert ("timestamp" + tail)[..9] == "timestamp";
      assert ("energy_value" + tail)[..12] == "energy_value";
    }
  }
}
