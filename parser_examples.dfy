/** The row examples of tests/layers/utils/test_athena.py, worked through the model of
    `parse_query_result_row`. */
module ParserExamples {
  import opened Wrappers
  import opened Text
  import opened CivilTime
  import opened Decimal
  import opened ResultParser
  import QueryBuilder

  // ---------------------------------------------------------------------------------------
  // One park with one reading (test_athena.py, lines 36-51)

  const MayFirst := DateTime(2022, 5, 1, 0, 0, 0)
  const MayFirstText := "2022-05-01 00:00:00.000"

  function ExampleHeader(): seq<Column> {
    [Column("park_id", "varchar"), Column("timestamp", "timestamp"), Column("energy_value", "double")]
  }

  function ExampleRow(): seq<Cell> {
    [Some("park1"), Some(MayFirstText), Some("100")]
  }

  /** The row `park1, 2022-05-01 00:00:00.000, 100` gives park1 one reading
      `2022-05-01T00:00:00Z` with energy value 100.0. */
  lemma ParseRowExample()
    ensures ParseRow(ExampleRow(), ExampleHeader())
         == Success(map["park1" := [Reading("2022-05-01T00:00:00Z", Some(100.0))]])
  {
    var sample := Sample("park1", MayFirstText, "100");
    SingleSampleRow(sample);
    ExampleLayout();
    ExampleSample(sample);
    ParsePivotedRow([sample], ExampleHeader());
    SinglePivot(sample);
  }

  lemma ExampleLayout()
    ensures PivotedLayout(ExampleHeader(), 1)
  {
    assert StartsWith("timestamp", "timestamp");
    assert StartsWith("energy_value", "energy_value");
  }

  lemma ExampleSample(sample: Sample)
    requires sample == Sample("park1", MayFirstText, "100")
    ensures SampleValid(sample)
    ensures ReadingOf(sample) == Reading("2022-05-01T00:00:00Z", Some(100.0))
  {
    MayFirstParses();
    Hundred();
  }

  lemma SinglePivot(s: Sample)
    ensures Pivot([s]) == map[s.parkId := [ReadingOf(s)]]
  {
    var samples := [s];
    assert SampleIds(samples) == {s.parkId};
    assert samples[..0] == [];
    assert ReadingsFor(samples, s.parkId) == [ReadingOf(s)];
  }

  lemma SingleSampleRow(s: Sample)
    ensures PivotedRow([s]) == SampleCells(s)
  {
    var groups := SampleGroups([s]);
    assert groups == [SampleCells(s)];
    assert groups[..0] == [];
    assert Concat(groups) == Concat(groups[..0]) + groups[0];
  }

  lemma MayFirstParses()
    ensures Strptime(MayFirstText).Success?
    ensures ConvertTimestamp(MayFirstText) == Success("2022-05-01T00:00:00Z")
  {
    MayFirstStrftime();
    MayFirstIso();
    MayFirstFraction();
    RenderedParses(MayFirstText, MayFirst, "2022-05-01 00:00:00", "2022-05-01T00:00:00Z");
  }

  /** A text that is a rendering of `dt` with a `.000` fraction converts to the ISO rendering
      of `dt`. */
  lemma RenderedParses(text: string, dt: DateTime, spaced: string, iso: string)
    requires Valid(dt) && Strftime(dt) == spaced && IsoFormat(dt) == iso
    requires text == spaced + "." + "000"
    ensures Strptime(text).Success? && ConvertTimestamp(text) == Success(iso)
  {
    StrptimeOfStrftime(dt, "000");
  }

  lemma MayFirstStrftime()
    ensures Strftime(MayFirst) == "2022-05-01 00:00:00"
  {
    QueryBuilder.FixedYear2022();
    FixedSmall();
    MayFirstSpaced();
  }

  lemma MayFirstIso()
    ensures IsoFormat(MayFirst) == "2022-05-01T00:00:00Z"
  {
    QueryBuilder.FixedYear2022();
    FixedSmall();
    MayFirstIsoText();
  }

  lemma FixedSmall()
    ensures Fixed(0, 2) == "00" && Fixed(1, 2) == "01" && Fixed(5, 2) == "05"
  {
  }

  lemma Hundred()
    ensures Numeral("100") && ParseFloat("100") == Success(100.0)
  {
    assert NatToString(100) == "100" by {
      assert NatToString(10) == "10";
    }
    ParseFloatOfNat(100);
  }

  // ---------------------------------------------------------------------------------------
  // One park with two readings in one row (the intent of test_athena.py, lines 53-74, whose
  // row is passed as a dictionary rather than the list of cells the code iterates over)

  function TwoReadingHeader(): seq<Column> {
    [Column("park_id", "varchar"), Column("timestamp0", "varchar"), Column("energy_value0", "varchar"),
     Column("timestamp1", "varchar"), Column("energy_value1", "varchar")]
  }

  const EarlierText := "2022-03-11 20:18:02.000"
  const LaterText := "2022-03-11 20:18:05.000"

  function TwoReadingRow(): seq<Cell> {
    [Some("park1"), Some(EarlierText), Some("10.0"), Some(LaterText), Some("20.0")]
  }

  const EarlierSample := Sample("park1", EarlierText, "10.0")
  const LaterSample := Sample("park1", LaterText, "20.0")

  /** Both readings go to park1 in column order, each with its own energy value. */
  lemma ParseRowTwoReadings()
    ensures ParseRow(TwoReadingRow(), TwoReadingHeader()) == Success(map["park1" := [
              Reading("2022-03-11T20:18:02Z", Some(10.0)), Reading("2022-03-11T20:18:05Z", Some(20.0))]])
  {
    TwoReadingExampleLayout();
    TwoReadingSamples(EarlierSample, LaterSample);
    TwoReadingsOfOnePark(TwoReadingRow(), TwoReadingHeader(), EarlierSample, LaterSample);
  }

  /** A park cell followed by two well-formed timestamp/energy pairs gives that park the two
      readings in column order. */
  lemma TwoReadingsOfOnePark(row: seq<Cell>, header: seq<Column>, first: Sample, second: Sample)
    requires TwoReadingLayout(row, header, first, second)
    requires SampleValid(first) && SampleValid(second)
    ensures ParseRow(row, header) == Success(map[first.parkId := [ReadingOf(first), ReadingOf(second)]])
  {
    var p := first.parkId;
    var empty: ParkReadings := map[p := []];
    PrefixParkId(row, header, 0, InitialRowState, p);
    PrefixTimestamp(row, header, 1, RowState(p, empty), first.timestamp);
    PrefixEnergy(row, header, 2, empty, first);
    SingletonAppend(p, [], ReadingOf(first));
    assert [] + [ReadingOf(first)] == [ReadingOf(first)];
    var one: ParkReadings := map[p := [ReadingOf(first)]];
    PrefixTimestamp(row, header, 3, RowState(p, one), second.timestamp);
    PrefixEnergy(row, header, 4, one, second);
    SingletonAppend(p, [ReadingOf(first)], ReadingOf(second));
    assert [ReadingOf(first)] + [ReadingOf(second)] == [ReadingOf(first), ReadingOf(second)];
    assert ParsePrefix(row, header, |row|) == Success(RowState(p, map[p := [ReadingOf(first), ReadingOf(second)]]));
  }

  /** A park cell, then the timestamp and energy cells of two samples of that park. */
  predicate TwoReadingLayout(row: seq<Cell>, header: seq<Column>, first: Sample, second: Sample) {
    && |row| == 5 && |header| == 5 && first.parkId == second.parkId
    && row[0] == Some(first.parkId) && row[1] == Some(first.timestamp) && row[2] == Some(first.energyValue)
    && row[3] == Some(second.timestamp) && row[4] == Some(second.energyValue)
    && header[0].name == "park_id"
    && header[1].name != "park_id" && StartsWith(header[1].name, "timestamp")
    && header[2].name != "park_id" && !StartsWith(header[2].name, "timestamp")
    && StartsWith(header[2].name, "energy_value")
    && header[3].name != "park_id" && StartsWith(header[3].name, "timestamp")
    && header[4].name != "park_id" && !StartsWith(header[4].name, "timestamp")
    && StartsWith(header[4].name, "energy_value")
  }

  lemma TwoReadingExampleLayout()
    ensures TwoReadingLayout(TwoReadingRow(), TwoReadingHeader(), EarlierSample, LaterSample)
  {
    TwoReadingColumns();
  }

  lemma SingletonAppend(p: string, readings: seq<Reading>, r: Reading)
    ensures var f := map[p := readings]; f[p := f[p] + [r]] == map[p := readings + [r]]
  {
  }

  lemma TwoReadingColumns()
    ensures var h := TwoReadingHeader();
      && h[0].name == "park_id"
      && h[1].name != "park_id" && StartsWith(h[1].name, "timestamp")
      && h[2].name != "park_id" && !StartsWith(h[2].name, "timestamp") && StartsWith(h[2].name, "energy_value")
      && h[3].name != "park_id" && StartsWith(h[3].name, "timestamp")
      && h[4].name != "park_id" && !StartsWith(h[4].name, "timestamp") && StartsWith(h[4].name, "energy_value")
  {
    assert "timestamp0"[..9] == "timestamp" && "timestamp1"[..9] == "timestamp";
    assert "energy_value0"[..12] == "energy_value" && "energy_value1"[..12] == "energy_value";
    assert "energy_value0"[0] != "timestamp"[0] && "energy_value1"[0] != "timestamp"[0];
  }

  lemma TwoReadingSamples(first: Sample, second: Sample)
    requires first == Sample("park1", EarlierText, "10.0") && second == Sample("park1", LaterText, "20.0")
    ensures SampleValid(first) && SampleValid(second)
    ensures ReadingOf(first) == Reading("2022-03-11T20:18:02Z", Some(10.0))
    ensures ReadingOf(second) == Reading("2022-03-11T20:18:05Z", Some(20.0))
  {
    EarlierParses();
    LaterParses();
    TenAndTwenty();
  }

  lemma EarlierParses()
    ensures Strptime(EarlierText).Success?
    ensures ConvertTimestamp(EarlierText) == Success("2022-03-11T20:18:02Z")
  {
    EarlierStrftime();
    EarlierIso();
    EarlierFraction();
    RenderedParses(EarlierText, DateTime(2022, 3, 11, 20, 18, 2), "2022-03-11 20:18:02", "2022-03-11T20:18:02Z");
  }

  lemma EarlierStrftime()
    ensures Strftime(DateTime(2022, 3, 11, 20, 18, 2)) == "2022-03-11 20:18:02"
  {
    MarchEleventh();
    EarlierSpaced();
  }

  lemma EarlierIso()
    ensures IsoFormat(DateTime(2022, 3, 11, 20, 18, 2)) == "2022-03-11T20:18:02Z"
  {
    MarchEleventh();
    EarlierIsoText();
  }

  lemma LaterParses()
    ensures Strptime(LaterText).Success?
    ensures ConvertTimestamp(LaterText) == Success("2022-03-11T20:18:05Z")
  {
    LaterStrftime();
    LaterIso();
    LaterFraction();
    RenderedParses(LaterText, DateTime(2022, 3, 11, 20, 18, 5), "2022-03-11 20:18:05", "2022-03-11T20:18:05Z");
  }

  lemma LaterStrftime()
    ensures Strftime(DateTime(2022, 3, 11, 20, 18, 5)) == "2022-03-11 20:18:05"
  {
    MarchEleventh();
    LaterSpaced();
  }

  lemma LaterIso()
    ensures IsoFormat(DateTime(2022, 3, 11, 20, 18, 5)) == "2022-03-11T20:18:05Z"
  {
    MarchEleventh();
    LaterIsoText();
  }

  lemma MarchEleventh()
    ensures Fixed(2022, 4) == "2022" && Fixed(3, 2) == "03" && Fixed(11, 2) == "11"
    ensures Fixed(20, 2) == "20" && Fixed(18, 2) == "18" && Fixed(2, 2) == "02" && Fixed(5, 2) == "05"
  {
    QueryBuilder.FixedYear2022();
    FixedTwoDigits();
  }

  lemma FixedTwoDigits()
    ensures Fixed(3, 2) == "03" && Fixed(11, 2) == "11" && Fixed(20, 2) == "20"
    ensures Fixed(18, 2) == "18" && Fixed(2, 2) == "02" && Fixed(5, 2) == "05"
  {
  }

  lemma TenAndTwenty()
    ensures Numeral("10.0") && ParseFloat("10.0") == Success(10.0)
    ensures Numeral("20.0") && ParseFloat("20.0") == Success(20.0)
  {
    Ten();
    Twenty();
  }

  lemma Ten()
    ensures ParseFloat("10.0") == Success(10.0)
  {
    assert NatToString(10) == "10";
    assert Fixed(0, 1) == "0";
    ParseFloatZeroFraction(10, 1);
    assert "10" + "." + "0" == "10.0";
  }

  lemma Twenty()
    ensures ParseFloat("20.0") == Success(20.0)
  {
    assert NatToString(20) == "20";
    assert Fixed(0, 1) == "0";
    ParseFloatZeroFraction(20, 1);
    assert "20" + "." + "0" == "20.0";
  }

  // ---------------------------------------------------------------------------------------
  // The rendered texts, field by field

  lemma MayFirstSpaced()
    ensures "2022" + "-" + "05" + "-" + "01" + " " + "00" + ":" + "00" + ":" + "00" == "2022-05-01 00:00:00"
  {
  }

  lemma MayFirstIsoText()
    ensures "2022" + "-" + "05" + "-" + "01" + "T" + "00" + ":" + "00" + ":" + "00" + "Z" == "2022-05-01T00:00:00Z"
  {
  }

  lemma EarlierSpaced()
    ensures "2022" + "-" + "03" + "-" + "11" + " " + "20" + ":" + "18" + ":" + "02" == "2022-03-11 20:18:02"
  {
  }

  lemma EarlierIsoText()
    ensures "2022" + "-" + "03" + "-" + "11" + "T" + "20" + ":" + "18" + ":" + "02" + "Z" == "2022-03-11T20:18:02Z"
  {
  }

  lemma LaterSpaced()
    ensures "2022" + "-" + "03" + "-" + "11" + " " + "20" + ":" + "18" + ":" + "05" == "2022-03-11 20:18:05"
  {
  }

  lemma LaterIsoText()
    ensures "2022" + "-" + "03" + "-" + "11" + "T" + "20" + ":" + "18" + ":" + "05" + "Z" == "2022-03-11T20:18:05Z"
  {
  }

  lemma MayFirstFraction()
    ensures "2022-05-01 00:00:00" + "." + "000" == MayFirstText
  {
  }

  lemma EarlierFraction()
    ensures "2022-03-11 20:18:02" + "." + "000" == EarlierText
  {
  }

  lemma LaterFraction()
    ensures "2022-03-11 20:18:05" + "." + "000" == LaterText
  {
  }
}
