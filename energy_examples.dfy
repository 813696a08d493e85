/** The examples of tests/lambdaFunctions/API/aggregateEnergyProduction/test_aggregateEnergyProduction.py,
    worked through the model of `get_energy_production`. The test readings carry only an energy
    value; the timestamp, which the aggregation never reads, is left empty. */
module EnergyExamples {
  import opened Wrappers
  import opened ResultParser
  import opened EnergyProduction

  /** `mock_park` on the two parks of the tests: park1 is a wind park, park2 a solar park. */
  function MockParks(): ParkTable {
    map["park1" := map["energy_type" := "Wind"], "park2" := map["energy_type" := "Solar"]]
  }

  function Value(v: real): Reading {
    Reading("", Some(v))
  }

  /** The readings of test_aggregateEnergyProduction.py, lines 14-17. */
  function WindAndSolarData(): ParkReadings {
    map["park1" := [Value(100.0), Value(200.0)], "park2" := [Value(300.0)]]
  }

  /** The readings of test_aggregateEnergyProduction.py, lines 31-34. */
  function ZeroReadingData(): ParkReadings {
    map["park1" := [Value(100.0), Value(0.0)], "park2" := [Value(300.0)]]
  }

  /** With the mock table and the parks park1 and park2, the wind total is park1's sum and the
      solar total park2's. */
  lemma TwoParkTotals(data: ParkReadings)
    requires data.Keys == {"park1", "park2"}
    ensures Total(data, MockParks(), "Wind") == ValueTotal(data["park1"])
    ensures Total(data, MockParks(), "Solar") == ValueTotal(data["park2"])
  {
    TwoParkTotal(data, "Wind");
    TwoParkTotal(data, "Solar");
    assert EnergyType(RetrievePark(MockParks(), "park1")) == "Wind";
    assert EnergyType(RetrievePark(MockParks(), "park2")) == "Solar";
  }

  /** A total over park1 and park2 adds their contributions. */
  lemma TwoParkTotal(data: ParkReadings, energyType: string)
    requires data.Keys == {"park1", "park2"}
    ensures Total(data, MockParks(), energyType)
         == Contribution(data, MockParks(), energyType, "park1") + Contribution(data, MockParks(), energyType, "park2")
  {
    var ids := ["park1", "park2"];
    assert multiset(ids) == multiset(data.Keys) by {
      assert multiset(data.Keys) == multiset{"park1", "park2"};
    }
    EnumerationTotal(ids, data, MockParks(), energyType);
    assert ids[..1] == ["park1"] && ["park1"][..0] == [];
    assert TypeTotal(["park1"], data, MockParks(), energyType) == Contribution(data, MockParks(), energyType, "park1");
  }

  lemma ValueTotalTwo(a: real, b: real)
    ensures ValueTotal([Value(a), Value(b)]) == a + b
  {
    var s := [Value(a), Value(b)];
    assert s[..1] == [Value(a)];
    ValueTotalOne(a);
    assert s[1].energyValue.GetOr(0.0) == b;
  }

  lemma ValueTotalOne(a: real)
    ensures ValueTotal([Value(a)]) == a
  {
    assert [Value(a)][..0] == [];
  }

  /** park1 (wind) with 100 and 200, park2 (solar) with 300: nothing raises, and the answer is
      wind 300 MWh and solar 300 MWh (test_aggregateEnergyProduction.py, lines 13-20). */
  lemma WindAndSolarExample(m: map<string, Production>)
    requires ProductionReport(m, Total(WindAndSolarData(), MockParks(), "Wind"), Total(WindAndSolarData(), MockParks(), "Solar"))
    ensures !HasMissing(WindAndSolarData(), MockParks())
    ensures m == map["solar" := Production(300.0, "MWh"), "wind" := Production(300.0, "MWh")]
  {
    WindAndSolarTotals();
    ProductionReportUnique(m, map["solar" := Production(300.0, "MWh"), "wind" := Production(300.0, "MWh")], 300.0, 300.0);
  }

  lemma WindAndSolarTotals()
    ensures Total(WindAndSolarData(), MockParks(), "Wind") == 300.0
    ensures Total(WindAndSolarData(), MockParks(), "Solar") == 300.0
    ensures !HasMissing(WindAndSolarData(), MockParks())
  {
    var data := WindAndSolarData();
    TwoParkTotals(data);
    ValueTotalTwo(100.0, 200.0);
    ValueTotalOne(300.0);
    NothingMissing(data);
  }

  /** park1 (wind) with 100 and 0, park2 (solar) with 300: nothing raises, and the answer is
      wind 100 MWh and solar 300 MWh (test_aggregateEnergyProduction.py, lines 30-37). */
  lemma ZeroReadingExample(m: map<string, Production>)
    requires ProductionReport(m, Total(ZeroReadingData(), MockParks(), "Wind"), Total(ZeroReadingData(), MockParks(), "Solar"))
    ensures !HasMissing(ZeroReadingData(), MockParks())
    ensures m == map["solar" := Production(300.0, "MWh"), "wind" := Production(100.0, "MWh")]
  {
    ZeroReadingTotals();
    ProductionReportUnique(m, map["solar" := Production(300.0, "MWh"), "wind" := Production(100.0, "MWh")], 100.0, 300.0);
  }

  lemma ZeroReadingTotals()
    ensures Total(ZeroReadingData(), MockParks(), "Wind") == 100.0
    ensures Total(ZeroReadingData(), MockParks(), "Solar") == 300.0
    ensures !HasMissing(ZeroReadingData(), MockParks())
  {
    var data := ZeroReadingData();
    TwoParkTotals(data);
    ValueTotalTwo(100.0, 0.0);
    ValueTotalOne(300.0);
    NothingMissing(data);
  }

  /** Readings that all carry a value never raise. */
  lemma NothingMissing(data: ParkReadings)
    requires forall id, i :: id in data && 0 <= i < |data[id]| ==> data[id][i].energyValue.Some?
    ensures !HasMissing(data, MockParks())
  {
  }

  /** No parks: no entries (test_aggregateEnergyProduction.py, lines 23-27). */
  lemma EmptyExample(parks: ParkTable, m: map<string, Production>)
    requires ProductionReport(m, Total(map[], parks, "Wind"), Total(map[], parks, "Solar"))
    ensures !HasMissing(map[], parks)
    ensures m == map[]
  {
    EnumerationTotal([], map[], parks, "Wind");
    EnumerationTotal([], map[], parks, "Solar");
    ProductionReportUnique(m, map[], 0.0, 0.0);
  }

  /** A park whose record says "wind" in lower case, or that the table does not know, adds
      nothing to either total. */
  lemma LowerCaseWindDropped(data: ParkReadings, parks: ParkTable, id: string, readings: seq<Reading>)
    requires id !in data && RetrievePark(parks, id) == map["energy_type" := "wind"]
    ensures Total(data[id := readings], parks, "Wind") == Total(data, parks, "Wind")
    ensures Total(data[id := readings], parks, "Solar") == Total(data, parks, "Solar")
    ensures HasMissing(data[id := readings], parks) == HasMissing(data, parks)
  {
    DroppedPark(data, parks, id, readings);
  }

  lemma UnknownParkDropped(data: ParkReadings, parks: ParkTable, id: string, readings: seq<Reading>)
    requires id !in data && id !in parks
    ensures Total(data[id := readings], parks, "Wind") == Total(data, parks, "Wind")
    ensures Total(data[id := readings], parks, "Solar") == Total(data, parks, "Solar")
    ensures HasMissing(data[id := readings], parks) == HasMissing(data, parks)
  {
    assert EnergyType(RetrievePark(parks, id)) == "";
    DroppedPark(data, parks, id, readings);
  }
}
