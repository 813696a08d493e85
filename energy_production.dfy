/** `get_energy_production` (lambdaFunctions/API/aggregateEnergyProduction/aggregateEnergyProduction.py):
    the readings of the parks of one query, added up per energy type. The park table that
    `retrieve_park` reads is a parameter; a park's `energy_type` attribute may be missing, and
    a park the table does not know is the empty record. */
module EnergyProduction {
  import opened Wrappers
  import opened ResultParser

  /** A park record as the lookup gives it: attribute name to value. */
  type Park = map<string, string>

  /** The park table: park id to its record. */
  type ParkTable = map<string, Park>

  /** `retrieve_park(park_id)` (layers/utils/utils.py): the park's record, or the empty record
      when the table has no such park. */
  function RetrievePark(parks: ParkTable, id: string): Park {
    if id in parks then parks[id] else map[]
  }

  /** One entry of the answer: `{"production": ..., "units": ...}`. */
  datatype Production = Production(production: real, units: string)

  /** `park.get("energy_type", "")`. */
  function EnergyType(park: Park): string {
    if "energy_type" in park then park["energy_type"] else ""
  }

  /** `d["energy_value"]`: a reading whose energy cell was never seen has no such key. */
  function EnergyValue(d: Reading): (r: Result<real>)
    ensures r.Success? <==> d.energyValue.Some?
    ensures r.Success? ==> r.value == d.energyValue.value
    ensures r.Failure? ==> r.error == KeyError
  {
    match d.energyValue
    case Some(v) => Success(v)
    case None => Failure(KeyError)
  }

  /** `sum([d["energy_value"] for d in data])`: it fails exactly when some reading has no
      energy value. */
  function SumValues(readings: seq<Reading>): (r: Result<real>)
    ensures r.Success? <==> forall i :: 0 <= i < |readings| ==> readings[i].energyValue.Some?
    ensures r.Failure? ==> r.error == KeyError
  {
    if readings == [] then Success(0.0)
    else
      var init := readings[..|readings| - 1];
      assert forall i :: 0 <= i < |init| ==> init[i] == readings[i];
      var s :- SumValues(init);
      var v :- EnergyValue(readings[|readings| - 1]);
      Success(s + v)
  }

  /** The energy types that are added up; every other one, lower-case spellings included, is
      dropped. */
  predicate Counted(energyType: string) {
    energyType == "Wind" || energyType == "Solar"
  }

  /** Park `id` is counted and one of its readings has no energy value: the loop raises. */
  predicate MissingAt(data: ParkReadings, parks: ParkTable, id: string) {
    id in data && Counted(EnergyType(RetrievePark(parks, id))) && SumValues(data[id]).Failure?
  }

  ghost predicate HasMissing(data: ParkReadings, parks: ParkTable) {
    exists id :: MissingAt(data, parks, id)
  }

  /** The energy values of `readings` added up, a missing one counting as nothing. */
  function ValueTotal(readings: seq<Reading>): real {
    if readings == [] then 0.0
    else ValueTotal(readings[..|readings| - 1]) + readings[|readings| - 1].energyValue.GetOr(0.0)
  }

  /** Where no value is missing, `sum(...)` is the total of the values. */
  lemma {:induction false} SumValuesTotal(readings: seq<Reading>)
    requires SumValues(readings).Success?
    ensures SumValues(readings).value == ValueTotal(readings)
  {
    if readings != [] {
      SumValuesTotal(readings[..|readings| - 1]);
    }
  }

  /** What park `id` adds to the total of `energyType`. */
  function Contribution(data: ParkReadings, parks: ParkTable, energyType: string, id: string): real {
    if id in data && EnergyType(RetrievePark(parks, id)) == energyType then ValueTotal(data[id]) else 0.0
  }

  /** The total of `energyType`, adding the parks in the order `ids`. */
  function TypeTotal(ids: seq<string>, data: ParkReadings, parks: ParkTable, energyType: string): real {
    if ids == [] then 0.0
    else TypeTotal(ids[..|ids| - 1], data, parks, energyType)
         + Contribution(data, parks, energyType, ids[|ids| - 1])
  }

  /** Some order of the elements of `s`, each once. */
  ghost function Enumerate(s: set<string>): (ids: seq<string>)
    ensures multiset(ids) == multiset(s)
    decreases s
  {
    if s == {} then []
    else
      var x :| x in s;
      var rest := Enumerate(s - {x});
      assert multiset(s) == multiset(s - {x}) + multiset{x};
      rest + [x]
  }

  /** The sum over all parks of type exactly `energyType` of their energy values. */
  ghost function Total(data: ParkReadings, parks: ParkTable, energyType: string): real {
    TypeTotal(Enumerate(data.Keys), data, parks, energyType)
  }

  /** The answer for the totals `wind` and `solar`: at most the keys "wind" and "solar", each
      present exactly when its total is positive, with that total as its production in MWh. */
  predicate ProductionReport(m: map<string, Production>, wind: real, solar: real) {
    && m.Keys <= {"wind", "solar"}
    && ("wind" in m <==> wind > 0.0) && ("wind" in m ==> m["wind"] == Production(wind, "MWh"))
    && ("solar" in m <==> solar > 0.0) && ("solar" in m ==> m["solar"] == Production(solar, "MWh"))
  }

  /** The totals determine the answer. */
  lemma ProductionReportUnique(m1: map<string, Production>, m2: map<string, Production>, wind: real, solar: real)
    requires ProductionReport(m1, wind, solar) && ProductionReport(m2, wind, solar)
    ensures m1 == m2
  {
    assert m1.Keys == m2.Keys;
  }

  // ---------------------------------------------------------------------------------------
  // The loop over `energy_data.items()`

  /** `get_energy_production`. The keys of a Python dictionary are visited in insertion order,
      which a map does not have, so the parks are visited in any order; `lookups` lists the
      park ids handed to `retrieve_park`, in order.
      The answer has at most the keys "wind" and "solar", each in MWh, present exactly when the
      total of parks of type "Wind" (respectively "Solar") is positive, with that total as its
      production. A counted park with a reading that has no energy value raises KeyError. Every
      park is looked up at most once, and exactly once when the call returns. */
  method GetEnergyProduction(energyData: ParkReadings, parks: ParkTable)
    returns (r: Result<map<string, Production>>, lookups: seq<string>)
    ensures r.Failure? <==> HasMissing(energyData, parks)
    ensures r.Failure? ==> r.error == KeyError
    ensures r.Success? ==> ProductionReport(r.value, Total(energyData, parks, "Wind"), Total(energyData, parks, "Solar"))
    ensures multiset(lookups) <= multiset(energyData.Keys)
    ensures r.Success? ==> multiset(lookups) == multiset(energyData.Keys)
  {
    var windEnergy, solarEnergy := 0.0, 0.0;
    var remaining := energyData.Keys;
    lookups := [];
    while remaining != {}
      invariant multiset(lookups) + multiset(remaining) == multiset(energyData.Keys)
      invariant windEnergy == TypeTotal(lookups, energyData, parks, "Wind")
      invariant solarEnergy == TypeTotal(lookups, energyData, parks, "Solar")
      invariant forall i :: 0 <= i < |lookups| ==> !MissingAt(energyData, parks, lookups[i])
      decreases remaining
    {
      var parkId :| parkId in remaining;
      var park := RetrievePark(parks, parkId);
      VisitOne(lookups, remaining, parkId, energyData.Keys);
      lookups := lookups + [parkId];
      remaining := remaining - {parkId};
      var totals := AddPark(windEnergy, solarEnergy, park, energyData[parkId]);
      if totals.Failure? {
        assert MissingAt(energyData, parks, parkId);
        return Failure(totals.error), lookups;
      }
      VisitTotals(lookups, energyData, parks, windEnergy, solarEnergy, totals.value);
      windEnergy, solarEnergy := totals.value.0, totals.value.1;
    }
    NoneMissing(lookups, energyData, parks);
    EnumerationTotal(lookups, energyData, parks, "Wind");
    EnumerationTotal(lookups, energyData, parks, "Solar");
    var energyProduction := Report(windEnergy, solarEnergy);
    r := Success(energyProduction);
  }

  /** One turn of the loop: the park's readings are added to the total of its type, if that
      is "Wind" or "Solar"; adding them raises KeyError when one has no energy value. */
  method AddPark(windEnergy: real, solarEnergy: real, park: Park, data: seq<Reading>) returns (r: Result<(real, real)>)
    ensures r.Failure? <==> Counted(EnergyType(park)) && SumValues(data).Failure?
    ensures r.Failure? ==> r.error == KeyError
    ensures r.Success? ==> r.value.0 == windEnergy + (if EnergyType(park) == "Wind" then ValueTotal(data) else 0.0)
    ensures r.Success? ==> r.value.1 == solarEnergy + (if EnergyType(park) == "Solar" then ValueTotal(data) else 0.0)
  {
    var energyType := EnergyType(park);
    if energyType == "Wind" || energyType == "Solar" {
      var sum := SumValues(data);
      if sum.Failure? {
        return Failure(sum.error);
      }
      SumValuesTotal(data);
      if energyType == "Wind" {
        return Success((windEnergy + sum.value, solarEnergy));
      } else {
        return Success((windEnergy, solarEnergy + sum.value));
      }
    }
    return Success((windEnergy, solarEnergy));
  }

  /** The answer built from the two totals: an entry, in MWh, for each positive total. */
  method Report(windEnergy: real, solarEnergy: real) returns (energyProduction: map<string, Production>)
    ensures ProductionReport(energyProduction, windEnergy, solarEnergy)
  {
    energyProduction := map[];
    if windEnergy > 0.0 {
      energyProduction := energyProduction["wind" := Production(windEnergy, "MWh")];
    }
    if solarEnergy > 0.0 {
      energyProduction := energyProduction["solar" := Production(solarEnergy, "MWh")];
    }
  }

  /** Moving one park from the remaining keys to the visited ones keeps the two together equal
      to all keys. */
  lemma VisitOne(lookups: seq<string>, remaining: set<string>, parkId: string, keys: set<string>)
    requires parkId in remaining && multiset(lookups) + multiset(remaining) == multiset(keys)
    ensures multiset(lookups + [parkId]) + multiset(remaining - {parkId}) == multiset(keys)
  {
    assert multiset(remaining) == multiset(remaining - {parkId}) + multiset{parkId};
  }

  /** The totals after one more park are the totals before it plus its contributions, and
      that park raised nothing. */
  lemma VisitTotals(ids: seq<string>, data: ParkReadings, parks: ParkTable, windEnergy: real, solarEnergy: real, totals: (real, real))
    requires ids != [] && ids[|ids| - 1] in data
    requires var init, id := ids[..|ids| - 1], ids[|ids| - 1];
      && windEnergy == TypeTotal(init, data, parks, "Wind") && solarEnergy == TypeTotal(init, data, parks, "Solar")
      && (forall i :: 0 <= i < |init| ==> !MissingAt(data, parks, init[i]))
      && !(Counted(EnergyType(RetrievePark(parks, id))) && SumValues(data[id]).Failure?)
      && totals.0 == windEnergy + (if EnergyType(RetrievePark(parks, id)) == "Wind" then ValueTotal(data[id]) else 0.0)
      && totals.1 == solarEnergy + (if EnergyType(RetrievePark(parks, id)) == "Solar" then ValueTotal(data[id]) else 0.0)
    ensures totals.0 == TypeTotal(ids, data, parks, "Wind") && totals.1 == TypeTotal(ids, data, parks, "Solar")
    ensures forall i :: 0 <= i < |ids| ==> !MissingAt(data, parks, ids[i])
  {
    var init := ids[..|ids| - 1];
    assert forall i :: 0 <= i < |init| ==> ids[i] == init[i];
  }

  /** Once every key has been visited without a raise, no park has a missing value. */
  lemma NoneMissing(ids: seq<string>, data: ParkReadings, parks: ParkTable)
    requires multiset(ids) == multiset(data.Keys)
    requires forall i :: 0 <= i < |ids| ==> !MissingAt(data, parks, ids[i])
    ensures !HasMissing(data, parks)
  {
    forall id | id in data ensures !MissingAt(data, parks, id) {
      assert id in multiset(data.Keys);
      assert id in multiset(ids);
      var i :| 0 <= i < |ids| && ids[i] == id;
    }
  }

  /** The total over any order of the keys is `Total`. */
  lemma EnumerationTotal(ids: seq<string>, data: ParkReadings, parks: ParkTable, energyType: string)
    requires multiset(ids) == multiset(data.Keys)
    ensures TypeTotal(ids, data, parks, energyType) == Total(data, parks, energyType)
  {
    TypeTotalPermutation(ids, Enumerate(data.Keys), data, parks, energyType);
  }

  // ---------------------------------------------------------------------------------------
  // The totals do not depend on the order of the parks

  lemma {:induction false} TypeTotalAppend(a: seq<string>, b: seq<string>, data: ParkReadings, parks: ParkTable, energyType: string)
    ensures TypeTotal(a + b, data, parks, energyType)
         == TypeTotal(a, data, parks, energyType) + TypeTotal(b, data, parks, energyType)
    decreases |b|
  {
    if b == [] {
      assert a + b == a;
    } else {
      var init := b[..|b| - 1];
      assert (a + b)[..|a + b| - 1] == a + init;
      assert (a + b)[|a + b| - 1] == b[|b| - 1];
      TypeTotalAppend(a, init, data, parks, energyType);
    }
  }

  /** Taking park `k` out of the order takes exactly its contribution out of the total. */
  lemma TypeTotalRemove(ids: seq<string>, k: nat, data: ParkReadings, parks: ParkTable, energyType: string)
    requires k < |ids|
    ensures TypeTotal(ids, data, parks, energyType)
         == TypeTotal(ids[..k] + ids[k + 1..], data, parks, energyType)
            + Contribution(data, parks, energyType, ids[k])
  {
    assert ids == ids[..k] + ([ids[k]] + ids[k + 1..]);
    TypeTotalAppend(ids[..k], [ids[k]] + ids[k + 1..], data, parks, energyType);
    TypeTotalAppend([ids[k]], ids[k + 1..], data, parks, energyType);
    TypeTotalAppend(ids[..k], ids[k + 1..], data, parks, energyType);
    assert TypeTotal([ids[k]], data, parks, energyType) == Contribution(data, parks, energyType, ids[k]) by {
      assert [ids[k]][..0] == [];
    }
  }

  /** Any two orders of the same parks give the same total. */
  lemma {:induction false} TypeTotalPermutation(xs: seq<string>, ys: seq<string>, data: ParkReadings, parks: ParkTable, energyType: string)
    requires multiset(xs) == multiset(ys)
    ensures TypeTotal(xs, data, parks, energyType) == TypeTotal(ys, data, parks, energyType)
    decreases |xs|
  {
    if xs == [] {
      assert |ys| == |multiset(ys)| == 0;
    } else {
      var x := xs[|xs| - 1];
      var init := xs[..|xs| - 1];
      var k := MultisetCancel(xs, ys);
      TypeTotalPermutation(init, ys[..k] + ys[k + 1..], data, parks, energyType);
      TypeTotalRemove(ys, k, data, parks, energyType);
    }
  }

  /** The last element of `xs` sits at some position `k` of `ys`, and what remains of the two
      sequences still has the same elements. */
  lemma MultisetCancel(xs: seq<string>, ys: seq<string>) returns (k: nat)
    requires xs != [] && multiset(xs) == multiset(ys)
    ensures k < |ys| && ys[k] == xs[|xs| - 1]
    ensures multiset(xs[..|xs| - 1]) == multiset(ys[..k] + ys[k + 1..])
  {
    var x := xs[|xs| - 1];
    var init := xs[..|xs| - 1];
    assert xs == init + [x];
    assert x in multiset(ys);
    k :| 0 <= k < |ys| && ys[k] == x;
    var rest := ys[..k] + ys[k + 1..];
    assert ys == ys[..k] + [x] + ys[k + 1..];
    assert multiset(ys) == multiset(rest) + multiset{x};
    assert multiset(xs) == multiset(init) + multiset{x};
    CancelOne(multiset(init), multiset(rest), x);
  }

  lemma CancelOne(a: multiset<string>, b: multiset<string>, x: string)
    requires a + multiset{x} == b + multiset{x}
    ensures a == b
  {
    forall e ensures a[e] == b[e] {
      assert (a + multiset{x})[e] == a[e] + multiset{x}[e];
      assert (b + multiset{x})[e] == b[e] + multiset{x}[e];
    }
  }

  /** An order of the keys `keys`, followed by a new key, is an order of the keys with it. */
  lemma EnumerationExtend(ids: seq<string>, keys: set<string>, id: string)
    requires multiset(ids) == multiset(keys) && id !in keys
    ensures multiset(ids + [id]) == multiset(keys + {id})
    ensures forall i :: 0 <= i < |ids| ==> ids[i] in keys
  {
    assert multiset(keys + {id}) == multiset(keys) + multiset{id};
    forall i | 0 <= i < |ids| ensures ids[i] in keys {
      assert ids[i] in multiset(ids);
    }
  }

  // ---------------------------------------------------------------------------------------
  // Parks that are dropped

  /** A park whose energy type is neither exactly "Wind" nor exactly "Solar" changes neither
      total and cannot make the call raise, whatever its readings. */
  lemma DroppedPark(data: ParkReadings, parks: ParkTable, id: string, readings: seq<Reading>)
    requires id !in data && !Counted(EnergyType(RetrievePark(parks, id)))
    ensures Total(data[id := readings], parks, "Wind") == Total(data, parks, "Wind")
    ensures Total(data[id := readings], parks, "Solar") == Total(data, parks, "Solar")
    ensures HasMissing(data[id := readings], parks) == HasMissing(data, parks)
  {
    DroppedParkTotal(data, parks, id, readings, "Wind");
    DroppedParkTotal(data, parks, id, readings, "Solar");
    DroppedParkRaisesNothing(data, parks, id, readings);
  }

  lemma DroppedParkRaisesNothing(data: ParkReadings, parks: ParkTable, id: string, readings: seq<Reading>)
    requires id !in data && !Counted(EnergyType(RetrievePark(parks, id)))
    ensures HasMissing(data[id := readings], parks) == HasMissing(data, parks)
  {
    var more := data[id := readings];
    if HasMissing(more, parks) {
      var other :| MissingAt(more, parks, other);
      assert other != id && MissingAt(data, parks, other);
    }
    if HasMissing(data, parks) {
      var other :| MissingAt(data, parks, other);
      assert MissingAt(more, parks, other);
    }
  }

  lemma DroppedParkTotal(data: ParkReadings, parks: ParkTable, id: string, readings: seq<Reading>, energyType: string)
    requires id !in data && EnergyType(RetrievePark(parks, id)) != energyType
    ensures Total(data[id := readings], parks, energyType) == Total(data, parks, energyType)
  {
    var more := data[id := readings];
    var ids := Enumerate(data.Keys);
    assert more.Keys == data.Keys + {id};
    EnumerationExtend(ids, data.Keys, id);
    EnumerationTotal(ids + [id], more, parks, energyType);
    AppendDropped(ids, data, parks, id, readings, energyType);
  }

  lemma AppendDropped(ids: seq<string>, data: ParkReadings, parks: ParkTable, id: string, readings: seq<Reading>, energyType: string)
    requires id !in data && EnergyType(RetrievePark(parks, id)) != energyType
    requires forall i :: 0 <= i < |ids| ==> ids[i] in data
    ensures TypeTotal(ids + [id], data[id := readings], parks, energyType) == TypeTotal(ids, data, parks, energyType)
  {
    var more := data[id := readings];
    assert (ids + [id])[..|ids|] == ids;
    OtherParksUnchanged(ids, data, parks, id, readings, energyType);
  }

  /** Adding a park that is not in the order leaves the total over the order as it was. */
  lemma {:induction false} OtherParksUnchanged(ids: seq<string>, data: ParkReadings, parks: ParkTable, id: string, readings: seq<Reading>, energyType: string)
    requires id !in data && forall i :: 0 <= i < |ids| ==> ids[i] in data
    ensures TypeTotal(ids, data[id := readings], parks, energyType) == TypeTotal(ids, data, parks, energyType)
    decreases |ids|
  {
    if ids != [] {
      var init := ids[..|ids| - 1];
      assert forall i :: 0 <= i < |init| ==> init[i] == ids[i];
      OtherParksUnchanged(init, data, parks, id, readings, energyType);
    }
  }
}
