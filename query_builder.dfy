/** The query builder of layers/utils/athena.py: one SQL text that cross-joins one table per
    park, aliased `p0`, `p1`, ... in input order, projects a `park_id` literal and the
    `timestamp{i}` / `energy_value{i}` columns of every park, keeps the readings inside the
    closed UTC time window and orders by every `timestamp{i}`. */
module QueryBuilder {
  import opened Wrappers
  import opened Text
  import opened CivilTime

  /** A time bound given in epoch milliseconds, as `utcfromtimestamp(ms / 1000)` rendered with
      `'%Y-%m-%d %H:%M:%S'`: the sub-second part is dropped (Dafny's `/` on `int` rounds down
      for a positive divisor). */
  function RenderTimeBound(milliseconds: int): (r: Result<string>)
    ensures r.Success? ==> |r.value| == 19
    ensures r.Success? <==> UtcFromTimestamp(milliseconds / 1000).Success?
    ensures r.Failure? ==> r.error == ValueError
  {
    var dt :- UtcFromTimestamp(milliseconds / 1000);
    Success(Strftime(dt))
  }

  /** The line break and indentation that the triple-quoted f-string puts before FROM, WHERE
      and ORDER BY. */
  const LineBreak := "\n                "

  function TableName(parkId: string, i: nat): string {
    parkId + " AS p" + NatToString(i)
  }

  function SelectGroup(parkId: string, i: nat): string {
    var n := NatToString(i);
    "'" + parkId + "' AS park_id" + ", " + "p" + n + ".timestamp AS timestamp" + n
    + ", " + "p" + n + ".energy_value AS energy_value" + n
  }

  function WhereGroup(i: nat, startDt: string, endDt: string): string {
    var n := NatToString(i);
    "CAST(p" + n + ".timestamp AS timestamp) >= CAST('" + startDt + "' AS timestamp)" + " AND "
    + "CAST(p" + n + ".timestamp AS timestamp) <= CAST('" + endDt + "' AS timestamp)"
  }

  function OrderColumn(i: nat): string {
    "timestamp" + NatToString(i)
  }

  function TableNames(parkIds: seq<string>): (r: seq<string>)
    ensures |r| == |parkIds|
  {
    seq(|parkIds|, i requires 0 <= i < |parkIds| => TableName(parkIds[i], i))
  }

  function SelectGroups(parkIds: seq<string>): (r: seq<string>)
    ensures |r| == |parkIds|
  {
    seq(|parkIds|, i requires 0 <= i < |parkIds| => SelectGroup(parkIds[i], i))
  }

  function WhereGroups(n: nat, startDt: string, endDt: string): (r: seq<string>)
    ensures |r| == n
  {
    seq(n, i requires 0 <= i < n => WhereGroup(i, startDt, endDt))
  }

  function OrderColumns(n: nat): (r: seq<string>)
    ensures |r| == n
  {
    seq(n, i requires 0 <= i < n => OrderColumn(i))
  }

  /** `format_query_string(park_ids, start, end)`; both time bounds are rendered first, and
      either one outside the years `datetime` can hold raises. */
  function FormatQueryString(parkIds: seq<string>, start: int, end: int): (r: Result<string>)
    ensures r.Success? <==> RenderTimeBound(start).Success? && RenderTimeBound(end).Success?
    ensures r.Failure? ==> r.error == ValueError
  {
    var startDt :- RenderTimeBound(start);
    var endDt :- RenderTimeBound(end);
    Success("SELECT " + Join(", ", SelectGroups(parkIds))
            + LineBreak + "FROM " + Join(",", TableNames(parkIds))
            + LineBreak + "WHERE " + Join(" AND ", WhereGroups(|parkIds|, startDt, endDt))
            + LineBreak + "ORDER BY " + Join(", ", OrderColumns(|parkIds|)) + " ASC")
  }

  // ---------------------------------------------------------------------------------------
  // The query seen item by item: the projection list, the result columns and the conjuncts.

  /** The three projection items of park `i`: its id literal, its timestamp and its value. */
  function ParkSelectItems(parkId: string, i: nat): seq<string> {
    var n := NatToString(i);
    ["'" + parkId + "' AS park_id", "p" + n + ".timestamp AS timestamp" + n,
     "p" + n + ".energy_value AS energy_value" + n]
  }

  /** The result column names the projection of park `i` produces. */
  function ParkColumns(i: nat): seq<string> {
    ["park_id", "timestamp" + NatToString(i), "energy_value" + NatToString(i)]
  }

  /** The two comparisons that keep park `i`'s readings inside the window. */
  function ParkComparisons(i: nat, startDt: string, endDt: string): seq<string> {
    var n := NatToString(i);
    ["CAST(p" + n + ".timestamp AS timestamp) >= CAST('" + startDt + "' AS timestamp)",
     "CAST(p" + n + ".timestamp AS timestamp) <= CAST('" + endDt + "' AS timestamp)"]
  }

  function SelectItemGroups(parkIds: seq<string>): (r: seq<seq<string>>)
    ensures |r| == |parkIds|
    ensures forall i :: 0 <= i < |parkIds| ==> r[i] == ParkSelectItems(parkIds[i], i)
  {
    seq(|parkIds|, i requires 0 <= i < |parkIds| => ParkSelectItems(parkIds[i], i))
  }

  function ColumnGroups(n: nat): (r: seq<seq<string>>)
    ensures |r| == n && forall i :: 0 <= i < n ==> r[i] == ParkColumns(i)
  {
    seq(n, i requires 0 <= i < n => ParkColumns(i))
  }

  function ComparisonGroups(n: nat, startDt: string, endDt: string): (r: seq<seq<string>>)
    ensures |r| == n && forall i :: 0 <= i < n ==> r[i] == ParkComparisons(i, startDt, endDt)
  {
    seq(n, i requires 0 <= i < n => ParkComparisons(i, startDt, endDt))
  }

  function SelectItems(parkIds: seq<string>): seq<string> {
    Concat(SelectItemGroups(parkIds))
  }

  /** The columns of the result table, in order, for `n` parks. */
  function ColumnNames(n: nat): seq<string> {
    Concat(ColumnGroups(n))
  }

  function Comparisons(n: nat, startDt: string, endDt: string): seq<string> {
    Concat(ComparisonGroups(n, startDt, endDt))
  }

  /** For `n` parks the result has `3 * n` columns: `park_id`, `timestamp{i}`,
      `energy_value{i}` for each park `i` in order, so `park_id` occurs exactly `n` times. */
  lemma ColumnNamesShape(n: nat)
    ensures |ColumnNames(n)| == 3 * n
    ensures forall i :: 0 <= i < n ==>
      && ColumnNames(n)[3 * i] == "park_id"
      && ColumnNames(n)[3 * i + 1] == "timestamp" + NatToString(i)
      && ColumnNames(n)[3 * i + 2] == "energy_value" + NatToString(i)
    ensures multiset(ColumnNames(n))["park_id"] == n
  {
    var groups := ColumnGroups(n);
    ConcatLength(groups, 3);
    forall i | 0 <= i < n
      ensures && ColumnNames(n)[3 * i] == "park_id"
              && ColumnNames(n)[3 * i + 1] == "timestamp" + NatToString(i)
              && ColumnNames(n)[3 * i + 2] == "energy_value" + NatToString(i)
    {
      ConcatAt(groups, 3, i, 0);
      ConcatAt(groups, 3, i, 1);
      ConcatAt(groups, 3, i, 2);
      assert groups[i][0] == "park_id";
      assert groups[i][1] == "timestamp" + NatToString(i);
      assert groups[i][2] == "energy_value" + NatToString(i);
    }
    ParkIdCount(n);
  }

  lemma {:induction false} ParkIdCount(n: nat)
    ensures multiset(ColumnNames(n))["park_id"] == n
  {
    if n == 0 {
      assert ColumnGroups(0) == [];
      assert ColumnNames(0) == [];
    } else {
      var before, last := ColumnNames(n - 1), ParkColumns(n - 1);
      ParkIdCount(n - 1);
      ColumnNamesSnoc(n);
      ParkColumnsOneId(n - 1);
      CountAppend(before, last, "park_id");
      assert multiset(ColumnNames(n)) == multiset(before + last);
    }
  }

  lemma CountAppend(a: seq<string>, b: seq<string>, x: string)
    ensures multiset(a + b)[x] == multiset(a)[x] + multiset(b)[x]
  {
  }

  lemma ColumnNamesSnoc(n: nat)
    requires n > 0
    ensures ColumnNames(n) == ColumnNames(n - 1) + ParkColumns(n - 1)
  {
    assert ColumnGroups(n)[..n - 1] == ColumnGroups(n - 1);
  }

  /** Of a park's three columns only the first is `park_id`. */
  lemma ParkColumnsOneId(i: nat)
    ensures multiset(ParkColumns(i))["park_id"] == 1
  {
    var s := NatToString(i);
    assert ("timestamp" + s)[..9] == "timestamp";
    assert ("energy_value" + s)[..12] == "energy_value";
    assert ParkColumns(i) == ["park_id"] + ["timestamp" + s] + ["energy_value" + s];
  }

  /** The projection list has three items per park, in park order: the id literal named
      `park_id`, then `p{i}.timestamp` named `timestamp{i}`, then `p{i}.energy_value` named
      `energy_value{i}`. */
  lemma SelectItemsShape(parkIds: seq<string>)
    ensures |SelectItems(parkIds)| == 3 * |parkIds|
    ensures forall i :: 0 <= i < |parkIds| ==>
      var n := NatToString(i);
      && SelectItems(parkIds)[3 * i] == "'" + parkIds[i] + "' AS park_id"
      && SelectItems(parkIds)[3 * i + 1] == "p" + n + ".timestamp AS timestamp" + n
      && SelectItems(parkIds)[3 * i + 2] == "p" + n + ".energy_value AS energy_value" + n
  {
    var groups := SelectItemGroups(parkIds);
    ConcatLength(groups, 3);
    forall i | 0 <= i < |parkIds|
      ensures var n := NatToString(i);
        && SelectItems(parkIds)[3 * i] == "'" + parkIds[i] + "' AS park_id"
        && SelectItems(parkIds)[3 * i + 1] == "p" + n + ".timestamp AS timestamp" + n
        && SelectItems(parkIds)[3 * i + 2] == "p" + n + ".energy_value AS energy_value" + n
    {
      ConcatAt(groups, 3, i, 0);
      ConcatAt(groups, 3, i, 1);
      ConcatAt(groups, 3, i, 2);
      assert groups[i] == ParkSelectItems(parkIds[i], i);
      assert SelectItems(parkIds)[3 * i] == groups[i][0];
      assert SelectItems(parkIds)[3 * i + 1] == groups[i][1];
      assert SelectItems(parkIds)[3 * i + 2] == groups[i][2];
    }
  }

  /** `item` is some expression named `name` with `AS`. */
  predicate AliasedAs(item: string, name: string) {
    |name| + 4 <= |item| && item[|item| - |name| - 4..] == " AS " + name
  }

  lemma AliasSuffix(expr: string, name: string)
    ensures AliasedAs(expr + " AS " + name, name)
  {
    var item := expr + " AS " + name;
    assert item == expr + (" AS " + name);
    assert item[|item| - |name| - 4..] == " AS " + name;
  }

  /** Each projection item is named with `AS` by the result column at the same position, so
      the columns the parser reads are exactly the aliases of the SELECT list. */
  lemma SelectItemsNamedByColumns(parkIds: seq<string>)
    ensures |SelectItems(parkIds)| == |ColumnNames(|parkIds|)|
    ensures forall k :: 0 <= k < |SelectItems(parkIds)| ==>
      AliasedAs(SelectItems(parkIds)[k], ColumnNames(|parkIds|)[k])
  {
    ConcatLength(SelectItemGroups(parkIds), 3);
    ConcatLength(ColumnGroups(|parkIds|), 3);
    forall k | 0 <= k < |SelectItems(parkIds)|
      ensures AliasedAs(SelectItems(parkIds)[k], ColumnNames(|parkIds|)[k])
    {
      ItemNamed(parkIds, k / 3, k % 3, k);
    }
  }

  lemma ItemNamed(parkIds: seq<string>, i: nat, j: nat, k: nat)
    requires i < |parkIds| && j < 3 && k == 3 * i + j
    ensures k < |SelectItems(parkIds)| && k < |ColumnNames(|parkIds|)|
    ensures AliasedAs(SelectItems(parkIds)[k], ColumnNames(|parkIds|)[k])
  {
    var items, columns := SelectItemGroups(parkIds), ColumnGroups(|parkIds|);
    ConcatAt(items, 3, i, j);
    ConcatAt(columns, 3, i, j);
    ParkItemNamed(parkIds[i], i, j);
  }

  lemma ParkItemNamed(parkId: string, i: nat, j: nat)
    requires j < 3
    ensures AliasedAs(ParkSelectItems(parkId, i)[j], ParkColumns(i)[j])
  {
    var n := NatToString(i);
    if j == 0 {
      assert "'" + parkId + "' AS park_id" == ("'" + parkId + "'") + " AS " + "park_id";
      AliasSuffix("'" + parkId + "'", "park_id");
    } else if j == 1 {
      assert "p" + n + ".timestamp AS timestamp" + n == ("p" + n + ".timestamp") + " AS " + ("timestamp" + n);
      AliasSuffix("p" + n + ".timestamp", "timestamp" + n);
    } else {
      assert "p" + n + ".energy_value AS energy_value" + n == ("p" + n + ".energy_value") + " AS " + ("energy_value" + n);
      AliasSuffix("p" + n + ".energy_value", "energy_value" + n);
    }
  }

  /** The WHERE clause is `2 * n` comparisons joined by " AND ": for each park `p{i}` in
      order, `>=` the start bound, then `<=` the end bound. */
  lemma ComparisonsShape(n: nat, startDt: string, endDt: string)
    ensures |Comparisons(n, startDt, endDt)| == 2 * n
    ensures forall i :: 0 <= i < n ==>
      var p := "CAST(p" + NatToString(i) + ".timestamp AS timestamp) ";
      && Comparisons(n, startDt, endDt)[2 * i] == p + ">= CAST('" + startDt + "' AS timestamp)"
      && Comparisons(n, startDt, endDt)[2 * i + 1] == p + "<= CAST('" + endDt + "' AS timestamp)"
  {
    var groups := ComparisonGroups(n, startDt, endDt);
    ConcatLength(groups, 2);
    forall i | 0 <= i < n
      ensures var p := "CAST(p" + NatToString(i) + ".timestamp AS timestamp) ";
        && Comparisons(n, startDt, endDt)[2 * i] == p + ">= CAST('" + startDt + "' AS timestamp)"
        && Comparisons(n, startDt, endDt)[2 * i + 1] == p + "<= CAST('" + endDt + "' AS timestamp)"
    {
      ConcatAt(groups, 2, i, 0);
      ConcatAt(groups, 2, i, 1);
      ParkComparisonsText(i, startDt, endDt);
    }
  }

  lemma ParkComparisonsText(i: nat, startDt: string, endDt: string)
    ensures var p := "CAST(p" + NatToString(i) + ".timestamp AS timestamp) ";
      && ParkComparisons(i, startDt, endDt)[0] == p + ">= CAST('" + startDt + "' AS timestamp)"
      && ParkComparisons(i, startDt, endDt)[1] == p + "<= CAST('" + endDt + "' AS timestamp)"
  {
  }

  lemma SelectGroupIsJoin(parkId: string, i: nat)
    ensures SelectGroup(parkId, i) == Join(", ", ParkSelectItems(parkId, i))
  {
    var n := NatToString(i);
    var a, b, c := "'" + parkId + "' AS park_id", "p" + n + ".timestamp AS timestamp" + n,
                   "p" + n + ".energy_value AS energy_value" + n;
    assert ParkSelectItems(parkId, i) == [a, b, c];
    JoinThree(", ", a, b, c);
  }

  lemma WhereGroupIsJoin(i: nat, startDt: string, endDt: string)
    ensures WhereGroup(i, startDt, endDt) == Join(" AND ", ParkComparisons(i, startDt, endDt))
  {
    var pc := ParkComparisons(i, startDt, endDt);
    JoinTwo(" AND ", pc[0], pc[1]);
  }

  /** The per-park SELECT groups, joined, are the projection items joined. */
  lemma SelectClauseItems(parkIds: seq<string>)
    ensures Join(", ", SelectGroups(parkIds)) == Join(", ", SelectItems(parkIds))
  {
    var groups := SelectItemGroups(parkIds);
    forall i | 0 <= i < |parkIds|
      ensures |groups[i]| > 0 && SelectGroups(parkIds)[i] == Join(", ", groups[i])
    {
      SelectGroupIsJoin(parkIds[i], i);
    }
    JoinOfJoins(", ", groups, SelectGroups(parkIds));
  }

  /** The per-park WHERE groups, joined, are the comparisons joined. */
  lemma WhereClauseComparisons(n: nat, startDt: string, endDt: string)
    ensures Join(" AND ", WhereGroups(n, startDt, endDt)) == Join(" AND ", Comparisons(n, startDt, endDt))
  {
    var groups := ComparisonGroups(n, startDt, endDt);
    forall i | 0 <= i < n
      ensures |groups[i]| > 0 && WhereGroups(n, startDt, endDt)[i] == Join(" AND ", groups[i])
    {
      WhereGroupIsJoin(i, startDt, endDt);
    }
    JoinOfJoins(" AND ", groups, WhereGroups(n, startDt, endDt));
  }

  /** The query text, item by item: the projection items joined by ", ", the tables
      `{park_id} AS p{i}` joined by "," (no space), the comparisons joined by " AND " and the
      order columns `timestamp{i}` joined by ", " and followed by ASC. */
  lemma FormatQueryStringLayout(parkIds: seq<string>, start: int, end: int)
    requires FormatQueryString(parkIds, start, end).Success?
    ensures var startDt, endDt := RenderTimeBound(start).value, RenderTimeBound(end).value;
      FormatQueryString(parkIds, start, end).value
      == "SELECT " + Join(", ", SelectItems(parkIds))
         + LineBreak + "FROM " + Join(",", TableNames(parkIds))
         + LineBreak + "WHERE " + Join(" AND ", Comparisons(|parkIds|, startDt, endDt))
         + LineBreak + "ORDER BY " + Join(", ", OrderColumns(|parkIds|)) + " ASC"
  {
    SelectClauseItems(parkIds);
    WhereClauseComparisons(|parkIds|, RenderTimeBound(start).value, RenderTimeBound(end).value);
  }

  /** The table aliases `p0`, ..., `p{n-1}` are pairwise distinct, and so are the timestamp
      columns `timestamp0`, ..., `timestamp{n-1}`. */
  lemma AliasesDistinct(i: nat, j: nat)
    requires i != j
    ensures "p" + NatToString(i) != "p" + NatToString(j)
    ensures OrderColumn(i) != OrderColumn(j)
  {
    NatToStringInjective(i, j);
    assert ("p" + NatToString(i))[1..] == NatToString(i);
    assert ("p" + NatToString(j))[1..] == NatToString(j);
    assert OrderColumn(i)[9..] == NatToString(i);
    assert OrderColumn(j)[9..] == NatToString(j);
  }

  /** The two bounds used in the module's own example: 2022-03-13 00:38:02 and one hour later. */
  lemma RenderTimeBoundExample()
    ensures RenderTimeBound(1647131882000) == Success("2022-03-13 00:38:02")
    ensures RenderTimeBound(1647135482000) == Success("2022-03-13 01:38:02")
  {
    RenderStartBound();
    RenderEndBound();
  }

  lemma RenderStartBound()
    ensures RenderTimeBound(1647131882000) == Success("2022-03-13 00:38:02")
  {
    assert 1647131882000 / 1000 == 1647131882;
    UtcFromTimestampExample();
    StrftimeStart();
  }

  lemma RenderEndBound()
    ensures RenderTimeBound(1647135482000) == Success("2022-03-13 01:38:02")
  {
    assert 1647135482000 / 1000 == 1647135482;
    UtcFromTimestampExample();
    StrftimeEnd();
  }

  lemma StrftimeStart()
    ensures Strftime(DateTime(2022, 3, 13, 0, 38, 2)) == "2022-03-13 00:38:02"
  {
    FixedYear2022();
    FixedDate0313();
    FixedTime3802();
    FixedHours();
    StartLiteral();
  }

  lemma StrftimeEnd()
    ensures Strftime(DateTime(2022, 3, 13, 1, 38, 2)) == "2022-03-13 01:38:02"
  {
    FixedYear2022();
    FixedDate0313();
    FixedTime3802();
    FixedHours();
    EndLiteral();
  }

  lemma FixedDate0313()
    ensures Fixed(3, 2) == "03" && Fixed(13, 2) == "13"
  {
  }

  lemma FixedTime3802()
    ensures Fixed(38, 2) == "38" && Fixed(2, 2) == "02"
  {
  }

  lemma FixedHours()
    ensures Fixed(0, 2) == "00" && Fixed(1, 2) == "01"
  {
  }

  lemma StartLiteral()
    ensures "2022" + "-" + "03" + "-" + "13" + " " + "00" + ":" + "38" + ":" + "02" == "2022-03-13 00:38:02"
  {
  }

  lemma EndLiteral()
    ensures "2022" + "-" + "03" + "-" + "13" + " " + "01" + ":" + "38" + ":" + "02" == "2022-03-13 01:38:02"
  {
  }

  lemma FixedYear2022()
    ensures Fixed(2022, 4) == "2022"
  {
    assert Fixed(2, 1) == "2";
    assert Fixed(20, 2) == "20";
    assert Fixed(202, 3) == "202";
  }
}
