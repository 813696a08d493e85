/** The reshaping half of `Athena._Query.format_paginated_query_results`
    (layers/utils/athena.py): how the pages of a result set are turned into one mapping from
    park to readings, stated as functions of the pages, with the properties of that mapping. */
module Pagination {
  import opened Wrappers
  import opened ResultParser

  /** One answer of `get_query_results`: the continuation token (absent on the last page), the
      `ResultSetMetadata` dictionary and the `Data` cell lists of the `Rows`. */
  datatype Page = Page(nextToken: Option<string>, metadata: map<string, seq<ColumnInfo>>, rows: seq<seq<Cell>>)

  /** What the loop carries from page to page: the header and the readings merged so far. */
  datatype PageState = PageState(header: seq<Column>, results: ParkReadings)

  const InitialPageState := PageState([], map[])

  /** The readings of park `p`, or none when `p` is not a key. */
  function Lookup(f: ParkReadings, p: string): seq<Reading> {
    if p in f then f[p] else []
  }

  /** The effect of the loop over `formatted_row.items()`: every park of `row` gets an entry
      if it has none, and its list of `row` is appended to that entry. */
  function Merge(results: ParkReadings, row: ParkReadings): ParkReadings {
    map p | p in results.Keys + row.Keys :: Lookup(results, p) + Lookup(row, p)
  }

  /** The rows a page contributes: all but its first (`Rows[1:]`), on every page. */
  function DataRows(page: Page): seq<seq<Cell>> {
    if |page.rows| == 0 then [] else page.rows[1..]
  }

  /** Parsing rows one after another and merging each into `results`; the first row that
      does not parse ends the fold with its error. */
  function MergeRows(results: ParkReadings, rows: seq<seq<Cell>>, header: seq<Column>): Result<ParkReadings>
    decreases |rows|, 1
  {
    if rows == [] then Success(results) else MergeLastRow(results, rows, header)
  }

  /** The last row's turn of `MergeRows`, on what the rows before it give. */
  function MergeLastRow(results: ParkReadings, rows: seq<seq<Cell>>, header: seq<Column>): Result<ParkReadings>
    requires rows != []
    decreases |rows|, 0
  {
    var before :- MergeRows(results, rows[..|rows| - 1], header);
    var row :- ParseRow(rows[|rows| - 1], header);
    Success(Merge(before, row))
  }

  /** One more row: a failure so far stays, a row that does not parse ends the fold with its
      error, and otherwise the row is merged. */
  lemma MergeRowsOneMore(results: ParkReadings, rows: seq<seq<Cell>>, header: seq<Column>)
    requires rows != []
    ensures var before := MergeRows(results, rows[..|rows| - 1], header);
      var row := ParseRow(rows[|rows| - 1], header);
      MergeRows(results, rows, header)
      == if before.Failure? then before
         else if row.Failure? then Failure(row.error)
         else Success(Merge(before.value, row.value))
  {
  }

  /** One turn of the page loop: the header is parsed from this page's metadata while it is
      still empty, then the page's data rows are merged. */
  function PageStep(st: PageState, page: Page): Result<PageState> {
    var header :- if st.header == [] then ParseQueryResultMetadata(page.metadata) else Success(st.header);
    var results :- MergeRows(st.results, DataRows(page), header);
    Success(PageState(header, results))
  }

  /** The state after the pages fetched so far, in fetch order. */
  function FoldPages(pages: seq<Page>): Result<PageState>
    decreases |pages|, 1
  {
    if pages == [] then Success(InitialPageState) else FoldLastPage(pages)
  }

  /** The last page's turn of `FoldPages`, on the state the pages before it give. */
  function FoldLastPage(pages: seq<Page>): Result<PageState>
    requires pages != []
    decreases |pages|, 0
  {
    var st :- FoldPages(pages[..|pages| - 1]);
    PageStep(st, pages[|pages| - 1])
  }

  /** One more page: a failure so far stays, and otherwise the page takes its turn. */
  lemma FoldPagesOneMore(pages: seq<Page>)
    requires pages != []
    ensures var before := FoldPages(pages[..|pages| - 1]);
      FoldPages(pages) == if before.Failure? then before else PageStep(before.value, pages[|pages| - 1])
  {
  }

  /** The same fold over the pages `from` up to `stop - 1` of a longer script, by position. */
  function FoldRun(pages: seq<Page>, from: nat, stop: nat): Result<PageState>
    requires from <= stop <= |pages|
    decreases stop, 1
  {
    if stop == from then Success(InitialPageState) else FoldRunStep(pages, from, stop)
  }

  /** The last page's turn of `FoldRun`, on the state the pages before it give. */
  function FoldRunStep(pages: seq<Page>, from: nat, stop: nat): Result<PageState>
    requires from < stop <= |pages|
    decreases stop, 0
  {
    var st :- FoldRun(pages, from, stop - 1);
    PageStep(st, pages[stop - 1])
  }

  function ResultsOf(r: Result<PageState>): Result<ParkReadings> {
    if r.Success? then Success(r.value.results) else Failure(r.error)
  }

  /** The `MaxResults` argument actually sent: only a truthy `max_results` (present and not 0). */
  function SentMaxResults(maxResults: Option<int>): (sent: Option<int>)
    ensures sent.Some? <==> maxResults.Some? && maxResults.value != 0
    ensures sent.Some? ==> sent == maxResults
  {
    if maxResults.Some? && maxResults.value != 0 then maxResults else None
  }

  // ---------------------------------------------------------------------------------------
  // Where the loop stops

  /** Some page at or after `from` has no continuation token. */
  predicate LastPageAhead(pages: seq<Page>, from: nat) {
    exists i :: from <= i < |pages| && pages[i].nextToken.None?
  }

  /** The first page at or after `from` without a continuation token: the last page fetched. */
  function LastPage(pages: seq<Page>, from: nat): (k: nat)
    requires LastPageAhead(pages, from)
    ensures from <= k < |pages| && pages[k].nextToken.None?
    ensures forall j :: from <= j < k ==> pages[j].nextToken.Some?
    decreases |pages| - from
  {
    if pages[from].nextToken.None? then from else LastPage(pages, from + 1)
  }

  // ---------------------------------------------------------------------------------------
  // Merging

  lemma MergeLookup(results: ParkReadings, row: ParkReadings, p: string)
    ensures (p in Merge(results, row)) <==> (p in results || p in row)
    ensures Lookup(Merge(results, row), p) == Lookup(results, p) + Lookup(row, p)
  {
  }

  /** The empty mapping is neutral on both sides. */
  lemma MergeIdentity(f: ParkReadings)
    ensures Merge(map[], f) == f && Merge(f, map[]) == f
  {
    forall p ensures (p in Merge(map[], f) <==> p in f) && Lookup(Merge(map[], f), p) == Lookup(f, p) {
      MergeLookup(map[], f, p);
      assert [] + Lookup(f, p) == Lookup(f, p);
    }
    forall p ensures (p in Merge(f, map[]) <==> p in f) && Lookup(Merge(f, map[]), p) == Lookup(f, p) {
      MergeLookup(f, map[], p);
      assert Lookup(f, p) + [] == Lookup(f, p);
    }
    SameLookups(Merge(map[], f), f);
    SameLookups(Merge(f, map[]), f);
  }

  /** Merging is associative, so merging row by row is merging the rows' own merge. */
  lemma MergeAssociative(a: ParkReadings, b: ParkReadings, c: ParkReadings)
    ensures Merge(Merge(a, b), c) == Merge(a, Merge(b, c))
  {
    var left, right := Merge(Merge(a, b), c), Merge(a, Merge(b, c));
    forall p ensures (p in left <==> p in right) && Lookup(left, p) == Lookup(right, p) {
      MergeAssociativeAt(a, b, c, p);
    }
    SameLookups(left, right);
  }

  lemma MergeAssociativeAt(a: ParkReadings, b: ParkReadings, c: ParkReadings, p: string)
    ensures p in Merge(Merge(a, b), c) <==> p in Merge(a, Merge(b, c))
    ensures Lookup(Merge(Merge(a, b), c), p) == Lookup(Merge(a, Merge(b, c)), p)
  {
    var ab, bc := Merge(a, b), Merge(b, c);
    MergeLookup(a, b, p);
    MergeLookup(b, c, p);
    MergeLookup(ab, c, p);
    MergeLookup(a, bc, p);
    SeqAssociative(Lookup(a, p), Lookup(b, p), Lookup(c, p));
  }

  lemma SeqAssociative(x: seq<Reading>, y: seq<Reading>, z: seq<Reading>)
    ensures x + y + z == x + (y + z)
  {
  }

  lemma SameLookups(f: ParkReadings, g: ParkReadings)
    requires forall p :: (p in f <==> p in g) && Lookup(f, p) == Lookup(g, p)
    ensures f == g
  {
    assert f.Keys == g.Keys;
    forall p | p in f ensures f[p] == g[p] {
      assert Lookup(f, p) == Lookup(g, p);
    }
  }

  /** What the rows add does not depend on what came before: their own merge is appended to
      the earlier results. */
  lemma {:induction false} MergeRowsAppend(results: ParkReadings, rows: seq<seq<Cell>>, header: seq<Column>)
    ensures var own := MergeRows(map[], rows, header);
      MergeRows(results, rows, header) == if own.Success? then Success(Merge(results, own.value)) else own
  {
    if rows == [] {
      MergeIdentity(results);
    } else {
      var init := rows[..|rows| - 1];
      MergeRowsAppend(results, init, header);
      var own := MergeRows(map[], init, header);
      if own.Success? && ParseRow(rows[|rows| - 1], header).Success? {
        MergeAssociative(results, own.value, ParseRow(rows[|rows| - 1], header).value);
      }
    }
  }

  /** The loop over rows succeeds only when every row parses. */
  lemma {:induction false} MergeRowsParsed(results: ParkReadings, rows: seq<seq<Cell>>, header: seq<Column>)
    requires MergeRows(results, rows, header).Success?
    ensures forall i :: 0 <= i < |rows| ==> ParseRow(rows[i], header).Success?
  {
    if rows != [] {
      var init := rows[..|rows| - 1];
      MergeRowsParsed(results, init, header);
      assert forall i :: 0 <= i < |init| ==> init[i] == rows[i];
    }
  }

  /** The result of the loop over rows for park `p` is its earlier list followed by each row's
      list, row by row. */
  lemma {:induction false} MergeRowsOrder(results: ParkReadings, rows: seq<seq<Cell>>, header: seq<Column>, p: string)
    requires MergeRows(results, rows, header).Success?
    ensures Lookup(MergeRows(results, rows, header).value, p) == Lookup(results, p) + RowsLookup(rows, header, p)
  {
    if rows != [] {
      var init := rows[..|rows| - 1];
      MergeRowsOneMore(results, rows, header);
      MergeRowsOrder(results, init, header, p);
      var before := MergeRows(results, init, header).value;
      var last := ParseRow(rows[|rows| - 1], header).value;
      MergeLookup(before, last, p);
      RowsLookupPrefix(rows, header, p);
    }
  }

  /** Park `p`'s readings from each of `rows`, concatenated in row order (rows that do not
      parse contribute nothing; `MergeRowsOrder` is only about rows that all parse). */
  function RowsLookup(rows: seq<seq<Cell>>, header: seq<Column>, p: string): seq<Reading> {
    if rows == [] then []
    else
      var parsed := ParseRow(rows[|rows| - 1], header);
      RowsLookup(rows[..|rows| - 1], header, p) + (if parsed.Success? then Lookup(parsed.value, p) else [])
  }

  lemma RowsLookupPrefix(rows: seq<seq<Cell>>, header: seq<Column>, p: string)
    requires rows != [] && ParseRow(rows[|rows| - 1], header).Success?
    ensures RowsLookup(rows, header, p)
         == RowsLookup(rows[..|rows| - 1], header, p) + Lookup(ParseRow(rows[|rows| - 1], header).value, p)
  {
  }

  /** A row that fails makes the whole loop over rows fail with its error. */
  lemma {:induction false} MergeRowsFailureSticks(results: ParkReadings, rows: seq<seq<Cell>>, header: seq<Column>, j: nat)
    requires j < |rows| && MergeRows(results, rows[..j], header).Success?
    requires ParseRow(rows[j], header).Failure?
    ensures MergeRows(results, rows, header) == Failure(ParseRow(rows[j], header).error)
    decreases |rows|
  {
    var init := rows[..|rows| - 1];
    if j == |rows| - 1 {
      assert init == rows[..j];
    } else {
      assert init[..j] == rows[..j];
      assert init[j] == rows[j];
      MergeRowsFailureSticks(results, init, header, j);
    }
  }

  // ---------------------------------------------------------------------------------------
  // Pages

  /** Each page appends, for every park, the page's own readings to what the earlier pages
      gave: the results are in page order, then row order within a page. */
  lemma PageOrder(st: PageState, page: Page, p: string)
    requires PageStep(st, page).Success?
    ensures var next := PageStep(st, page).value;
      var own := MergeRows(map[], DataRows(page), next.header);
      && own.Success?
      && Lookup(next.results, p) == Lookup(st.results, p) + Lookup(own.value, p)
      && Lookup(own.value, p) == RowsLookup(DataRows(page), next.header, p)
  {
    var next := PageStep(st, page).value;
    PageStepMerges(st, page);
    RowsAppendOrder(st.results, DataRows(page), next.header, next.results, p);
  }

  /** Rows merged into earlier results add, for every park, the rows' own readings after the
      earlier ones. */
  lemma RowsAppendOrder(results: ParkReadings, rows: seq<seq<Cell>>, header: seq<Column>, merged: ParkReadings, p: string)
    requires MergeRows(results, rows, header) == Success(merged)
    ensures var own := MergeRows(map[], rows, header);
      && own.Success?
      && Lookup(merged, p) == Lookup(results, p) + Lookup(own.value, p)
      && Lookup(own.value, p) == RowsLookup(rows, header, p)
  {
    MergeRowsAppend(results, rows, header);
    var own := MergeRows(map[], rows, header);
    assert own.Success? && merged == Merge(results, own.value);
    MergeLookup(results, own.value, p);
    MergeRowsOrder(map[], rows, header, p);
    assert Lookup(map[], p) == [];
  }

  /** A page's turn that succeeds merges the page's data rows under the header it settles on. */
  lemma PageStepMerges(st: PageState, page: Page)
    requires PageStep(st, page).Success?
    ensures MergeRows(st.results, DataRows(page), PageStep(st, page).value.header)
         == Success(PageStep(st, page).value.results)
  {
  }

  /** Once a page's metadata has given a non-empty header, later pages keep it. */
  lemma {:induction false} FirstHeaderKept(pages: seq<Page>, header: seq<Column>)
    requires |pages| > 0 && ParseQueryResultMetadata(pages[0].metadata) == Success(header) && header != []
    requires FoldPages(pages).Success?
    ensures FoldPages(pages).value.header == header
  {
    FoldPagesOneMore(pages);
    var init := pages[..|pages| - 1];
    if |pages| == 1 {
      assert init == [];
    } else {
      assert init[0] == pages[0];
      FirstHeaderKept(init, header);
    }
  }

  /** While the metadata gives an empty header, the header is parsed again from the next page. */
  lemma EmptyHeaderRetried(st: PageState, page: Page)
    requires st.header == [] && PageStep(st, page).Success?
    ensures ParseQueryResultMetadata(page.metadata).Success?
    ensures PageStep(st, page).value.header == ParseQueryResultMetadata(page.metadata).value
  {
  }

  /** Pages that agree on metadata and data rows give the same results. */
  lemma {:induction false} FoldPagesCongruent(pages: seq<Page>, others: seq<Page>)
    requires |pages| == |others|
    requires forall i :: 0 <= i < |pages| ==> pages[i].metadata == others[i].metadata && DataRows(pages[i]) == DataRows(others[i])
    ensures FoldPages(pages) == FoldPages(others)
  {
    if pages != [] {
      var n := |pages| - 1;
      FoldPagesCongruent(pages[..n], others[..n]);
    }
  }

  /** The first row of every page, not only of the first, is skipped: changing it changes
      nothing. */
  lemma FirstRowIgnored(pages: seq<Page>, i: nat, row: seq<Cell>)
    requires i < |pages| && |pages[i].rows| > 0
    ensures FoldPages(pages[i := pages[i].(rows := [row] + pages[i].rows[1..])]) == FoldPages(pages)
  {
    var others := pages[i := pages[i].(rows := [row] + pages[i].rows[1..])];
    assert DataRows(others[i]) == DataRows(pages[i]) by {
      assert ([row] + pages[i].rows[1..])[1..] == pages[i].rows[1..];
    }
    FoldPagesCongruent(others, pages);
  }

  // ---------------------------------------------------------------------------------------
  // The loop bodies of `format_paginated_query_results`

  /** The loop over `formatted_row.items()`, in whatever order the keys come. */
  method ExtendResults(results: ParkReadings, row: ParkReadings) returns (merged: ParkReadings)
    ensures merged == Merge(results, row)
  {
    merged := results;
    var pending := row.Keys;
    ghost var done: set<string> := {};
    RestrictBounds(row);
    MergeIdentity(results);
    while pending != {}
      invariant done !! pending && done + pending == row.Keys
      invariant merged == Merge(results, Restrict(row, done))
      decreases |pending|
    {
      var p :| p in pending;
      MergeOneMore(results, row, done, p);
      if p !in merged {
        merged := merged[p := []];
      }
      merged := merged[p := merged[p] + row[p]];
      pending := pending - {p};
      done := done + {p};
    }
    assert done == row.Keys;
  }

  /** The entries of `row` whose keys are in `keys`. */
  function Restrict(row: ParkReadings, keys: set<string>): ParkReadings
    requires keys <= row.Keys
  {
    map p | p in keys :: row[p]
  }

  lemma RestrictBounds(row: ParkReadings)
    ensures Restrict(row, {}) == map[] && Restrict(row, row.Keys) == row
  {
  }

  lemma MergeOneMore(results: ParkReadings, row: ParkReadings, done: set<string>, p: string)
    requires done <= row.Keys && p in row && p !in done
    ensures var before := Merge(results, Restrict(row, done));
      var entry := if p in before then before else before[p := []];
      Merge(results, Restrict(row, done + {p})) == entry[p := entry[p] + row[p]]
  {
    var before := Merge(results, Restrict(row, done));
    var entry := if p in before then before else before[p := []];
    var after := Merge(results, Restrict(row, done + {p}));
    forall q ensures (q in after <==> q in entry[p := entry[p] + row[p]])
                  && Lookup(after, q) == Lookup(entry[p := entry[p] + row[p]], q) {
      MergeLookup(results, Restrict(row, done), q);
      MergeLookup(results, Restrict(row, done + {p}), q);
      if q == p {
        assert Lookup(Restrict(row, done), p) == [];
        assert Lookup(Restrict(row, done + {p}), p) == row[p];
        assert Lookup(results, p) + [] == Lookup(results, p);
      } else {
        assert Lookup(Restrict(row, done + {p}), q) == Lookup(Restrict(row, done), q);
      }
    }
    SameLookups(after, entry[p := entry[p] + row[p]]);
  }

  /** One turn of the page loop after the page has been fetched. */
  method ReshapePage(st: PageState, page: Page) returns (r: Result<PageState>)
    ensures r == PageStep(st, page)
  {
    var header := st.header;
    if header == [] {
      var parsed := ParseQueryResultMetadata(page.metadata);
      if parsed.Failure? {
        return Failure(parsed.error);
      }
      header := parsed.value;
    }
    var results := ReshapeRows(st.results, DataRows(page), header);
    if results.Failure? {
      return Failure(results.error);
    }
    r := Success(PageState(header, results.value));
  }

  /** The row loop of one page: each data row is parsed and merged into the results, and the
      first row that does not parse ends it with its error. */
  method ReshapeRows(earlier: ParkReadings, rows: seq<seq<Cell>>, header: seq<Column>) returns (r: Result<ParkReadings>)
    ensures r == MergeRows(earlier, rows, header)
  {
    var results := earlier;
    for j := 0 to |rows|
      invariant MergeRows(earlier, rows[..j], header) == Success(results)
    {
      var parsed := ParseQueryResultRow(rows[j], header);
      if parsed.Failure? {
        MergeRowsFailureSticks(earlier, rows, header, j);
        return Failure(parsed.error);
      }
      assert rows[..j + 1][..j] == rows[..j];
      results := ExtendResults(results, parsed.value);
    }
    assert rows[..|rows|] == rows;
    r := Success(results);
  }

  /** Folding a run of the script by position is folding its slice. */
  lemma {:induction false} FoldRunIsFold(pages: seq<Page>, from: nat, stop: nat)
    requires from <= stop <= |pages|
    ensures FoldRun(pages, from, stop) == FoldPages(pages[from..stop])
    decreases stop
  {
    if stop > from {
      FoldRunIsFold(pages, from, stop - 1);
      var run := pages[from..stop];
      assert run[..|run| - 1] == pages[from..stop - 1];
      assert run[|run| - 1] == pages[stop - 1];
      FoldPagesOneMore(run);
    }
  }

  /** A page reshaped onto the state of the pages before it in the script, as one more step of
      the fold over the pages `from` up to `stop - 1`. */
  method ReshapeNext(ghost pages: seq<Page>, ghost from: nat, ghost stop: nat, st: PageState, page: Page)
    returns (r: Result<PageState>)
    requires from < stop <= |pages| && page == pages[stop - 1]
    requires FoldRun(pages, from, stop - 1) == Success(st)
    ensures r == FoldRun(pages, from, stop)
  {
    r := ReshapePage(st, page);
  }
}
