/** `Athena._Query` and `get_athena_query` (layers/utils/athena.py) against a scripted query
    engine client: the status cache, the polling loop, the page loop, and the failure check. */
module AthenaQuery {
  import opened Wrappers
  import opened ResultParser
  import opened Pagination
  import QueryBuilder

  /** One answer of `get_query_execution`: the state label and, when the engine gives one, the
      reason for the last state change. */
  datatype StatusResponse = StatusResponse(state: string, reason: Option<string>)

  /** The keyword arguments of one `get_query_results` call (`NextToken` is absent on the
      first call). */
  datatype PageRequest = PageRequest(queryId: string, maxResults: Option<int>, nextToken: Option<string>)

  /** The part of the stage's Athena configuration the query handle reads. */
  datatype Configuration = Configuration(database: string, final: seq<string>, failed: seq<string>, pollInterval: int)

  /** The cached `_status` dictionary: `value` and `reason`. */
  datatype StatusRecord = StatusRecord(value: string, reason: string)

  /** The query engine as a script: the execution id it hands out, the status answers and the
      result pages it gives in turn, and a log of every call made to it. */
  class Client {
    const executionId: string
    const statusScript: seq<StatusResponse>
    const pageScript: seq<Page>
    var submitted: seq<(string, string)>
    var statusCursor: nat
    var statusCalls: seq<string>
    var pageCursor: nat
    var pageRequests: seq<PageRequest>

    constructor (executionId: string, statusScript: seq<StatusResponse>, pageScript: seq<Page>)
      ensures this.executionId == executionId
      ensures this.statusScript == statusScript && this.pageScript == pageScript
      ensures submitted == [] && statusCursor == 0 && statusCalls == [] && pageCursor == 0 && pageRequests == []
    {
      this.executionId := executionId;
      this.statusScript := statusScript;
      this.pageScript := pageScript;
      submitted := [];
      statusCursor := 0;
      statusCalls := [];
      pageCursor := 0;
      pageRequests := [];
    }

    /** `start_query_execution`: the query text and database are recorded. */
    method StartQueryExecution(queryString: string, database: string) returns (id: string)
      modifies this
      ensures id == executionId
      ensures submitted == old(submitted) + [(queryString, database)]
      ensures statusCursor == old(statusCursor) && statusCalls == old(statusCalls)
      ensures pageCursor == old(pageCursor) && pageRequests == old(pageRequests)
    {
      submitted := submitted + [(queryString, database)];
      id := executionId;
    }

    /** `get_query_execution`: the next status answer of the script. */
    method GetQueryExecution(queryId: string) returns (response: StatusResponse)
      requires statusCursor < |statusScript|
      modifies this
      ensures response == statusScript[old(statusCursor)]
      ensures statusCursor == old(statusCursor) + 1 && statusCalls == old(statusCalls) + [queryId]
      ensures submitted == old(submitted) && pageCursor == old(pageCursor) && pageRequests == old(pageRequests)
    {
      response := statusScript[statusCursor];
      statusCursor := statusCursor + 1;
      statusCalls := statusCalls + [queryId];
    }

    /** `get_query_results`: the next page of the script. */
    method GetQueryResults(request: PageRequest) returns (page: Page)
      requires pageCursor < |pageScript|
      modifies this
      ensures page == pageScript[old(pageCursor)]
      ensures pageCursor == old(pageCursor) + 1 && pageRequests == old(pageRequests) + [request]
      ensures submitted == old(submitted) && statusCursor == old(statusCursor) && statusCalls == old(statusCalls)
    {
      page := pageScript[pageCursor];
      pageCursor := pageCursor + 1;
      pageRequests := pageRequests + [request];
    }
  }

  /** The record a status answer is stored as: a missing reason becomes the empty string. */
  function RecordOf(response: StatusResponse): (record: StatusRecord)
    ensures record.value == response.state
    ensures response.reason.Some? ==> record.reason == response.reason.value
    ensures response.reason.None? ==> record.reason == ""
  {
    StatusRecord(response.state, response.reason.GetOr(""))
  }

  /** `n` copies of `x`. */
  function Repeat<T>(x: T, n: nat): (s: seq<T>)
    ensures |s| == n && forall i :: 0 <= i < n ==> s[i] == x
  {
    if n == 0 then [] else Repeat(x, n - 1) + [x]
  }

  /** The `get_query_results` calls the page loop makes for the pages `from` up to `stop - 1` of
      the script: the first without a token, each later one with the token of the page before. */
  function Requests(queryId: string, sent: Option<int>, pages: seq<Page>, from: nat, stop: nat): seq<PageRequest>
    requires from <= stop <= |pages|
    decreases stop
  {
    if stop == from then []
    else Requests(queryId, sent, pages, from, stop - 1) + [PageRequest(queryId, sent, if stop - 1 == from then None else pages[stop - 2].nextToken)]
  }

  /** One request per page; all with the same `MaxResults`; the first without a token and each
      later one with the preceding page's token. */
  lemma {:induction false} RequestsShape(queryId: string, sent: Option<int>, pages: seq<Page>, from: nat, stop: nat)
    requires from <= stop <= |pages|
    ensures |Requests(queryId, sent, pages, from, stop)| == stop - from
    ensures forall i :: 0 <= i < stop - from ==>
      Requests(queryId, sent, pages, from, stop)[i]
      == PageRequest(queryId, sent, if i == 0 then None else pages[from + i - 1].nextToken)
    decreases stop
  {
    if stop > from {
      RequestsShape(queryId, sent, pages, from, stop - 1);
    }
  }

  /** Pages fetched up to the last one at most: every request after the first carries a token,
      so no call is made once the token has run out. */
  lemma RequestsCarryTokens(queryId: string, sent: Option<int>, pages: seq<Page>, from: nat, stop: nat)
    requires LastPageAhead(pages, from) && from <= stop <= LastPage(pages, from) + 1
    ensures var requests := Requests(queryId, sent, pages, from, stop);
      forall i :: 0 < i < |requests| ==> requests[i].nextToken.Some?
  {
    RequestsShape(queryId, sent, pages, from, stop);
  }

  /** The call log after one more page request. */
  lemma LogOneMore(log: seq<PageRequest>, queryId: string, sent: Option<int>, pages: seq<Page>, from: nat, stop: nat)
    requires from < stop <= |pages|
    ensures log + Requests(queryId, sent, pages, from, stop - 1)
                + [PageRequest(queryId, sent, if stop - 1 == from then None else pages[stop - 2].nextToken)]
         == log + Requests(queryId, sent, pages, from, stop)
  {
    var request := PageRequest(queryId, sent, if stop - 1 == from then None else pages[stop - 2].nextToken);
    var earlier := Requests(queryId, sent, pages, from, stop - 1);
    assert log + earlier + [request] == log + (earlier + [request]);
  }

  /** Some status answer at or after `from` is final. */
  predicate FinalAhead(script: seq<StatusResponse>, from: nat, final: seq<string>) {
    exists i :: from <= i < |script| && script[i].state in final
  }

  /** The first final status answer at or after `from`: where polling stops. */
  function FirstFinal(script: seq<StatusResponse>, from: nat, final: seq<string>): (k: nat)
    requires FinalAhead(script, from, final)
    ensures from <= k < |script| && script[k].state in final
    ensures forall j :: from <= j < k ==> script[j].state !in final
    decreases |script| - from
  {
    if script[from].state in final then from else FirstFinal(script, from + 1, final)
  }

  /** `Athena._Query`: a submitted query, the client it was submitted through, and the cached
      status (`None` until the first status call). */
  class Query {
    const queryId: string
    const client: Client
    const configuration: Configuration
    var status: Option<StatusRecord>

    constructor (queryId: string, client: Client, configuration: Configuration)
      ensures this.queryId == queryId && this.client == client && this.configuration == configuration
      ensures status == None
    {
      this.queryId := queryId;
      this.client := client;
      this.configuration := configuration;
      status := None;
    }

    /** The cached status is final, so no more calls are made for it. */
    predicate Settled()
      reads this
    {
      status.Some? && status.value.value in configuration.final
    }

    /** `_get_query_status`: one `get_query_execution` call; the state and the reason, with a
        missing reason read as the empty string. */
    method GetQueryStatus() returns (state: string, reason: string)
      requires client.statusCursor < |client.statusScript|
      modifies client
      ensures StatusRecord(state, reason) == RecordOf(client.statusScript[old(client.statusCursor)])
      ensures client.statusCursor == old(client.statusCursor) + 1
      ensures client.statusCalls == old(client.statusCalls) + [queryId]
      ensures client.submitted == old(client.submitted)
      ensures client.pageCursor == old(client.pageCursor) && client.pageRequests == old(client.pageRequests)
    {
      var response := client.GetQueryExecution(queryId);
      state := response.state;
      reason := response.reason.GetOr("");
    }

    /** The `status` property: a final cached status is returned without a call; otherwise one
        call overwrites both the value and the reason. */
    method Status() returns (record: StatusRecord)
      requires !Settled() ==> client.statusCursor < |client.statusScript|
      modifies this, client
      ensures old(Settled()) ==> record == old(status.value) && status == old(status)
      ensures old(Settled()) ==> client.statusCursor == old(client.statusCursor) && client.statusCalls == old(client.statusCalls)
      ensures !old(Settled()) ==>
        && record == RecordOf(client.statusScript[old(client.statusCursor)])
        && status == Some(record)
        && client.statusCursor == old(client.statusCursor) + 1
        && client.statusCalls == old(client.statusCalls) + [queryId]
      ensures client.submitted == old(client.submitted)
      ensures client.pageCursor == old(client.pageCursor) && client.pageRequests == old(client.pageRequests)
    {
      if Settled() {
        return status.value;
      }
      var state, reason := GetQueryStatus();
      record := StatusRecord(state, reason);
      status := Some(record);
    }

    /** `poll_for_status`: status calls, with one sleep of the poll interval after each status
        that is not final, until a final one; that one is returned. */
    method PollForStatus() returns (record: StatusRecord, sleeps: nat)
      requires Settled() || FinalAhead(client.statusScript, client.statusCursor, configuration.final)
      modifies this, client
      ensures record.value in configuration.final && status == Some(record)
      ensures old(Settled()) ==>
        && record == old(status.value) && sleeps == 0
        && client.statusCursor == old(client.statusCursor) && client.statusCalls == old(client.statusCalls)
      ensures !old(Settled()) ==>
        var k := FirstFinal(client.statusScript, old(client.statusCursor), configuration.final);
        && record == RecordOf(client.statusScript[k])
        && sleeps == k - old(client.statusCursor)
        && client.statusCursor == k + 1
        && client.statusCalls == old(client.statusCalls) + Repeat(queryId, k + 1 - old(client.statusCursor))
      ensures client.submitted == old(client.submitted)
      ensures client.pageCursor == old(client.pageCursor) && client.pageRequests == old(client.pageRequests)
    {
      ghost var settled := Settled();
      ghost var start := client.statusCursor;
      ghost var k: int := if settled then start else FirstFinal(client.statusScript, start, configuration.final);
      record := Status();
      sleeps := 0;
      while record.value !in configuration.final
        invariant status == Some(record)
        invariant settled ==>
          && record == old(status.value) && record.value in configuration.final && sleeps == 0
          && client.statusCursor == start && client.statusCalls == old(client.statusCalls)
        invariant !settled ==>
          && start < client.statusCursor <= k + 1
          && record == RecordOf(client.statusScript[client.statusCursor - 1])
          && sleeps == client.statusCursor - start - 1
          && client.statusCalls == old(client.statusCalls) + Repeat(queryId, client.statusCursor - start)
          && (record.value in configuration.final <==> client.statusCursor == k + 1)
        invariant client.submitted == old(client.submitted)
        invariant client.pageCursor == old(client.pageCursor) && client.pageRequests == old(client.pageRequests)
        decreases k + 1 - client.statusCursor
      {
        sleeps := sleeps + 1;
        record := Status();
      }
      record := Status();
    }

    /** `format_paginated_query_results(max_results)`: one `get_query_results` call per page
        until a page comes without a continuation token, each call after the first carrying
        the token of the page before; the results are those of `FoldRun` over the pages
        fetched. A header or row that does not parse ends the loop with its error. */
    method FormatPaginatedQueryResults(maxResults: Option<int>) returns (r: Result<ParkReadings>)
      requires LastPageAhead(client.pageScript, client.pageCursor)
      modifies client
      ensures old(client.pageCursor) < client.pageCursor <= LastPage(client.pageScript, old(client.pageCursor)) + 1
      ensures r == ResultsOf(FoldRun(client.pageScript, old(client.pageCursor), client.pageCursor))
        && (r.Success? ==> client.pageCursor == LastPage(client.pageScript, old(client.pageCursor)) + 1)
        && (r.Failure? ==> FoldRun(client.pageScript, old(client.pageCursor), client.pageCursor - 1).Success?)
        && client.pageRequests == old(client.pageRequests) + Requests(queryId, SentMaxResults(maxResults), client.pageScript, old(client.pageCursor), client.pageCursor)
      ensures client.submitted == old(client.submitted)
      ensures client.statusCursor == old(client.statusCursor) && client.statusCalls == old(client.statusCalls)
    {
      ghost var start := client.pageCursor;
      ghost var last := LastPage(client.pageScript, start);
      ghost var log := client.pageRequests;
      var sent := SentMaxResults(maxResults);
      var completed := false;
      var header: seq<Column> := [];
      var results: ParkReadings := map[];
      var token: Option<string> := None;
      while !completed
        invariant start <= client.pageCursor <= last + 1
        invariant completed <==> client.pageCursor == last + 1
        invariant FoldRun(client.pageScript, start, client.pageCursor) == Success(PageState(header, results))
        invariant token == if client.pageCursor == start then None else client.pageScript[client.pageCursor - 1].nextToken
        invariant client.pageRequests == log + Requests(queryId, sent, client.pageScript, start, client.pageCursor)
        invariant client.submitted == old(client.submitted)
        invariant client.statusCursor == old(client.statusCursor) && client.statusCalls == old(client.statusCalls)
        decreases last + 1 - client.pageCursor
      {
        var page, step := FetchPage(start, log, sent, token, PageState(header, results));
        completed := page.nextToken.None?;
        token := page.nextToken;
        if step.Failure? {
          return Failure(step.error);
        }
        header, results := step.value.header, step.value.results;
      }
      r := Success(results);
    }

    /** One turn of the page loop: the next page is requested with the token so far and
        reshaped onto the state the earlier pages gave. */
    method FetchPage(ghost start: nat, ghost log: seq<PageRequest>, sent: Option<int>, token: Option<string>, st: PageState)
      returns (page: Page, step: Result<PageState>)
      requires start <= client.pageCursor < |client.pageScript|
      requires FoldRun(client.pageScript, start, client.pageCursor) == Success(st)
      requires token == if client.pageCursor == start then None else client.pageScript[client.pageCursor - 1].nextToken
      requires client.pageRequests == log + Requests(queryId, sent, client.pageScript, start, client.pageCursor)
      modifies client
      ensures client.pageCursor == old(client.pageCursor) + 1 && page == client.pageScript[old(client.pageCursor)]
      ensures step == FoldRun(client.pageScript, start, client.pageCursor)
      ensures client.pageRequests == log + Requests(queryId, sent, client.pageScript, start, client.pageCursor)
      ensures client.submitted == old(client.submitted)
      ensures client.statusCursor == old(client.statusCursor) && client.statusCalls == old(client.statusCalls)
    {
      ghost var cursor := client.pageCursor;
      ghost var earlier := Requests(queryId, sent, client.pageScript, start, cursor);
      var request := PageRequest(queryId, sent, token);
      page := client.GetQueryResults(request);
      assert client.pageRequests == log + earlier + [request];
      LogOneMore(log, queryId, sent, client.pageScript, start, cursor + 1);
      step := ReshapeNext(client.pageScript, start, cursor + 1, st, page);
    }
  }

  /** An `Athena` object: the engine client and the stage's configuration it read when made,
      which every handle it creates is given. */
  class Athena {
    const client: Client
    const configuration: Configuration

    constructor (client: Client, configuration: Configuration)
      ensures this.client == client && this.configuration == configuration
    {
      this.client := client;
      this.configuration := configuration;
    }

    /** `Athena.query`: the query is submitted against `database` and a handle with an empty
        status and this object's configuration is made for the execution id the engine
        returns. */
    method Submit(queryString: string, database: string) returns (query: Query)
      modifies client
      ensures fresh(query)
      ensures query.queryId == client.executionId && query.client == client
      ensures query.configuration == configuration
      ensures query.status == None
      ensures client.submitted == old(client.submitted) + [(queryString, database)]
      ensures client.statusCursor == old(client.statusCursor) && client.statusCalls == old(client.statusCalls)
      ensures client.pageCursor == old(client.pageCursor) && client.pageRequests == old(client.pageRequests)
    {
      var id := client.StartQueryExecution(queryString, database);
      query := new Query(id, client, configuration);
    }
  }

  // ---------------------------------------------------------------------------------------
  // The failure check of get_athena_query

  /** The two kinds of value the check at line 165 compares: a label string and the status
      dictionary that `poll_for_status` returns. */
  datatype CheckedValue = Label(text: string) | StatusDictionary(record: StatusRecord)

  /** Python's `x in labels` for a list of label strings: equality with some element. */
  predicate InLabels(x: CheckedValue, labels: seq<string>) {
    exists i :: 0 <= i < |labels| && Label(labels[i]) == x
  }

  /** The check as written: the whole status record against the failed labels. */
  predicate FailedAsWritten(record: StatusRecord, configuration: Configuration) {
    InLabels(StatusDictionary(record), configuration.failed)
  }

  /** The check as intended: the status value against the failed labels. */
  predicate FailedIntended(record: StatusRecord, configuration: Configuration) {
    InLabels(Label(record.value), configuration.failed)
  }

  /** A dictionary never equals a string, so the check as written never holds. */
  lemma FailedAsWrittenNever(record: StatusRecord, configuration: Configuration)
    ensures !FailedAsWritten(record, configuration)
  {
  }

  /** The intended check holds exactly for the labels listed as failed. */
  lemma FailedIntendedIff(record: StatusRecord, configuration: Configuration)
    ensures FailedIntended(record, configuration) <==> record.value in configuration.failed
  {
    if record.value in configuration.failed {
      var i :| 0 <= i < |configuration.failed| && configuration.failed[i] == record.value;
      assert Label(configuration.failed[i]) == Label(record.value);
    }
  }

  /** A query that ends `FAILED`, with `FAILED` configured as a failed status, is still
      handed back by the check as written. */
  lemma FailedQueryKept()
    ensures var configuration := Configuration("energy", ["SUCCEEDED", "FAILED", "CANCELLED"], ["FAILED", "CANCELLED"], 1);
      var record := StatusRecord("FAILED", "table not found");
      FailedIntended(record, configuration) && !FailedAsWritten(record, configuration)
  {
    var configuration := Configuration("energy", ["SUCCEEDED", "FAILED", "CANCELLED"], ["FAILED", "CANCELLED"], 1);
    var record := StatusRecord("FAILED", "table not found");
    assert Label(configuration.failed[0]) == Label(record.value);
  }

  /** `get_athena_query` as written: the query text is built, submitted against the database
      of the `configuration` argument and polled until a status final for the `athena` object's
      own configuration, and the handle is returned whatever that status is (a time bound the
      query text cannot render raises ValueError before anything is submitted). */
  method GetAthenaQuery(athena: Athena, parkIds: seq<string>, start: int, end: int, configuration: Configuration)
    returns (r: Result<Option<Query>>)
    requires FinalAhead(athena.client.statusScript, athena.client.statusCursor, athena.configuration.final)
    modifies athena.client
    ensures var text := QueryBuilder.FormatQueryString(parkIds, start, end);
      && (r.Success? <==> text.Success?)
      && (r.Failure? ==> r.error == ValueError && athena.client.submitted == old(athena.client.submitted)
                         && athena.client.statusCursor == old(athena.client.statusCursor))
      && (r.Success? ==>
            var k := FirstFinal(athena.client.statusScript, old(athena.client.statusCursor), athena.configuration.final);
            && athena.client.submitted == old(athena.client.submitted) + [(text.value, configuration.database)]
            && athena.client.statusCursor == k + 1
            && r.value.Some? && fresh(r.value.value)
            && r.value.value.queryId == athena.client.executionId
            && r.value.value.configuration == athena.configuration
            && r.value.value.status == Some(RecordOf(athena.client.statusScript[k])))
    ensures athena.client.pageCursor == old(athena.client.pageCursor) && athena.client.pageRequests == old(athena.client.pageRequests)
  {
    var query, record :- SubmitAndPoll(athena, parkIds, start, end, configuration);
    FailedAsWrittenNever(record, configuration);
    if FailedAsWritten(record, configuration) {
      return Success(None);
    }
    return Success(Some(query));
  }

  /** `get_athena_query` with the check comparing the status value: no handle exactly when the
      final status is one of the failed labels of the `configuration` argument. */
  method GetAthenaQueryIntended(athena: Athena, parkIds: seq<string>, start: int, end: int, configuration: Configuration)
    returns (r: Result<Option<Query>>)
    requires FinalAhead(athena.client.statusScript, athena.client.statusCursor, athena.configuration.final)
    modifies athena.client
    ensures var text := QueryBuilder.FormatQueryString(parkIds, start, end);
      && (r.Success? <==> text.Success?)
      && (r.Failure? ==> r.error == ValueError && athena.client.submitted == old(athena.client.submitted)
                         && athena.client.statusCursor == old(athena.client.statusCursor))
      && (r.Success? ==>
            var k := FirstFinal(athena.client.statusScript, old(athena.client.statusCursor), athena.configuration.final);
            && athena.client.submitted == old(athena.client.submitted) + [(text.value, configuration.database)]
            && athena.client.statusCursor == k + 1
            && (r.value.None? <==> athena.client.statusScript[k].state in configuration.failed)
            && (r.value.Some? ==> fresh(r.value.value) && r.value.value.queryId == athena.client.executionId
                                  && r.value.value.configuration == athena.configuration
                                  && r.value.value.status == Some(RecordOf(athena.client.statusScript[k]))))
    ensures athena.client.pageCursor == old(athena.client.pageCursor) && athena.client.pageRequests == old(athena.client.pageRequests)
  {
    var query, record :- SubmitAndPoll(athena, parkIds, start, end, configuration);
    FailedIntendedIff(record, configuration);
    if FailedIntended(record, configuration) {
      return Success(None);
    }
    return Success(Some(query));
  }

  /** Lines 160-165 up to the check: build the text, submit it, poll the new handle. */
  method SubmitAndPoll(athena: Athena, parkIds: seq<string>, start: int, end: int, configuration: Configuration)
    returns (r: Result<Query>, record: StatusRecord)
    requires FinalAhead(athena.client.statusScript, athena.client.statusCursor, athena.configuration.final)
    modifies athena.client
    ensures var text := QueryBuilder.FormatQueryString(parkIds, start, end);
      && (r.Success? <==> text.Success?)
      && (r.Failure? ==> r.error == ValueError && athena.client.submitted == old(athena.client.submitted)
                         && athena.client.statusCursor == old(athena.client.statusCursor))
      && (r.Success? ==>
            var k := FirstFinal(athena.client.statusScript, old(athena.client.statusCursor), athena.configuration.final);
            && athena.client.submitted == old(athena.client.submitted) + [(text.value, configuration.database)]
            && athena.client.statusCursor == k + 1
            && record == RecordOf(athena.client.statusScript[k])
            && fresh(r.value) && r.value.queryId == athena.client.executionId && r.value.status == Some(record)
            && r.value.configuration == athena.configuration)
    ensures athena.client.pageCursor == old(athena.client.pageCursor) && athena.client.pageRequests == old(athena.client.pageRequests)
  {
    var text := QueryBuilder.FormatQueryString(parkIds, start, end);
    if text.Failure? {
      return Failure(text.error), StatusRecord("", "");
    }
    var query := athena.Submit(text.value, configuration.database);
    var sleeps;
    record, sleeps := query.PollForStatus();
    r := Success(query);
  }
}
