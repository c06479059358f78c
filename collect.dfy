/** The collection run: `processEndpointOne`, `processEndpointTwo` and the
    `/collect-data` handler (src/index.js:150-157, 227-240, 251-261).

    What the upstream services answer is an input: one response for endpoint
    one and one per page of endpoint two. Each driver is a method over the
    `Table` it writes, proved against a pure function that gives the rows it
    writes, in order, and how it ends. */
module Collect {
  import opened Js
  import opened Tables
  import opened Rows

  /** What `await axios.get(url)` gives: the decoded body, or a rejection
      (transport failure or a non-2xx status). */
  datatype Fetch = Response(data: Value) | FetchFailed

  /** What one `insertJobData...` call does with a job: the value array it
      builds (or the exception it throws while building it), and the table
      the INSERT goes to. The drivers below are stated for any writer. */
  datatype Writer = Writer(build: Value -> Result<seq<Value>>, schema: Schema)

  /** `insertJobDataOne` into `job_listings`. */
  function WriterOne(p: Platform): Writer {
    Writer(job => JobDataOne(p, job), JobListings)
  }

  /** `insertJobDataTwo` into `job_listings_two`. */
  function WriterTwo(p: Platform): Writer {
    Writer(job => JobDataTwo(p, job), JobListingsTwo)
  }

  /** One `await insertJobData...(job)` as a whole: the row that is written,
      or the exception that is thrown, either while the values are read from
      the job or when the server refuses them. */
  function Insert(w: Writer, job: Value): (r: Result<seq<Value>>)
    ensures r.Success? <==> w.build(job).Success? && Accepts(w.schema, w.build(job).value)
    ensures r.Success? ==> r.value == w.build(job).value
    ensures w.build(job).Failure? ==> r == Failure(w.build(job).error)
    ensures r.Failure? && w.build(job).Success? ==> r.error == WriteError
  {
    match w.build(job)
    case Failure(e) => Failure(e)
    case Success(row) => if Accepts(w.schema, row) then Success(row) else Failure(WriteError)
  }

  /** The rows a run writes, in order, and how it ends. */
  datatype Trace = Trace(writes: seq<seq<Value>>, outcome: Outcome)

  /** `for (const job of jobs) { await insert(job); }`: the jobs are written
      one after another and the first exception ends the loop. */
  function WriteEach(w: Writer, jobs: seq<Value>): (r: Trace)
    requires |w.schema.columns| > 0
    ensures NonEmptyRows(r.writes)
    ensures |r.writes| <= |jobs|
    ensures forall i :: 0 <= i < |r.writes| ==> Accepts(w.schema, r.writes[i])
    decreases |jobs|
  {
    if jobs == [] then Trace([], Done)
    else
      match Insert(w, jobs[0])
      case Failure(e) => Trace([], Thrown(e))
      case Success(row) =>
        var rest := WriteEach(w, jobs[1..]);
        Trace([row] + rest.writes, rest.outcome)
  }

  /** Fail-fast: the rows written are those of a prefix of the jobs, each the
      job's own row; the loop completes exactly when every job was written,
      and otherwise the job right after the prefix is the one that threw. */
  lemma {:induction false} WriteEachStopsAtFirstFailure(w: Writer, jobs: seq<Value>)
    requires |w.schema.columns| > 0
    ensures forall i :: 0 <= i < |WriteEach(w, jobs).writes| ==>
      Insert(w, jobs[i]) == Success(WriteEach(w, jobs).writes[i])
    ensures WriteEach(w, jobs).outcome.Done? <==> |WriteEach(w, jobs).writes| == |jobs|
    ensures WriteEach(w, jobs).outcome.Thrown? ==>
      Insert(w, jobs[|WriteEach(w, jobs).writes|]) == Failure(WriteEach(w, jobs).outcome.error)
    decreases |jobs|
  {
    if jobs != [] {
      WriteEachStopsAtFirstFailure(w, jobs[1..]);
    }
  }

  /** `await insertJobDataOne(job)` / `await insertJobDataTwo(job)` against the table. */
  method InsertJobData(w: Writer, job: Value, table: Table) returns (r: Outcome)
    requires table.Valid() && table.schema == w.schema
    modifies table
    ensures table.Valid()
    ensures r == if Insert(w, job).Success? then Done else Thrown(Insert(w, job).error)
    ensures table.rows == if r.Done? then Upserted(old(table.rows), Insert(w, job).value) else old(table.rows)
  {
    var built := w.build(job);
    if built.Failure? {
      return Thrown(built.error);
    }
    r := table.Upsert(built.value);
  }

  lemma AppendAssoc<T>(a: seq<T>, b: seq<T>, c: seq<T>)
    ensures a + (b + c) == (a + b) + c
  {
  }

  /** The `for ... of` loop of either driver. */
  method UpsertEach(w: Writer, jobs: seq<Value>, table: Table) returns (r: Outcome)
    requires table.Valid() && table.schema == w.schema
    modifies table
    ensures table.Valid()
    ensures r == WriteEach(w, jobs).outcome
    ensures table.rows == ApplyAll(old(table.rows), WriteEach(w, jobs).writes)
  {
    ghost var done: seq<seq<Value>> := [];
    var i := 0;
    while i < |jobs|
      invariant 0 <= i <= |jobs|
      invariant table.Valid() && NonEmptyRows(done)
      invariant WriteEach(w, jobs) ==
        Trace(done + WriteEach(w, jobs[i..]).writes, WriteEach(w, jobs[i..]).outcome)
      invariant table.rows == ApplyAll(old(table.rows), done)
    {
      assert jobs[i..][0] == jobs[i] && jobs[i..][1..] == jobs[i + 1..];
      r := InsertJobData(w, jobs[i], table);
      if r.Thrown? {
        assert done + [] == done;
        return;
      }
      ghost var row := Insert(w, jobs[i]).value;
      ApplyAllSnoc(old(table.rows), done, row);
      AppendAssoc(done, [row], WriteEach(w, jobs[i + 1..]).writes);
      done := done + [row];
      i := i + 1;
    }
    assert jobs[i..] == [];
    assert done + [] == done;
    r := Done;
  }

  // ---------------------------------------------------------------------
  // Endpoint one

  /** `processEndpointOne`: nothing is written unless the body and its `jobs`
      are truthy; `jobs` must then be iterable, and its jobs are written in
      order. */
  function EndpointOne(w: Writer, response: Fetch): (r: Trace)
    requires |w.schema.columns| > 0
    ensures NonEmptyRows(r.writes)
    ensures forall i :: 0 <= i < |r.writes| ==> Accepts(w.schema, r.writes[i])
    ensures response.FetchFailed? ==> r == Trace([], Thrown(FetchError))
    ensures response.Response? && Truthy(response.data) && Truthy(Prop(response.data, "jobs")) ==>
      var jobs := Prop(response.data, "jobs");
      && (jobs.Arr? ==> r == WriteEach(w, jobs.items))
      && (!(jobs.Arr? || jobs.Str?) ==> r == Trace([], Thrown(TypeError)))
  {
    match response
    case FetchFailed => Trace([], Thrown(FetchError))
    case Response(data) =>
      if !Truthy(data) then Trace([], Done)
      else
        var jobs := Prop(data, "jobs");
        if !Truthy(jobs) then Trace([], Done)
        else
          match Iterate(jobs)
          case Failure(e) => Trace([], Thrown(e))
          case Success(items) => WriteEach(w, items)
  }

  method ProcessEndpointOne(w: Writer, response: Fetch, table: Table) returns (r: Outcome)
    requires table.Valid() && table.schema == w.schema
    modifies table
    ensures table.Valid()
    ensures r == EndpointOne(w, response).outcome
    ensures table.rows == ApplyAll(old(table.rows), EndpointOne(w, response).writes)
  {
    if response.FetchFailed? {
      return Thrown(FetchError);
    }
    var data := response.data;
    if Truthy(data) && Truthy(Prop(data, "jobs")) {
      var items := Iterate(Prop(data, "jobs"));
      if items.Failure? {
        return Thrown(items.error);
      }
      r := UpsertEach(w, items.value, table);
    } else {
      r := Done;
    }
  }

  /** A body without `jobs` (or with a falsy one) writes nothing and is not an error. */
  lemma EndpointOneWithoutJobs(w: Writer, data: Value)
    requires |w.schema.columns| > 0
    requires !Truthy(data) || !Truthy(Prop(data, "jobs"))
    ensures EndpointOne(w, Response(data)) == Trace([], Done)
  {
  }

  /** When endpoint one's loop completes over an array of jobs, every job was
      an object with a present, non-null `id`, and that `id` is now a key of
      `job_listings`, whatever the table held before. */
  lemma EndpointOneStoresEveryJob(p: Platform, data: Value, rows: map<Value, Stored>)
    requires Truthy(data) && Prop(data, "jobs").Arr?
    requires EndpointOne(WriterOne(p), Response(data)).outcome.Done?
    ensures forall job :: job in Prop(data, "jobs").items ==>
      !job.IsNullish() && !Prop(job, "id").IsNullish() &&
      Prop(job, "id") in ApplyAll(rows, EndpointOne(WriterOne(p), Response(data)).writes)
  {
    var items := Prop(data, "jobs").items;
    var t := WriteEach(WriterOne(p), items);
    assert EndpointOne(WriterOne(p), Response(data)) == t;
    WriteEachStopsAtFirstFailure(WriterOne(p), items);
    forall job | job in items
      ensures !job.IsNullish() && !Prop(job, "id").IsNullish() && Prop(job, "id") in ApplyAll(rows, t.writes)
    {
      var i :| 0 <= i < |items| && items[i] == job;
      var row := t.writes[i];
      assert JobDataOne(p, job) == Success(row);
      assert row[0] == ColumnOne(p, job, JobListings.columns[0]);
      assert JobListings.columns[0] in JobListings.notNull;
      ApplyAllContains(rows, t.writes, i);
    }
  }

  // ---------------------------------------------------------------------
  // Endpoint two

  /** The loop of `processEndpointTwo` requests at most this many pages. */
  const MaxPages: nat := 10

  /** What one page does: the rows it writes and how it ends, and whether its
      `results` were missing or empty, which ends the loop normally. */
  datatype Page = Page(trace: Trace, empty: bool)

  /** One iteration of the page loop, for the response to that page. */
  function PageTwo(w: Writer, response: Fetch): (r: Page)
    requires |w.schema.columns| > 0
    ensures r.empty ==> r.trace == Trace([], Done)
    ensures NonEmptyRows(r.trace.writes)
    ensures response.FetchFailed? ==> r == Page(Trace([], Thrown(FetchError)), false)
    ensures response.Response? && response.data.IsNullish() ==> r == Page(Trace([], Thrown(TypeError)), false)
    ensures response.Response? && !response.data.IsNullish() ==>
      var results := Prop(response.data, "results");
      && (r.empty <==> !(Truthy(results) && HasPositiveLength(results)))
      && (results.Arr? && |results.items| > 0 ==> r == Page(WriteEach(w, results.items), false))
      && (!r.empty && !(results.Arr? || results.Str?) ==> r == Page(Trace([], Thrown(TypeError)), false))
  {
    match response
    case FetchFailed => Page(Trace([], Thrown(FetchError)), false)
    case Response(data) =>
      match Get(data, "results")
      case Failure(e) => Page(Trace([], Thrown(e)), false)
      case Success(jobs) =>
        if !(Truthy(jobs) && HasPositiveLength(jobs)) then Page(Trace([], Done), true)
        else
          match Iterate(jobs)
          case Failure(e) => Page(Trace([], Thrown(e)), false)
          case Success(items) => Page(WriteEach(w, items), false)
  }

  /** Whether the loop goes on to the next page after this one. */
  predicate Continues(page: Page) {
    !page.empty && page.trace.outcome.Done?
  }

  /** What each of the ten pages would do if it were requested; `pages[k]`
      answers page `k + 1`. */
  function PageResults(w: Writer, pages: seq<Fetch>): (r: seq<Page>)
    requires |w.schema.columns| > 0
    ensures |r| == |pages|
  {
    seq(|pages|, k requires 0 <= k < |pages| => PageTwo(w, pages[k]))
  }

  /** Page results whose writes are all rows with a key. */
  predicate Keyed(results: seq<Page>) {
    forall k :: 0 <= k < |results| ==> NonEmptyRows(results[k].trace.writes)
  }

  /** A run of the page loop: the page numbers requested, in order, the rows
      written and how the run ends. */
  datatype Paged = Paged(requested: seq<nat>, writes: seq<seq<Value>>, outcome: Outcome)

  /** The page loop from page `page` on. */
  function RunFrom(results: seq<Page>, page: nat): (r: Paged)
    requires |results| == MaxPages && Keyed(results) && 1 <= page
    ensures NonEmptyRows(r.writes)
    ensures page <= MaxPages ==> 1 <= |r.requested| <= MaxPages + 1 - page
    ensures page > MaxPages ==> r == Paged([], [], Done)
    decreases MaxPages + 1 - page
  {
    if page > MaxPages then Paged([], [], Done)
    else
      var here := results[page - 1];
      if !Continues(here) then Paged([page], here.trace.writes, here.trace.outcome)
      else
        var rest := RunFrom(results, page + 1);
        Paged([page] + rest.requested, here.trace.writes + rest.writes, rest.outcome)
  }

  /** `processEndpointTwo`. */
  function EndpointTwo(w: Writer, pages: seq<Fetch>): (r: Paged)
    requires |w.schema.columns| > 0 && |pages| == MaxPages
    ensures NonEmptyRows(r.writes)
    ensures 1 <= |r.requested| <= MaxPages
  {
    var results := PageResults(w, pages);
    assert Keyed(results) by {
      forall k | 0 <= k < |results| ensures NonEmptyRows(results[k].trace.writes) {
        assert results[k] == PageTwo(w, pages[k]);
      }
    }
    RunFrom(results, 1)
  }

  /** One iteration of the page loop of `processEndpointTwo`: read
      `response.data.results`, and write its jobs unless it is missing or
      empty; `empty` tells the loop to `break`. */
  method ProcessPage(w: Writer, response: Fetch, table: Table) returns (r: Outcome, empty: bool)
    requires table.Valid() && table.schema == w.schema
    modifies table
    ensures table.Valid()
    ensures r == PageTwo(w, response).trace.outcome && empty == PageTwo(w, response).empty
    ensures table.rows == ApplyAll(old(table.rows), PageTwo(w, response).trace.writes)
  {
    empty := false;
    if response.FetchFailed? {
      return Thrown(FetchError), empty;
    }
    var data := response.data;
    if data.IsNullish() {
      return Thrown(TypeError), empty;
    }
    var jobs := Prop(data, "results");
    if !(Truthy(jobs) && HasPositiveLength(jobs)) {
      return Done, true;
    }
    var items := Iterate(jobs);
    if items.Failure? {
      return Thrown(items.error), empty;
    }
    r := UpsertEach(w, items.value, table);
  }

  /** The pages already requested and the rows already written, followed by
      the rest of a run. */
  function Join(requested: seq<nat>, writes: seq<seq<Value>>, rest: Paged): Paged {
    Paged(requested + rest.requested, writes + rest.writes, rest.outcome)
  }

  /** One step of the page loop: a page that goes on to the next one is
      followed by the run from the next page; any other page ends the run
      as that page ended. */
  lemma RunFromStep(results: seq<Page>, page: nat, requested: seq<nat>, writes: seq<seq<Value>>)
    requires |results| == MaxPages && Keyed(results) && 1 <= page <= MaxPages
    ensures Join(requested, writes, RunFrom(results, page))
         == if Continues(results[page - 1])
            then Join(requested + [page], writes + results[page - 1].trace.writes, RunFrom(results, page + 1))
            else Paged(requested + [page], writes + results[page - 1].trace.writes, results[page - 1].trace.outcome)
  {
    if Continues(results[page - 1]) {
      var rest := RunFrom(results, page + 1);
      AppendAssoc(requested, [page], rest.requested);
      AppendAssoc(writes, results[page - 1].trace.writes, rest.writes);
    }
  }

  /** Before the first page nothing has been requested or written. */
  lemma JoinNothing(rest: Paged)
    ensures Join([], [], rest) == rest
  {
    assert [] + rest.requested == rest.requested;
    assert [] + rest.writes == rest.writes;
  }

  /** Past the last page nothing more happens. */
  lemma RunFromEnd(results: seq<Page>, requested: seq<nat>, writes: seq<seq<Value>>)
    requires |results| == MaxPages && Keyed(results)
    ensures Join(requested, writes, RunFrom(results, MaxPages + 1)) == Paged(requested, writes, Done)
  {
    assert requested + [] == requested;
    assert writes + [] == writes;
  }

  /** The page loop of `processEndpointTwo`, given what each page does
      (`results`, a ghost: page `k + 1` is answered by `pages[k]`). */
  method RunPages(w: Writer, pages: seq<Fetch>, ghost results: seq<Page>, table: Table)
    returns (r: Outcome, requested: seq<nat>)
    requires |pages| == MaxPages && |results| == MaxPages && Keyed(results) && |w.schema.columns| > 0
    requires forall k :: 0 <= k < MaxPages ==> results[k] == PageTwo(w, pages[k])
    requires table.Valid() && table.schema == w.schema
    modifies table
    ensures table.Valid()
    ensures r == RunFrom(results, 1).outcome && requested == RunFrom(results, 1).requested
    ensures table.rows == ApplyAll(old(table.rows), RunFrom(results, 1).writes)
  {
    ghost var run := RunFrom(results, 1);
    ghost var done: seq<seq<Value>> := [];
    requested := [];
    r := Done;
    var page: nat := 1;
    var stop := false;
    JoinNothing(run);
    while page <= MaxPages && !stop
      invariant 1 <= page <= MaxPages + 1
      invariant table.Valid() && NonEmptyRows(done)
      invariant stop ==> run == Paged(requested, done, r)
      invariant !stop ==> r == Done && run == Join(requested, done, RunFrom(results, page))
      invariant table.rows == ApplyAll(old(table.rows), done)
    {
      ghost var here := results[page - 1];
      RunFromStep(results, page, requested, done);
      ApplyAllAppend(old(table.rows), done, here.trace.writes);
      requested := requested + [page];
      done := done + here.trace.writes;
      var empty;
      r, empty := ProcessPage(w, pages[page - 1], table);
      stop := empty || r.Thrown?;
      page := page + 1;
    }
    if !stop {
      RunFromEnd(results, requested, done);
    }
  }

  /** `processEndpointTwo`: requests pages 1 to 10 and writes each page's
      jobs, stopping at the first page that is missing or empty or throws. */
  method ProcessEndpointTwo(w: Writer, pages: seq<Fetch>, table: Table) returns (r: Outcome, requested: seq<nat>)
    requires |pages| == MaxPages
    requires table.Valid() && table.schema == w.schema
    modifies table
    ensures table.Valid()
    ensures r == EndpointTwo(w, pages).outcome && requested == EndpointTwo(w, pages).requested
    ensures table.rows == ApplyAll(old(table.rows), EndpointTwo(w, pages).writes)
  {
    ghost var results := PageResults(w, pages);
    assert EndpointTwo(w, pages) == RunFrom(results, 1);
    r, requested := RunPages(w, pages, results, table);
  }

  /** The writes of the pages `results[from..to]`, one page after another. */
  function PageWrites(results: seq<Page>, from: nat, to: nat): (r: seq<seq<Value>>)
    requires from <= to <= |results| && Keyed(results)
    ensures NonEmptyRows(r)
    decreases (to as int) - from
  {
    if from == to then [] else results[from].trace.writes + PageWrites(results, from + 1, to)
  }

  /** From page `page` on, the loop requests consecutive pages, at least
      one and never past the last one. */
  lemma {:induction false} RunFromRequested(results: seq<Page>, page: nat)
    requires |results| == MaxPages && Keyed(results) && 1 <= page <= MaxPages
    ensures 1 <= |RunFrom(results, page).requested| <= MaxPages + 1 - page
    ensures forall i :: 0 <= i < |RunFrom(results, page).requested| ==>
      RunFrom(results, page).requested[i] == page + i
    decreases MaxPages + 1 - page
  {
    if Continues(results[page - 1]) && page < MaxPages {
      RunFromRequested(results, page + 1);
    }
  }

  /** Every page but the last one requested went on to the next; the last
      one did not, unless it was the tenth; the run ends as that page ended. */
  lemma {:induction false} RunFromStops(results: seq<Page>, page: nat)
    requires |results| == MaxPages && Keyed(results) && 1 <= page <= MaxPages
    ensures var n := |RunFrom(results, page).requested|;
      && 1 <= n <= MaxPages + 1 - page
      && (forall k :: page - 1 <= k < page - 2 + n ==> Continues(results[k]))
      && (page - 1 + n < MaxPages ==> !Continues(results[page - 2 + n]))
      && RunFrom(results, page).outcome == results[page - 2 + n].trace.outcome
    decreases MaxPages + 1 - page
  {
    RunFromRequested(results, page);
    if Continues(results[page - 1]) && page < MaxPages {
      RunFromStops(results, page + 1);
    }
  }

  /** The loop writes the rows of the pages it requests, page by page. */
  lemma {:induction false} RunFromWrites(results: seq<Page>, page: nat)
    requires |results| == MaxPages && Keyed(results) && 1 <= page <= MaxPages
    ensures page - 1 + |RunFrom(results, page).requested| <= MaxPages
    ensures RunFrom(results, page).writes ==
      PageWrites(results, page - 1, page - 1 + |RunFrom(results, page).requested|)
    decreases MaxPages + 1 - page
  {
    RunFromRequested(results, page);
    var here := results[page - 1];
    if Continues(here) && page < MaxPages {
      RunFromWrites(results, page + 1);
    } else {
      assert here.trace.writes + [] == here.trace.writes;
    }
  }

  /** Every page's writes are rows with a key. */
  lemma PageResultsKeyed(w: Writer, pages: seq<Fetch>)
    requires |w.schema.columns| > 0
    ensures Keyed(PageResults(w, pages))
  {
    var results := PageResults(w, pages);
    forall k | 0 <= k < |results| ensures NonEmptyRows(results[k].trace.writes) {
      assert results[k] == PageTwo(w, pages[k]);
    }
  }

  /** Endpoint two requests pages 1, 2, ... in order, at least one and never
      more than ten; every page before the last one requested had results
      and was written completely, so the loop stops at the first page that
      is missing or empty or that throws, and ends as that page ended; its
      writes are the requested pages' rows, page by page. */
  lemma EndpointTwoPages(w: Writer, pages: seq<Fetch>)
    requires |w.schema.columns| > 0 && |pages| == MaxPages
    ensures var r, results := EndpointTwo(w, pages), PageResults(w, pages);
      && 1 <= |r.requested| <= MaxPages
      && (forall i :: 0 <= i < |r.requested| ==> r.requested[i] == i + 1)
      && (forall k :: 0 <= k < |r.requested| - 1 ==> Continues(results[k]))
      && (forall k :: 0 <= k < MaxPages && !Continues(results[k]) ==> |r.requested| <= k + 1)
      && (|r.requested| < MaxPages ==> !Continues(results[|r.requested| - 1]))
      && r.outcome == results[|r.requested| - 1].trace.outcome
      && r.writes == PageWrites(results, 0, |r.requested|)
  {
    var results := PageResults(w, pages);
    PageResultsKeyed(w, pages);
    RunFromRequested(results, 1);
    RunFromStops(results, 1);
    RunFromWrites(results, 1);
  }

  /** Page 1 answers a non-empty array of jobs that are all written, and
      page 2 answers an empty `results` array: pages 1 and 2 are requested,
      no later page is, and exactly one row per job of page 1 is written,
      in order. */
  lemma EndpointTwoStopsAtEmptyPage(w: Writer, pages: seq<Fetch>, d1: Value, d2: Value)
    requires |w.schema.columns| > 0 && |pages| == MaxPages
    requires pages[0] == Response(d1) && !d1.IsNullish() && Prop(d1, "results").Arr?
    requires |Prop(d1, "results").items| > 0 && WriteEach(w, Prop(d1, "results").items).outcome.Done?
    requires pages[1] == Response(d2) && !d2.IsNullish() && Prop(d2, "results") == Arr([])
    ensures EndpointTwo(w, pages).requested == [1, 2]
    ensures EndpointTwo(w, pages).writes == WriteEach(w, Prop(d1, "results").items).writes
    ensures |EndpointTwo(w, pages).writes| == |Prop(d1, "results").items|
    ensures EndpointTwo(w, pages).outcome == Done
  {
    var results := PageResults(w, pages);
    PageResultsKeyed(w, pages);
    var items := Prop(d1, "results").items;
    assert results[0] == PageTwo(w, pages[0]) == Page(WriteEach(w, items), false);
    assert results[1] == PageTwo(w, pages[1]) && results[1].empty;
    var first := results[0].trace.writes;
    assert RunFrom(results, 2) == Paged([2], [], Done);
    assert first + [] == first;
    WriteEachStopsAtFirstFailure(w, items);
  }

  // ---------------------------------------------------------------------
  // The /collect-data handler

  /** The result of one `/collect-data` request: the HTTP status, the pages
      of endpoint two requested, and the rows written to each table. */
  datatype Collected = Collected(status: int, requested: seq<nat>, writesOne: seq<seq<Value>>, writesTwo: seq<seq<Value>>)

  /** Endpoint one, then endpoint two, inside one `try`: 200 when both finish,
      500 as soon as either throws. */
  function Collect(p: Platform, one: Fetch, pages: seq<Fetch>): (r: Collected)
    requires |pages| == MaxPages
    ensures NonEmptyRows(r.writesOne) && NonEmptyRows(r.writesTwo)
    ensures r.status == 200 || r.status == 500
    ensures r.status == 200 ==> 1 <= |r.requested| <= MaxPages
  {
    var first := EndpointOne(WriterOne(p), one);
    if first.outcome.Thrown? then Collected(500, [], first.writes, [])
    else
      var second := EndpointTwo(WriterTwo(p), pages);
      Collected(if second.outcome.Done? then 200 else 500, second.requested, first.writes, second.writes)
  }

  method CollectData(p: Platform, one: Fetch, pages: seq<Fetch>, tableOne: Table, tableTwo: Table)
    returns (status: int, requested: seq<nat>)
    requires |pages| == MaxPages && tableOne != tableTwo
    requires tableOne.Valid() && tableOne.schema == JobListings
    requires tableTwo.Valid() && tableTwo.schema == JobListingsTwo
    modifies tableOne, tableTwo
    ensures tableOne.Valid() && tableTwo.Valid()
    ensures status == Collect(p, one, pages).status && requested == Collect(p, one, pages).requested
    ensures tableOne.rows == ApplyAll(old(tableOne.rows), Collect(p, one, pages).writesOne)
    ensures tableTwo.rows == ApplyAll(old(tableTwo.rows), Collect(p, one, pages).writesTwo)
  {
    var first := ProcessEndpointOne(WriterOne(p), one, tableOne);
    if first.Thrown? {
      return 500, [];
    }
    var second;
    second, requested := ProcessEndpointTwo(WriterTwo(p), pages, tableTwo);
    status := if second.Done? then 200 else 500;
  }

  /** The handler answers 200 exactly when both endpoints complete; when
      endpoint one throws, endpoint two is never started: no page is
      requested and nothing is written to `job_listings_two`. */
  lemma CollectStatus(p: Platform, one: Fetch, pages: seq<Fetch>)
    requires |pages| == MaxPages
    ensures var c := Collect(p, one, pages);
      && (c.status == 200 <==> EndpointOne(WriterOne(p), one).outcome.Done? && EndpointTwo(WriterTwo(p), pages).outcome.Done?)
      && (c.status == 200 || c.status == 500)
      && (EndpointOne(WriterOne(p), one).outcome.Thrown? ==> c.requested == [] && c.writesTwo == [])
      && (EndpointOne(WriterOne(p), one).outcome.Done? ==> 1 <= |c.requested| <= MaxPages)
      && c.writesOne == EndpointOne(WriterOne(p), one).writes
      && (EndpointOne(WriterOne(p), one).outcome.Done? ==>
            c.requested == EndpointTwo(WriterTwo(p), pages).requested
            && c.writesTwo == EndpointTwo(WriterTwo(p), pages).writes)
  {
    EndpointTwoPages(WriterTwo(p), pages);
  }

  /** Collecting the same upstream answers twice leaves both tables as one
      collection did: every write is an upsert keyed by its id. */
  lemma CollectIdempotent(p: Platform, one: Fetch, pages: seq<Fetch>, rowsOne: map<Value, Stored>, rowsTwo: map<Value, Stored>)
    requires |pages| == MaxPages
    ensures var c := Collect(p, one, pages);
      && ApplyAll(ApplyAll(rowsOne, c.writesOne), c.writesOne) == ApplyAll(rowsOne, c.writesOne)
      && ApplyAll(ApplyAll(rowsTwo, c.writesTwo), c.writesTwo) == ApplyAll(rowsTwo, c.writesTwo)
  {
    var c := Collect(p, one, pages);
    ApplyAllIdempotent(rowsOne, c.writesOne);
    ApplyAllIdempotent(rowsTwo, c.writesTwo);
  }
}
