/**
 * The Florida MAPD batch: for each organisation in turn, page through the
 * dataset 1000 records at a time, keep the records the local filter matches,
 * stop at an empty page, a short page or offset 5000, and export everything
 * collected as one CSV table.
 *
 * The server and the local filter are parameters: the filter's own
 * definition is not part of this model, so it is left uninterpreted. A filter
 * that raises an ordinary exception is `Raised`; a failed fetch exits the
 * process (`Exit`), which the per-organisation handler does not catch.
 */
module FetchFloridaMapd {
  import opened Wrappers
  import opened FormularyFetch

  const Organizations: seq<string> :=
    ["Devoted", "UHC", "United", "UnitedHealthcare", "Humana", "Wellcare", "Aetna"]
  const State: string := "FL"
  const BatchSize: nat := 1000
  const FetchLimit: nat := 5000

  /** What `filter_local(page, organization, state)` does: its matches, or an exception. */
  datatype Filtered = Matches(records: seq<Record>) | Raised

  type Filter = (seq<Record>, string, string) -> Filtered

  /** How one organisation's loop ends. */
  datatype OrgOutcome =
    | Collected(records: seq<Record>)  // the loop ran to one of its stop conditions
    | Skipped                          // an ordinary exception: the organisation is skipped
    | Aborted                          // a fetch failed: the process exits

  /** One organisation's outcome together with the offsets it requested, in order. */
  datatype OrgRun = OrgRun(outcome: OrgOutcome, requested: seq<nat>)

  /**
   * The page source the loop reads: what fetching 1000 records at each
   * offset from `server` gives.
   */
  function Pages(server: string -> Response): nat -> Fetch {
    (offset: nat) => FetchFormularyData(Some(BatchSize), Some(offset), server)
  }

  /** Records matched on earlier pages, in front of the rest of the run. */
  function Prepend(found: seq<Record>, outcome: OrgOutcome): OrgOutcome {
    match outcome
    case Collected(rest) => Collected(found + rest)
    case _ => outcome
  }

  /** The per-organisation loop, from a given offset onwards. */
  function RunFrom(org: string, pages: nat -> Fetch, filter: Filter, offset: nat): OrgRun
    requires offset < FetchLimit
    decreases FetchLimit - offset
  {
    match pages(offset)
    case Exit(_) => OrgRun(Aborted, [offset])
    case Fetched(data) =>
      if |data| == 0 then OrgRun(Collected([]), [offset])
      else match filter(data, org, State)
        case Raised => OrgRun(Skipped, [offset])
        case Matches(found) =>
          if |data| < BatchSize || offset + BatchSize >= FetchLimit then
            OrgRun(Collected(found), [offset])
          else
            var rest := RunFrom(org, pages, filter, offset + BatchSize);
            OrgRun(Prepend(found, rest.outcome), [offset] + rest.requested)
  }

  /** The run so far (records collected, offsets requested) followed by the rest of it. */
  function Resume(found: seq<Record>, requested: seq<nat>, rest: OrgRun): OrgRun {
    OrgRun(Prepend(found, rest.outcome), requested + rest.requested)
  }

  /**
   * The body of the `try` block for one organisation. The offsets it
   * requested are a ghost record for stating properties; the code keeps none.
   */
  method FetchOrganization(org: string, server: string -> Response, filter: Filter)
    returns (outcome: OrgOutcome, ghost requested: seq<nat>)
    ensures OrgRun(outcome, requested) == RunFrom(org, Pages(server), filter, 0)
  {
    ghost var pages := Pages(server);
    var offset: nat := 0;
    var orgRecords: seq<Record> := [];
    requested := [];
    while true
      invariant offset < FetchLimit
      invariant RunFrom(org, pages, filter, 0) == Resume(orgRecords, requested, RunFrom(org, pages, filter, offset))
      decreases FetchLimit - offset
    {
      ghost var done, before, current := orgRecords, requested, offset;
      ghost var here := RunFrom(org, pages, filter, current);
      var fetched := FetchFormularyData(Some(BatchSize), Some(offset), server);
      assert fetched == pages(current);
      requested := requested + [offset];
      if fetched.Exit? {
        assert here == OrgRun(Aborted, [current]);
        return Aborted, requested;
      }
      var data := fetched.records;
      if |data| == 0 {
        assert here == OrgRun(Collected([]), [current]);
        break;
      }
      var filtered := filter(data, org, State);
      if filtered.Raised? {
        assert here == OrgRun(Skipped, [current]);
        return Skipped, requested;
      }
      var found := filtered.records;
      orgRecords := orgRecords + found;
      if |data| < BatchSize {
        assert here == OrgRun(Collected(found), [current]);
        break;
      }
      offset := offset + BatchSize;
      if offset >= FetchLimit {
        assert here == OrgRun(Collected(found), [current]);
        break;
      }
      ResumeStep(org, pages, filter, current, done, before);
    }
    outcome := Collected(orgRecords);
  }

  /** A full, matched page below the cap: the loop moves on by one page. */
  lemma ResumeStep(org: string, pages: nat -> Fetch, filter: Filter, offset: nat,
                   done: seq<Record>, requested: seq<nat>)
    requires offset + BatchSize < FetchLimit
    requires pages(offset).Fetched? && |pages(offset).records| >= BatchSize
    requires filter(pages(offset).records, org, State).Matches?
    ensures var found := filter(pages(offset).records, org, State).records;
      Resume(done, requested, RunFrom(org, pages, filter, offset))
      == Resume(done + found, requested + [offset], RunFrom(org, pages, filter, offset + BatchSize))
  {
    var found := filter(pages(offset).records, org, State).records;
    var next := RunFrom(org, pages, filter, offset + BatchSize);
    assert RunFrom(org, pages, filter, offset) == OrgRun(Prepend(found, next.outcome), [offset] + next.requested);
    if next.outcome.Collected? {
      assert done + (found + next.outcome.records) == (done + found) + next.outcome.records;
    }
    assert requested + ([offset] + next.requested) == (requested + [offset]) + next.requested;
  }

  // ===========================================================================
  // Properties of one organisation's run

  /** The offsets requested are `offset`, `offset + 1000`, ..., all below 5000. */
  lemma {:induction false} RequestedOffsets(org: string, pages: nat -> Fetch, filter: Filter, offset: nat)
    requires offset < FetchLimit
    ensures var requested := RunFrom(org, pages, filter, offset).requested;
      && |requested| >= 1
      && offset + (|requested| - 1) * BatchSize < FetchLimit
      && forall i :: 0 <= i < |requested| ==> requested[i] == offset + i * BatchSize
    decreases FetchLimit - offset
  {
    var run := RunFrom(org, pages, filter, offset);
    if |run.requested| > 1 {
      var rest := RunFrom(org, pages, filter, offset + BatchSize);
      RequestedOffsets(org, pages, filter, offset + BatchSize);
      assert run.requested == [offset] + rest.requested;
    }
  }

  /** From the start: at most five fetches, at offsets 0, 1000, 2000, ... */
  lemma AtMostFiveFetches(org: string, pages: nat -> Fetch, filter: Filter)
    ensures var requested := RunFrom(org, pages, filter, 0).requested;
      && 1 <= |requested| <= FetchLimit / BatchSize
      && forall i :: 0 <= i < |requested| ==> requested[i] == i * BatchSize < FetchLimit
  {
    RequestedOffsets(org, pages, filter, 0);
  }

  /** The page at `offset` is full, matched, and below the cap: the loop goes on. */
  predicate Continues(org: string, pages: nat -> Fetch, filter: Filter, offset: nat) {
    && pages(offset).Fetched?
    && |pages(offset).records| >= BatchSize
    && filter(pages(offset).records, org, State).Matches?
    && offset + BatchSize < FetchLimit
  }

  /** The filter raised on the (non-empty) page at `offset`. */
  predicate Raises(org: string, pages: nat -> Fetch, filter: Filter, offset: nat) {
    && pages(offset).Fetched?
    && |pages(offset).records| > 0
    && filter(pages(offset).records, org, State).Raised?
  }

  /**
   * Why a run stops: every requested page but the last let the loop go on,
   * the last did not; the run aborts exactly when that last fetch failed and
   * is skipped exactly when the filter raised on it.
   */
  lemma {:induction false} RunTrace(org: string, pages: nat -> Fetch, filter: Filter, offset: nat)
    requires offset < FetchLimit
    ensures var run := RunFrom(org, pages, filter, offset);
      && |run.requested| >= 1
      && (forall i :: 0 <= i < |run.requested| - 1 ==> Continues(org, pages, filter, run.requested[i]))
      && !Continues(org, pages, filter, run.requested[|run.requested| - 1])
      && (run.outcome.Aborted? <==> pages(run.requested[|run.requested| - 1]).Exit?)
      && (run.outcome.Skipped? <==> Raises(org, pages, filter, run.requested[|run.requested| - 1]))
    decreases FetchLimit - offset
  {
    var run := RunFrom(org, pages, filter, offset);
    if Continues(org, pages, filter, offset) {
      var rest := RunFrom(org, pages, filter, offset + BatchSize);
      RunTrace(org, pages, filter, offset + BatchSize);
      assert run.requested == [offset] + rest.requested;
      assert run.outcome.Aborted? <==> rest.outcome.Aborted?;
      assert run.outcome.Skipped? <==> rest.outcome.Skipped?;
    }
  }

  /** What the page at `offset` adds to the organisation's records. */
  function MatchesAt(org: string, pages: nat -> Fetch, filter: Filter, offset: nat): seq<Record> {
    match pages(offset)
    case Fetched(data) =>
      if data == [] then []
      else (match filter(data, org, State) case Matches(found) => found case Raised => [])
    case Exit(_) => []
  }

  function MatchesOver(org: string, pages: nat -> Fetch, filter: Filter, offsets: seq<nat>): seq<Record> {
    if offsets == [] then []
    else MatchesAt(org, pages, filter, offsets[0]) + MatchesOver(org, pages, filter, offsets[1..])
  }

  /**
   * A completed run's records are the filter's matches on every non-empty
   * page it fetched, in fetch order.
   */
  lemma {:induction false} CollectedIsConcatenation(org: string, pages: nat -> Fetch, filter: Filter, offset: nat)
    requires offset < FetchLimit
    requires RunFrom(org, pages, filter, offset).outcome.Collected?
    ensures var run := RunFrom(org, pages, filter, offset);
      run.outcome.records == MatchesOver(org, pages, filter, run.requested)
    decreases FetchLimit - offset
  {
    var run := RunFrom(org, pages, filter, offset);
    if |run.requested| > 1 {
      var rest := RunFrom(org, pages, filter, offset + BatchSize);
      CollectedIsConcatenation(org, pages, filter, offset + BatchSize);
      assert run.requested == [offset] + rest.requested;
      assert run.requested[1..] == rest.requested;
    } else {
      assert run.requested[1..] == [];
    }
  }

  /** An empty page ends the run with nothing added, whatever the filter would do. */
  lemma EmptyPageStops(org: string, pages: nat -> Fetch, filter: Filter, other: Filter, offset: nat)
    requires offset < FetchLimit && pages(offset) == Fetched([])
    ensures RunFrom(org, pages, filter, offset) == RunFrom(org, pages, other, offset)
                                                  == OrgRun(Collected([]), [offset])
  {
  }

  /** A short, non-empty page has its matches added and ends the run. */
  lemma ShortPageStops(org: string, pages: nat -> Fetch, filter: Filter, offset: nat)
    requires offset < FetchLimit
    requires pages(offset).Fetched?
    requires 0 < |pages(offset).records| < BatchSize
    requires filter(pages(offset).records, org, State).Matches?
    ensures RunFrom(org, pages, filter, offset)
         == OrgRun(Collected(filter(pages(offset).records, org, State).records), [offset])
  {
  }

  /** With full, matched pages everywhere the loop stops at the cap: offsets 0 to 4000. */
  lemma FullPagesReachCap(org: string, pages: nat -> Fetch, filter: Filter)
    requires forall offset: nat :: pages(offset).Fetched? && |pages(offset).records| == BatchSize
    requires forall offset: nat :: filter(pages(offset).records, org, State).Matches?
    ensures RunFrom(org, pages, filter, 0).requested == [0, 1000, 2000, 3000, 4000]
    ensures RunFrom(org, pages, filter, 0).outcome.Collected?
  {
    var run := RunFrom(org, pages, filter, 0);
    RequestedOffsets(org, pages, filter, 0);
    RunTrace(org, pages, filter, 0);
    var n := |run.requested|;
    var last := run.requested[n - 1];
    assert last == (n - 1) * 1000;
    assert pages(last).Fetched? && |pages(last).records| == BatchSize;
    assert filter(pages(last).records, org, State).Matches?;
    assert last + BatchSize >= FetchLimit;
    assert n == 5;
  }

  /**
   * Full, matched pages from page `m` up to a short page `k`: exactly one
   * fetch per page from `m` to `k`, then the run stops.
   */
  lemma {:induction false} ShortPageEndsRun(org: string, pages: nat -> Fetch, filter: Filter, m: nat, k: nat)
    requires m <= k < FetchLimit / BatchSize
    requires forall i :: m <= i < k ==>
      pages(i * BatchSize).Fetched? && |pages(i * BatchSize).records| == BatchSize
      && filter(pages(i * BatchSize).records, org, State).Matches?
    requires pages(k * BatchSize).Fetched?
    requires |pages(k * BatchSize).records| < BatchSize
    ensures |RunFrom(org, pages, filter, m * BatchSize).requested| == k - m + 1
    decreases k - m
  {
    if m < k {
      ShortPageEndsRun(org, pages, filter, m + 1, k);
      assert (m + 1) * BatchSize == m * BatchSize + BatchSize;
    }
  }

  // ===========================================================================
  // The whole batch

  /**
   * How the batch ends. `reports` is kept only to state properties by
   * organisation; the code keeps just the combined `results`.
   */
  datatype BatchOutcome =
    | BatchAborted                                            // a fetch failed: exit status 1
    | Finished(reports: seq<OrgOutcome>, results: seq<Record>)

  /** What an organisation adds to `all_results`: its records, or nothing when skipped. */
  function Contribution(outcome: OrgOutcome): seq<Record> {
    if outcome.Collected? then outcome.records else []
  }

  /** The batch over a list of organisations, in order. */
  function BatchOver(orgs: seq<string>, pages: nat -> Fetch, filter: Filter): BatchOutcome
    decreases |orgs|
  {
    if orgs == [] then Finished([], [])
    else
      var first := RunFrom(orgs[0], pages, filter, 0).outcome;
      if first.Aborted? then BatchAborted
      else match BatchOver(orgs[1..], pages, filter)
        case BatchAborted => BatchAborted
        case Finished(reports, results) => Finished([first] + reports, Contribution(first) + results)
  }

  /** The batch so far followed by the rest of it. */
  function Continue(reports: seq<OrgOutcome>, results: seq<Record>, rest: BatchOutcome): BatchOutcome {
    match rest
    case BatchAborted => BatchAborted
    case Finished(moreReports, moreResults) => Finished(reports + moreReports, results + moreResults)
  }

  /** One step of the batch loop: organisation `i`'s outcome, then the rest. */
  lemma BatchStep(orgs: seq<string>, i: int, pages: nat -> Fetch, filter: Filter,
                  reports: seq<OrgOutcome>, results: seq<Record>)
    requires 0 <= i < |orgs|
    ensures var first := RunFrom(orgs[i], pages, filter, 0).outcome;
      Continue(reports, results, BatchOver(orgs[i..], pages, filter))
      == if first.Aborted? then BatchAborted
         else Continue(reports + [first], results + Contribution(first), BatchOver(orgs[i + 1..], pages, filter))
  {
    var tail := orgs[i..];
    assert tail[0] == orgs[i] && tail[1..] == orgs[i + 1..];
    var first := RunFrom(orgs[i], pages, filter, 0).outcome;
    var rest := BatchOver(orgs[i + 1..], pages, filter);
    if !first.Aborted? && rest.Finished? {
      assert BatchOver(tail, pages, filter) == Finished([first] + rest.reports, Contribution(first) + rest.results);
      assert reports + ([first] + rest.reports) == reports + [first] + rest.reports;
      assert results + (Contribution(first) + rest.results) == results + Contribution(first) + rest.results;
    }
  }

  /**
   * `main`: every organisation in order, then one CSV export of the combined
   * results exactly when there are any.
   */
  method RunBatch(server: string -> Response, filter: Filter)
    returns (outcome: BatchOutcome, exported: Option<CsvTable>)
    ensures outcome == BatchOver(Organizations, Pages(server), filter)
    ensures exported.Some? <==> outcome.Finished? && outcome.results != []
    ensures exported.Some? ==> IsCsvOf(outcome.results, exported.value)
  {
    ghost var pages := Pages(server);
    var orgs := Organizations;
    var allResults: seq<Record> := [];
    var reports: seq<OrgOutcome> := [];
    for i := 0 to |orgs|
      invariant BatchOver(orgs, pages, filter) == Continue(reports, allResults, BatchOver(orgs[i..], pages, filter))
    {
      BatchStep(orgs, i, pages, filter, reports, allResults);
      var orgOutcome, _ := FetchOrganization(orgs[i], server, filter);
      if orgOutcome.Aborted? {
        return BatchAborted, None;
      }
      reports := reports + [orgOutcome];
      allResults := allResults + Contribution(orgOutcome);
    }
    assert orgs[|orgs|..] == [];
    outcome := Finished(reports, allResults);
    exported := None;
    if allResults != [] {
      exported := ExportToCsv(allResults);
    }
  }

  // ===========================================================================
  // Properties of the batch

  /** The batch aborts exactly when some organisation's run hits a failed fetch. */
  lemma {:induction false} BatchAbortsIffFetchFails(orgs: seq<string>, pages: nat -> Fetch, filter: Filter)
    ensures BatchOver(orgs, pages, filter).BatchAborted?
        <==> exists i :: 0 <= i < |orgs| && RunFrom(orgs[i], pages, filter, 0).outcome.Aborted?
    decreases |orgs|
  {
    if orgs != [] {
      BatchAbortsIffFetchFails(orgs[1..], pages, filter);
      if exists i :: 0 <= i < |orgs| && RunFrom(orgs[i], pages, filter, 0).outcome.Aborted? {
        var i :| 0 <= i < |orgs| && RunFrom(orgs[i], pages, filter, 0).outcome.Aborted?;
        if i > 0 {
          assert orgs[1..][i - 1] == orgs[i];
        }
      }
      if exists i :: 0 <= i < |orgs[1..]| && RunFrom(orgs[1..][i], pages, filter, 0).outcome.Aborted? {
        var i :| 0 <= i < |orgs[1..]| && RunFrom(orgs[1..][i], pages, filter, 0).outcome.Aborted?;
        assert orgs[i + 1] == orgs[1..][i];
      }
    }
  }

  /** Concatenation of what each report contributes, in order. */
  function Gather(reports: seq<OrgOutcome>): seq<Record> {
    if reports == [] then [] else Contribution(reports[0]) + Gather(reports[1..])
  }

  /**
   * A finished batch has one report per organisation, the i-th being that
   * organisation's own outcome, and its results gather their contributions.
   */
  lemma {:induction false} FinishedReports(orgs: seq<string>, pages: nat -> Fetch, filter: Filter)
    requires BatchOver(orgs, pages, filter).Finished?
    ensures var batch := BatchOver(orgs, pages, filter);
      && |batch.reports| == |orgs|
      && (forall i :: 0 <= i < |orgs| ==> batch.reports[i] == RunFrom(orgs[i], pages, filter, 0).outcome)
      && batch.results == Gather(batch.reports)
    decreases |orgs|
  {
    if orgs != [] {
      var batch := BatchOver(orgs, pages, filter);
      var rest := BatchOver(orgs[1..], pages, filter);
      FinishedReports(orgs[1..], pages, filter);
      assert batch.reports[1..] == rest.reports;
      forall i | 0 <= i < |orgs| ensures batch.reports[i] == RunFrom(orgs[i], pages, filter, 0).outcome {
        if i > 0 {
          assert orgs[1..][i - 1] == orgs[i];
        }
      }
    }
  }

  lemma {:induction false} GatherAppend(a: seq<OrgOutcome>, b: seq<OrgOutcome>)
    ensures Gather(a + b) == Gather(a) + Gather(b)
    decreases |a|
  {
    if a != [] {
      assert (a + b)[1..] == a[1..] + b;
      GatherAppend(a[1..], b);
    } else {
      assert a + b == b;
    }
  }

  /**
   * Each organisation's contribution sits in place between those of the
   * organisations before and after it: a skipped one adds nothing, a
   * completed one adds all its records, and nothing is deduplicated.
   */
  lemma ContributionInPlace(reports: seq<OrgOutcome>, i: int)
    requires 0 <= i < |reports|
    ensures Gather(reports) == Gather(reports[..i]) + Contribution(reports[i]) + Gather(reports[i + 1..])
  {
    var suffix := reports[i..];
    assert reports == reports[..i] + suffix;
    GatherAppend(reports[..i], suffix);
    assert suffix[0] == reports[i] && suffix[1..] == reports[i + 1..];
  }

  /**
   * A record collected under two organisations (overlapping aliases such as
   * "UHC" and "United") appears at least twice in the combined results.
   */
  lemma NoDeduplication(reports: seq<OrgOutcome>, i: int, j: int, r: Record)
    requires 0 <= i < j < |reports|
    requires r in Contribution(reports[i]) && r in Contribution(reports[j])
    ensures multiset(Gather(reports))[r] >= 2
  {
    var tail := reports[i + 1..];
    assert tail[j - i - 1] == reports[j];
    OccursInGather(tail, j - i - 1, r);
    SplitCount(reports, i, r);
  }

  lemma SplitCount(reports: seq<OrgOutcome>, i: int, r: Record)
    requires 0 <= i < |reports|
    ensures multiset(Gather(reports))[r]
         == multiset(Gather(reports[..i]))[r] + multiset(Contribution(reports[i]))[r]
            + multiset(Gather(reports[i + 1..]))[r]
  {
    ContributionInPlace(reports, i);
  }

  lemma OccursInGather(reports: seq<OrgOutcome>, k: int, r: Record)
    requires 0 <= k < |reports| && r in Contribution(reports[k])
    ensures multiset(Gather(reports))[r] >= 1
  {
    ContributionInPlace(reports, k);
    assert multiset(Gather(reports))
        == multiset(Gather(reports[..k])) + multiset(Contribution(reports[k])) + multiset(Gather(reports[k + 1..]));
  }
}
