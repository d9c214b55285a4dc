/** The admin report: jobs created in a date range, optionally narrowed to one
    vessel or one client, each rolled up into section counts and a rounded
    mean percentage. */
module Reports {
  import opened Wrappers
  import opened Domain
  import opened Server
  import opened Queries
  import opened Numeric

  datatype SummaryInput = SummaryInput(from: Instant, to: Instant, clientId: Option<Id>, vesselId: Option<Id>)

  /** The `where` object handed to `findMany`: a `createdAt` range, and at most
      one of a `vesselId` and a `vessel.clientId` condition. */
  datatype SummaryWhere = SummaryWhere(createdGte: Instant, createdLte: Instant,
                                       vesselId: Option<Id>, vesselClientId: Option<Id>)

  /** A fetched job with what the rollup reads from its included relations:
      the vessel's name, the vessel's client, and the percents of its progress rows. */
  datatype ReportRow = ReportRow(job: Job, vesselName: string, clientId: Id, clientName: string,
                                 percents: seq<int>)

  /** What a `where` object selects, in Prisma's reading of it. */
  predicate MatchesWhere(w: SummaryWhere, row: ReportRow) {
    && w.createdGte <= row.job.createdAt <= w.createdLte
    && (w.vesselId.Some? ==> row.job.vesselId == w.vesselId.value)
    && (w.vesselClientId.Some? ==> row.clientId == w.vesselClientId.value)
  }

  /** The jobs the report is about: created between `from` and `to`, both
      included; of the given vessel if one is named, else of the given client
      if one is named. */
  predicate Qualifies(input: SummaryInput, row: ReportRow) {
    && input.from <= row.job.createdAt <= input.to
    && (if input.vesselId.Some? then row.job.vesselId == input.vesselId.value
        else input.clientId.Some? ==> row.clientId == input.clientId.value)
  }

  /** Builds `where` step by step, as the handler does. */
  method BuildWhere(input: SummaryInput) returns (w: SummaryWhere)
    ensures forall row :: MatchesWhere(w, row) <==> Qualifies(input, row)
    ensures w.vesselId.Some? ==> w.vesselClientId.None?
  {
    w := SummaryWhere(input.from, input.to, None, None);
    if input.vesselId.Some? {
      w := w.(vesselId := input.vesselId);
    } else if input.clientId.Some? {
      w := w.(vesselClientId := input.clientId);
    }
  }

  /** A named vessel makes the client filter irrelevant. */
  lemma VesselTakesPrecedence(input: SummaryInput, row: ReportRow, otherClient: Option<Id>)
    requires input.vesselId.Some?
    ensures Qualifies(input, row) <==> Qualifies(input.(clientId := otherClient), row)
  {
  }

  /** `orderBy: { createdAt: 'desc' }` */
  predicate CreatedDesc(a: ReportRow, b: ReportRow) {
    a.job.createdAt >= b.job.createdAt
  }

  /** The rows `findMany` returns: the qualifying ones, newest first. */
  function SummaryFetch(input: SummaryInput, rows: seq<ReportRow>): (r: seq<ReportRow>)
    ensures |r| <= |rows|
    ensures forall x :: x in r <==> x in rows && Qualifies(input, x)
    ensures forall x :: multiset(r)[x] == (if Qualifies(input, x) then multiset(rows)[x] else 0)
    ensures forall i, j :: 0 <= i < j < |r| ==> r[i].job.createdAt >= r[j].job.createdAt
  {
    var matching := Filter(rows, (x: ReportRow) => Qualifies(input, x));
    var r := SortBy(matching, CreatedDesc);
    FilterMultiset(rows, (x: ReportRow) => Qualifies(input, x));
    forall x ensures x in r <==> x in matching {
      assert x in r <==> x in multiset(r);
      assert x in matching <==> x in multiset(matching);
    }
    assert TotalPreorder(CreatedDesc);
    SortBySorted(matching, CreatedDesc);
    r
  }

  datatype SummaryEntry = SummaryEntry(jobId: Id, clientName: string, vesselName: string, date: Instant,
                                       totalSections: nat, completedSections: nat, averagePercent: int,
                                       status: JobStatus)

  predicate IsComplete(p: int) {
    p == 100
  }

  /** The number of rows at exactly 100 percent. */
  function CompletedSections(percents: seq<int>): (r: nat)
    ensures r == multiset(percents)[100]
    ensures r <= |percents|
    ensures r == |percents| <==> forall i :: 0 <= i < |percents| ==> percents[i] == 100
  {
    FilterKeepsAll(percents, IsComplete);
    CountComplete(percents);
    |Filter(percents, IsComplete)|
  }

  /** Each row kept by the filter is a copy of 100. */
  lemma {:induction false} CountComplete(percents: seq<int>)
    ensures |Filter(percents, IsComplete)| == multiset(percents)[100]
  {
    if percents != [] {
      CountComplete(percents[1..]);
      assert percents == [percents[0]] + percents[1..];
    }
  }

  /** The mean percent rounded half up, and 0 for a job without rows. */
  function AveragePercent(percents: seq<int>): (r: int)
    ensures |percents| == 0 ==> r == 0
    ensures |percents| > 0 ==>
      2 * |percents| * r - |percents| <= 2 * Sum(percents) < 2 * |percents| * r + |percents|
  {
    if |percents| > 0 then RoundDiv(Sum(percents), |percents|) else 0
  }

  /** Percents in [0, 100] give a mean in [0, 100]. */
  lemma AverageInRange(percents: seq<int>)
    requires forall i :: 0 <= i < |percents| ==> 0 <= percents[i] <= 100
    ensures 0 <= AveragePercent(percents) <= 100
  {
    if |percents| > 0 {
      SumBounds(percents, 0, 100);
      RoundDivWithin(Sum(percents), |percents|, 0, 100);
    }
  }

  /** A job whose every section is complete reports 100. */
  lemma AllCompleteGivesHundred(percents: seq<int>)
    requires |percents| > 0
    requires CompletedSections(percents) == |percents|
    ensures AveragePercent(percents) == 100
  {
    SumAtMax(percents, 100);
    RoundDivUnique(Sum(percents), |percents|, 100);
  }

  /** With percents at most 100, the rollup reports 100 exactly when the rows
      fall short of all-complete by at most half a percent on average. */
  lemma AverageHundredIff(percents: seq<int>)
    requires |percents| > 0
    requires forall i :: 0 <= i < |percents| ==> percents[i] <= 100
    ensures AveragePercent(percents) == 100 <==> 2 * (100 * |percents| - Sum(percents)) <= |percents|
  {
    SumUpper(percents, 100);
    if 2 * (100 * |percents| - Sum(percents)) <= |percents| {
      RoundDivUnique(Sum(percents), |percents|, 100);
    }
  }

  /** An average of 100 does not mean every section is complete: 99 and 100
      round to 100. */
  lemma HundredWithIncompleteSection()
    ensures AveragePercent([99, 100]) == 100
    ensures CompletedSections([99, 100]) == 1
  {
    assert Sum([99, 100]) == 199 by {
      assert [99, 100][..1] == [99];
      assert [99][..0] == [];
    }
    assert Filter([99, 100], IsComplete) == [100] by {
      assert [99, 100][1..] == [100];
      assert [100][1..] == [];
    }
  }

  /** The per-job rollup of `summary`. */
  function Rollup(row: ReportRow): (e: SummaryEntry)
    ensures e.jobId == row.job.id && e.date == row.job.createdAt && e.status == row.job.status
    ensures e.vesselName == row.vesselName && e.clientName == row.clientName
    ensures e.totalSections == |row.percents|
    ensures e.completedSections == CompletedSections(row.percents) == multiset(row.percents)[100]
    ensures e.averagePercent == AveragePercent(row.percents)
    ensures e.completedSections <= e.totalSections
    ensures e.totalSections > 0 && e.completedSections == e.totalSections ==> e.averagePercent == 100
    ensures (forall i :: 0 <= i < |row.percents| ==> 0 <= row.percents[i] <= 100) ==>
      0 <= e.averagePercent <= 100
  {
    var e := SummaryEntry(row.job.id, row.clientName, row.vesselName, row.job.createdAt,
                          |row.percents|, CompletedSections(row.percents), AveragePercent(row.percents),
                          row.job.status);
    var _ := if e.totalSections > 0 && e.completedSections == e.totalSections then
      AllCompleteGivesHundred(row.percents); 0 else 0;
    var _ := if forall i :: 0 <= i < |row.percents| ==> 0 <= row.percents[i] <= 100 then
      AverageInRange(row.percents); 0 else 0;
    e
  }

  /** `summary`: admin only; one entry per fetched job, in the fetched order. */
  method Summary(ctx: Context, input: SummaryInput, rows: seq<ReportRow>) returns (r: Result<seq<SummaryEntry>>)
    ensures IsAdmin(ctx).Failure? ==> r == Failure(IsAdmin(ctx).error)
    ensures r.Success? <==> IsAdmin(ctx).Success?
    ensures r.Success? ==>
      && |r.value| == |SummaryFetch(input, rows)|
      && (forall i :: 0 <= i < |r.value| ==> r.value[i] == Rollup(SummaryFetch(input, rows)[i]))
      && (forall i, j :: 0 <= i < j < |r.value| ==> r.value[i].date >= r.value[j].date)
  {
    var g := IsAdmin(ctx);
    if g.Failure? {
      return Failure(g.error);
    }
    var w := BuildWhere(input);
    FilterCongruent(rows, (x: ReportRow) => MatchesWhere(w, x), (x: ReportRow) => Qualifies(input, x));
    var jobs := SortBy(Filter(rows, (x: ReportRow) => MatchesWhere(w, x)), CreatedDesc);
    r := Success(seq(|jobs|, i requires 0 <= i < |jobs| => Rollup(jobs[i])));
  }

  /** The entries are those of exactly the qualifying jobs. */
  lemma SummaryCoversQualifying(input: SummaryInput, rows: seq<ReportRow>, entries: seq<SummaryEntry>)
    requires |entries| == |SummaryFetch(input, rows)|
    requires forall i :: 0 <= i < |entries| ==> entries[i] == Rollup(SummaryFetch(input, rows)[i])
    ensures (set e | e in entries :: e.jobId) == (set row | row in rows && Qualifies(input, row) :: row.job.id)
  {
    EntriesCover(input, rows, SummaryFetch(input, rows), entries);
  }

  lemma EntriesCover(input: SummaryInput, rows: seq<ReportRow>, fetched: seq<ReportRow>, entries: seq<SummaryEntry>)
    requires forall x :: x in fetched <==> x in rows && Qualifies(input, x)
    requires |entries| == |fetched|
    requires forall i :: 0 <= i < |entries| ==> entries[i].jobId == fetched[i].job.id
    ensures (set e | e in entries :: e.jobId) == (set row | row in rows && Qualifies(input, row) :: row.job.id)
  {
    var ids := set e | e in entries :: e.jobId;
    var want := set row | row in rows && Qualifies(input, row) :: row.job.id;
    forall id | id in ids ensures id in want {
      var e :| e in entries && e.jobId == id;
      var i :| 0 <= i < |entries| && entries[i] == e;
      assert fetched[i] in fetched;
    }
    forall id | id in want ensures id in ids {
      var row :| row in rows && Qualifies(input, row) && row.job.id == id;
      var i :| 0 <= i < |fetched| && fetched[i] == row;
      assert entries[i] in entries;
    }
  }
}
