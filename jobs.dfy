/** The cleaning-job procedures: scoped listing, reading one job, creation with
    its progress fan-out, status updates, assignment and the crew's own jobs. */
module JobsRouter {
  import opened Wrappers
  import opened Domain
  import opened Server
  import opened Queries
  import opened Database

  /** The ownership rule: a CREW user may only reach jobs assigned to them;
      every other role passes. */
  predicate MayAccess(user: User, job: Job) {
    !(user.role == Crew && job.assignedTo != Some(user.id))
  }

  // ---------------------------------------------------------------- list

  datatype ListInput = ListInput(
    status: Option<JobStatus>,
    assignedTo: Option<Id>,
    vesselId: Option<Id>,
    limit: Option<int>,
    cursor: Option<Id>)

  /** The `where` object the procedure builds. */
  datatype JobWhere = JobWhere(status: Option<JobStatus>, assignedTo: Option<Id>, vesselId: Option<Id>)

  predicate Matches(w: JobWhere, j: Job) {
    && (w.status.Some? ==> j.status == w.status.value)
    && (w.assignedTo.Some? ==> j.assignedTo == w.assignedTo)
    && (w.vesselId.Some? ==> j.vesselId == w.vesselId.value)
  }

  /** Which rows a caller should see: the requested filters, except that a CREW
      caller only ever sees jobs assigned to them, whatever `assignedTo` asked for. */
  predicate Visible(user: User, input: ListInput, j: Job) {
    && (input.status.Some? ==> j.status == input.status.value)
    && (input.vesselId.Some? ==> j.vesselId == input.vesselId.value)
    && (if user.role == Crew then j.assignedTo == Some(user.id)
        else input.assignedTo.Some? ==> j.assignedTo == input.assignedTo)
  }

  /** `orderBy: { scheduledAt: 'desc' }`; PostgreSQL puts unscheduled jobs first. */
  predicate ScheduledDesc(a: Job, b: Job) {
    a.scheduledAt.None? || (b.scheduledAt.Some? && a.scheduledAt.value >= b.scheduledAt.value)
  }

  /** `orderBy: { scheduledAt: 'asc' }`; PostgreSQL puts unscheduled jobs last. */
  predicate ScheduledAsc(a: Job, b: Job) {
    b.scheduledAt.None? || (a.scheduledAt.Some? && a.scheduledAt.value <= b.scheduledAt.value)
  }

  lemma ScheduledOrders()
    ensures TotalPreorder(ScheduledDesc) && TotalPreorder(ScheduledAsc)
  {
  }

  function JobId(j: Job): Id { j.id }

  /** Builds the `where` object step by step, as the procedure does; the CREW
      override comes last, so it wins over a requested assignee. */
  method BuildWhere(user: User, input: ListInput) returns (w: JobWhere)
    ensures forall j :: Matches(w, j) <==> Visible(user, input, j)
  {
    w := JobWhere(None, None, None);
    if input.status.Some? {
      w := w.(status := input.status);
    }
    if input.assignedTo.Some? {
      w := w.(assignedTo := input.assignedTo);
    }
    if input.vesselId.Some? {
      w := w.(vesselId := input.vesselId);
    }
    if user.role == Crew {
      w := w.(assignedTo := Some(user.id));
    }
  }

  /** The rows the procedure fetches: `take: limit + 1` from the cursor on. */
  function ListFetch(user: User, input: ListInput, rows: seq<Job>, limit: nat): seq<Job> {
    FindMany(rows, j => Visible(user, input, j), ScheduledDesc, input.cursor, JobId, limit + 1)
  }

  /** `list`: `rows` is the job table in storage order. */
  method List(ctx: Context, input: ListInput, rows: seq<Job>) returns (r: Result<Page<Job>>)
    ensures !SignedIn(ctx) ==> r == Failure(Unauthorized)
    ensures SignedIn(ctx) && ParseLimit(input.limit).Failure? ==> r == Failure(BadRequest)
    ensures r.Success? <==> SignedIn(ctx) && ParseLimit(input.limit).Success?
    ensures r.Success? ==>
      var user, limit := UserOf(ctx), ParseLimit(input.limit).value;
      var fetched := ListFetch(user, input, rows, limit);
      && |r.value.items| <= limit
      && r.value.items <= fetched
      && (r.value.nextCursor.Some? <==> |fetched| == limit + 1)
      && r.value.items + (if r.value.nextCursor.Some? then [fetched[limit]] else []) == fetched
      && (r.value.nextCursor.Some? ==> r.value.nextCursor.value == fetched[limit].id)
  {
    var g := IsAuthed(ctx);
    if g.Failure? {
      return Failure(g.error);
    }
    var lim := ParseLimit(input.limit);
    if lim.Failure? {
      return Failure(lim.error);
    }
    var limit := lim.value;
    var items := Fetch(UserOf(ctx), input, rows, limit);
    var page := PopExtra(items, limit, JobId);
    r := Success(page);
  }

  /** The query itself: `findMany` with the built `where` and `take: limit + 1`. */
  method Fetch(user: User, input: ListInput, rows: seq<Job>, limit: nat) returns (items: seq<Job>)
    ensures items == ListFetch(user, input, rows, limit)
  {
    var w := BuildWhere(user, input);
    items := FindMany(rows, j => Matches(w, j), ScheduledDesc, input.cursor, JobId, limit + 1);
    FindManyCongruent(rows, j => Matches(w, j), j => Visible(user, input, j), ScheduledDesc, input.cursor, JobId, limit + 1);
  }

  /** The fetched rows come ordered by `scheduledAt` descending. */
  lemma ListFetchSorted(user: User, input: ListInput, rows: seq<Job>, limit: nat)
    ensures Sorted(ListFetch(user, input, rows, limit), ScheduledDesc)
  {
    ScheduledOrders();
    FindManySorted(rows, j => Visible(user, input, j), ScheduledDesc, input.cursor, JobId, limit + 1);
  }

  /** A page cut from the fetched rows keeps their order. */
  lemma ListPageSorted(user: User, input: ListInput, rows: seq<Job>, limit: nat, items: seq<Job>)
    requires items <= ListFetch(user, input, rows, limit)
    ensures Sorted(items, ScheduledDesc)
  {
    ListFetchSorted(user, input, rows, limit);
    SortedPrefix(ListFetch(user, input, rows, limit), items, ScheduledDesc);
  }

  /** Every row of a page cut from the fetched rows is one the caller may see. */
  lemma ListPageVisible(user: User, input: ListInput, rows: seq<Job>, limit: nat, items: seq<Job>)
    requires items <= ListFetch(user, input, rows, limit)
    ensures forall j :: j in items ==> j in rows && Visible(user, input, j)
  {
    var fetched := ListFetch(user, input, rows, limit);
    assert forall j :: j in items ==> j in fetched;
  }

  /** A CREW caller's page holds only jobs assigned to that caller, whatever
      `assignedTo` the input asked for. */
  lemma ListCrewScoped(user: User, input: ListInput, rows: seq<Job>, limit: nat, items: seq<Job>)
    requires user.role == Crew
    requires items <= ListFetch(user, input, rows, limit)
    ensures forall j :: j in items ==> j.assignedTo == Some(user.id)
  {
    ListPageVisible(user, input, rows, limit, items);
  }

  // ---------------------------------------------------------------- byId

  /** `byId`: the job, unless it does not exist or a CREW caller is not its assignee. */
  function ById(ctx: Context, jobs: map<Id, Job>, id: Id): (r: Result<Job>)
    ensures !SignedIn(ctx) ==> r == Failure(Unauthorized)
    ensures SignedIn(ctx) && id !in jobs ==> r == Failure(NotFound)
    ensures SignedIn(ctx) && id in jobs ==>
      (r.Success? <==> UserOf(ctx).role != Crew || jobs[id].assignedTo == Some(UserOf(ctx).id))
    ensures r.Failure? && SignedIn(ctx) && id in jobs ==> r.error == Forbidden
    ensures r.Success? ==> id in jobs && r.value == jobs[id]
  {
    match IsAuthed(ctx)
    case Failure(e) => Failure(e)
    case Success(_) =>
      if id !in jobs then Failure(NotFound)
      else if !MayAccess(UserOf(ctx), jobs[id]) then Failure(Forbidden)
      else Success(jobs[id])
  }

  // ---------------------------------------------------------------- create

  datatype CreateInput = CreateInput(
    vesselId: Id,
    scheduledAt: Option<Instant>,
    assignedTo: Option<Id>,
    notes: Option<string>)

  /** `create`: a DRAFT job, then one progress row at 0 % per section the vessel
      has at this moment. `now` is the creation instant. */
  method Create(ctx: Context, db: Db, input: CreateInput, now: Instant) returns (r: Result<Job>)
    requires db.Valid()
    modifies db
    ensures db.Valid()
    ensures IsAdmin(ctx).Failure? ==> r == Failure(IsAdmin(ctx).error)
    ensures IsAdmin(ctx).Success? && input.vesselId !in old(db.vessels) ==> r == Failure(ForeignKeyViolation)
    ensures r.Success? <==> IsAdmin(ctx).Success? && input.vesselId in old(db.vessels)
    ensures r.Failure? ==> unchanged(db)
    ensures r.Success? ==>
      var job := r.value;
      && job.id !in old(db.jobs)
      && job == Job(job.id, input.vesselId, Draft, input.scheduledAt, None, None,
                    input.assignedTo, input.notes, now)
      && db.jobs == old(db.jobs)[job.id := job]
      && (forall k :: k in old(db.progress) ==> k in db.progress && db.progress[k] == old(db.progress)[k])
      && (forall k :: k in db.progress && k !in old(db.progress) ==>
            db.progress[k].jobId == job.id && db.progress[k].percent == 0 && db.progress[k].note.None?)
      && ProgressSections(db.progress, job.id) == SectionsOf(old(db.sections), input.vesselId)
      && db.vessels == old(db.vessels) && db.sections == old(db.sections) && db.media == old(db.media)
  {
    var g := IsAdmin(ctx);
    if g.Failure? {
      return Failure(g.error);
    }
    if input.vesselId !in db.vessels {
      return Failure(ForeignKeyViolation);
    }
    var job := Job(db.nextId, input.vesselId, Draft, input.scheduledAt, None, None,
                   input.assignedTo, input.notes, now);
    assert ProgressSections(db.progress, job.id) == {};
    db.InsertJob(job);
    var sections := SectionsOf(db.sections, input.vesselId);
    AddZeroRows(db, job.id, sections);
    r := Success(job);
  }

  /** `after` keeps every row of `before` and adds only 0 % rows of job `jobId`
      without a note. */
  ghost predicate AddsZeroRows(before: map<Id, Progress>, after: map<Id, Progress>, jobId: Id) {
    && (forall k :: k in before ==> k in after && after[k] == before[k])
    && (forall k :: k in after && k !in before ==>
          after[k].jobId == jobId && after[k].percent == 0 && after[k].note.None?)
  }

  /** The fan-out of `create`: one progress row at 0 % for each of `sections`
      (the `Promise.all` of inserts, taken one after another). */
  method AddZeroRows(db: Db, jobId: Id, sections: set<Id>)
    requires db.Valid() && jobId in db.jobs && sections <= db.sections.Keys
    requires ProgressSections(db.progress, jobId) == {}
    modifies db
    ensures db.Valid()
    ensures db.jobs == old(db.jobs) && db.vessels == old(db.vessels)
    ensures db.sections == old(db.sections) && db.media == old(db.media)
    ensures AddsZeroRows(old(db.progress), db.progress, jobId)
    ensures ProgressSections(db.progress, jobId) == sections
  {
    var todo := sections;
    while todo != {}
      invariant todo <= sections
      invariant db.Valid() && jobId in db.jobs
      invariant db.jobs == old(db.jobs) && db.vessels == old(db.vessels)
      invariant db.sections == old(db.sections) && db.media == old(db.media)
      invariant AddsZeroRows(old(db.progress), db.progress, jobId)
      invariant ProgressSections(db.progress, jobId) == sections - todo
      decreases todo
    {
      var sid :| sid in todo;
      ghost var before := db.progress;
      AddZeroRow(db, jobId, sid);
      assert AddsZeroRows(before, db.progress, jobId);
      todo := todo - {sid};
    }
  }

  /** One 0 % row for section `sid` of job `jobId`, which has none yet. */
  method AddZeroRow(db: Db, jobId: Id, sid: Id)
    requires db.Valid() && jobId in db.jobs && sid in db.sections
    requires sid !in ProgressSections(db.progress, jobId)
    modifies db
    ensures db.Valid()
    ensures db.jobs == old(db.jobs) && db.vessels == old(db.vessels)
    ensures db.sections == old(db.sections) && db.media == old(db.media)
    ensures AddsZeroRows(old(db.progress), db.progress, jobId)
    ensures ProgressSections(db.progress, jobId) == ProgressSections(old(db.progress), jobId) + {sid}
  {
    var row := Progress(db.nextId, jobId, sid, 0, None);
    AddRowSections(db.progress, row);
    db.InsertProgress(row);
  }

  /** Inserting a fresh row adds its section to its job's sections and to no other job's. */
  lemma AddRowSections(t: map<Id, Progress>, row: Progress)
    requires row.id !in t
    ensures ProgressSections(t[row.id := row], row.jobId) == ProgressSections(t, row.jobId) + {row.sectionId}
  {
    var t' := t[row.id := row];
    assert row.sectionId in ProgressSections(t', row.jobId) by {
      assert row.id in t' && t'[row.id].jobId == row.jobId;
    }
    forall s | s in ProgressSections(t, row.jobId) ensures s in ProgressSections(t', row.jobId) {
      var k :| k in t && t[k].jobId == row.jobId && t[k].sectionId == s;
      assert k in t' && t'[k] == t[k];
    }
  }

  // ---------------------------------------------------------------- updateStatus

  /** The fields `updateStatus` writes: any requested status (there is no
      forward-only rule), the notes when given, and a start or finish instant
      only when the matching timestamp is still unset. */
  function StatusUpdate(job: Job, status: JobStatus, notes: Option<string>, now: Instant): (j: Job)
    ensures j.status == status
    ensures j.notes == if notes.Some? then notes else job.notes
    ensures job.startedAt.Some? ==> j.startedAt == job.startedAt
    ensures job.finishedAt.Some? ==> j.finishedAt == job.finishedAt
    ensures j.startedAt != job.startedAt <==> status == InProgress && job.startedAt.None?
    ensures j.finishedAt != job.finishedAt <==> status == Done && job.finishedAt.None?
    ensures j.startedAt != job.startedAt ==> j.startedAt == Some(now)
    ensures j.finishedAt != job.finishedAt ==> j.finishedAt == Some(now)
    ensures j.(status := job.status, notes := job.notes, startedAt := job.startedAt,
               finishedAt := job.finishedAt) == job
  {
    var updated := job.(status := status, notes := if notes.Some? then notes else job.notes);
    var started := if status == InProgress && job.startedAt.None? then updated.(startedAt := Some(now)) else updated;
    if status == Done && job.finishedAt.None? then started.(finishedAt := Some(now)) else started
  }

  /** Repeating a status update, at any later instant, changes nothing more. */
  lemma StatusUpdateRepeat(job: Job, status: JobStatus, notes: Option<string>, t1: Instant, t2: Instant)
    ensures StatusUpdate(StatusUpdate(job, status, notes, t1), status, notes, t2)
         == StatusUpdate(job, status, notes, t1)
  {
  }

  /** A DONE job can be sent back to DRAFT, and a DRAFT job straight to DONE;
      neither change touches a timestamp that is already set. */
  lemma NoStatusOrder(job: Job, notes: Option<string>, now: Instant)
    ensures StatusUpdate(job.(status := Done), Draft, notes, now).status == Draft
    ensures StatusUpdate(job.(status := Draft), Done, notes, now).status == Done
    ensures StatusUpdate(job, Draft, notes, now).startedAt == job.startedAt
    ensures StatusUpdate(job, Draft, notes, now).finishedAt == job.finishedAt
  {
  }

  /** `updateStatus` */
  method UpdateStatus(ctx: Context, db: Db, id: Id, status: JobStatus, notes: Option<string>, now: Instant)
    returns (r: Result<Job>)
    requires db.Valid()
    modifies db
    ensures db.Valid()
    ensures IsCrewOrAdmin(ctx).Failure? ==> r == Failure(IsCrewOrAdmin(ctx).error)
    ensures IsCrewOrAdmin(ctx).Success? && id !in old(db.jobs) ==> r == Failure(NotFound)
    ensures IsCrewOrAdmin(ctx).Success? && id in old(db.jobs) ==>
      (UserOf(ctx).role == Crew && old(db.jobs)[id].assignedTo != Some(UserOf(ctx).id) ==> r == Failure(Forbidden))
    ensures r.Success? <==>
      IsCrewOrAdmin(ctx).Success? && id in old(db.jobs) && MayAccess(UserOf(ctx), old(db.jobs)[id])
    ensures r.Failure? ==> unchanged(db)
    ensures r.Success? ==>
      && r.value == StatusUpdate(old(db.jobs)[id], status, notes, now)
      && db.jobs == old(db.jobs)[id := r.value]
      && db.vessels == old(db.vessels) && db.sections == old(db.sections)
      && db.progress == old(db.progress) && db.media == old(db.media) && db.nextId == old(db.nextId)
  {
    var g := IsCrewOrAdmin(ctx);
    if g.Failure? {
      return Failure(g.error);
    }
    if id !in db.jobs {
      return Failure(NotFound);
    }
    var job := db.jobs[id];
    if !MayAccess(UserOf(ctx), job) {
      return Failure(Forbidden);
    }
    var updated := StatusUpdate(job, status, notes, now);
    db.ReplaceJob(updated);
    r := Success(updated);
  }

  // ---------------------------------------------------------------- assign

  /** `assign`: only the assignee changes. */
  method Assign(ctx: Context, db: Db, id: Id, assignedTo: Id) returns (r: Result<Job>)
    requires db.Valid()
    modifies db
    ensures db.Valid()
    ensures IsAdmin(ctx).Failure? ==> r == Failure(IsAdmin(ctx).error)
    ensures IsAdmin(ctx).Success? && id !in old(db.jobs) ==> r == Failure(NotFound)
    ensures r.Success? <==> IsAdmin(ctx).Success? && id in old(db.jobs)
    ensures r.Failure? ==> unchanged(db)
    ensures r.Success? ==>
      && r.value == old(db.jobs)[id].(assignedTo := Some(assignedTo))
      && db.jobs == old(db.jobs)[id := r.value]
      && db.vessels == old(db.vessels) && db.sections == old(db.sections)
      && db.progress == old(db.progress) && db.media == old(db.media) && db.nextId == old(db.nextId)
  {
    var g := IsAdmin(ctx);
    if g.Failure? {
      return Failure(g.error);
    }
    if id !in db.jobs {
      return Failure(NotFound);
    }
    var updated := db.jobs[id].(assignedTo := Some(assignedTo));
    db.ReplaceJob(updated);
    r := Success(updated);
  }

  // ---------------------------------------------------------------- myJobs

  predicate Open(j: Job) {
    j.status in {Draft, InProgress}
  }

  /** `myJobs`: the caller's open jobs, earliest scheduled first. */
  function MyJobs(ctx: Context, rows: seq<Job>): (r: Result<seq<Job>>)
    ensures IsCrewOrAdmin(ctx).Failure? ==> r == Failure(IsCrewOrAdmin(ctx).error)
    ensures r.Success? <==> IsCrewOrAdmin(ctx).Success?
    ensures r.Success? ==>
      && (forall j :: j in r.value <==> j in rows && j.assignedTo == Some(UserOf(ctx).id) && Open(j))
      && (forall j :: multiset(r.value)[j] ==
            (if j.assignedTo == Some(UserOf(ctx).id) && Open(j) then multiset(rows)[j] else 0))
      && |r.value| <= |rows|
      && Sorted(r.value, ScheduledAsc)
  {
    match IsCrewOrAdmin(ctx)
    case Failure(e) => Failure(e)
    case Success(_) =>
      var uid := UserOf(ctx).id;
      var mine := Filter(rows, (j: Job) => j.assignedTo == Some(uid) && Open(j));
      FilterMultiset(rows, (j: Job) => j.assignedTo == Some(uid) && Open(j));
      ScheduledOrders();
      SortBySorted(mine, ScheduledAsc);
      var sorted := SortBy(mine, ScheduledAsc);
      assert forall j :: j in mine <==> j in rows && j.assignedTo == Some(uid) && Open(j);
      assert forall j :: j in sorted <==> j in multiset(mine);
      Success(sorted)
  }
}
