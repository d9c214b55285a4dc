/** The section-progress procedures: the percent upsert and the media rows,
    each behind the job-ownership rule reached through the row's parents. */
module ProgressRouter {
  import opened Wrappers
  import opened Domain
  import opened Server
  import opened Database
  import opened JobsRouter

  /** Some progress row carries the pair (jobId, sectionId). */
  ghost predicate HasRow(t: map<Id, Progress>, jobId: Id, sectionId: Id) {
    exists k :: k in t && t[k].jobId == jobId && t[k].sectionId == sectionId
  }

  /** The id of a row carrying the pair (the only one, in a valid table). */
  ghost function RowOf(t: map<Id, Progress>, jobId: Id, sectionId: Id): (k: Id)
    requires HasRow(t, jobId, sectionId)
    ensures k in t && t[k].jobId == jobId && t[k].sectionId == sectionId
  {
    var k :| k in t && t[k].jobId == jobId && t[k].sectionId == sectionId; k
  }

  /** The progress table after the upsert keyed on (jobId, sectionId): an existing
      row gets the new percent, and the new note when one is given; otherwise a
      row `newId` is created. */
  ghost function Upsert(t: map<Id, Progress>, jobId: Id, sectionId: Id, percent: int,
                        note: Option<string>, newId: Id): (r: map<Id, Progress>)
    requires UniqueJobSection(t) && newId !in t
    ensures r.Keys == if HasRow(t, jobId, sectionId) then t.Keys else t.Keys + {newId}
    ensures forall k :: k in t && !(t[k].jobId == jobId && t[k].sectionId == sectionId) ==> r[k] == t[k]
    ensures HasRow(r, jobId, sectionId)
    ensures forall k :: k in r && r[k].jobId == jobId && r[k].sectionId == sectionId ==>
      && r[k].percent == percent
      && r[k].note == (if note.Some? then note else if k in t then t[k].note else None)
      && (k in t ==> r[k].id == t[k].id)
      && (k !in t ==> k == newId && r[k].id == newId)
  {
    if HasRow(t, jobId, sectionId) then
      var k := RowOf(t, jobId, sectionId);
      t[k := t[k].(percent := percent, note := if note.Some? then note else t[k].note)]
    else
      var r := t[newId := Progress(newId, jobId, sectionId, percent, note)];
      assert r[newId].jobId == jobId && r[newId].sectionId == sectionId;
      r
  }

  /** The upsert never creates a second row for a pair. */
  lemma UpsertKeepsUnique(t: map<Id, Progress>, jobId: Id, sectionId: Id, percent: int,
                          note: Option<string>, newId: Id)
    requires UniqueJobSection(t) && newId !in t
    ensures UniqueJobSection(Upsert(t, jobId, sectionId, percent, note, newId))
  {
    var r := Upsert(t, jobId, sectionId, percent, note, newId);
    forall a, b | a in r && b in r && r[a].jobId == r[b].jobId && r[a].sectionId == r[b].sectionId
      ensures a == b
    {
      if r[a].jobId == jobId && r[a].sectionId == sectionId {
        if HasRow(t, jobId, sectionId) {
          assert a in t && b in t;
          assert t[a].jobId == jobId && t[a].sectionId == sectionId;
          assert t[b].jobId == jobId && t[b].sectionId == sectionId;
        }
      } else {
        assert a in t && b in t && r[a] == t[a] && r[b] == t[b];
      }
    }
  }

  /** Upserting the same values twice leaves the table as upserting them once. */
  lemma UpsertIdempotent(t: map<Id, Progress>, jobId: Id, sectionId: Id, percent: int,
                         note: Option<string>, newId1: Id, newId2: Id)
    requires UniqueJobSection(t) && newId1 !in t
    requires newId2 !in Upsert(t, jobId, sectionId, percent, note, newId1)
    ensures UniqueJobSection(Upsert(t, jobId, sectionId, percent, note, newId1))
    ensures Upsert(Upsert(t, jobId, sectionId, percent, note, newId1), jobId, sectionId, percent, note, newId2)
         == Upsert(t, jobId, sectionId, percent, note, newId1)
  {
    var once := Upsert(t, jobId, sectionId, percent, note, newId1);
    UpsertKeepsUnique(t, jobId, sectionId, percent, note, newId1);
    var twice := Upsert(once, jobId, sectionId, percent, note, newId2);
    var k := RowOf(once, jobId, sectionId);
    assert twice == once[k := once[k].(percent := percent, note := if note.Some? then note else once[k].note)];
    assert once[k].(percent := percent, note := if note.Some? then note else once[k].note) == once[k];
  }

  datatype PercentInput = PercentInput(jobId: Id, sectionId: Id, percent: int, note: Option<string>)

  /** `updatePercent` */
  method UpdatePercent(ctx: Context, db: Db, input: PercentInput) returns (r: Result<Progress>)
    requires db.Valid()
    modifies db
    ensures db.Valid()
    ensures IsCrewOrAdmin(ctx).Failure? ==> r == Failure(IsCrewOrAdmin(ctx).error)
    ensures IsCrewOrAdmin(ctx).Success? && !(0 <= input.percent <= 100) ==> r == Failure(BadRequest)
    ensures IsCrewOrAdmin(ctx).Success? && 0 <= input.percent <= 100 && input.jobId !in old(db.jobs) ==>
      r == Failure(NotFound)
    ensures IsCrewOrAdmin(ctx).Success? && 0 <= input.percent <= 100 && input.jobId in old(db.jobs) ==>
      (UserOf(ctx).role == Crew && old(db.jobs)[input.jobId].assignedTo != Some(UserOf(ctx).id) ==>
         r == Failure(Forbidden))
    ensures r.Success? <==>
      && IsCrewOrAdmin(ctx).Success? && 0 <= input.percent <= 100
      && input.jobId in old(db.jobs) && MayAccess(UserOf(ctx), old(db.jobs)[input.jobId])
      && (HasRow(old(db.progress), input.jobId, input.sectionId) || input.sectionId in old(db.sections))
    ensures r.Failure? ==> unchanged(db)
    ensures r.Success? ==>
      && db.progress == Upsert(old(db.progress), input.jobId, input.sectionId, input.percent, input.note, old(db.nextId))
      && r.value in db.progress.Values
      && r.value.jobId == input.jobId && r.value.sectionId == input.sectionId && r.value.percent == input.percent
      && db.jobs == old(db.jobs) && db.vessels == old(db.vessels)
      && db.sections == old(db.sections) && db.media == old(db.media)
  {
    var g := IsCrewOrAdmin(ctx);
    if g.Failure? {
      return Failure(g.error);
    }
    if !(0 <= input.percent <= 100) {
      return Failure(BadRequest);
    }
    if input.jobId !in db.jobs {
      return Failure(NotFound);
    }
    var job := db.jobs[input.jobId];
    if !MayAccess(UserOf(ctx), job) {
      return Failure(Forbidden);
    }
    ghost var t := db.progress;
    if exists k :: k in db.progress && db.progress[k].jobId == input.jobId && db.progress[k].sectionId == input.sectionId {
      var k :| k in db.progress && db.progress[k].jobId == input.jobId && db.progress[k].sectionId == input.sectionId;
      assert k == RowOf(t, input.jobId, input.sectionId);
      var row := db.progress[k].(percent := input.percent,
                                 note := if input.note.Some? then input.note else db.progress[k].note);
      db.ReplaceProgress(row);
      r := Success(row);
    } else if input.sectionId !in db.sections {
      r := Failure(ForeignKeyViolation);
    } else {
      var row := Progress(db.nextId, input.jobId, input.sectionId, input.percent, input.note);
      db.InsertProgress(row);
      r := Success(row);
    }
  }

  datatype MediaInput = MediaInput(progressId: Id, kind: MediaKind, url: string, caption: Option<string>)

  /** `addMedia`. `isUrl` stands for zod's URL check of the `url` field. */
  method AddMedia(ctx: Context, db: Db, input: MediaInput, isUrl: string -> bool) returns (r: Result<Media>)
    requires db.Valid()
    modifies db
    ensures db.Valid()
    ensures IsCrewOrAdmin(ctx).Failure? ==> r == Failure(IsCrewOrAdmin(ctx).error)
    ensures IsCrewOrAdmin(ctx).Success? && !isUrl(input.url) ==> r == Failure(BadRequest)
    ensures IsCrewOrAdmin(ctx).Success? && isUrl(input.url) && input.progressId !in old(db.progress) ==>
      r == Failure(NotFound)
    ensures IsCrewOrAdmin(ctx).Success? && isUrl(input.url) && input.progressId in old(db.progress) ==>
      (UserOf(ctx).role == Crew && old(db.JobOfProgress(input.progressId)).assignedTo != Some(UserOf(ctx).id) ==>
         r == Failure(Forbidden))
    ensures r.Success? <==>
      && IsCrewOrAdmin(ctx).Success? && isUrl(input.url) && input.progressId in old(db.progress)
      && MayAccess(UserOf(ctx), old(db.JobOfProgress(input.progressId)))
    ensures r.Failure? ==> unchanged(db)
    ensures r.Success? ==>
      && r.value == Media(old(db.nextId), input.progressId, input.kind, input.url, input.caption)
      && r.value.id !in old(db.media)
      && db.media == old(db.media)[r.value.id := r.value]
      && db.jobs == old(db.jobs) && db.vessels == old(db.vessels)
      && db.sections == old(db.sections) && db.progress == old(db.progress)
  {
    var g := IsCrewOrAdmin(ctx);
    if g.Failure? {
      return Failure(g.error);
    }
    if !isUrl(input.url) {
      return Failure(BadRequest);
    }
    if input.progressId !in db.progress {
      return Failure(NotFound);
    }
    var job := db.JobOfProgress(input.progressId);
    if !MayAccess(UserOf(ctx), job) {
      return Failure(Forbidden);
    }
    var m := Media(db.nextId, input.progressId, input.kind, input.url, input.caption);
    db.InsertMedia(m);
    r := Success(m);
  }

  /** `deleteMedia`: returns the row it removed. */
  method DeleteMedia(ctx: Context, db: Db, id: Id) returns (r: Result<Media>)
    requires db.Valid()
    modifies db
    ensures db.Valid()
    ensures IsCrewOrAdmin(ctx).Failure? ==> r == Failure(IsCrewOrAdmin(ctx).error)
    ensures IsCrewOrAdmin(ctx).Success? && id !in old(db.media) ==> r == Failure(NotFound)
    ensures IsCrewOrAdmin(ctx).Success? && id in old(db.media) ==>
      (UserOf(ctx).role == Crew && old(db.JobOfMedia(id)).assignedTo != Some(UserOf(ctx).id) ==>
         r == Failure(Forbidden))
    ensures r.Success? <==>
      IsCrewOrAdmin(ctx).Success? && id in old(db.media) && MayAccess(UserOf(ctx), old(db.JobOfMedia(id)))
    ensures r.Failure? ==> unchanged(db)
    ensures r.Success? ==>
      && r.value == old(db.media)[id]
      && db.media == old(db.media) - {id}
      && db.jobs == old(db.jobs) && db.vessels == old(db.vessels)
      && db.sections == old(db.sections) && db.progress == old(db.progress)
  {
    var g := IsCrewOrAdmin(ctx);
    if g.Failure? {
      return Failure(g.error);
    }
    if id !in db.media {
      return Failure(NotFound);
    }
    var m := db.media[id];
    var job := db.JobOfMedia(id);
    if !MayAccess(UserOf(ctx), job) {
      return Failure(Forbidden);
    }
    db.RemoveMedia(id);
    r := Success(m);
  }
}
