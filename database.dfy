/** The relational store the routers write to: one table per entity, keyed by
    row id, plus the generator of fresh ids. */
module Database {
  import opened Wrappers
  import opened Domain

  /** At most one progress row per (job, section) pair: the store's compound unique key. */
  ghost predicate UniqueJobSection(t: map<Id, Progress>) {
    forall a, b :: a in t && b in t && t[a].jobId == t[b].jobId && t[a].sectionId == t[b].sectionId ==> a == b
  }

  /** The sections of vessel `vesselId` (`vesselSection.findMany({ where: { vesselId } })`). */
  function SectionsOf(sections: map<Id, VesselSection>, vesselId: Id): set<Id> {
    set k | k in sections && sections[k].vesselId == vesselId
  }

  /** The sections that job `jobId` has a progress row for. */
  ghost function ProgressSections(t: map<Id, Progress>, jobId: Id): set<Id> {
    set k | k in t && t[k].jobId == jobId :: t[k].sectionId
  }

  class Db {
    var vessels: map<Id, Vessel>
    var sections: map<Id, VesselSection>
    var jobs: map<Id, Job>
    var progress: map<Id, Progress>
    var media: map<Id, Media>
    var nextId: nat

    /** Every row is stored under its own id, ids already handed out are below
        `nextId`, every reference resolves, and (job, section) is unique. */
    ghost predicate Valid()
      reads this
    {
      && (forall k :: k in vessels ==> vessels[k].id == k && k < nextId)
      && (forall k :: k in sections ==> sections[k].id == k && k < nextId && sections[k].vesselId in vessels)
      && (forall k :: k in jobs ==> jobs[k].id == k && k < nextId && jobs[k].vesselId in vessels)
      && (forall k :: k in progress ==>
            progress[k].id == k && k < nextId && progress[k].jobId in jobs && progress[k].sectionId in sections)
      && (forall k :: k in media ==> media[k].id == k && k < nextId && media[k].progressId in progress)
      && UniqueJobSection(progress)
    }

    constructor ()
      ensures Valid()
      ensures vessels == map[] && sections == map[] && jobs == map[] && progress == map[] && media == map[]
    {
      vessels, sections, jobs, progress, media := map[], map[], map[], map[], map[];
      nextId := 0;
    }

    // Row writes. Each keeps Valid(); a new row takes the id `nextId`.

    method InsertVessel(v: Vessel)
      requires Valid() && v.id == nextId
      modifies this
      ensures Valid() && nextId == old(nextId) + 1
      ensures vessels == old(vessels)[v.id := v]
      ensures sections == old(sections) && jobs == old(jobs) && progress == old(progress) && media == old(media)
    {
      vessels := vessels[v.id := v];
      nextId := nextId + 1;
    }

    method ReplaceVessel(v: Vessel)
      requires Valid() && v.id in vessels
      modifies this
      ensures Valid() && nextId == old(nextId)
      ensures vessels == old(vessels)[v.id := v]
      ensures sections == old(sections) && jobs == old(jobs) && progress == old(progress) && media == old(media)
    {
      vessels := vessels[v.id := v];
    }

    method InsertSection(s: VesselSection)
      requires Valid() && s.id == nextId && s.vesselId in vessels
      modifies this
      ensures Valid() && nextId == old(nextId) + 1
      ensures sections == old(sections)[s.id := s]
      ensures vessels == old(vessels) && jobs == old(jobs) && progress == old(progress) && media == old(media)
    {
      sections := sections[s.id := s];
      nextId := nextId + 1;
    }

    method InsertJob(j: Job)
      requires Valid() && j.id == nextId && j.vesselId in vessels
      modifies this
      ensures Valid() && nextId == old(nextId) + 1
      ensures jobs == old(jobs)[j.id := j]
      ensures vessels == old(vessels) && sections == old(sections) && progress == old(progress) && media == old(media)
    {
      jobs := jobs[j.id := j];
      nextId := nextId + 1;
    }

    method ReplaceJob(j: Job)
      requires Valid() && j.id in jobs && j.vesselId == jobs[j.id].vesselId
      modifies this
      ensures Valid() && nextId == old(nextId)
      ensures jobs == old(jobs)[j.id := j]
      ensures vessels == old(vessels) && sections == old(sections) && progress == old(progress) && media == old(media)
    {
      jobs := jobs[j.id := j];
    }

    /** A new progress row, for a (job, section) pair that has none yet. */
    method InsertProgress(p: Progress)
      requires Valid() && p.id == nextId && p.jobId in jobs && p.sectionId in sections
      requires forall k :: k in progress ==> !(progress[k].jobId == p.jobId && progress[k].sectionId == p.sectionId)
      modifies this
      ensures Valid() && nextId == old(nextId) + 1
      ensures progress == old(progress)[p.id := p]
      ensures vessels == old(vessels) && sections == old(sections) && jobs == old(jobs) && media == old(media)
    {
      progress := progress[p.id := p];
      nextId := nextId + 1;
    }

    /** Rewrites the fields of a progress row other than its id and its (job, section) pair. */
    method ReplaceProgress(p: Progress)
      requires Valid() && p.id in progress
      requires p.jobId == progress[p.id].jobId && p.sectionId == progress[p.id].sectionId
      modifies this
      ensures Valid() && nextId == old(nextId)
      ensures progress == old(progress)[p.id := p]
      ensures vessels == old(vessels) && sections == old(sections) && jobs == old(jobs) && media == old(media)
    {
      progress := progress[p.id := p];
    }

    method InsertMedia(m: Media)
      requires Valid() && m.id == nextId && m.progressId in progress
      modifies this
      ensures Valid() && nextId == old(nextId) + 1
      ensures media == old(media)[m.id := m]
      ensures vessels == old(vessels) && sections == old(sections) && jobs == old(jobs) && progress == old(progress)
    {
      media := media[m.id := m];
      nextId := nextId + 1;
    }

    method RemoveMedia(id: Id)
      requires Valid()
      modifies this
      ensures Valid() && nextId == old(nextId)
      ensures media == old(media) - {id}
      ensures vessels == old(vessels) && sections == old(sections) && jobs == old(jobs) && progress == old(progress)
    {
      media := media - {id};
    }

    /** The job a progress row belongs to (`include: { cleaningJob: true }`). */
    function JobOfProgress(progressId: Id): (j: Job)
      reads this
      requires Valid() && progressId in progress
      ensures j in jobs.Values && j.id == progress[progressId].jobId
    {
      jobs[progress[progressId].jobId]
    }

    /** The job a media row belongs to, through its progress row. */
    function JobOfMedia(mediaId: Id): (j: Job)
      reads this
      requires Valid() && mediaId in media
      ensures j in jobs.Values && j == JobOfProgress(media[mediaId].progressId)
    {
      JobOfProgress(media[mediaId].progressId)
    }
  }
}
