/** The rows of the relational store, as the routers read and write them. */
module Domain {
  import opened Wrappers

  /** Row identifiers; the store hands out fresh ones (see Database). */
  type Id = nat

  datatype Role = Admin | Crew | Client

  /** The signed-in user carried by a session. */
  datatype User = User(id: Id, role: Role)

  datatype JobStatus = Draft | InProgress | Done

  datatype MediaKind = Before | After

  datatype VesselType = Yacht | Boat | Motorboat

  /** Timestamps are abstract instants; a larger number is a later instant. */
  type Instant = int

  datatype Vessel = Vessel(
    id: Id,
    clientId: Id,
    name: string,
    kind: VesselType,
    length: Option<real>,
    width: Option<real>,
    registrationNo: Option<string>,
    notes: Option<string>)

  datatype VesselSection = VesselSection(
    id: Id,
    vesselId: Id,
    name: string,
    description: Option<string>,
    order: int)

  datatype SectionTemplate = SectionTemplate(
    id: Id,
    name: string,
    description: Option<string>,
    order: int)

  datatype Job = Job(
    id: Id,
    vesselId: Id,
    status: JobStatus,
    scheduledAt: Option<Instant>,
    startedAt: Option<Instant>,
    finishedAt: Option<Instant>,
    assignedTo: Option<Id>,
    notes: Option<string>,
    createdAt: Instant)

  /** A cleaning-section progress row: the completion of one section within one job. */
  datatype Progress = Progress(
    id: Id,
    jobId: Id,
    sectionId: Id,
    percent: int,
    note: Option<string>)

  datatype Media = Media(
    id: Id,
    progressId: Id,
    kind: MediaKind,
    url: string,
    caption: Option<string>)
}
