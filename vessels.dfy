/** The vessel procedures: filtered and paginated listing with each vessel's
    open jobs, creation and update under the input constraints, and the copy of
    section templates into a vessel's sections. */
module VesselsRouter {
  import opened Wrappers
  import opened Domain
  import opened Server
  import opened Queries
  import opened Database
  import opened Text
  import JobsRouter

  // ---------------------------------------------------------------- list

  datatype ListInput = ListInput(
    clientId: Option<Id>,
    kind: Option<VesselType>,
    search: Option<string>,
    limit: Option<int>,
    cursor: Option<Id>)

  /** The `where` object the procedure builds; `search` stands for the `OR` of
      the two `contains` conditions. */
  datatype VesselWhere = VesselWhere(clientId: Option<Id>, kind: Option<VesselType>, search: Option<string>)

  /** `contains` with `mode: 'insensitive'`, case folded on ASCII letters. */
  predicate ContainsInsensitive(field: string, search: string) {
    Includes(ToLower(field), ToLower(search))
  }

  predicate Matches(w: VesselWhere, v: Vessel) {
    && (w.clientId.Some? ==> v.clientId == w.clientId.value)
    && (w.kind.Some? ==> v.kind == w.kind.value)
    && (w.search.Some? ==>
          ContainsInsensitive(v.name, w.search.value) ||
          (v.registrationNo.Some? && ContainsInsensitive(v.registrationNo.value, w.search.value)))
  }

  /** The vessels a listing asks for: of the client and of the type when given,
      and, for a non-empty search text, with that text in the name or in the
      registration number. An empty search text filters nothing. */
  predicate Wanted(input: ListInput, v: Vessel) {
    && (input.clientId.Some? ==> v.clientId == input.clientId.value)
    && (input.kind.Some? ==> v.kind == input.kind.value)
    && (input.search.Some? && input.search.value != [] ==>
          ContainsInsensitive(v.name, input.search.value) ||
          (v.registrationNo.Some? && ContainsInsensitive(v.registrationNo.value, input.search.value)))
  }

  method BuildWhere(input: ListInput) returns (w: VesselWhere)
    ensures forall v :: Matches(w, v) <==> Wanted(input, v)
  {
    w := VesselWhere(None, None, None);
    if input.clientId.Some? {
      w := w.(clientId := input.clientId);
    }
    if input.kind.Some? {
      w := w.(kind := input.kind);
    }
    if input.search.Some? && input.search.value != [] {
      w := w.(search := input.search);
    }
  }

  /** `orderBy: { name: 'asc' }` */
  predicate NameAsc(a: Vessel, b: Vessel) {
    LexLe(a.name, b.name)
  }

  lemma NameAscOrders()
    ensures TotalPreorder(NameAsc)
  {
    forall a: Vessel, b: Vessel ensures NameAsc(a, b) || NameAsc(b, a) {
      LexTotal(a.name, b.name);
    }
    forall a: Vessel, b: Vessel, c: Vessel | NameAsc(a, b) && NameAsc(b, c) ensures NameAsc(a, c) {
      LexTransitive(a.name, b.name, c.name);
    }
  }

  function VesselId(v: Vessel): Id { v.id }

  /** A listed vessel with the jobs included with it. */
  datatype ListItem = ListItem(vessel: Vessel, activeJobs: seq<Job>)

  function ItemId(item: ListItem): Id { item.vessel.id }

  /** The included `jobs` relation: the vessel's DRAFT and IN_PROGRESS jobs. */
  function ActiveJobs(vesselId: Id, jobRows: seq<Job>): (r: seq<Job>)
    ensures forall j :: j in r <==> j in jobRows && j.vesselId == vesselId && JobsRouter.Open(j)
    ensures forall j :: j in r ==> j.status != Done
    ensures forall j :: multiset(r)[j] == (if j.vesselId == vesselId && JobsRouter.Open(j) then multiset(jobRows)[j] else 0)
    ensures IsSublist(r, jobRows)
  {
    FilterMultiset(jobRows, (j: Job) => j.vesselId == vesselId && JobsRouter.Open(j));
    FilterIsSublist(jobRows, (j: Job) => j.vesselId == vesselId && JobsRouter.Open(j));
    Filter(jobRows, (j: Job) => j.vesselId == vesselId && JobsRouter.Open(j))
  }

  function WithActiveJobs(vessels: seq<Vessel>, jobRows: seq<Job>): (r: seq<ListItem>)
    ensures |r| == |vessels|
    ensures forall i :: 0 <= i < |r| ==> r[i].vessel == vessels[i] && r[i].activeJobs == ActiveJobs(vessels[i].id, jobRows)
  {
    seq(|vessels|, i requires 0 <= i < |vessels| => ListItem(vessels[i], ActiveJobs(vessels[i].id, jobRows)))
  }

  /** The vessels the procedure fetches: `take: limit + 1` from the cursor on. */
  function ListFetch(input: ListInput, rows: seq<Vessel>, limit: nat): seq<Vessel> {
    FindMany(rows, v => Wanted(input, v), NameAsc, input.cursor, VesselId, limit + 1)
  }

  /** `list`: `rows` is the vessel table and `jobRows` the job table, in storage order. */
  method List(ctx: Context, input: ListInput, rows: seq<Vessel>, jobRows: seq<Job>) returns (r: Result<Page<ListItem>>)
    ensures !SignedIn(ctx) ==> r == Failure(Unauthorized)
    ensures SignedIn(ctx) && ParseLimit(input.limit).Failure? ==> r == Failure(BadRequest)
    ensures r.Success? <==> SignedIn(ctx) && ParseLimit(input.limit).Success?
    ensures r.Success? ==>
      var limit := ParseLimit(input.limit).value;
      var fetched := ListFetch(input, rows, limit);
      && |r.value.items| <= limit
      && r.value.items <= WithActiveJobs(fetched, jobRows)
      && (r.value.nextCursor.Some? <==> |fetched| == limit + 1)
      && r.value.items + (if r.value.nextCursor.Some? then [WithActiveJobs(fetched, jobRows)[limit]] else [])
         == WithActiveJobs(fetched, jobRows)
      && (r.value.nextCursor.Some? ==> r.value.nextCursor.value == fetched[limit].id)
  {
    var g := IsAuthed(ctx);
    if g.Failure? {
      return Failure(g.error);
    }
    var lim := ParseLimit(input.limit);
    if lim.Failure? {
      return Failure(lim.error);
    }
    var limit := lim.value;
    var fetched := Fetch(input, rows, limit);
    var items := WithActiveJobs(fetched, jobRows);
    var page := PopExtra(items, limit, ItemId);
    r := Success(page);
  }

  method Fetch(input: ListInput, rows: seq<Vessel>, limit: nat) returns (items: seq<Vessel>)
    ensures items == ListFetch(input, rows, limit)
  {
    var w := BuildWhere(input);
    items := FindMany(rows, v => Matches(w, v), NameAsc, input.cursor, VesselId, limit + 1);
    FindManyCongruent(rows, v => Matches(w, v), v => Wanted(input, v), NameAsc, input.cursor, VesselId, limit + 1);
  }

  /** Every item of a page is a wanted vessel. */
  lemma ListPageWanted(input: ListInput, rows: seq<Vessel>, jobRows: seq<Job>, limit: nat, items: seq<ListItem>)
    requires items <= WithActiveJobs(ListFetch(input, rows, limit), jobRows)
    ensures forall i :: 0 <= i < |items| ==> items[i].vessel in rows && Wanted(input, items[i].vessel)
  {
    var fetched := ListFetch(input, rows, limit);
    forall i | 0 <= i < |items| ensures items[i].vessel in rows && Wanted(input, items[i].vessel) {
      assert items[i].vessel == fetched[i];
      assert fetched[i] in fetched;
    }
  }

  /** The fetched vessels come in name order. */
  lemma ListFetchSorted(input: ListInput, rows: seq<Vessel>, limit: nat)
    ensures Sorted(ListFetch(input, rows, limit), NameAsc)
  {
    NameAscOrders();
    FindManySorted(rows, v => Wanted(input, v), NameAsc, input.cursor, VesselId, limit + 1);
  }

  /** A page lists its vessels in name order. */
  lemma ListPageSorted(input: ListInput, rows: seq<Vessel>, jobRows: seq<Job>, limit: nat, items: seq<ListItem>)
    requires items <= WithActiveJobs(ListFetch(input, rows, limit), jobRows)
    ensures forall i, j :: 0 <= i < j < |items| ==> LexLe(items[i].vessel.name, items[j].vessel.name)
  {
    var fetched := ListFetch(input, rows, limit);
    ListFetchSorted(input, rows, limit);
    forall i, j | 0 <= i < j < |items| ensures LexLe(items[i].vessel.name, items[j].vessel.name) {
      assert items[i].vessel == fetched[i] && items[j].vessel == fetched[j];
      assert NameAsc(fetched[i], fetched[j]);
    }
  }

  /** Each listed vessel carries exactly its DRAFT and IN_PROGRESS jobs. */
  lemma ListPageJobs(input: ListInput, rows: seq<Vessel>, jobRows: seq<Job>, limit: nat, items: seq<ListItem>)
    requires items <= WithActiveJobs(ListFetch(input, rows, limit), jobRows)
    ensures forall i :: 0 <= i < |items| ==> items[i].activeJobs == ActiveJobs(items[i].vessel.id, jobRows)
  {
    var all := WithActiveJobs(ListFetch(input, rows, limit), jobRows);
    forall i | 0 <= i < |items| ensures items[i].activeJobs == ActiveJobs(items[i].vessel.id, jobRows) {
      assert items[i] == all[i];
    }
  }

  // ---------------------------------------------------------------- create / update

  datatype VesselInput = VesselInput(
    clientId: Id,
    name: string,
    kind: VesselType,
    length: Option<real>,
    width: Option<real>,
    registrationNo: Option<string>,
    notes: Option<string>)

  /** The input constraints of `create` and `update`: a non-empty name, and a
      positive length and width when they are given. */
  function Validate(input: VesselInput): (r: Result<VesselInput>)
    ensures r.Success? ==> r.value == input
    ensures r.Failure? ==> r.error == BadRequest
    ensures r.Success? <==>
      && |input.name| >= 1
      && (input.length.Some? ==> input.length.value > 0.0)
      && (input.width.Some? ==> input.width.value > 0.0)
  {
    if |input.name| < 1 then Failure(BadRequest)
    else if input.length.Some? && input.length.value <= 0.0 then Failure(BadRequest)
    else if input.width.Some? && input.width.value <= 0.0 then Failure(BadRequest)
    else Success(input)
  }

  /** No vessel stored through `create` or `update` breaks the constraints. */
  ghost predicate WellFormed(v: Vessel) {
    && |v.name| >= 1
    && (v.length.Some? ==> v.length.value > 0.0)
    && (v.width.Some? ==> v.width.value > 0.0)
  }

  /** `create` */
  method Create(ctx: Context, db: Db, input: VesselInput) returns (r: Result<Vessel>)
    requires db.Valid()
    modifies db
    ensures db.Valid()
    ensures IsAdmin(ctx).Failure? ==> r == Failure(IsAdmin(ctx).error)
    ensures IsAdmin(ctx).Success? && Validate(input).Failure? ==> r == Failure(BadRequest)
    ensures r.Success? <==> IsAdmin(ctx).Success? && Validate(input).Success?
    ensures r.Failure? ==> unchanged(db)
    ensures r.Success? ==>
      && r.value == Vessel(r.value.id, input.clientId, input.name, input.kind, input.length, input.width,
                           input.registrationNo, input.notes)
      && WellFormed(r.value)
      && r.value.id !in old(db.vessels)
      && db.vessels == old(db.vessels)[r.value.id := r.value]
      && db.sections == old(db.sections) && db.jobs == old(db.jobs)
      && db.progress == old(db.progress) && db.media == old(db.media)
  {
    var g := IsAdmin(ctx);
    if g.Failure? {
      return Failure(g.error);
    }
    var valid := Validate(input);
    if valid.Failure? {
      return Failure(valid.error);
    }
    var v := Vessel(db.nextId, input.clientId, input.name, input.kind, input.length, input.width,
                    input.registrationNo, input.notes);
    db.InsertVessel(v);
    r := Success(v);
  }

  /** The vessel after `update`'s data: the required fields are written, and an
      optional field left out keeps its stored value. */
  function Updated(v: Vessel, input: VesselInput): (u: Vessel)
    ensures u.id == v.id && u.clientId == input.clientId && u.name == input.name && u.kind == input.kind
    ensures u.length == (if input.length.Some? then input.length else v.length)
    ensures u.width == (if input.width.Some? then input.width else v.width)
    ensures u.registrationNo == (if input.registrationNo.Some? then input.registrationNo else v.registrationNo)
    ensures u.notes == (if input.notes.Some? then input.notes else v.notes)
  {
    v.(clientId := input.clientId, name := input.name, kind := input.kind,
       length := if input.length.Some? then input.length else v.length,
       width := if input.width.Some? then input.width else v.width,
       registrationNo := if input.registrationNo.Some? then input.registrationNo else v.registrationNo,
       notes := if input.notes.Some? then input.notes else v.notes)
  }

  /** An update of a well-formed vessel with valid input leaves it well formed. */
  lemma UpdatedWellFormed(v: Vessel, input: VesselInput)
    requires WellFormed(v) && Validate(input).Success?
    ensures WellFormed(Updated(v, input))
  {
  }

  /** Sending the same update twice is the same as sending it once. */
  lemma UpdatedIdempotent(v: Vessel, input: VesselInput)
    ensures Updated(Updated(v, input), input) == Updated(v, input)
  {
  }

  /** `update` */
  method Update(ctx: Context, db: Db, id: Id, input: VesselInput) returns (r: Result<Vessel>)
    requires db.Valid()
    modifies db
    ensures db.Valid()
    ensures IsAdmin(ctx).Failure? ==> r == Failure(IsAdmin(ctx).error)
    ensures IsAdmin(ctx).Success? && Validate(input).Failure? ==> r == Failure(BadRequest)
    ensures IsAdmin(ctx).Success? && Validate(input).Success? && id !in old(db.vessels) ==> r == Failure(NotFound)
    ensures r.Success? <==> IsAdmin(ctx).Success? && Validate(input).Success? && id in old(db.vessels)
    ensures r.Failure? ==> unchanged(db)
    ensures r.Success? ==>
      && r.value == Updated(old(db.vessels)[id], input)
      && db.vessels == old(db.vessels)[id := r.value]
      && db.sections == old(db.sections) && db.jobs == old(db.jobs)
      && db.progress == old(db.progress) && db.media == old(db.media)
  {
    var g := IsAdmin(ctx);
    if g.Failure? {
      return Failure(g.error);
    }
    var valid := Validate(input);
    if valid.Failure? {
      return Failure(valid.error);
    }
    if id !in db.vessels {
      return Failure(NotFound);
    }
    var v := Updated(db.vessels[id], input);
    db.ReplaceVessel(v);
    r := Success(v);
  }

  // ---------------------------------------------------------------- createSectionFromTemplate

  /** `orderBy: { order: 'asc' }` */
  predicate OrderAsc(a: SectionTemplate, b: SectionTemplate) {
    a.order <= b.order
  }

  /** The templates `findMany` returns: those whose id was asked for, by ascending `order`. */
  function FoundTemplates(templateIds: seq<Id>, templateRows: seq<SectionTemplate>): (r: seq<SectionTemplate>)
    ensures forall t :: t in r <==> t in templateRows && t.id in templateIds
    ensures forall t :: multiset(r)[t] == (if t.id in templateIds then multiset(templateRows)[t] else 0)
    ensures forall i, j :: 0 <= i < j < |r| ==> r[i].order <= r[j].order
  {
    var found := Filter(templateRows, (t: SectionTemplate) => t.id in templateIds);
    var r := SortBy(found, OrderAsc);
    FilterMultiset(templateRows, (t: SectionTemplate) => t.id in templateIds);
    SortBySorted(found, OrderAsc);
    forall t ensures t in r <==> t in found {
      assert t in r <==> t in multiset(r);
      assert t in found <==> t in multiset(found);
    }
    r
  }

  /** The section made from a template: its name, description and order, under
      the given vessel, and nothing that points back to the template. */
  predicate CopiedFrom(s: VesselSection, t: SectionTemplate, vesselId: Id) {
    s.vesselId == vesselId && s.name == t.name && s.description == t.description && s.order == t.order
  }

  /** `createSectionFromTemplate`: `templateRows` is the template table in
      storage order. The inserts run one after another here. */
  method CreateSectionsFromTemplate(ctx: Context, db: Db, vesselId: Id, templateIds: seq<Id>,
                                    templateRows: seq<SectionTemplate>)
    returns (r: Result<seq<VesselSection>>)
    requires db.Valid()
    modifies db
    ensures db.Valid()
    ensures IsAdmin(ctx).Failure? ==> r == Failure(IsAdmin(ctx).error)
    ensures IsAdmin(ctx).Success? && vesselId !in old(db.vessels) && FoundTemplates(templateIds, templateRows) != [] ==>
      r == Failure(ForeignKeyViolation)
    ensures r.Success? <==>
      IsAdmin(ctx).Success? && (vesselId in old(db.vessels) || FoundTemplates(templateIds, templateRows) == [])
    ensures r.Failure? ==> unchanged(db)
    ensures r.Success? ==>
      var found := FoundTemplates(templateIds, templateRows);
      && |r.value| == |found|
      && (forall i :: 0 <= i < |found| ==> CopiedFrom(r.value[i], found[i], vesselId))
      && (forall i, j :: 0 <= i < j < |found| ==> r.value[i].order <= r.value[j].order)
      && (forall i :: 0 <= i < |found| ==> r.value[i].id !in old(db.sections) && r.value[i].id in db.sections
                                           && db.sections[r.value[i].id] == r.value[i])
      && (forall k :: k in db.sections ==> k in old(db.sections) || exists i :: 0 <= i < |found| && r.value[i].id == k)
      && (forall k :: k in old(db.sections) ==> k in db.sections && db.sections[k] == old(db.sections)[k])
      && db.vessels == old(db.vessels) && db.jobs == old(db.jobs)
      && db.progress == old(db.progress) && db.media == old(db.media)
  {
    var g := IsAdmin(ctx);
    if g.Failure? {
      return Failure(g.error);
    }
    var found := FoundTemplates(templateIds, templateRows);
    if found == [] {
      return Success([]);
    }
    if vesselId !in db.vessels {
      return Failure(ForeignKeyViolation);
    }
    var created := InsertCopies(db, vesselId, found);
    r := Success(created);
  }

  /** `after` is `before` plus exactly the sections of `created`, each under a
      new id; no section of `before` changes. */
  ghost predicate SectionsAdded(before: map<Id, VesselSection>, after: map<Id, VesselSection>,
                                created: seq<VesselSection>)
  {
    && (forall i :: 0 <= i < |created| ==>
          created[i].id !in before && created[i].id in after && after[created[i].id] == created[i])
    && (forall k :: k in after ==> k in before || exists i :: 0 <= i < |created| && created[i].id == k)
    && (forall k :: k in before ==> k in after && after[k] == before[k])
  }

  lemma SectionsAddedStep(before: map<Id, VesselSection>, after: map<Id, VesselSection>,
                          created: seq<VesselSection>, s: VesselSection)
    requires SectionsAdded(before, after, created) && s.id !in after
    ensures SectionsAdded(before, after[s.id := s], created + [s])
  {
    var created' := created + [s];
    forall k | k in after[s.id := s]
      ensures k in before || exists i :: 0 <= i < |created'| && created'[i].id == k
    {
      if k == s.id {
        assert created'[|created|].id == k;
      } else if k !in before {
        var i :| 0 <= i < |created| && created[i].id == k;
        assert created'[i].id == k;
      }
    }
  }

  /** One new section per template, in template order. */
  method InsertCopies(db: Db, vesselId: Id, templates: seq<SectionTemplate>) returns (created: seq<VesselSection>)
    requires db.Valid() && vesselId in db.vessels
    modifies db
    ensures db.Valid()
    ensures |created| == |templates|
    ensures forall i :: 0 <= i < |templates| ==> CopiedFrom(created[i], templates[i], vesselId)
    ensures SectionsAdded(old(db.sections), db.sections, created)
    ensures db.vessels == old(db.vessels) && db.jobs == old(db.jobs)
    ensures db.progress == old(db.progress) && db.media == old(db.media)
  {
    created := [];
    ghost var orig := db.sections;
    var i := 0;
    while i < |templates|
      invariant 0 <= i <= |templates| && |created| == i
      invariant db.Valid() && vesselId in db.vessels
      invariant forall j :: 0 <= j < i ==> CopiedFrom(created[j], templates[j], vesselId)
      invariant SectionsAdded(orig, db.sections, created)
      invariant db.vessels == old(db.vessels) && db.jobs == old(db.jobs)
      invariant db.progress == old(db.progress) && db.media == old(db.media)
    {
      ghost var before := db.sections;
      var s := InsertCopy(db, vesselId, templates[i]);
      SectionsAddedStep(orig, before, created, s);
      assert forall j :: 0 <= j < i ==> (created + [s])[j] == created[j];
      created := created + [s];
      i := i + 1;
    }
  }

  /** One new section copied from template `t` under a fresh id. */
  method InsertCopy(db: Db, vesselId: Id, t: SectionTemplate) returns (s: VesselSection)
    requires db.Valid() && vesselId in db.vessels
    modifies db
    ensures db.Valid()
    ensures CopiedFrom(s, t, vesselId) && s.id !in old(db.sections)
    ensures db.sections == old(db.sections)[s.id := s]
    ensures db.vessels == old(db.vessels) && db.jobs == old(db.jobs)
    ensures db.progress == old(db.progress) && db.media == old(db.media)
  {
    s := VesselSection(db.nextId, vesselId, t.name, t.description, t.order);
    db.InsertSection(s);
  }
}
