# Boat-cleaning back office: a Dafny model of its decision and state logic

The system manages cleaning jobs for boats. An ADMIN keeps clients, vessels and
each vessel's sections. The admin schedules a cleaning job for a vessel and
assigns it to a CREW member. The crew member then reports, section by section,
how far the cleaning has progressed (0–100 %) and attaches before/after photos.
The back end is a set of tRPC procedures over a relational store. The front end
shows the progress with badges and highlights the current menu item.

This project models the core of that system in Dafny:

- **Role guards and procedure tiers** (module `Server`). `IsAuthed`, `IsAdmin`
  and `IsCrewOrAdmin` turn a context into the same context or into
  UNAUTHORIZED/FORBIDDEN. `Enter` runs the guard of the public, protected,
  admin and crew tiers.
- **The store** (module `Database`). The class `Db` holds one map per table
  (vessels, sections, jobs, progress rows, media) and the generator of fresh
  ids. `Db.Valid()` states that:
  - every row sits under its own id;
  - every reference resolves;
  - a (job, section) pair has at most one progress row.

  Every router method preserves `Valid()`.
- **Query semantics** (module `Queries`). `findMany` is modelled as a filter,
  then a stable sort, then cursor positioning, then `take`. The routers' own
  pagination step (fetch `limit + 1`, pop the extra item) is `PopExtra`.
- **Routers**:
  - `JobsRouter`: `list`, `byId`, `create`, `updateStatus`, `assign`, `myJobs`.
  - `ProgressRouter`: `updatePercent`, `addMedia`, `deleteMedia`.
  - `Reports`: the `summary` filter and the per-job rollup.
  - `VesselsRouter`: `list`, `create`, `update`, `createSectionFromTemplate`.
  - `ClientsRouter`: the search of the mock client list.

  Each procedure runs its guard first, then input validation, then lookups,
  then the ownership check, then the write. This is the order in which the
  tRPC middleware, the zod input parser and the handler body run.
- **Presentation logic**:
  - `CrewPage`: the dashboard's progress figure and status badge.
  - `ProgressBadge`: label and colour bands.
  - `Navigation`, `AdminSidebar`, `CrewNavigation`: the active-link rule.
- **Shared arithmetic and text**:
  - `Numeric`: the `reduce` sum and `Math.round` of a quotient, exact in
    integers.
  - `Text`: `toLowerCase`, `trim`, `includes`, and string order.

Read-only list queries (`jobs.list`, `myJobs`, `reports.summary`, `vessels.list`
and the template lookup) take the table as a sequence of rows in storage order.
Writing procedures act on a `Db` object.

Behaviour of the code worth noting:

- A procedure's role guard runs before input validation, so a signed-out
  caller with an out-of-range `percent` gets UNAUTHORIZED, not BAD_REQUEST.
  Validation still precedes every lookup and write.
- `updateStatus` accepts any status change. There is no forward-only rule, so
  DRAFT→DONE and DONE→DRAFT both succeed (`JobsRouter.NoStatusOrder`). A
  timestamp that is already set is never overwritten.
- The rounded mean reaches 100 without every section being at 100: rows 99
  and 100 average to 100 (`Reports.HundredWithIncompleteSection`). So "mean is
  100" and "every section is complete" are different conditions. The code
  reports both figures (`averagePercent`, `completedSections`).
- Job creation writes the job and then its progress rows, with no
  transaction around them. The code starts the row inserts together with
  `Promise.all`; the model performs them one after another (see "Left out").
- `updatePercent` does not check that the section belongs to the job's vessel.
  Any existing section is accepted (`ProgressRouter.UpdatePercent`).

## Model

| member | source | states |
|---|---|---|
| Server.IsAuthed | lib/trpc/server.ts:9-22 | passes exactly the signed-in callers, with the context unchanged; otherwise UNAUTHORIZED |
| Server.IsAdmin | lib/trpc/server.ts:24-43 | no session gives UNAUTHORIZED; a signed-in caller passes iff the role is ADMIN, else FORBIDDEN; context unchanged on success |
| Server.IsCrewOrAdmin | lib/trpc/server.ts:45-64 | no session gives UNAUTHORIZED; ADMIN and CREW pass and CLIENT gets FORBIDDEN; context unchanged on success |
| Server.Enter | lib/trpc/server.ts:66-70 | the public tier admits everyone unchanged; every other tier answers UNAUTHORIZED without a session; a failure is only ever UNAUTHORIZED or FORBIDDEN |
| Server.TiersNested | lib/trpc/server.ts:9-70 | admitted by the admin tier implies admitted by the crew tier, which implies admitted by the protected tier; the protected tier admits exactly the signed-in callers |
| Server.TierAdmits | lib/trpc/server.ts:66-70 | for a signed-in caller, the roles each tier admits: all, all, ADMIN, ADMIN or CREW |
| Queries.ParseLimit | lib/trpc/routers/jobs.ts:13 | a missing limit defaults to 10; a given limit is accepted iff it is in 1..100 and is kept; otherwise BAD_REQUEST |
| Queries.FindMany | lib/trpc/routers/jobs.ts:37-66 | at most `take` rows, each a stored row satisfying the filter, and no row more often than it matches; without a cursor, as many rows as match up to `take`, and every matching row as often as stored when they fit, the page being the front of the sorted matches; with a cursor, the page starts at the cursor row |
| Queries.FindManySorted | lib/trpc/routers/jobs.ts:63-65 | under a total preorder the fetched rows are sorted by it |
| Queries.FromCursor | lib/trpc/routers/jobs.ts:40 | without a cursor all rows remain; with one, a suffix of the rows that starts at the cursor row |
| Queries.FromCursorAt | lib/trpc/routers/jobs.ts:40 | positioning at the id of row j, when ids before j differ from it, yields exactly the rows from j on |
| Queries.PopExtra | lib/trpc/routers/jobs.ts:68-72 | at most `limit` items; `nextCursor` is present iff `limit + 1` rows were fetched and is the id of that extra row; items plus the popped row give back the fetched rows |
| JobsRouter.Visible | lib/trpc/routers/jobs.ts:18-35 | the jobs a caller should see: the requested status and vessel, and the caller's own jobs for CREW, else the requested assignee |
| JobsRouter.ScheduledDesc | lib/trpc/routers/jobs.ts:63-65 | `scheduledAt` descending, unscheduled jobs first |
| JobsRouter.ScheduledAsc | lib/trpc/routers/jobs.ts:256-258 | `scheduledAt` ascending, unscheduled jobs last |
| JobsRouter.BuildWhere | lib/trpc/routers/jobs.ts:18-35 | the built filter selects exactly the visible jobs: requested status and vessel, and for a CREW caller only their own jobs, whatever `assignedTo` was asked |
| JobsRouter.List | lib/trpc/routers/jobs.ts:7-78 | UNAUTHORIZED without a session, BAD_REQUEST for a bad limit, else a page of at most `limit` items, with `nextCursor` as the popped row's id iff `limit + 1` rows were fetched, and the items followed by the popped row are exactly the fetched rows |
| JobsRouter.Fetch | lib/trpc/routers/jobs.ts:37-66 | the query with the built filter returns what the declarative visibility filter returns |
| JobsRouter.ListPageSorted | lib/trpc/routers/jobs.ts:63-65 | a page is ordered by `scheduledAt` descending, unscheduled jobs first |
| JobsRouter.ListPageVisible | lib/trpc/routers/jobs.ts:18-39 | every job of a page is a stored job visible to the caller |
| JobsRouter.ListCrewScoped | lib/trpc/routers/jobs.ts:32-35 | a CREW caller's page holds only jobs assigned to that caller |
| JobsRouter.ById | lib/trpc/routers/jobs.ts:80-129 | UNAUTHORIZED without session, the store's not-found error for an unknown id, FORBIDDEN exactly when a CREW caller is not the assignee, else the stored job |
| JobsRouter.Create | lib/trpc/routers/jobs.ts:131-168 | ADMIN only; an unknown vessel is refused with nothing written; otherwise a fresh DRAFT job with the input fields and no timestamps, and the job's progress rows cover exactly the vessel's current sections, all new rows at 0 % without a note, older rows untouched |
| JobsRouter.AddZeroRows | lib/trpc/routers/jobs.ts:148-165 | inserts one 0 % row per given section, so that the job's rows cover exactly those sections, and changes no other table |
| JobsRouter.StatusUpdate | lib/trpc/routers/jobs.ts:191-207 | the new status is written whatever the old one; notes change only when given; `startedAt` is set to now iff moving to IN_PROGRESS while unset, `finishedAt` likewise for DONE; nothing else changes |
| JobsRouter.StatusUpdateRepeat | lib/trpc/routers/jobs.ts:191-207 | repeating an update later changes nothing more, timestamps included |
| JobsRouter.NoStatusOrder | lib/trpc/routers/jobs.ts:191-194 | DONE→DRAFT and DRAFT→DONE are accepted, and a move to DRAFT never touches a timestamp |
| JobsRouter.UpdateStatus | lib/trpc/routers/jobs.ts:170-208 | guard, then the store's not-found error, then FORBIDDEN for a CREW caller who is not the assignee; on those failures the store is unchanged; on success exactly that job is replaced by `StatusUpdate` |
| JobsRouter.Assign | lib/trpc/routers/jobs.ts:210-224 | ADMIN only; the store's not-found error for an unknown id; on success only `assignedTo` of that job changes |
| JobsRouter.MyJobs | lib/trpc/routers/jobs.ts:234-260 | exactly the caller's DRAFT and IN_PROGRESS jobs, each as often as it is stored (no other job, none repeated), ordered by `scheduledAt` ascending with unscheduled jobs last |
| ProgressRouter.Upsert | lib/trpc/routers/progress.ts:30-47 | the pair's existing row gets the new percent and, when one is given, the new note, keeping its id; without one a row with the fresh id is created; rows of other pairs are unchanged |
| ProgressRouter.UpsertKeepsUnique | lib/trpc/routers/progress.ts:30-36 | the upsert never creates a second row for a (job, section) pair |
| ProgressRouter.UpsertIdempotent | lib/trpc/routers/progress.ts:30-47 | upserting the same values twice gives the table of upserting them once |
| ProgressRouter.UpdatePercent | lib/trpc/routers/progress.ts:7-48 | guard, then BAD_REQUEST for a percent outside [0,100], then the store's not-found error for an unknown job, then FORBIDDEN for a CREW caller who is not the assignee; every failure leaves the store unchanged; success is the upsert of the table and touches nothing else |
| ProgressRouter.AddMedia | lib/trpc/routers/progress.ts:50-84 | guard, then BAD_REQUEST for a malformed url, then the store's not-found error, then FORBIDDEN reached through progress → job; success inserts exactly one media row with the given fields |
| ProgressRouter.DeleteMedia | lib/trpc/routers/progress.ts:86-111 | guard, then the store's not-found error, then FORBIDDEN reached through media → progress → job; success removes exactly that row and returns it |
| Database.Db.JobOfProgress | lib/trpc/routers/progress.ts:61-66 | the stored job that owns the progress row |
| Database.Db.JobOfMedia | lib/trpc/routers/progress.ts:89-98 | the stored job reached from the media row through its progress row |
| Reports.Qualifies | lib/trpc/routers/reports.ts:15-28 | the report's jobs: `createdAt` in [from, to] inclusive, of the named vessel if one is given, else of the named client if one is given |
| Reports.BuildWhere | lib/trpc/routers/reports.ts:15-28 | the built filter selects exactly the qualifying jobs: `createdAt` in [from, to] inclusive, and the named vessel if one is given, else the named client; never both conditions |
| Reports.VesselTakesPrecedence | lib/trpc/routers/reports.ts:22-28 | with a vessel named, the client filter has no effect |
| Reports.SummaryFetch | lib/trpc/routers/reports.ts:30-56 | exactly the qualifying jobs, each as often as it is stored, newest first |
| Reports.CompletedSections | lib/trpc/routers/reports.ts:60 | the number of rows at exactly 100; so at most the number of rows, and equal to it iff every row is at 100 |
| Reports.AveragePercent | lib/trpc/routers/reports.ts:61-63 | 0 without rows; otherwise the integer nearest to the mean, a tie going up |
| Reports.AverageInRange | lib/trpc/routers/reports.ts:61-63 | percents in [0,100] give a mean in [0,100] |
| Reports.AllCompleteGivesHundred | lib/trpc/routers/reports.ts:60-63 | when every row is complete the mean is 100 |
| Reports.AverageHundredIff | lib/trpc/routers/reports.ts:61-63 | with percents at most 100, the mean is 100 iff the rows fall short of 100 each by at most half a percent on average |
| Reports.HundredWithIncompleteSection | lib/trpc/routers/reports.ts:60-63 | rows 99 and 100: the mean reports 100 while only one section is complete |
| Reports.Rollup | lib/trpc/routers/reports.ts:58-75 | an entry carries the job's id, date, status, vessel and client names, its row count, the number of rows at 100 as `completedSections` and the rounded mean as `averagePercent`; hence a completed count no larger than the row count, 100 when all rows are complete, and a mean in [0,100] when the percents are |
| Reports.Summary | lib/trpc/routers/reports.ts:5-78 | ADMIN only; one entry per fetched job, in the fetched order, dates descending |
| Reports.SummaryCoversQualifying | lib/trpc/routers/reports.ts:15-58 | the entries' job ids are exactly the ids of the qualifying jobs |
| Numeric.Sum | lib/trpc/routers/reports.ts:62 | the `reduce` sum from 0, adding the terms left to right |
| Numeric.RoundDiv | lib/trpc/routers/reports.ts:62 | `Math.round(num/den)`: the integer whose distance to the quotient is below one half, a tie going up |
| Numeric.RoundDivUnique | lib/trpc/routers/reports.ts:62 | only one integer meets the rounding contract |
| Numeric.SumPermutation | app/crew/page.tsx:21 | the `reduce` sum does not depend on the order of the terms |
| CrewPage.TotalPercent | app/crew/page.tsx:21 | the `reduce` over the progress rows of their percents |
| CrewPage.CalculateProgress | app/crew/page.tsx:19-23 | 0 for no rows; otherwise the integer nearest to the mean percent, a tie going up |
| CrewPage.TotalIsSum | app/crew/page.tsx:21 | the reduce over progress rows equals the sum of their percents |
| CrewPage.AgreesWithReport | app/crew/page.tsx:19-23 | the dashboard figure equals the admin report's `averagePercent` for the same rows |
| CrewPage.InRange | app/crew/page.tsx:19-23 | percents in [0,100] give a figure in [0,100] |
| CrewPage.OrderIndependent | app/crew/page.tsx:21-22 | two orderings of the same rows give the same figure |
| CrewPage.StatusLabel | app/crew/page.tsx:65 | "Bekliyor" iff the status is DRAFT, otherwise "Devam Ediyor" |
| CrewPage.StatusVariant | app/crew/page.tsx:64 | the highlighted variant iff the job is IN_PROGRESS, otherwise the secondary one |
| ProgressBadge.GetVariant | components/ui/progress-badge.tsx:10-16 | 0 secondary, up to 30 destructive, up to 70 default, below 100 secondary, else default |
| ProgressBadge.GetLabel | components/ui/progress-badge.tsx:18-24 | each of the five labels iff its band: 0, up to 30 (excluding 0), 31–70, 71–99, 100 and above |
| ProgressBadge.LabelMonotone | components/ui/progress-badge.tsx:18-24 | from 0 upwards a larger percentage never shows an earlier label |
| ProgressBadge.ColorClasses | components/ui/progress-badge.tsx:27-31 | the colour classes of each variant |
| ProgressBadge.Decimal | components/ui/progress-badge.tsx:36 | the printed number: a sign exactly for negatives, then digits that denote its magnitude, with no leading zero ("0" for zero) |
| ProgressBadge.DigitsRoundTrip | components/ui/progress-badge.tsx:36 | the digits printed for a number read back as that number |
| ProgressBadge.Render | components/ui/progress-badge.tsx:33-45 | the green class iff the percentage is exactly 100, else the variant and its colour; the text is always the label followed by " (%<percent>)" |
| Navigation.ActiveIff | components/layout/admin-sidebar.tsx:41 | active iff the path is the href, or continues it with a "/" right after it |
| Navigation.ChildActive | components/layout/crew-navigation.tsx:29 | every path below an href activates it |
| Navigation.PartialSegmentInactive | components/layout/admin-sidebar.tsx:41 | a path that continues the href's last segment without a "/" does not activate it |
| Navigation.ActiveNames | components/layout/admin-sidebar.tsx:40-41 | a name is listed iff some menu item with that name is active on the path |
| AdminSidebar.DashboardAlwaysActive | components/layout/admin-sidebar.tsx:19-25 | on every page under /admin/, "Dashboard" is highlighted |
| AdminSidebar.TwoItemsActiveOnJobs | components/layout/admin-sidebar.tsx:19-25 | on /admin/jobs both "Dashboard" and "İşler" are highlighted, and nothing else |
| AdminSidebar.NothingActiveOnAdminX | components/layout/admin-sidebar.tsx:41 | /adminx highlights no item |
| CrewNavigation.BothActiveOnProfile | components/layout/crew-navigation.tsx:10-13 | on /crew/profile both "İşlerim" and "Profil" are highlighted |
| Text.ToLower | server/api/routers/clients.ts:13 | same length; each character lower-cased on its own |
| Text.ToLowerIdempotent | server/api/routers/clients.ts:13 | lower-casing twice changes nothing more |
| Text.IsSpace | server/api/routers/clients.ts:13 | the characters `trim` removes: ECMAScript's white space and line terminators |
| Text.TrimStart | server/api/routers/clients.ts:13 | a suffix of the input without leading white space, having cut only white space |
| Text.TrimEnd | server/api/routers/clients.ts:13 | a prefix of the input without trailing white space, having cut only white space |
| Text.Trim | server/api/routers/clients.ts:13 | the result is a contiguous part of the input with only white space before and after it, itself starting and ending with no white space, and empty iff the input is all white space |
| Text.TrimIdempotent | server/api/routers/clients.ts:13 | trimming twice changes nothing more |
| Text.Includes | server/api/routers/clients.ts:14 | true iff the text occurs at some position |
| Text.IncludesEmpty | server/api/routers/clients.ts:14 | the empty text occurs in every string |
| Text.LexLe | lib/trpc/routers/vessels.ts:61-63 | the order of names: code point by code point, a prefix first |
| Text.LexTotal | lib/trpc/routers/vessels.ts:61-63 | any two names compare |
| Text.LexTransitive | lib/trpc/routers/vessels.ts:61-63 | the name order is transitive |
| Text.LexAntisymmetric | lib/trpc/routers/vessels.ts:61-63 | names that compare both ways are equal |
| ClientsRouter.AllClients | server/api/routers/clients.ts:9-12 | the two built-in clients, "Reef Co." and "Blue Marina" |
| ClientsRouter.NormalizedQuery | server/api/routers/clients.ts:13 | present iff the input object and its `q` are; then the lower-cased, trimmed `q` |
| ClientsRouter.Search | server/api/routers/clients.ts:13-14 | all items when `q` is absent or only white space; otherwise exactly the items whose lower-cased name contains the normalised `q`; never more items than given |
| ClientsRouter.SearchIsSublist | server/api/routers/clients.ts:14 | the result keeps the original items in their original order |
| ClientsRouter.List | server/api/routers/clients.ts:5-16 | the built-in clients with some dropped, in their order; all of them without a usable `q`; with one, exactly those whose lower-cased name contains it |
| VesselsRouter.Wanted | lib/trpc/routers/vessels.ts:17-32 | the vessels a listing asks for: the client and type when given, and a non-empty search text in the name or the registration number |
| VesselsRouter.BuildWhere | lib/trpc/routers/vessels.ts:17-32 | the built filter selects exactly the wanted vessels: client and type when given, and a non-empty search text in the name or the registration number |
| VesselsRouter.NameAscOrders | lib/trpc/routers/vessels.ts:61-63 | ordering by name is a total preorder |
| VesselsRouter.ActiveJobs | lib/trpc/routers/vessels.ts:45-53 | exactly the vessel's DRAFT and IN_PROGRESS jobs, each as often as stored and in storage order; never a DONE job |
| VesselsRouter.WithActiveJobs | lib/trpc/routers/vessels.ts:38-60 | one item per vessel, in order, each with that vessel's open jobs |
| VesselsRouter.List | lib/trpc/routers/vessels.ts:6-76 | UNAUTHORIZED without session, BAD_REQUEST for a bad limit, else a page of at most `limit` items, with `nextCursor` as the popped vessel's id iff `limit + 1` were fetched, and the items followed by the popped item are exactly the fetched vessels with their open jobs |
| VesselsRouter.Fetch | lib/trpc/routers/vessels.ts:34-64 | the query with the built filter returns what the declarative filter returns |
| VesselsRouter.ListPageWanted | lib/trpc/routers/vessels.ts:17-36 | every listed vessel is a stored vessel the filter wants |
| VesselsRouter.ListPageSorted | lib/trpc/routers/vessels.ts:61-63 | a page is in name order |
| VesselsRouter.ListPageJobs | lib/trpc/routers/vessels.ts:45-53 | each listed vessel carries exactly its DRAFT and IN_PROGRESS jobs |
| VesselsRouter.Validate | lib/trpc/routers/vessels.ts:114-123 | accepted iff the name is non-empty and the length and width, when given, are positive; otherwise BAD_REQUEST |
| VesselsRouter.Create | lib/trpc/routers/vessels.ts:113-129 | ADMIN only; BAD_REQUEST for invalid input with nothing written; otherwise one fresh vessel row holding the input fields, well formed |
| VesselsRouter.Updated | lib/trpc/routers/vessels.ts:144-149 | required fields written; an optional field left out keeps its stored value |
| VesselsRouter.UpdatedWellFormed | lib/trpc/routers/vessels.ts:131-150 | valid input keeps a well-formed vessel well formed |
| VesselsRouter.UpdatedIdempotent | lib/trpc/routers/vessels.ts:144-149 | the same update sent twice equals sending it once |
| VesselsRouter.Update | lib/trpc/routers/vessels.ts:131-150 | ADMIN only; BAD_REQUEST, then the store's not-found error, each with nothing written; otherwise only that vessel changes |
| VesselsRouter.FoundTemplates | lib/trpc/routers/vessels.ts:168-171 | exactly the templates whose id was asked for, each as often as stored, by ascending order; unknown ids are ignored |
| VesselsRouter.CreateSectionsFromTemplate | lib/trpc/routers/vessels.ts:160-187 | ADMIN only; with templates found and no such vessel, refused with nothing written; otherwise one new section per found template, in ascending order, copying name, description and order under the vessel, with no other section changed |
| VesselsRouter.InsertCopies | lib/trpc/routers/vessels.ts:173-184 | one new section per template in template order, each copying the template's fields |

## Left out

- Deleting jobs and vessels (`jobs.delete`, `vessels.delete`), `vessels.byId` and `reports.detailed` are not modelled. They are single store calls with no decision in them.
- Cascade behaviour of deletes, and the users and clients tables with their foreign keys, are not modelled. So `assignedTo` and a vessel's `clientId` are not checked against any table, and `create`/`update` of a vessel never fail on them.
- Included relations that only add read data (client names, assignee, sections in `vessels.list`, progress in `jobs.list`) are not modelled. `Reports.ReportRow` carries what the rollup reads.
- Ids are natural numbers handed out by a counter, where the store generates cuid strings. An empty-string id, which the routers' truthiness tests would skip, cannot occur in the model.
- Timestamps (`new Date()`) are an `Instant` parameter. The zod URL check is the `isUrl` parameter. The session is part of the context parameter.
- Percentages and limits are integers. zod accepts non-integer numbers, and the model does not cover fractional percentages or limits.
- `NotFound` and `ForeignKeyViolation` are the model's names for the errors the store throws for a missing row (`findUniqueOrThrow`, `update`, `delete`) and for a reference to a missing row. They are not tRPC error codes: the client receives them as INTERNAL_SERVER_ERROR, where UNAUTHORIZED, FORBIDDEN and BAD_REQUEST reach it as such.
- JobsRouter.ScheduledDesc: assumes PostgreSQL's default placement of NULLs (last when ascending, first when descending), which the code does not request explicitly; JobsRouter.ScheduledAsc relies on the same assumption.
- Numeric.RoundDiv: exact for integer operands only. Floating-point division of non-integer sums is not modelled.
- Text.ToLower: folds ASCII letters only. JavaScript lower-cases all of Unicode, so non-ASCII capitals (for example Turkish "İ") are not folded.
- VesselsRouter.ContainsInsensitive: case-insensitive matching uses ASCII folding, not the database's case-insensitive comparison.
- VesselsRouter.NameAsc: names are ordered by code point, not by the database collation.
- An unknown cursor id yields an empty page. Prisma's own behaviour for a cursor row that does not exist is not modelled beyond that.
- `Promise.all` in `create` and `createSectionFromTemplate` runs concurrently. The model inserts the rows one after another. A store failure partway through, which could leave some rows written, is not modelled.
- Caller-supplied `className` merging in the progress badge, icons, markup and styling are not modelled.
