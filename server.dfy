/** The role guards of the API and the four procedure tiers built from them. */
module Server {
  import opened Wrappers
  import opened Domain

  /** A next-auth session; its `user` may be missing. */
  datatype Session = Session(user: Option<User>)

  /** The request context handed to every procedure (the store handle is passed separately). */
  datatype Context = Context(session: Option<Session>)

  /** `ctx.session?.user` is present. */
  predicate SignedIn(ctx: Context) {
    ctx.session.Some? && ctx.session.value.user.Some?
  }

  function UserOf(ctx: Context): User
    requires SignedIn(ctx)
  {
    ctx.session.value.user.value
  }

  /** Middleware of `protectedProcedure`: any signed-in user passes. */
  function IsAuthed(ctx: Context): (r: Result<Context>)
    ensures r.Success? <==> SignedIn(ctx)
    ensures r.Success? ==> r.value == ctx
    ensures r.Failure? ==> r.error == Unauthorized
  {
    if !SignedIn(ctx) then Failure(Unauthorized)
    else Success(Context(ctx.session))
  }

  /** Middleware of `adminProcedure`. */
  function IsAdmin(ctx: Context): (r: Result<Context>)
    ensures !SignedIn(ctx) ==> r == Failure(Unauthorized)
    ensures SignedIn(ctx) ==> (r.Success? <==> UserOf(ctx).role == Admin)
    ensures SignedIn(ctx) && UserOf(ctx).role != Admin ==> r == Failure(Forbidden)
    ensures r.Success? ==> r.value == ctx
  {
    if !SignedIn(ctx) then Failure(Unauthorized)
    else if ctx.session.value.user.value.role != Admin then Failure(Forbidden)
    else Success(Context(ctx.session))
  }

  /** Middleware of `crewProcedure`: the role must be one of ADMIN and CREW. */
  function IsCrewOrAdmin(ctx: Context): (r: Result<Context>)
    ensures !SignedIn(ctx) ==> r == Failure(Unauthorized)
    ensures SignedIn(ctx) ==> (r.Success? <==> UserOf(ctx).role != Client)
    ensures SignedIn(ctx) && UserOf(ctx).role == Client ==> r == Failure(Forbidden)
    ensures r.Success? ==> r.value == ctx
  {
    if !SignedIn(ctx) then Failure(Unauthorized)
    else
      var role := ctx.session.value.user.value.role;
      assert role in [Admin, Crew] <==> role == Admin || role == Crew;
      if role !in [Admin, Crew] then Failure(Forbidden)
      else Success(Context(ctx.session))
  }

  datatype Procedure = PublicProcedure | ProtectedProcedure | AdminProcedure | CrewProcedure

  /** Runs the middleware a procedure tier is built with; the public tier has none. */
  function Enter(p: Procedure, ctx: Context): (r: Result<Context>)
    ensures p == PublicProcedure ==> r == Success(ctx)
    ensures p != PublicProcedure && !SignedIn(ctx) ==> r == Failure(Unauthorized)
    ensures r.Success? ==> r.value == ctx
    ensures r.Failure? ==> r.error in {Unauthorized, Forbidden}
  {
    match p
    case PublicProcedure => Success(ctx)
    case ProtectedProcedure => IsAuthed(ctx)
    case AdminProcedure => IsAdmin(ctx)
    case CrewProcedure => IsCrewOrAdmin(ctx)
  }

  /** Admitted by the admin tier implies admitted by the crew tier, which implies
      admitted by the protected tier; and every signed-in role gets past the protected tier. */
  lemma TiersNested(ctx: Context)
    ensures Enter(AdminProcedure, ctx).Success? ==> Enter(CrewProcedure, ctx).Success?
    ensures Enter(CrewProcedure, ctx).Success? ==> Enter(ProtectedProcedure, ctx).Success?
    ensures Enter(ProtectedProcedure, ctx).Success? <==> SignedIn(ctx)
  {
  }

  /** Which roles each tier admits, for a signed-in user. */
  lemma TierAdmits(ctx: Context, p: Procedure)
    requires SignedIn(ctx)
    ensures Enter(p, ctx).Success? <==>
      match p
      case PublicProcedure => true
      case ProtectedProcedure => true
      case AdminProcedure => UserOf(ctx).role == Admin
      case CrewProcedure => UserOf(ctx).role in {Admin, Crew}
  {
  }
}
