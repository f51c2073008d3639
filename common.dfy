/** Shared vocabulary of the blog backend model: identifiers, the optional
    and result wrappers, the error taxonomy and the acting user. */
module Common {

  type UserId = nat
  type PostId = nat
  type CategoryId = nat
  type CommentId = nat

  /** A positive number, as `page` and `limit` query parameters are. */
  type Pos = n: int | n >= 1 witness 1

  datatype Option<T> = None | Some(value: T)

  function OrElse<T>(o: Option<T>, default: T): T
  {
    match o
    case Some(v) => v
    case None => default
  }

  /** A JavaScript string is truthy when present and non-empty. */
  predicate Truthy(s: Option<string>)
  {
    s.Some? && s.value != []
  }

  function Min(a: int, b: int): int { if a <= b then a else b }

  /** Which kind of record a NotFound refers to. */
  datatype Entity = PostEntity | CommentEntity | CategoryEntity

  /** The failures a route can answer with. */
  datatype Error =
    | ValidationFailed
    | NotFound(what: Entity)
    | Forbidden
    | Conflict
    | InvalidCategory
    | Unauthenticated

  datatype Result<T> = Ok(value: T) | Err(error: Error)

  datatype Role = RegularUser | Admin

  /** The caller of a route, as the authentication middleware hands it over. */
  datatype Actor = Anonymous | User(id: UserId, role: Role)

  /** The `auth` middleware: any signed-in user passes. */
  function AuthGate(actor: Actor): (e: Option<Error>)
    ensures e == None <==> actor.User?
    ensures e != None ==> e == Some(Unauthenticated)
  {
    if actor.Anonymous? then Some(Unauthenticated) else None
  }

  /** `auth` followed by `adminAuth`: only an administrator passes. */
  function AdminGate(actor: Actor): (e: Option<Error>)
    ensures e == None <==> actor.User? && actor.role == Admin
    ensures actor.Anonymous? ==> e == Some(Unauthenticated)
    ensures actor.User? && actor.role != Admin ==> e == Some(Forbidden)
  {
    match actor
    case Anonymous => Some(Unauthenticated)
    case User(_, role) => if role == Admin then None else Some(Forbidden)
  }
}
