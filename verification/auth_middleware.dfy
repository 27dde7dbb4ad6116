/**
 * The Express middleware guarding private routes: `protect` (bearer token, then user
 * lookup, then account status), `admin`, `hasPermission(p)` and `optionalAuth`.
 * `jwt.verify` with the server's secret is the parameter `verify`: it gives the user id
 * a valid token carries, and nothing when verification would throw.
 */
module AuthMiddleware {
  import opened Wrappers
  import opened Users
  import Text

  /** A middleware's decision: call `next()` with a value, or answer with an error status. */
  datatype Gate<+T> = Next(value: T) | Halt(status: nat, message: string)

  /**
   * The token `protect` reads: the Authorization header must start with "Bearer", and the
   * token is its second space-separated piece, which must be non-empty.
   */
  function BearerToken(authorization: Option<string>): (token: Option<string>)
    ensures token.Some? ==> authorization.Some? && Text.StartsWith(authorization.value, "Bearer")
    ensures token.Some? ==> token.value != "" && Text.SecondPiece(authorization.value) == token
    ensures authorization.Some? && Text.StartsWith(authorization.value, "Bearer")
            && Text.SecondPiece(authorization.value).Some? && Text.SecondPiece(authorization.value).value != ""
            ==> token.Some?
  {
    if authorization.None? || !Text.StartsWith(authorization.value, "Bearer") then None
    else
      match Text.SecondPiece(authorization.value)
      case None => None
      case Some(piece) => if piece == "" then None else Some(piece)
  }

  /**
   * `protect`: 401 without a token, when verification fails, when no user has the
   * token's id, or when that user's account is not active; otherwise `req.user` is that user.
   */
  function Protect(users: seq<User>, authorization: Option<string>, verify: string -> Option<nat>): (g: Gate<nat>)
    ensures g.Halt? ==> g.status == 401
    ensures BearerToken(authorization).None? ==> g == Halt(401, "Not authorized, no token")
    ensures g.Next? <==>
              && BearerToken(authorization).Some?
              && verify(BearerToken(authorization).value).Some?
              && verify(BearerToken(authorization).value).value < |users|
              && users[verify(BearerToken(authorization).value).value].accountStatus == Active
    ensures g.Next? ==> g.value == verify(BearerToken(authorization).value).value
  {
    match BearerToken(authorization)
    case None => Halt(401, "Not authorized, no token")
    case Some(token) =>
      match verify(token)
      case None => Halt(401, "Not authorized, token failed")
      case Some(id) =>
        if id >= |users| then Halt(401, "User not found")
        else if users[id].accountStatus != Active then Halt(401, "Account is not active")
        else Next(id)
  }

  /** `admin`: proceeds exactly for a present user whose role is admin. */
  function RequireAdmin(user: Option<User>): (g: Gate<()>)
    ensures g.Next? <==> user.Some? && user.value.role == Admin
    ensures g.Halt? ==> g == Halt(403, "Admin access required")
  {
    if user.Some? && user.value.role == Admin then Next(()) else Halt(403, "Admin access required")
  }

  /** `hasPermission(p)`: proceeds exactly for a present user holding `p`. */
  function RequirePermission(user: Option<User>, permission: string): (g: Gate<()>)
    ensures g.Next? <==> user.Some? && HasPermission(user.value, permission)
    ensures user.Some? && user.value.role == Admin ==> g.Next?
    ensures g.Halt? ==> g == Halt(403, "Insufficient permissions")
  {
    if user.Some? && HasPermission(user.value, permission) then Next(()) else Halt(403, "Insufficient permissions")
  }

  /**
   * `optionalAuth`: always proceeds. `req.user` is set only when the header starts with
   * "Bearer" and its token verifies, and then to the user with that id (or to nothing
   * when there is none); the account status is not checked.
   */
  function OptionalAuth(users: seq<User>, authorization: Option<string>, verify: string -> Option<nat>): (g: Gate<Option<nat>>)
    ensures g.Next?
    ensures g.value.Some? ==> g.value.value < |users|
    ensures g.value.Some? <==>
              && BearerToken(authorization).Some?
              && verify(BearerToken(authorization).value).Some?
              && verify(BearerToken(authorization).value).value < |users|
  {
    if authorization.None? || !Text.StartsWith(authorization.value, "Bearer") then Next(None)
    else
      // `jwt.verify` throws on a missing or empty token; the error is swallowed
      match BearerToken(authorization)
      case None => Next(None)
      case Some(token) =>
        match verify(token)
        case None => Next(None)
        case Some(id) => if id < |users| then Next(Some(id)) else Next(None)
  }

  /** A suspended or deleted account is refused by `protect` but still identified by `optionalAuth`. */
  lemma OptionalAuthIgnoresStatus(users: seq<User>, authorization: Option<string>, verify: string -> Option<nat>)
    requires BearerToken(authorization).Some?
    requires var id := verify(BearerToken(authorization).value); id.Some? && id.value < |users| && users[id.value].accountStatus != Active
    ensures Protect(users, authorization, verify) == Halt(401, "Account is not active")
    ensures OptionalAuth(users, authorization, verify).value == verify(BearerToken(authorization).value)
  {
  }
}
