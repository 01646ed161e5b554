/** The request gates of server/middleware/auth.js. Each gate either lets
    the request through (`Next`) or answers with a status. Verifying the
    JSON web token and loading the user are foreign calls, given here as
    the functions `verify` (token to user id, None when it throws) and
    `lookup` (user id to user, None when there is no such user). */
module Auth {
  import opened Common
  import Text

  datatype Denial =
    | NoToken          // 401 "Not authorized, no token"
    | TokenFailed      // 401 "Not authorized, token failed"
    | UserNotFound     // 401 "User not found"
    | AuthRequired     // 401 "Authentication required"
    | NotOwner         // 403 "Access denied. You can only modify your own resources."
    | NotAdmin         // 403 "Access denied. Admin privileges required."

  function StatusOf(d: Denial): nat {
    match d
    case NoToken | TokenFailed | UserNotFound | AuthRequired => 401
    case NotOwner | NotAdmin => 403
  }

  datatype Decision = Next | Deny(status: nat, denial: Denial)

  function Reject(d: Denial): Decision {
    Deny(StatusOf(d), d)
  }

  /** The outcome of an authenticating gate and the `req.user` it leaves. */
  datatype Gate = Gate(decision: Decision, user: Option<Principal>)

  /** The ownership rule every mutating route applies: an admin, or the
      owner of the resource. */
  predicate OwnerOrAdmin(p: Principal, owner: Id) {
    IsAdmin(p) || p.id == owner
  }

  /** `authorize(resourceUserId)`. */
  function Authorize(user: Option<Principal>, owner: Id): (d: Decision)
    ensures user.None? ==> d == Deny(401, AuthRequired)
    ensures user.Some? ==> (d == Next <==> user.value.role == "admin" || user.value.id == owner)
    ensures user.Some? && d != Next ==> d == Deny(403, NotOwner)
  {
    if user.None? then Reject(AuthRequired)
    else if OwnerOrAdmin(user.value, owner) then Next
    else Reject(NotOwner)
  }

  /** `admin`. */
  function Admin(user: Option<Principal>): (d: Decision)
    ensures d == Next <==> user.Some? && user.value.role == "admin"
    ensures d != Next ==> d == Deny(403, NotAdmin)
  {
    if user.Some? && IsAdmin(user.value) then Next else Reject(NotAdmin)
  }

  /** The header is present and starts with `Bearer`. */
  predicate HasBearer(header: Option<string>) {
    header.Some? && Text.StartsWith(header.value, "Bearer")
  }

  /** `authorization.split(' ')[1]`: the second space-separated field, or
      None (`undefined`) when there is no space. */
  function BearerToken(header: string): (t: Option<string>)
    ensures t.Some? ==> ' ' !in t.value
    ensures t.None? <==> ' ' !in header
  {
    var fields := Text.Split(header, ' ');
    if |fields| > 1 then Some(fields[1]) else None
  }

  /** A header of the form `Bearer <token>` yields exactly `<token>`. */
  lemma BearerTokenOf(token: string)
    requires ' ' !in token
    ensures HasBearer(Some("Bearer " + token))
    ensures BearerToken("Bearer " + token) == Some(token)
  {
    assert "Bearer " + token == "Bearer" + [' '] + token;
    Text.SplitAround("Bearer", token, ' ');
    Text.SplitNoSeparator(token, ' ');
  }

  /** The user a Bearer header authenticates: `jwt.verify` throws on a
      missing or empty token and on a token it rejects. */
  function Resolve(header: string, verify: string -> Option<Id>, lookup: Id -> Option<Principal>): Option<Principal> {
    var t := BearerToken(header);
    if t.None? || t.value == [] then None
    else
      var id := verify(t.value);
      if id.None? then None else lookup(id.value)
  }

  /** `protect`. */
  function Protect(header: Option<string>, verify: string -> Option<Id>, lookup: Id -> Option<Principal>): (g: Gate)
    ensures !HasBearer(header) ==> g == Gate(Deny(401, NoToken), None)
    ensures g.decision.Deny? ==> g.decision.status == 401
    ensures g.decision == Next <==> HasBearer(header) && Resolve(header.value, verify, lookup).Some?
    ensures g.decision == Next ==> g.user == Resolve(header.value, verify, lookup)
  {
    if !HasBearer(header) then Gate(Reject(NoToken), None)
    else
      var t := BearerToken(header.value);
      if t.None? || t.value == [] then Gate(Reject(TokenFailed), None)
      else
        var id := verify(t.value);
        if id.None? then Gate(Reject(TokenFailed), None)
        else
          var user := lookup(id.value);
          if user.None? then Gate(Reject(UserNotFound), None)
          else Gate(Next, user)
  }

  /** `optionalAuth`: never refuses, and sets `req.user` when the header
      authenticates. */
  function OptionalAuth(header: Option<string>, verify: string -> Option<Id>, lookup: Id -> Option<Principal>): (g: Gate)
    ensures g.decision == Next
    ensures !HasBearer(header) ==> g.user.None?
  {
    if HasBearer(header) then Gate(Next, Resolve(header.value, verify, lookup)) else Gate(Next, None)
  }

  /** `optionalAuth` sees the same user as `protect` when `protect` lets the
      request through, and no user at all when `protect` refuses it. */
  lemma OptionalAgreesWithProtect(header: Option<string>, verify: string -> Option<Id>, lookup: Id -> Option<Principal>)
    ensures OptionalAuth(header, verify, lookup).user ==
      (if Protect(header, verify, lookup).decision == Next then Protect(header, verify, lookup).user else None)
  {
  }
}
