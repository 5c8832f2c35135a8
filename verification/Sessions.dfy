/**
 The credential tables and what one service call does to them.

 Rows are never physically deleted by these services, so every table is a sequence and a row's id
 is its position: a database-generated uuid only has to be new, and the next position is.
 A call is one atomic step on the tables; `drawn` is the 32-byte random token the call generates.
 */
module Sessions {
  import opened Common

  type Token = nat

  // SHA-256 and argon2 as injective constructors: a stored hash determines what was hashed.
  datatype TokenHash = Sha256(token: Token)
  datatype PasswordHash = Argon2(password: string)

  datatype UserStatus = Active | Inactive | Suspended

  datatype Settings = Settings(refreshExpiresInMs: nat, resetTokenTtlMs: nat)

  datatype User = User(email: string, passwordHash: PasswordHash, status: UserStatus, deletedAt: Option<int>)

  datatype RefreshToken = RefreshToken(
    tokenHash: TokenHash, userId: nat, familyId: nat, expiresAt: int, createdAt: int,
    revokedAt: Option<int>, usedAt: Option<int>, replacedByTokenId: Option<nat>)

  datatype ResetToken = ResetToken(tokenHash: TokenHash, userId: nat, expiresAt: int, usedAt: Option<int>)

  // `families` is the supply of random family ids: the ids below it have been handed out.
  datatype Db = Db(now: int, users: seq<User>, tokens: seq<RefreshToken>, resets: seq<ResetToken>, families: nat)

  datatype Reason =
    | EmailTaken | InvalidCredentials | AccountNotActive | MissingRefreshToken | InvalidRefreshToken
    | RefreshTokenExpired | InvalidResetToken | OwnStatus | OwnAccount | UserNotFound | RoleMissing | UniqueViolation

  datatype Reply = Session(userId: nat, refreshToken: Token) | Done | Rejected(reason: Reason)

  datatype Call =
    | Register(email: string, password: string, rolesExist: bool, drawn: Token)
    | Login(email: string, password: string, drawn: Token)
    | Refresh(presented: Option<Token>, drawn: Token)
    | Logout(presented: Option<Token>)
    | ForgotPassword(email: string, drawn: Token)
    | ResetPassword(token: Token, newPassword: string)
    | CreateUser(email: string, password: string, rolesExist: bool)
    | UpdateUser(id: nat, status: Option<UserStatus>, actingUserId: Option<nat>)
    | SoftDelete(id: nat, actingUserId: Option<nat>)
    | Wait(ms: nat)

  /******* Queries *******/

  function FindToken(rows: seq<RefreshToken>, hash: TokenHash): (r: Option<nat>)
    ensures r.Some? ==> r.value < |rows| && rows[r.value].tokenHash == hash
    ensures r.None? ==> forall i | 0 <= i < |rows| :: rows[i].tokenHash != hash
  {
    if |rows| == 0 then None
    else if rows[|rows| - 1].tokenHash == hash then Some(|rows| - 1)
    else FindToken(rows[..|rows| - 1], hash)
  }

  function FindReset(rows: seq<ResetToken>, hash: TokenHash): (r: Option<nat>)
    ensures r.Some? ==> r.value < |rows| && rows[r.value].tokenHash == hash
    ensures r.None? ==> forall i | 0 <= i < |rows| :: rows[i].tokenHash != hash
  {
    if |rows| == 0 then None
    else if rows[|rows| - 1].tokenHash == hash then Some(|rows| - 1)
    else FindReset(rows[..|rows| - 1], hash)
  }

  // User lookups skip soft-deleted rows.
  predicate Visible(users: seq<User>, id: nat) {
    id < |users| && users[id].deletedAt.None?
  }

  function FindByEmail(users: seq<User>, email: string): (r: Option<nat>)
    ensures r.Some? ==> Visible(users, r.value) && users[r.value].email == email
    ensures r.None? ==> forall i | 0 <= i < |users| && users[i].deletedAt.None? :: users[i].email != email
  {
    if |users| == 0 then None
    else if users[|users| - 1].deletedAt.None? && users[|users| - 1].email == email then Some(|users| - 1)
    else FindByEmail(users[..|users| - 1], email)
  }

  predicate CanAct(users: seq<User>, id: nat) {
    Visible(users, id) && users[id].status == Active
  }

  /******* Bulk updates *******/

  datatype Filter = OfFamily(familyId: nat) | OfUser(userId: nat)

  predicate Selects(filter: Filter, row: RefreshToken) {
    match filter
    case OfFamily(f) => row.familyId == f
    case OfUser(u) => row.userId == u
  }

  // UPDATE refresh_tokens SET revoked_at = at WHERE filter AND revoked_at IS NULL
  function Revoke(rows: seq<RefreshToken>, filter: Filter, at: int): seq<RefreshToken> {
    seq(|rows|, i requires 0 <= i < |rows| =>
      if Selects(filter, rows[i]) && rows[i].revokedAt.None? then rows[i].(revokedAt := Some(at)) else rows[i])
  }

  // UPDATE password_reset_tokens SET used_at = at WHERE user_id = user AND used_at IS NULL
  function SpendResets(rows: seq<ResetToken>, user: nat, at: int): seq<ResetToken> {
    seq(|rows|, i requires 0 <= i < |rows| =>
      if rows[i].userId == user && rows[i].usedAt.None? then rows[i].(usedAt := Some(at)) else rows[i])
  }

  function FreshRow(cfg: Settings, now: int, user: nat, family: nat, drawn: Token): RefreshToken {
    RefreshToken(Sha256(drawn), user, family, now + cfg.refreshExpiresInMs, now, None, None, None)
  }

  // Insert the successor of row i and link i to it.
  function Rotate(rows: seq<RefreshToken>, i: nat, next: RefreshToken, at: int): seq<RefreshToken>
    requires i < |rows|
  {
    rows[i := rows[i].(usedAt := Some(at), revokedAt := Some(at), replacedByTokenId := Some(|rows|))] + [next]
  }

  /******* Calls *******/

  function OpenSession(cfg: Settings, db: Db, user: nat, drawn: Token): (Db, Reply) {
    if FindToken(db.tokens, Sha256(drawn)).Some? then (db, Rejected(UniqueViolation))
    else
      (db.(tokens := db.tokens + [FreshRow(cfg, db.now, user, db.families, drawn)], families := db.families + 1),
       Session(user, drawn))
  }

  function AddUser(db: Db, email: string, password: string): Db {
    db.(users := db.users + [User(email, Argon2(password), Active, None)])
  }

  datatype RefreshOutcome = Rotated(userId: nat) | Theft | Expired | InactiveUser | Unknown | Collision

  function RefreshTransaction(cfg: Settings, db: Db, presented: Token, drawn: Token): (Db, RefreshOutcome) {
    match FindToken(db.tokens, Sha256(presented))
    case None => (db, Unknown)
    case Some(i) =>
      var stored := db.tokens[i];
      if stored.revokedAt.Some? || stored.usedAt.Some? then
        (db.(tokens := Revoke(db.tokens, OfFamily(stored.familyId), db.now)), Theft)
      else if stored.expiresAt < db.now then
        (db.(tokens := db.tokens[i := stored.(revokedAt := Some(db.now))]), Expired)
      else if !CanAct(db.users, stored.userId) then
        (db, InactiveUser)
      else if FindToken(db.tokens, Sha256(drawn)).Some? then
        (db, Collision)
      else
        var next := FreshRow(cfg, db.now, stored.userId, stored.familyId, drawn);
        (db.(tokens := Rotate(db.tokens, i, next, db.now)), Rotated(stored.userId))
  }

  function RefreshReply(outcome: RefreshOutcome, drawn: Token): Reply {
    match outcome
    case Rotated(u) => Session(u, drawn)
    case Theft => Rejected(InvalidRefreshToken)
    case Unknown => Rejected(InvalidRefreshToken)
    case Expired => Rejected(RefreshTokenExpired)
    case InactiveUser => Rejected(AccountNotActive)
    case Collision => Rejected(UniqueViolation)
  }

  function RefreshStep(cfg: Settings, db: Db, presented: Option<Token>, drawn: Token): (Db, Reply) {
    match presented
    case None => (db, Rejected(MissingRefreshToken))
    case Some(token) =>
      var (db', outcome) := RefreshTransaction(cfg, db, token, drawn);
      (db', RefreshReply(outcome, drawn))
  }

  function LogoutStep(db: Db, presented: Option<Token>): (Db, Reply) {
    if presented.None? then (db, Done)
    else
      match FindToken(db.tokens, Sha256(presented.value))
      case None => (db, Done)
      case Some(i) =>
        if db.tokens[i].revokedAt.Some? then (db, Done)
        else (db.(tokens := db.tokens[i := db.tokens[i].(revokedAt := Some(db.now))]), Done)
  }

  // `rolesExist` says whether the roles the new user is to get exist; if not, the transaction rolls the user back.
  function CreateUserStep(db: Db, email: string, password: string, rolesExist: bool): (Db, Reply) {
    if FindByEmail(db.users, email).Some? then (db, Rejected(EmailTaken))
    else if !rolesExist then (db, Rejected(RoleMissing))
    else (AddUser(db, email, password), Done)
  }

  // The session is opened after the user's transaction: when its token collides, the user stays.
  function RegisterStep(
    cfg: Settings, db: Db, email: string, password: string, rolesExist: bool, drawn: Token): (Db, Reply)
  {
    var (created, reply) := CreateUserStep(db, email, password, rolesExist);
    if reply != Done then (db, reply) else OpenSession(cfg, created, |db.users|, drawn)
  }

  function LoginStep(cfg: Settings, db: Db, email: string, password: string, drawn: Token): (Db, Reply) {
    match FindByEmail(db.users, email)
    case None => (db, Rejected(InvalidCredentials))
    case Some(u) =>
      if db.users[u].passwordHash != Argon2(password) then (db, Rejected(InvalidCredentials))
      else if db.users[u].status != Active then (db, Rejected(AccountNotActive))
      else OpenSession(cfg, db, u, drawn)
  }

  function ForgotPasswordStep(cfg: Settings, db: Db, email: string, drawn: Token): (Db, Reply) {
    match FindByEmail(db.users, email)
    case None => (db, Done)
    case Some(u) =>
      if db.users[u].status != Active then (db, Done)
      else
        var spent := SpendResets(db.resets, u, db.now);
        if FindReset(spent, Sha256(drawn)).Some? then (db.(resets := spent), Rejected(UniqueViolation))
        else (db.(resets := spent + [ResetToken(Sha256(drawn), u, db.now + cfg.resetTokenTtlMs, None)]), Done)
  }

  function ResetPasswordStep(db: Db, token: Token, newPassword: string): (Db, Reply) {
    match FindReset(db.resets, Sha256(token))
    case None => (db, Rejected(InvalidResetToken))
    case Some(i) =>
      var record := db.resets[i];
      if record.usedAt.Some? || record.expiresAt < db.now || !CanAct(db.users, record.userId) then
        (db, Rejected(InvalidResetToken))
      else
        var u := record.userId;
        (db.(users := db.users[u := db.users[u].(passwordHash := Argon2(newPassword))],
             resets := db.resets[i := record.(usedAt := Some(db.now))],
             tokens := Revoke(db.tokens, OfUser(u), db.now)),
         Done)
  }

  function UpdateUserStep(db: Db, id: nat, status: Option<UserStatus>, actingUserId: Option<nat>): (Db, Reply) {
    if actingUserId == Some(id) && status.Some? then (db, Rejected(OwnStatus))
    else if !Visible(db.users, id) then (db, Rejected(UserNotFound))
    else if status.None? then (db, Done)
    else (db.(users := db.users[id := db.users[id].(status := status.value)]), Done)
  }

  function SoftDeleteStep(db: Db, id: nat, actingUserId: Option<nat>): (Db, Reply) {
    if actingUserId == Some(id) then (db, Rejected(OwnAccount))
    else if !Visible(db.users, id) then (db, Rejected(UserNotFound))
    else
      (db.(users := db.users[id := db.users[id].(deletedAt := Some(db.now))],
           tokens := Revoke(db.tokens, OfUser(id), db.now),
           resets := SpendResets(db.resets, id, db.now)),
       Done)
  }

  function Step(cfg: Settings, db: Db, call: Call): (Db, Reply) {
    match call
    case Register(email, password, rolesExist, drawn) => RegisterStep(cfg, db, email, password, rolesExist, drawn)
    case Login(email, password, drawn) => LoginStep(cfg, db, email, password, drawn)
    case Refresh(presented, drawn) => RefreshStep(cfg, db, presented, drawn)
    case Logout(presented) => LogoutStep(db, presented)
    case ForgotPassword(email, drawn) => ForgotPasswordStep(cfg, db, email, drawn)
    case ResetPassword(token, newPassword) => ResetPasswordStep(db, token, newPassword)
    case CreateUser(email, password, rolesExist) => CreateUserStep(db, email, password, rolesExist)
    case UpdateUser(id, status, acting) => UpdateUserStep(db, id, status, acting)
    case SoftDelete(id, acting) => SoftDeleteStep(db, id, acting)
    case Wait(ms) => (db.(now := db.now + ms), Done)
  }

  // The tables after a whole run of calls; the k-th call finds Run(cfg, db, calls[..k]).
  function Run(cfg: Settings, db: Db, calls: seq<Call>): Db
    decreases |calls|
  {
    if |calls| == 0 then db
    else Step(cfg, Run(cfg, db, calls[..|calls| - 1]), calls[|calls| - 1]).0
  }

  function Empty(now: int): Db {
    Db(now, [], [], [], 0)
  }
}
