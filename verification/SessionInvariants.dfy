/** What every call keeps: rotation families are linear chains, and the tables only move forward. */
module SessionInvariants {
  import opened Common
  import opened Sessions

  /******* Rotation families *******/

  ghost predicate LastInFamily(rows: seq<RefreshToken>, i: nat)
    requires i < |rows|
  {
    forall k | i < k < |rows| :: rows[k].familyId != rows[i].familyId
  }

  // j is the very next row of i's family
  ghost predicate NextInFamily(rows: seq<RefreshToken>, i: nat, j: nat)
    requires i < |rows|
  {
    && i < j < |rows|
    && rows[j].familyId == rows[i].familyId
    && forall k | i < k < j :: rows[k].familyId != rows[i].familyId
  }

  // A row is used exactly when it has a successor; the successor is the next row of its family,
  // and a row without one is the tail.
  ghost predicate LinkOk(rows: seq<RefreshToken>, i: nat)
    requires i < |rows|
  {
    var row := rows[i];
    && (row.usedAt.Some? <==> row.replacedByTokenId.Some?)
    && (row.usedAt.Some? ==> row.revokedAt.Some?)
    && (row.replacedByTokenId.Some? ==> NextInFamily(rows, i, row.replacedByTokenId.value))
    && (row.replacedByTokenId.None? ==> LastInFamily(rows, i))
  }

  // Rows live exactly refreshExpiresInMs; a row is used at the moment its successor is created, while it is alive.
  ghost predicate ClockOk(cfg: Settings, now: int, rows: seq<RefreshToken>, i: nat)
    requires i < |rows|
  {
    var row := rows[i];
    && row.createdAt <= now
    && row.expiresAt == row.createdAt + cfg.refreshExpiresInMs
    && (row.replacedByTokenId.Some? && row.replacedByTokenId.value < |rows| ==>
          row.createdAt <= rows[row.replacedByTokenId.value].createdAt <= row.expiresAt)
    && (row.replacedByTokenId.Some? && row.replacedByTokenId.value < |rows| ==>
          row.usedAt == Some(rows[row.replacedByTokenId.value].createdAt))
  }

  ghost predicate Chains(cfg: Settings, now: int, families: nat, rows: seq<RefreshToken>) {
    && (forall i | 0 <= i < |rows| :: LinkOk(rows, i))
    && (forall i | 0 <= i < |rows| :: ClockOk(cfg, now, rows, i))
    && (forall i | 0 <= i < |rows| :: rows[i].familyId < families)
    && (forall i, j | 0 <= i < j < |rows| && rows[i].familyId == rows[j].familyId :: rows[i].userId == rows[j].userId)
    && (forall i, j | 0 <= i < j < |rows| :: rows[i].tokenHash != rows[j].tokenHash)
  }

  // A user's only unspent reset token is the last one issued to that user.
  ghost predicate ResetsOk(resets: seq<ResetToken>) {
    && (forall i, j | 0 <= i < j < |resets| && resets[i].userId == resets[j].userId :: resets[i].usedAt.Some?)
    && (forall i, j | 0 <= i < j < |resets| :: resets[i].tokenHash != resets[j].tokenHash)
  }

  // UQ_users_email_active: one live account per email
  ghost predicate EmailsOk(users: seq<User>) {
    forall i, j | 0 <= i < j < |users| && users[i].deletedAt.None? && users[j].deletedAt.None? ::
      users[i].email != users[j].email
  }

  ghost predicate Valid(cfg: Settings, db: Db) {
    && Chains(cfg, db.now, db.families, db.tokens)
    && (forall i | 0 <= i < |db.tokens| :: db.tokens[i].userId < |db.users|)
    && ResetsOk(db.resets)
    && (forall i | 0 <= i < |db.resets| :: db.resets[i].userId < |db.users|)
    && EmailsOk(db.users)
  }

  /******* The table updates keep the chains *******/

  lemma RevokeKeepsChains(cfg: Settings, now: int, families: nat, rows: seq<RefreshToken>, filter: Filter, at: int)
    requires Chains(cfg, now, families, rows)
    ensures Chains(cfg, now, families, Revoke(rows, filter, at))
  {
    var after := Revoke(rows, filter, at);
    forall i | 0 <= i < |after| ensures LinkOk(after, i) && ClockOk(cfg, now, after, i) {
      assert LinkOk(rows, i) && ClockOk(cfg, now, rows, i);
    }
  }

  lemma RevokeOneKeepsChains(cfg: Settings, now: int, families: nat, rows: seq<RefreshToken>, id: nat, at: int)
    requires Chains(cfg, now, families, rows) && id < |rows|
    ensures Chains(cfg, now, families, rows[id := rows[id].(revokedAt := Some(at))])
  {
    var after := rows[id := rows[id].(revokedAt := Some(at))];
    forall i | 0 <= i < |after| ensures LinkOk(after, i) && ClockOk(cfg, now, after, i) {
      assert LinkOk(rows, i) && ClockOk(cfg, now, rows, i);
    }
  }

  lemma OpeningKeepsChains(cfg: Settings, now: int, families: nat, rows: seq<RefreshToken>, row: RefreshToken)
    requires Chains(cfg, now, families, rows)
    requires row.familyId == families && row.usedAt.None? && row.replacedByTokenId.None? && row.revokedAt.None?
    requires row.createdAt <= now && row.expiresAt == row.createdAt + cfg.refreshExpiresInMs
    requires forall i | 0 <= i < |rows| :: rows[i].tokenHash != row.tokenHash
    ensures Chains(cfg, now, families + 1, rows + [row])
  {
    var after := rows + [row];
    forall i | 0 <= i < |after| ensures LinkOk(after, i) && ClockOk(cfg, now, after, i) {
      if i < |rows| { assert LinkOk(rows, i) && ClockOk(cfg, now, rows, i); }
    }
  }

  lemma RotationKeepsChains(cfg: Settings, now: int, families: nat, rows: seq<RefreshToken>, i: nat, next: RefreshToken)
    requires Chains(cfg, now, families, rows)
    requires i < |rows| && rows[i].usedAt.None? && rows[i].revokedAt.None? && now <= rows[i].expiresAt
    requires next.familyId == rows[i].familyId && next.userId == rows[i].userId
    requires next.usedAt.None? && next.replacedByTokenId.None?
    requires next.createdAt == now && next.expiresAt == now + cfg.refreshExpiresInMs
    requires forall k | 0 <= k < |rows| :: rows[k].tokenHash != next.tokenHash
    ensures Chains(cfg, now, families, Rotate(rows, i, next, now))
  {
    var after := Rotate(rows, i, next, now);
    assert LinkOk(rows, i);
    forall k | 0 <= k < |after| ensures LinkOk(after, k) && ClockOk(cfg, now, after, k) {
      if k < |rows| {
        assert LinkOk(rows, k) && ClockOk(cfg, now, rows, k);
        if k < i && rows[k].replacedByTokenId.None? { assert rows[i].familyId != rows[k].familyId; }
        if i < k { assert rows[k].familyId != rows[i].familyId; }
      }
    }
  }

  lemma TimeKeepsChains(cfg: Settings, now: int, later: int, families: nat, rows: seq<RefreshToken>)
    requires Chains(cfg, now, families, rows) && now <= later
    ensures Chains(cfg, later, families, rows)
  {
    forall i | 0 <= i < |rows| ensures ClockOk(cfg, later, rows, i) { assert ClockOk(cfg, now, rows, i); }
  }

  lemma OpenSessionKeepsValid(cfg: Settings, db: Db, user: nat, drawn: Token)
    requires Valid(cfg, db) && user < |db.users|
    ensures Valid(cfg, OpenSession(cfg, db, user, drawn).0)
  {
    if FindToken(db.tokens, Sha256(drawn)).None? {
      OpeningKeepsChains(cfg, db.now, db.families, db.tokens, FreshRow(cfg, db.now, user, db.families, drawn));
    }
  }

  lemma RefreshKeepsValid(cfg: Settings, db: Db, presented: Token, drawn: Token)
    requires Valid(cfg, db)
    ensures Valid(cfg, RefreshTransaction(cfg, db, presented, drawn).0)
  {
    var found := FindToken(db.tokens, Sha256(presented));
    if found.Some? {
      var i := found.value;
      var row := db.tokens[i];
      match RefreshTransaction(cfg, db, presented, drawn).1
      case Theft => RevokeKeepsChains(cfg, db.now, db.families, db.tokens, OfFamily(row.familyId), db.now);
      case Expired => RevokeOneKeepsChains(cfg, db.now, db.families, db.tokens, i, db.now);
      case Rotated(_) =>
        RotationKeepsChains(cfg, db.now, db.families, db.tokens, i,
                            FreshRow(cfg, db.now, row.userId, row.familyId, drawn));
      case _ =>
    }
  }

  lemma CreateUserKeepsValid(cfg: Settings, db: Db, email: string, password: string, rolesExist: bool)
    requires Valid(cfg, db)
    ensures Valid(cfg, CreateUserStep(db, email, password, rolesExist).0)
  {
  }

  lemma RegisterKeepsValid(cfg: Settings, db: Db, email: string, password: string, rolesExist: bool, drawn: Token)
    requires Valid(cfg, db)
    ensures Valid(cfg, RegisterStep(cfg, db, email, password, rolesExist, drawn).0)
  {
    CreateUserKeepsValid(cfg, db, email, password, rolesExist);
    if CreateUserStep(db, email, password, rolesExist).1 == Done {
      OpenSessionKeepsValid(cfg, AddUser(db, email, password), |db.users|, drawn);
    }
  }

  lemma LoginKeepsValid(cfg: Settings, db: Db, email: string, password: string, drawn: Token)
    requires Valid(cfg, db)
    ensures Valid(cfg, LoginStep(cfg, db, email, password, drawn).0)
  {
    var found := FindByEmail(db.users, email);
    if found.Some? { OpenSessionKeepsValid(cfg, db, found.value, drawn); }
  }

  lemma LogoutKeepsValid(cfg: Settings, db: Db, presented: Option<Token>)
    requires Valid(cfg, db)
    ensures Valid(cfg, LogoutStep(db, presented).0)
  {
    if presented.Some? {
      var found := FindToken(db.tokens, Sha256(presented.value));
      if found.Some? {
        RevokeOneKeepsChains(cfg, db.now, db.families, db.tokens, found.value, db.now);
      }
    }
  }

  lemma SpendingKeepsResets(resets: seq<ResetToken>, user: nat, at: int)
    requires ResetsOk(resets)
    ensures ResetsOk(SpendResets(resets, user, at))
    ensures forall i | 0 <= i < |resets| && resets[i].userId == user :: SpendResets(resets, user, at)[i].usedAt.Some?
  {
  }

  lemma IssuingKeepsResets(resets: seq<ResetToken>, row: ResetToken)
    requires ResetsOk(resets) && forall i | 0 <= i < |resets| :: resets[i].tokenHash != row.tokenHash
    requires forall i | 0 <= i < |resets| && resets[i].userId == row.userId :: resets[i].usedAt.Some?
    ensures ResetsOk(resets + [row])
  {
  }

  lemma ForgotPasswordKeepsValid(cfg: Settings, db: Db, email: string, drawn: Token)
    requires Valid(cfg, db)
    ensures Valid(cfg, ForgotPasswordStep(cfg, db, email, drawn).0)
  {
    var found := FindByEmail(db.users, email);
    if found.Some? {
      SpendingKeepsResets(db.resets, found.value, db.now);
      var spent := SpendResets(db.resets, found.value, db.now);
      if FindReset(spent, Sha256(drawn)).None? {
        IssuingKeepsResets(spent, ResetToken(Sha256(drawn), found.value, db.now + cfg.resetTokenTtlMs, None));
      }
    }
  }

  lemma ResetPasswordKeepsValid(cfg: Settings, db: Db, token: Token, newPassword: string)
    requires Valid(cfg, db)
    ensures Valid(cfg, ResetPasswordStep(db, token, newPassword).0)
  {
    var found := FindReset(db.resets, Sha256(token));
    if found.Some? {
      RevokeKeepsChains(cfg, db.now, db.families, db.tokens, OfUser(db.resets[found.value].userId), db.now);
    }
  }

  lemma SoftDeleteKeepsValid(cfg: Settings, db: Db, id: nat, actingUserId: Option<nat>)
    requires Valid(cfg, db)
    ensures Valid(cfg, SoftDeleteStep(db, id, actingUserId).0)
  {
    RevokeKeepsChains(cfg, db.now, db.families, db.tokens, OfUser(id), db.now);
    SpendingKeepsResets(db.resets, id, db.now);
  }

  lemma UpdateUserKeepsValid(
    cfg: Settings, db: Db, id: nat, status: Option<UserStatus>, actingUserId: Option<nat>)
    requires Valid(cfg, db)
    ensures Valid(cfg, UpdateUserStep(db, id, status, actingUserId).0)
  {
  }

  lemma AccountCallKeepsValid(cfg: Settings, db: Db, call: Call)
    requires Valid(cfg, db) && !call.Register? && !call.Login? && !call.Refresh? && !call.Logout?
    ensures Valid(cfg, Step(cfg, db, call).0)
  {
    match call
    case ForgotPassword(email, drawn) => ForgotPasswordKeepsValid(cfg, db, email, drawn);
    case ResetPassword(token, newPassword) => ResetPasswordKeepsValid(cfg, db, token, newPassword);
    case CreateUser(email, password, rolesExist) => CreateUserKeepsValid(cfg, db, email, password, rolesExist);
    case UpdateUser(id, status, acting) => UpdateUserKeepsValid(cfg, db, id, status, acting);
    case SoftDelete(id, acting) => SoftDeleteKeepsValid(cfg, db, id, acting);
    case Wait(ms) => TimeKeepsChains(cfg, db.now, db.now + ms, db.families, db.tokens);
  }

  lemma StepKeepsValid(cfg: Settings, db: Db, call: Call)
    requires Valid(cfg, db)
    ensures Valid(cfg, Step(cfg, db, call).0)
  {
    match call
    case Register(email, password, rolesExist, drawn) =>
      RegisterKeepsValid(cfg, db, email, password, rolesExist, drawn);
    case Login(email, password, drawn) => LoginKeepsValid(cfg, db, email, password, drawn);
    case Refresh(presented, drawn) =>
      if presented.Some? { RefreshKeepsValid(cfg, db, presented.value, drawn); }
    case Logout(presented) => LogoutKeepsValid(cfg, db, presented);
    case _ => AccountCallKeepsValid(cfg, db, call);
  }

  lemma {:induction false} RunKeepsValid(cfg: Settings, db: Db, calls: seq<Call>)
    requires Valid(cfg, db)
    ensures Valid(cfg, Run(cfg, db, calls))
    decreases |calls|
  {
    if |calls| > 0 {
      var init := calls[..|calls| - 1];
      RunKeepsValid(cfg, db, init);
      StepKeepsValid(cfg, Run(cfg, db, init), calls[|calls| - 1]);
    }
  }

  /** Every reachable state is valid. */
  lemma ReachableValid(cfg: Settings, now: int, calls: seq<Call>)
    ensures Valid(cfg, Run(cfg, Empty(now), calls))
  {
    RunKeepsValid(cfg, Empty(now), calls);
  }

  /**
   In every reachable state a family is one linear chain: one owner, forward links within the family
   that no two rows share, `usedAt` exactly with a link, and at most the tail unrevoked.
   */
  lemma ReachableFamiliesAreChains(cfg: Settings, now: int, calls: seq<Call>, i: nat, j: nat)
    requires i < j < |Run(cfg, Empty(now), calls).tokens|
    requires Run(cfg, Empty(now), calls).tokens[i].familyId == Run(cfg, Empty(now), calls).tokens[j].familyId
    ensures
      var rows := Run(cfg, Empty(now), calls).tokens;
      && rows[i].userId == rows[j].userId
      && rows[i].revokedAt.Some? && rows[i].usedAt.Some?
      && rows[i].replacedByTokenId.Some?
      && i < rows[i].replacedByTokenId.value <= j
      && rows[rows[i].replacedByTokenId.value].familyId == rows[i].familyId
      && rows[j].replacedByTokenId != rows[i].replacedByTokenId
      && (rows[j].usedAt.Some? <==> rows[j].replacedByTokenId.Some?)
      && (rows[j].usedAt.None? <==> LastInFamily(rows, j))
  {
    ReachableValid(cfg, now, calls);
    var rows := Run(cfg, Empty(now), calls).tokens;
    assert LinkOk(rows, i) && LinkOk(rows, j);
  }
}
