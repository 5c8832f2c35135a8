/**
 The service's calls as they change the tables in place, each proved to do what its specification in
 `Sessions` says. `now` is the clock; every method's state is a `Step`, so the run theorems hold of it.
 */
module AuthService {
  import opened Common
  import opened Sessions
  import opened SessionInvariants

  class Service {
    const settings: Settings
    var now: int
    var users: seq<User>
    var tokens: seq<RefreshToken>
    var resets: seq<ResetToken>
    var families: nat

    function State(): Db
      reads this
    {
      Db(now, users, tokens, resets, families)
    }

    ghost predicate Consistent()
      reads this
    {
      Valid(settings, State())
    }

    constructor (settings: Settings, now: int)
      ensures this.settings == settings && State() == Empty(now) && Consistent()
    {
      this.settings, this.now := settings, now;
      users, tokens, resets, families := [], [], [], 0;
    }

    // The clock moves on.
    method Elapse(ms: nat)
      requires Consistent()
      modifies this`now
      ensures Consistent() && State() == Step(settings, old(State()), Wait(ms)).0
    {
      StepKeepsValid(settings, State(), Wait(ms));
      now := now + ms;
    }

    method CreateSession(user: nat, drawn: Token) returns (reply: Reply)
      modifies this`tokens, this`families
      ensures (State(), reply) == OpenSession(settings, old(State()), user, drawn)
    {
      if FindToken(tokens, Sha256(drawn)).Some? { return Rejected(UniqueViolation); }
      var row := FreshRow(settings, now, user, families, drawn);
      families := families + 1;
      tokens := tokens + [row];
      reply := Session(user, drawn);
    }

    method Register(email: string, password: string, rolesExist: bool, drawn: Token) returns (reply: Reply)
      requires Consistent()
      modifies this
      ensures Consistent()
      ensures (State(), reply) == Step(settings, old(State()), Call.Register(email, password, rolesExist, drawn))
    {
      StepKeepsValid(settings, State(), Call.Register(email, password, rolesExist, drawn));
      if FindByEmail(users, email).Some? { return Rejected(EmailTaken); }
      reply := InsertUser(email, password, rolesExist);
      if reply != Done { return; }
      reply := CreateSession(|users| - 1, drawn);
    }

    // The transaction that inserts a user with its roles.
    method InsertUser(email: string, password: string, rolesExist: bool) returns (reply: Reply)
      requires FindByEmail(users, email).None?
      modifies this`users
      ensures (State(), reply) == CreateUserStep(old(State()), email, password, rolesExist)
    {
      if !rolesExist { return Rejected(RoleMissing); }
      users := users + [User(email, Argon2(password), Active, None)];
      reply := Done;
    }

    method Login(email: string, password: string, drawn: Token) returns (reply: Reply)
      requires Consistent()
      modifies this
      ensures Consistent()
      ensures (State(), reply) == Step(settings, old(State()), Call.Login(email, password, drawn))
    {
      StepKeepsValid(settings, State(), Call.Login(email, password, drawn));
      var found := FindByEmail(users, email);
      if found.None? { return Rejected(InvalidCredentials); }
      var user := users[found.value];
      if user.passwordHash != Argon2(password) { return Rejected(InvalidCredentials); }
      if user.status != Active { return Rejected(AccountNotActive); }
      reply := CreateSession(found.value, drawn);
    }

    // The rotation transaction: lock the presented row, insert its successor, then spend and link the row.
    method Rotation(presented: Token, drawn: Token) returns (outcome: RefreshOutcome)
      modifies this`tokens
      ensures (State(), outcome) == RefreshTransaction(settings, old(State()), presented, drawn)
    {
      var found := FindToken(tokens, Sha256(presented));
      if found.None? { return Unknown; }
      var id := found.value;
      var stored := tokens[id];
      if stored.revokedAt.Some? || stored.usedAt.Some? {
        tokens := Revoke(tokens, OfFamily(stored.familyId), now);
        return Theft;
      }
      if stored.expiresAt < now {
        tokens := tokens[id := stored.(revokedAt := Some(now))];
        return Expired;
      }
      if !CanAct(users, stored.userId) { return InactiveUser; }
      if FindToken(tokens, Sha256(drawn)).Some? { return Collision; }
      var nextId := |tokens|;
      var next := FreshRow(settings, now, stored.userId, stored.familyId, drawn);
      tokens := tokens + [next];
      tokens := tokens[id := tokens[id].(usedAt := Some(now))];
      tokens := tokens[id := tokens[id].(revokedAt := Some(now))];
      tokens := tokens[id := tokens[id].(replacedByTokenId := Some(nextId))];
      assert tokens == Rotate(old(tokens), id, next, now);
      outcome := Rotated(stored.userId);
    }

    method Refresh(presented: Option<Token>, drawn: Token) returns (reply: Reply)
      requires Consistent()
      modifies this
      ensures Consistent()
      ensures (State(), reply) == Step(settings, old(State()), Call.Refresh(presented, drawn))
    {
      StepKeepsValid(settings, State(), Call.Refresh(presented, drawn));
      if presented.None? { return Rejected(MissingRefreshToken); }
      var outcome := Rotation(presented.value, drawn);
      match outcome
      case Unknown => reply := Rejected(InvalidRefreshToken);
      case Theft => reply := Rejected(InvalidRefreshToken);
      case Expired => reply := Rejected(RefreshTokenExpired);
      case InactiveUser => reply := Rejected(AccountNotActive);
      case Collision => reply := Rejected(UniqueViolation);
      case Rotated(user) => reply := Session(user, drawn);
    }

    method Logout(presented: Option<Token>) returns (reply: Reply)
      requires Consistent()
      modifies this
      ensures Consistent()
      ensures (State(), reply) == Step(settings, old(State()), Call.Logout(presented))
    {
      StepKeepsValid(settings, State(), Call.Logout(presented));
      reply := Done;
      if presented.None? { return; }
      var found := FindToken(tokens, Sha256(presented.value));
      if found.None? || tokens[found.value].revokedAt.Some? { return; }
      tokens := tokens[found.value := tokens[found.value].(revokedAt := Some(now))];
    }

    method ForgotPassword(email: string, drawn: Token) returns (reply: Reply)
      requires Consistent()
      modifies this
      ensures Consistent()
      ensures (State(), reply) == Step(settings, old(State()), Call.ForgotPassword(email, drawn))
    {
      StepKeepsValid(settings, State(), Call.ForgotPassword(email, drawn));
      reply := Done;
      var found := FindByEmail(users, email);
      if found.None? || users[found.value].status != Active { return; }
      resets := SpendResets(resets, found.value, now);
      if FindReset(resets, Sha256(drawn)).Some? { return Rejected(UniqueViolation); }
      resets := resets + [ResetToken(Sha256(drawn), found.value, now + settings.resetTokenTtlMs, None)];
    }

    method ResetPassword(token: Token, newPassword: string) returns (reply: Reply)
      requires Consistent()
      modifies this
      ensures Consistent()
      ensures (State(), reply) == Step(settings, old(State()), Call.ResetPassword(token, newPassword))
    {
      StepKeepsValid(settings, State(), Call.ResetPassword(token, newPassword));
      var found := FindReset(resets, Sha256(token));
      if found.None? { return Rejected(InvalidResetToken); }
      var record := resets[found.value];
      if record.usedAt.Some? || record.expiresAt < now { return Rejected(InvalidResetToken); }
      var user := record.userId;
      if !CanAct(users, user) { return Rejected(InvalidResetToken); }
      users := users[user := users[user].(passwordHash := Argon2(newPassword))];
      resets := resets[found.value := record.(usedAt := Some(now))];
      tokens := Revoke(tokens, OfUser(user), now);
      reply := Done;
    }

    method CreateUser(email: string, password: string, rolesExist: bool) returns (reply: Reply)
      requires Consistent()
      modifies this
      ensures Consistent()
      ensures (State(), reply) == Step(settings, old(State()), Call.CreateUser(email, password, rolesExist))
    {
      StepKeepsValid(settings, State(), Call.CreateUser(email, password, rolesExist));
      if FindByEmail(users, email).Some? { return Rejected(EmailTaken); }
      reply := InsertUser(email, password, rolesExist);
    }

    method UpdateUser(id: nat, status: Option<UserStatus>, actingUserId: Option<nat>) returns (reply: Reply)
      requires Consistent()
      modifies this
      ensures Consistent()
      ensures (State(), reply) == Step(settings, old(State()), Call.UpdateUser(id, status, actingUserId))
    {
      StepKeepsValid(settings, State(), Call.UpdateUser(id, status, actingUserId));
      if actingUserId == Some(id) && status.Some? { return Rejected(OwnStatus); }
      if !Visible(users, id) { return Rejected(UserNotFound); }
      if status.Some? { users := users[id := users[id].(status := status.value)]; }
      reply := Done;
    }

    method SoftDelete(id: nat, actingUserId: Option<nat>) returns (reply: Reply)
      requires Consistent()
      modifies this
      ensures Consistent()
      ensures (State(), reply) == Step(settings, old(State()), Call.SoftDelete(id, actingUserId))
    {
      StepKeepsValid(settings, State(), Call.SoftDelete(id, actingUserId));
      if actingUserId == Some(id) { return Rejected(OwnAccount); }
      if !Visible(users, id) { return Rejected(UserNotFound); }
      users := users[id := users[id].(deletedAt := Some(now))];
      tokens := Revoke(tokens, OfUser(id), now);
      resets := SpendResets(resets, id, now);
      reply := Done;
    }
  }
}
