/**
 What each credential call answers, what it changes and what it leaves alone, row by row: the conditions under which a
 call succeeds, and the only calls that can touch a row.
 */
module SessionEffects {
  import opened Common
  import opened Sessions
  import opened SessionInvariants
  import opened SessionRuns

  /******* Refresh *******/

  // The presented row is good: nobody used or revoked it, it has not expired, and its owner is a live, active user.
  ghost predicate Usable(s: Db, i: nat)
    requires i < |s.tokens|
  {
    var row := s.tokens[i];
    && row.revokedAt.None? && row.usedAt.None? && s.now <= row.expiresAt
    && row.userId < |s.users| && s.users[row.userId].deletedAt.None? && s.users[row.userId].status == Active
  }

  ghost predicate TokenInUse(s: Db, token: Token) {
    exists k :: 0 <= k < |s.tokens| && s.tokens[k].tokenHash == Sha256(token)
  }

  /** Every answer to a presented refresh token that some row carries, and when it is given. */
  lemma RefreshAnswers(cfg: Settings, s: Db, presented: Token, drawn: Token, i: nat)
    requires Valid(cfg, s) && i < |s.tokens| && s.tokens[i].tokenHash == Sha256(presented)
    ensures
      var row := s.tokens[i];
      var reply := Step(cfg, s, Refresh(Some(presented), drawn)).1;
      && (reply == Rejected(InvalidRefreshToken) <==> row.revokedAt.Some? || row.usedAt.Some?)
      && (reply == Rejected(RefreshTokenExpired) <==> row.revokedAt.None? && row.expiresAt < s.now)
      && (reply == Rejected(AccountNotActive) <==> row.revokedAt.None? && s.now <= row.expiresAt && !Usable(s, i))
      && (reply == Rejected(UniqueViolation) <==> Usable(s, i) && TokenInUse(s, drawn))
      && (reply == Session(row.userId, drawn) <==> Usable(s, i) && !TokenInUse(s, drawn))
  {
    assert LinkOk(s.tokens, i);
  }

  /** A token no row carries is refused, and so is none at all; nothing changes. */
  lemma UnknownRefreshRefused(cfg: Settings, s: Db, presented: Option<Token>, drawn: Token)
    requires presented.Some? ==> !TokenInUse(s, presented.value)
    ensures
      Step(cfg, s, Refresh(presented, drawn))
      == (s, Rejected(if presented.None? then MissingRefreshToken else InvalidRefreshToken))
  {
  }

  /******* Which rows a call touches *******/

  // Presenting row i's token touches row k: theft revokes what is left of i's family, anything else only row i.
  ghost predicate RefreshTouches(s: Db, i: nat, k: nat, drawn: Token)
    requires i < |s.tokens| && k < |s.tokens|
  {
    if s.tokens[i].revokedAt.Some? then
      s.tokens[k].familyId == s.tokens[i].familyId && s.tokens[k].revokedAt.None?
    else
      k == i && (s.tokens[i].expiresAt < s.now || (Usable(s, i) && !TokenInUse(s, drawn)))
  }

  // Reset token row i resets its owner's password now.
  ghost predicate Resets(s: Db, token: Token, i: nat) {
    && i < |s.resets| && s.resets[i].tokenHash == Sha256(token)
    && s.resets[i].usedAt.None? && s.now <= s.resets[i].expiresAt
    && s.resets[i].userId < |s.users|
    && s.users[s.resets[i].userId].deletedAt.None? && s.users[s.resets[i].userId].status == Active
  }

  ghost predicate ResetsUser(s: Db, token: Token, user: nat) {
    exists i: nat :: Resets(s, token, i) && s.resets[i].userId == user
  }

  // The user is there, not deleted, and not the one who asks.
  ghost predicate Deletes(s: Db, id: nat, actingUserId: Option<nat>) {
    actingUserId != Some(id) && id < |s.users| && s.users[id].deletedAt.None?
  }

  ghost predicate Touches(s: Db, call: Call, k: nat)
    requires k < |s.tokens|
  {
    match call
    case Refresh(presented, drawn) =>
      presented.Some?
      && exists i :: 0 <= i < |s.tokens| && s.tokens[i].tokenHash == Sha256(presented.value)
                     && RefreshTouches(s, i, k, drawn)
    case Logout(presented) =>
      presented.Some? && s.tokens[k].tokenHash == Sha256(presented.value) && s.tokens[k].revokedAt.None?
    case ResetPassword(token, _) => s.tokens[k].revokedAt.None? && ResetsUser(s, token, s.tokens[k].userId)
    case SoftDelete(id, acting) =>
      s.tokens[k].revokedAt.None? && s.tokens[k].userId == id && Deletes(s, id, acting)
    case _ => false
  }

  // What a touched row becomes: revoked now, and linked to the row added by a refresh.
  ghost predicate RevokedNow(s: Db, reply: Reply, a: RefreshToken, b: RefreshToken) {
    if reply.Session? then
      b == a.(usedAt := Some(s.now), revokedAt := Some(s.now), replacedByTokenId := Some(|s.tokens|))
    else b == a.(revokedAt := Some(s.now))
  }

  lemma RefreshTouchesExactly(cfg: Settings, s: Db, presented: Token, drawn: Token, k: nat)
    requires Valid(cfg, s) && k < |s.tokens|
    ensures
      var call := Refresh(Some(presented), drawn);
      var (t, reply) := Step(cfg, s, call);
      k < |t.tokens|
      && if Touches(s, call, k) then RevokedNow(s, reply, s.tokens[k], t.tokens[k]) else t.tokens[k] == s.tokens[k]
  {
    var found := FindToken(s.tokens, Sha256(presented));
    if found.Some? {
      var i := found.value;
      assert LinkOk(s.tokens, i);
      RefreshAnswers(cfg, s, presented, drawn, i);
      assert Touches(s, Refresh(Some(presented), drawn), k) <==> RefreshTouches(s, i, k, drawn);
    }
  }

  lemma LogoutTouchesExactly(cfg: Settings, s: Db, presented: Option<Token>, k: nat)
    requires Valid(cfg, s) && k < |s.tokens|
    ensures
      var (t, reply) := Step(cfg, s, Logout(presented));
      && reply == Done && |t.tokens| == |s.tokens|
      && t.tokens[k] == if Touches(s, Logout(presented), k) then s.tokens[k].(revokedAt := Some(s.now)) else s.tokens[k]
  {
  }

  lemma ResetsOneUser(s: Db, token: Token, i: nat, user: nat)
    requires ResetsOk(s.resets) && i < |s.resets| && s.resets[i].tokenHash == Sha256(token)
    ensures ResetsUser(s, token, user) <==> Resets(s, token, i) && s.resets[i].userId == user
  {
    if ResetsUser(s, token, user) {
      var j: nat :| Resets(s, token, j) && s.resets[j].userId == user;
      assert j == i;
    }
  }

  lemma ResetTouchesExactly(cfg: Settings, s: Db, token: Token, newPassword: string, k: nat)
    requires Valid(cfg, s) && k < |s.tokens|
    ensures
      var call := ResetPassword(token, newPassword);
      var t := Step(cfg, s, call).0;
      && |t.tokens| == |s.tokens|
      && t.tokens[k] == if Touches(s, call, k) then s.tokens[k].(revokedAt := Some(s.now)) else s.tokens[k]
  {
    var found := FindReset(s.resets, Sha256(token));
    if found.Some? { ResetsOneUser(s, token, found.value, s.tokens[k].userId); }
  }

  /**
   The only calls that can change a row of the refresh-token table, and how: a token of another family, another user's
   reset or deletion, a login, anything else leaves it as it is.
   */
  lemma RowTouchedExactly(cfg: Settings, s: Db, call: Call, k: nat)
    requires Valid(cfg, s) && k < |s.tokens|
    ensures
      var (t, reply) := Step(cfg, s, call);
      && k < |t.tokens|
      && (t.tokens[k] != s.tokens[k] <==> Touches(s, call, k))
      && (Touches(s, call, k) ==> RevokedNow(s, reply, s.tokens[k], t.tokens[k]))
  {
    assert LinkOk(s.tokens, k);
    match call
    case Refresh(presented, drawn) =>
      if presented.Some? {
        RefreshTouchesExactly(cfg, s, presented.value, drawn, k);
        TouchedIsUnrevoked(cfg, s, call, k);
      }
    case Logout(presented) => LogoutTouchesExactly(cfg, s, presented, k);
    case ResetPassword(token, newPassword) => ResetTouchesExactly(cfg, s, token, newPassword, k);
    case _ =>
  }

  lemma TouchedIsUnrevoked(cfg: Settings, s: Db, call: Call, k: nat)
    requires Valid(cfg, s) && k < |s.tokens|
    ensures Touches(s, call, k) ==> s.tokens[k].revokedAt.None?
  {
  }

  /** Presenting a token leaves every row of the other families alone: the user's other devices stay signed in. */
  lemma RefreshLeavesOtherFamilies(cfg: Settings, s: Db, presented: Token, drawn: Token, i: nat, k: nat)
    requires Valid(cfg, s) && i < |s.tokens| && s.tokens[i].tokenHash == Sha256(presented)
    requires k < |s.tokens| && s.tokens[k].familyId != s.tokens[i].familyId
    ensures
      var t := Step(cfg, s, Refresh(Some(presented), drawn)).0;
      k < |t.tokens| && t.tokens[k] == s.tokens[k] && t.users == s.users && t.resets == s.resets && t.now == s.now
  {
    RowTouchedExactly(cfg, s, Refresh(Some(presented), drawn), k);
  }

  /******* New rows and the clock *******/

  /** A row is added exactly with a session: for its user and token, living refreshExpiresInMs from now. */
  lemma SessionAddsRow(cfg: Settings, s: Db, call: Call)
    requires Valid(cfg, s)
    ensures
      var (t, reply) := Step(cfg, s, call);
      if reply.Session? then
        && |t.tokens| == |s.tokens| + 1
        && t.tokens[|s.tokens|] == RefreshToken(
             Sha256(reply.refreshToken), reply.userId, t.tokens[|s.tokens|].familyId,
             s.now + cfg.refreshExpiresInMs, s.now, None, None, None)
        && !TokenInUse(s, reply.refreshToken)
      else |t.tokens| == |s.tokens|
  {
  }

  /** A refresh continues the presented row's family; any other session opens a family no row belongs to. */
  lemma SessionFamily(cfg: Settings, s: Db, call: Call)
    requires Valid(cfg, s) && Step(cfg, s, call).1.Session?
    ensures
      var t := Step(cfg, s, call).0;
      && |t.tokens| == |s.tokens| + 1
      && if call.Refresh? then
           call.presented.Some?
           && exists i :: 0 <= i < |s.tokens| && s.tokens[i].tokenHash == Sha256(call.presented.value)
                          && s.tokens[i].familyId == t.tokens[|s.tokens|].familyId
         else forall i | 0 <= i < |s.tokens| :: s.tokens[i].familyId != t.tokens[|s.tokens|].familyId
  {
  }

  /** Only waiting takes time. */
  lemma ClockAfter(cfg: Settings, s: Db, call: Call)
    ensures Step(cfg, s, call).0.now == s.now + if call.Wait? then call.ms else 0
  {
  }

  /******* Accounts *******/

  ghost predicate EmailInUse(s: Db, email: string) {
    exists u :: 0 <= u < |s.users| && s.users[u].deletedAt.None? && s.users[u].email == email
  }

  // The credentials of live user u
  ghost predicate Credentials(s: Db, u: nat, email: string, password: string) {
    && u < |s.users| && s.users[u].deletedAt.None? && s.users[u].email == email
    && s.users[u].passwordHash == Argon2(password)
  }

  /** Every answer to a login, and when it is given. */
  lemma LoginAnswers(cfg: Settings, s: Db, email: string, password: string, drawn: Token)
    requires Valid(cfg, s)
    ensures
      var reply := Step(cfg, s, Login(email, password, drawn)).1;
      && (forall u: nat :: reply == Session(u, drawn) <==>
            Credentials(s, u, email, password) && s.users[u].status == Active && !TokenInUse(s, drawn))
      && (reply == Rejected(InvalidCredentials) <==> forall u: nat :: !Credentials(s, u, email, password))
      && (reply == Rejected(AccountNotActive) <==>
            exists u: nat :: Credentials(s, u, email, password) && s.users[u].status != Active)
      && (reply == Rejected(UniqueViolation) <==>
            TokenInUse(s, drawn) && exists u: nat :: Credentials(s, u, email, password) && s.users[u].status == Active)
  {
    var found := FindByEmail(s.users, email);
    if found.Some? && s.users[found.value].passwordHash == Argon2(password) {
      assert Credentials(s, found.value, email, password);
    }
    forall u: nat | Credentials(s, u, email, password) ensures found == Some(u) {}
  }

  /** Every answer to a registration, and when it is given. */
  lemma RegisterAnswers(cfg: Settings, s: Db, email: string, password: string, rolesExist: bool, drawn: Token)
    requires Valid(cfg, s)
    ensures
      var reply := Step(cfg, s, Register(email, password, rolesExist, drawn)).1;
      && (reply == Rejected(EmailTaken) <==> EmailInUse(s, email))
      && (reply == Rejected(RoleMissing) <==> !EmailInUse(s, email) && !rolesExist)
      && (reply == Rejected(UniqueViolation) <==> !EmailInUse(s, email) && rolesExist && TokenInUse(s, drawn))
      && (reply == Session(|s.users|, drawn) <==> !EmailInUse(s, email) && rolesExist && !TokenInUse(s, drawn))
  {
  }

  /** Every answer of the calls that manage accounts, and when it is given. */
  lemma AccountAnswers(cfg: Settings, s: Db, call: Call)
    requires Valid(cfg, s)
    ensures
      var reply := Step(cfg, s, call).1;
      match call
      case CreateUser(email, _, rolesExist) =>
        && (reply == Rejected(EmailTaken) <==> EmailInUse(s, email))
        && (reply == Rejected(RoleMissing) <==> !EmailInUse(s, email) && !rolesExist)
        && (reply == Done <==> !EmailInUse(s, email) && rolesExist)
      case UpdateUser(id, status, acting) =>
        && (reply == Rejected(OwnStatus) <==> acting == Some(id) && status.Some?)
        && (reply == Done <==> !(acting == Some(id) && status.Some?) && id < |s.users| && s.users[id].deletedAt.None?)
        && (reply.Rejected? ==> reply.reason == OwnStatus || reply.reason == UserNotFound)
      case SoftDelete(id, acting) =>
        && (reply == Rejected(OwnAccount) <==> acting == Some(id))
        && (reply == Done <==> Deletes(s, id, acting))
        && (reply.Rejected? ==> reply.reason == OwnAccount || reply.reason == UserNotFound)
      case _ => true
  {
  }

  // The call creates an account.
  ghost predicate Creates(s: Db, call: Call) {
    (call.Register? || call.CreateUser?) && call.rolesExist && !EmailInUse(s, call.email)
  }

  // What a call makes of user row u
  ghost function UserAfter(s: Db, call: Call, u: nat): User
    requires u < |s.users|
  {
    match call
    case ResetPassword(token, newPassword) =>
      if ResetsUser(s, token, u) then s.users[u].(passwordHash := Argon2(newPassword)) else s.users[u]
    case UpdateUser(id, status, acting) =>
      if id == u && status.Some? && acting != Some(id) && s.users[u].deletedAt.None?
      then s.users[u].(status := status.value) else s.users[u]
    case SoftDelete(id, acting) =>
      if id == u && Deletes(s, id, acting) then s.users[u].(deletedAt := Some(s.now)) else s.users[u]
    case _ => s.users[u]
  }

  /** A reset writes the password hash, an update the status, a deletion its time; each of its own user only. */
  lemma UserRowAfter(cfg: Settings, s: Db, call: Call, u: nat)
    requires Valid(cfg, s) && u < |s.users|
    ensures
      var t := Step(cfg, s, call).0;
      u < |t.users| && t.users[u] == UserAfter(s, call, u)
  {
    if call.ResetPassword? {
      var found := FindReset(s.resets, Sha256(call.token));
      if found.Some? { ResetsOneUser(s, call.token, found.value, u); }
    }
  }

  /** An account is added exactly by a call that creates one, active and with the given password. */
  lemma UserAdded(cfg: Settings, s: Db, call: Call)
    ensures
      var t := Step(cfg, s, call).0;
      if Creates(s, call) then
        |t.users| == |s.users| + 1 && t.users[|s.users|] == User(call.email, Argon2(call.password), Active, None)
      else |t.users| == |s.users|
  {
  }

  /******* Reset tokens *******/

  /** A password is reset exactly with an unspent, unexpired token of a live, active user. */
  lemma ResetAnswers(cfg: Settings, s: Db, token: Token, newPassword: string)
    requires Valid(cfg, s)
    ensures
      var reply := Step(cfg, s, ResetPassword(token, newPassword)).1;
      && (reply == Done <==> exists i: nat :: Resets(s, token, i))
      && (reply != Done ==> reply == Rejected(InvalidResetToken))
  {
    var found := FindReset(s.resets, Sha256(token));
    if i: nat :| Resets(s, token, i) { assert found == Some(i); }
    if found.Some? && Step(cfg, s, ResetPassword(token, newPassword)).1 == Done {
      assert Resets(s, token, found.value);
    }
  }

  // Live, active user u asks by email for a reset token.
  ghost predicate MayAsk(s: Db, email: string, u: nat) {
    u < |s.users| && s.users[u].deletedAt.None? && s.users[u].email == email && s.users[u].status == Active
  }

  ghost predicate ResetTokenInUse(s: Db, token: Token) {
    exists k :: 0 <= k < |s.resets| && s.resets[k].tokenHash == Sha256(token)
  }

  /** A reset token is issued exactly to a live, active user who asks, living resetTokenTtlMs from now. */
  lemma ResetTokenIssued(cfg: Settings, s: Db, call: Call)
    requires Valid(cfg, s)
    ensures
      var (t, reply) := Step(cfg, s, call);
      && (|t.resets| == |s.resets| || |t.resets| == |s.resets| + 1)
      && (|t.resets| > |s.resets| <==>
            call.ForgotPassword? && !ResetTokenInUse(s, call.drawn) && exists u: nat :: MayAsk(s, call.email, u))
      && (|t.resets| > |s.resets| ==>
            forall u: nat | MayAsk(s, call.email, u) ::
              t.resets[|s.resets|] == ResetToken(Sha256(call.drawn), u, s.now + cfg.resetTokenTtlMs, None))
      && (call.ForgotPassword? ==>
            reply == if ResetTokenInUse(s, call.drawn) && exists u: nat :: MayAsk(s, call.email, u)
                     then Rejected(UniqueViolation) else Done)
  {
    if call.ForgotPassword? {
      var found := FindByEmail(s.users, call.email);
      forall u: nat | MayAsk(s, call.email, u) ensures found == Some(u) {}
      if found.Some? && s.users[found.value].status == Active {
        assert MayAsk(s, call.email, found.value);
        var spent := SpendResets(s.resets, found.value, s.now);
        assert |spent| == |s.resets|;
        assert forall k | 0 <= k < |s.resets| :: spent[k].tokenHash == s.resets[k].tokenHash;
      }
    }
  }

  // The call spends reset token row i: it is used, replaced, or its owner is deleted.
  ghost predicate Spends(s: Db, call: Call, i: nat) {
    && i < |s.resets| && s.resets[i].usedAt.None?
    && match call
       case ForgotPassword(email, _) => MayAsk(s, email, s.resets[i].userId)
       case ResetPassword(token, _) => Resets(s, token, i)
       case SoftDelete(id, acting) => s.resets[i].userId == id && Deletes(s, id, acting)
       case _ => false
  }

  /** The only calls that change a reset token row, and how. */
  lemma ResetRowAfter(cfg: Settings, s: Db, call: Call, i: nat)
    requires Valid(cfg, s) && i < |s.resets|
    ensures
      var t := Step(cfg, s, call).0;
      i < |t.resets|
      && t.resets[i] == if Spends(s, call, i) then s.resets[i].(usedAt := Some(s.now)) else s.resets[i]
  {
    if call.ForgotPassword? {
      var found := FindByEmail(s.users, call.email);
      forall u: nat | MayAsk(s, call.email, u) ensures found == Some(u) {}
    }
  }

  /******* Over runs *******/

  // No call of the run spends reset token row i.
  ghost predicate NeverSpent(cfg: Settings, s: Db, calls: seq<Call>, i: nat)
    decreases |calls|
  {
    |calls| > 0 ==>
      var before := calls[..|calls| - 1];
      NeverSpent(cfg, s, before, i) && !Spends(Run(cfg, s, before), calls[|calls| - 1], i)
  }

  lemma {:induction false} ResetRowOverRun(cfg: Settings, s: Db, calls: seq<Call>, i: nat)
    requires Valid(cfg, s) && i < |s.resets| && s.resets[i].usedAt.None?
    ensures
      var t := Run(cfg, s, calls);
      && i < |t.resets|
      && t.resets[i].(usedAt := None) == s.resets[i]
      && (t.resets[i].usedAt.None? <==> NeverSpent(cfg, s, calls, i))
    decreases |calls|
  {
    if |calls| > 0 {
      var n := |calls| - 1;
      var before := calls[..n];
      ResetRowOverRun(cfg, s, before, i);
      RunKeepsValid(cfg, s, before);
      ResetRowAfter(cfg, Run(cfg, s, before), calls[n], i);
    }
  }

  /**
   A reset token works from its issue until resetTokenTtlMs later, exactly as long as it is not used, replaced by
   another one, or revoked with its user's deletion, and while the user is active.
   */
  lemma ResetTokenWorksExactly(
    cfg: Settings, s: Db, email: string, drawn: Token, u: nat, calls: seq<Call>, newPassword: string)
    requires Valid(cfg, s) && MayAsk(s, email, u) && !ResetTokenInUse(s, drawn)
    ensures
      var issued := Step(cfg, s, ForgotPassword(email, drawn)).0;
      var t := Run(cfg, issued, calls);
      Step(cfg, t, ResetPassword(drawn, newPassword)).1 == Done <==>
      && NeverSpent(cfg, issued, calls, |s.resets|) && t.now <= s.now + cfg.resetTokenTtlMs
      && u < |t.users| && t.users[u].deletedAt.None? && t.users[u].status == Active
  {
    var call := ForgotPassword(email, drawn);
    var issued := Step(cfg, s, call).0;
    ResetTokenIssued(cfg, s, call);
    StepKeepsValid(cfg, s, call);
    ResetRowOverRun(cfg, issued, calls, |s.resets|);
    RunKeepsValid(cfg, issued, calls);
    ResetWorksNow(cfg, Run(cfg, issued, calls), drawn, newPassword, |s.resets|);
  }

  lemma ResetWorksNow(cfg: Settings, s: Db, token: Token, newPassword: string, i: nat)
    requires Valid(cfg, s) && i < |s.resets| && s.resets[i].tokenHash == Sha256(token)
    ensures Step(cfg, s, ResetPassword(token, newPassword)).1 == Done <==> Resets(s, token, i)
  {
    ResetAnswers(cfg, s, token, newPassword);
    forall j: nat | Resets(s, token, j) ensures j == i {}
  }

  ghost predicate TouchesRow(s: Db, call: Call, i: nat) {
    i < |s.tokens| && Touches(s, call, i)
  }

  // No call of the run touches refresh token row i.
  ghost predicate NeverTouched(cfg: Settings, s: Db, calls: seq<Call>, i: nat)
    decreases |calls|
  {
    |calls| > 0 ==>
      var before := calls[..|calls| - 1];
      NeverTouched(cfg, s, before, i) && !TouchesRow(Run(cfg, s, before), calls[|calls| - 1], i)
  }

  lemma {:induction false} TokenRowOverRun(cfg: Settings, s: Db, calls: seq<Call>, i: nat)
    requires Valid(cfg, s) && i < |s.tokens| && s.tokens[i].revokedAt.None?
    ensures
      var t := Run(cfg, s, calls);
      && i < |t.tokens| && RowEvolves(s.tokens[i], t.tokens[i])
      && (t.tokens[i].revokedAt.None? <==> NeverTouched(cfg, s, calls, i))
    decreases |calls|
  {
    if |calls| > 0 {
      var n := |calls| - 1;
      var before := calls[..n];
      TokenRowOverRun(cfg, s, before, i);
      RunKeepsValid(cfg, s, before);
      TokenRowStep(cfg, Run(cfg, s, before), calls[n], i);
    }
  }

  lemma TokenRowStep(cfg: Settings, s: Db, call: Call, i: nat)
    requires Valid(cfg, s) && i < |s.tokens|
    ensures
      var t := Step(cfg, s, call).0;
      && i < |t.tokens| && RowEvolves(s.tokens[i], t.tokens[i])
      && (t.tokens[i].revokedAt.None? <==> s.tokens[i].revokedAt.None? && !TouchesRow(s, call, i))
  {
    RowTouchedExactly(cfg, s, call, i);
    TouchedIsUnrevoked(cfg, s, call, i);
  }

  /**
   A session's refresh token works from its issue until refreshExpiresInMs later, exactly as long as no call touches its
   row, and while its user is live and active.
   */
  lemma SessionWorksExactly(cfg: Settings, s: Db, call: Call, u: nat, token: Token, calls: seq<Call>, drawn: Token)
    requires Valid(cfg, s) && Step(cfg, s, call).1 == Session(u, token)
    ensures
      var after := Step(cfg, s, call).0;
      var t := Run(cfg, after, calls);
      Step(cfg, t, Refresh(Some(token), drawn)).1 == Session(u, drawn) <==>
      && NeverTouched(cfg, after, calls, |s.tokens|) && t.now <= s.now + cfg.refreshExpiresInMs
      && u < |t.users| && t.users[u].deletedAt.None? && t.users[u].status == Active && !TokenInUse(t, drawn)
  {
    var after := Step(cfg, s, call).0;
    SessionAddsRow(cfg, s, call);
    ClockAfter(cfg, s, call);
    StepKeepsValid(cfg, s, call);
    TokenRowOverRun(cfg, after, calls, |s.tokens|);
    RunKeepsValid(cfg, after, calls);
    var t := Run(cfg, after, calls);
    RefreshAnswers(cfg, t, token, drawn, |s.tokens|);
    assert LinkOk(t.tokens, |s.tokens|);
  }

  // No call of the run resets user u's password.
  ghost predicate NeverReset(cfg: Settings, s: Db, calls: seq<Call>, u: nat)
    decreases |calls|
  {
    |calls| > 0 ==>
      var before, last := calls[..|calls| - 1], calls[|calls| - 1];
      NeverReset(cfg, s, before, u) && !(last.ResetPassword? && ResetsUser(Run(cfg, s, before), last.token, u))
  }

  lemma {:induction false} PasswordStands(cfg: Settings, s: Db, calls: seq<Call>, u: nat)
    requires Valid(cfg, s) && u < |s.users| && NeverReset(cfg, s, calls, u)
    ensures
      var t := Run(cfg, s, calls);
      u < |t.users| && t.users[u].email == s.users[u].email && t.users[u].passwordHash == s.users[u].passwordHash
    decreases |calls|
  {
    if |calls| > 0 {
      var n := |calls| - 1;
      var before := calls[..n];
      PasswordStands(cfg, s, before, u);
      RunKeepsValid(cfg, s, before);
      UserRowAfter(cfg, Run(cfg, s, before), calls[n], u);
    }
  }

  /** A new account logs in with its password and no other until it is reset, and while the account is live and active. */
  lemma CreatedAccountLogsIn(cfg: Settings, s: Db, call: Call, calls: seq<Call>, password: string, drawn: Token)
    requires Valid(cfg, s) && Creates(s, call) && NeverReset(cfg, Step(cfg, s, call).0, calls, |s.users|)
    ensures
      var t := Run(cfg, Step(cfg, s, call).0, calls);
      Step(cfg, t, Login(call.email, password, drawn)).1 == Session(|s.users|, drawn) <==>
      && password == call.password && |s.users| < |t.users| && t.users[|s.users|].deletedAt.None?
      && t.users[|s.users|].status == Active && !TokenInUse(t, drawn)
  {
    var created := Step(cfg, s, call).0;
    UserAdded(cfg, s, call);
    StepKeepsValid(cfg, s, call);
    PasswordStands(cfg, created, calls, |s.users|);
    RunKeepsValid(cfg, created, calls);
    LoginAnswers(cfg, Run(cfg, created, calls), call.email, password, drawn);
  }
}
