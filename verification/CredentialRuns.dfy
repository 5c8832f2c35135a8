/** Run theorems that relate several kinds of call: reset, soft-delete, and which sessions can come back. */
module CredentialRuns {
  import opened Common
  import opened Sessions
  import opened SessionInvariants
  import opened SessionRuns

  /******* Where families come from *******/

  predicate Opens(cfg: Settings, s: Db, call: Call, user: nat) {
    (call.Register? || call.Login?) && Step(cfg, s, call).1 == Session(user, call.drawn)
  }

  lemma OpeningCall(cfg: Settings, s: Db, call: Call)
    requires s.families < Step(cfg, s, call).0.families
    ensures
      var t := Step(cfg, s, call).0;
      && |t.tokens| == |s.tokens| + 1 && t.families == s.families + 1
      && t.tokens[|s.tokens|].familyId == s.families
      && Opens(cfg, s, call, t.tokens[|s.tokens|].userId)
      && (t.tokens[|s.tokens|].userId < |s.users| ==> call.Login?)
  {
  }

  // A row of a family the run opened belongs to the user one of the run's calls opened it for.
  lemma {:induction false} FamilyOrigin(cfg: Settings, s: Db, calls: seq<Call>, i: nat) returns (m: nat)
    requires Valid(cfg, s) && i < |Run(cfg, s, calls).tokens|
    requires s.families <= Run(cfg, s, calls).tokens[i].familyId
    ensures m < |calls|
    ensures Run(cfg, s, calls[..m]).families == Run(cfg, s, calls).tokens[i].familyId
    ensures Opens(cfg, Run(cfg, s, calls[..m]), calls[m], Run(cfg, s, calls).tokens[i].userId)
    ensures Run(cfg, s, calls).tokens[i].userId < |Run(cfg, s, calls[..m]).users| ==> calls[m].Login?
    decreases |calls|
  {
    RunKeepsValid(cfg, s, calls);
    if |calls| == 0 { assert false; }
    var n := |calls| - 1;
    var init := calls[..n];
    var before, after := Run(cfg, s, init), Run(cfg, s, calls);
    RunKeepsValid(cfg, s, init);
    StepShape(cfg, before, calls[n]);
    if after.tokens[i].familyId < before.families {
      var k := OldRowOf(cfg, before, calls[n], i);
      m := FamilyOrigin(cfg, s, init, k);
      assert init[..m] == calls[..m];
    } else {
      m := n;
      OpeningCall(cfg, before, calls[n]);
      assert i == |before.tokens|;
    }
  }

  // A row in a family that already existed shares its owner with a row that already existed.
  lemma OldRowOf(cfg: Settings, s: Db, call: Call, i: nat) returns (k: nat)
    requires Valid(cfg, s) && i < |Step(cfg, s, call).0.tokens|
    requires Step(cfg, s, call).0.tokens[i].familyId < s.families
    ensures k < |s.tokens| && s.tokens[k].familyId == Step(cfg, s, call).0.tokens[i].familyId
    ensures s.tokens[k].userId == Step(cfg, s, call).0.tokens[i].userId
  {
    StepShape(cfg, s, call);
    if i < |s.tokens| {
      k := i;
      StepEvolves(cfg, s, call);
      assert RowEvolves(s.tokens[i], Step(cfg, s, call).0.tokens[i]);
    } else {
      RefreshSpendsLiveRow(cfg, s, call);
      k := FindToken(s.tokens, Sha256(call.presented.value)).value;
    }
  }

  /******* Password reset *******/

  ghost predicate AllRevoked(s: Db, user: nat) {
    forall i | 0 <= i < |s.tokens| && s.tokens[i].userId == user :: s.tokens[i].revokedAt.Some?
  }

  // The user a reset token would reset, if the call succeeds.
  function ResetUser(s: Db, token: Token): Option<nat> {
    if ResetPasswordStep(s, token, "").1 == Done then Some(s.resets[FindReset(s.resets, Sha256(token)).value].userId)
    else None
  }

  lemma ResetRevokesEverySession(cfg: Settings, s: Db, token: Token, newPassword: string, user: nat)
    requires Valid(cfg, s) && ResetUser(s, token) == Some(user)
    ensures
      var t := ResetPasswordStep(s, token, newPassword).0;
      && t.families == s.families && user < |t.users| && t.users[user].passwordHash == Argon2(newPassword)
      && AllRevoked(t, user)
  {
  }

  lemma OwnerOfFamilyIsFixed(cfg: Settings, s: Db, t: Db, f: nat, user: nat, i: nat)
    requires Valid(cfg, t) && Evolves(s, t)
    requires i < |t.tokens| && t.tokens[i].familyId == f && t.tokens[i].userId == user
    requires AllRevoked(s, user)
    ensures Barred(s, f)
  {
    forall k | 0 <= k < |s.tokens| && s.tokens[k].familyId == f ensures s.tokens[k].userId == user {
      assert RowEvolves(s.tokens[k], t.tokens[k]);
    }
  }

  /**
   Once none of a user's rows is live, every later refresh for that user belongs to a family that a later
   login of that user opened.
   */
  lemma RefreshNeedsLaterLogin(cfg: Settings, s: Db, calls: seq<Call>, call: Call, user: nat) returns (m: nat)
    requires Valid(cfg, s) && user < |s.users|
    requires AllRevoked(s, user)
    requires call.Refresh? && Step(cfg, Run(cfg, s, calls), call).1 == Session(user, call.drawn)
    ensures m < |calls| && calls[m].Login? && Opens(cfg, Run(cfg, s, calls[..m]), calls[m], user)
    ensures Some(Run(cfg, s, calls[..m]).families) == Refreshed(cfg, Run(cfg, s, calls), call)
  {
    var t := Run(cfg, s, calls);
    RunKeepsValid(cfg, s, calls);
    assert calls[..|calls|] == calls && calls[..0] == [];
    RunEvolves(cfg, s, calls, 0, |calls|);
    RefreshSpendsLiveRow(cfg, t, call);
    var i := FindToken(t.tokens, Sha256(call.presented.value)).value;
    var f := t.tokens[i].familyId;
    OwnerOfFamilyIsFixed(cfg, s, t, f, user, i);
    FamilyIsNewer(cfg, s, t, f);
    m := FamilyOrigin(cfg, s, calls, i);
    RunEvolves(cfg, s, calls, 0, m);
  }

  lemma FamilyIsNewer(cfg: Settings, s: Db, t: Db, f: nat)
    requires Valid(cfg, s) && Evolves(s, t) && Barred(s, f) && !Barred(t, f)
    ensures s.families <= f
  {
    if f < s.families { BarredForGood(s, t, f); }
  }

  /** After a successful password reset, every later refresh for that user comes from a later login. */
  lemma ResetForcesLogin(
    cfg: Settings, s: Db, token: Token, newPassword: string, calls: seq<Call>, call: Call, user: nat) returns (m: nat)
    requires Valid(cfg, s) && ResetUser(s, token) == Some(user)
    requires call.Refresh?
    requires Step(cfg, Run(cfg, Step(cfg, s, ResetPassword(token, newPassword)).0, calls), call).1
             == Session(user, call.drawn)
    ensures m < |calls| && calls[m].Login?
    ensures Opens(cfg, Run(cfg, Step(cfg, s, ResetPassword(token, newPassword)).0, calls[..m]), calls[m], user)
    ensures Some(Run(cfg, Step(cfg, s, ResetPassword(token, newPassword)).0, calls[..m]).families)
            == Refreshed(cfg, Run(cfg, Step(cfg, s, ResetPassword(token, newPassword)).0, calls), call)
  {
    StepKeepsValid(cfg, s, ResetPassword(token, newPassword));
    ResetRevokesEverySession(cfg, s, token, newPassword, user);
    m := RefreshNeedsLaterLogin(cfg, Step(cfg, s, ResetPassword(token, newPassword)).0, calls, call, user);
  }

  /** After a reset the account opens with the new password and with no other. */
  lemma ResetReplacesPassword(
    cfg: Settings, s: Db, token: Token, newPassword: string, user: nat, password: string, drawn: Token)
    requires Valid(cfg, s) && ResetUser(s, token) == Some(user) && FindToken(s.tokens, Sha256(drawn)).None?
    ensures
      var t := ResetPasswordStep(s, token, newPassword).0;
      LoginStep(cfg, t, s.users[user].email, password, drawn).1 == Session(user, drawn) <==> password == newPassword
  {
    var t := ResetPasswordStep(s, token, newPassword).0;
    ResetPasswordKeepsValid(cfg, s, token, newPassword);
    assert Visible(t.users, user) && t.users[user].email == s.users[user].email;
    assert FindByEmail(t.users, s.users[user].email) == Some(user);
  }

  /******* Soft delete *******/

  lemma DeletedCannotAct(cfg: Settings, s: Db, call: Call, user: nat)
    requires Valid(cfg, s) && user < |s.users| && s.users[user].deletedAt.Some?
    ensures forall token :: Step(cfg, s, call).1 != Session(user, token)
    ensures call.ResetPassword? ==> ResetUser(s, call.token) != Some(user)
  {
  }

  /** After softDelete no later login, refresh or reset succeeds for that user id, in any run. */
  lemma SoftDeleteIsFinal(
    cfg: Settings, s: Db, user: nat, actingUserId: Option<nat>, calls: seq<Call>, call: Call)
    requires Valid(cfg, s) && SoftDeleteStep(s, user, actingUserId).1 == Done
    ensures
      var t := Run(cfg, SoftDeleteStep(s, user, actingUserId).0, calls);
      && (forall token :: Step(cfg, t, call).1 != Session(user, token))
      && (call.ResetPassword? ==> ResetUser(t, call.token) != Some(user))
      && AllRevoked(t, user)
  {
    var d := SoftDeleteStep(s, user, actingUserId).0;
    SoftDeleteKeepsValid(cfg, s, user, actingUserId);
    assert calls[..|calls|] == calls;
    DeletedStays(cfg, d, calls, |calls|, user);
    RunKeepsValid(cfg, d, calls);
    DeletedCannotAct(cfg, Run(cfg, d, calls), call, user);
    DeletedOwnsNothing(cfg, d, calls, user);
  }

  lemma DeletedStays(cfg: Settings, s: Db, calls: seq<Call>, n: nat, user: nat)
    requires Valid(cfg, s) && n <= |calls| && user < |s.users| && s.users[user].deletedAt.Some?
    ensures user < |Run(cfg, s, calls[..n]).users| && Run(cfg, s, calls[..n]).users[user].deletedAt.Some?
  {
    RunEvolves(cfg, s, calls, 0, n);
    assert calls[..0] == [];
    assert UserEvolves(s.users[user], Run(cfg, s, calls[..n]).users[user]);
  }

  // No row is ever added for a deleted user, so all stay revoked.
  lemma {:induction false} DeletedOwnsNothing(cfg: Settings, s: Db, calls: seq<Call>, user: nat)
    requires Valid(cfg, s) && user < |s.users| && s.users[user].deletedAt.Some?
    requires AllRevoked(s, user)
    ensures AllRevoked(Run(cfg, s, calls), user)
    decreases |calls|
  {
    if |calls| > 0 {
      var n := |calls| - 1;
      var t := Run(cfg, s, calls[..n]);
      DeletedOwnsNothing(cfg, s, calls[..n], user);
      RunKeepsValid(cfg, s, calls[..n]);
      DeletedStays(cfg, s, calls, n, user);
      DeletedStep(cfg, t, calls[n], user);
    }
  }

  // A call adds no row for a deleted user ...
  lemma NoRowForDeleted(cfg: Settings, s: Db, call: Call, user: nat, i: nat)
    requires Valid(cfg, s) && user < |s.users| && s.users[user].deletedAt.Some?
    requires |s.tokens| <= i < |Step(cfg, s, call).0.tokens|
    ensures Step(cfg, s, call).0.tokens[i].userId != user
  {
    StepShape(cfg, s, call);
    if Refreshed(cfg, s, call).Some? { RefreshSpendsLiveRow(cfg, s, call); }
    else { OpeningCall(cfg, s, call); }
  }

  // ... and revives none.
  lemma DeletedStep(cfg: Settings, s: Db, call: Call, user: nat)
    requires Valid(cfg, s) && user < |s.users| && s.users[user].deletedAt.Some?
    requires AllRevoked(s, user)
    ensures AllRevoked(Step(cfg, s, call).0, user)
  {
    StepEvolves(cfg, s, call);
    var t := Step(cfg, s, call).0;
    forall i | 0 <= i < |t.tokens| && t.tokens[i].userId == user ensures t.tokens[i].revokedAt.Some? {
      if i < |s.tokens| { assert RowEvolves(s.tokens[i], t.tokens[i]); }
      else { NoRowForDeleted(cfg, s, call, user, i); }
    }
  }

  /******* Reset tokens *******/

  // A user has at most one unspent reset token, and only the last one issued resets.
  ghost predicate OneResetToken(s: Db, token: Token) {
    && (forall i, j | 0 <= i < |s.resets| && 0 <= j < |s.resets| && s.resets[i].userId == s.resets[j].userId
                      && s.resets[i].usedAt.None? && s.resets[j].usedAt.None? :: i == j)
    && (ResetUser(s, token).Some? ==>
          var i := FindReset(s.resets, Sha256(token)).value;
          forall j | i < j < |s.resets| :: s.resets[j].userId != s.resets[i].userId)
  }

  lemma LatestResetTokenOnly(cfg: Settings, s: Db, token: Token)
    requires Valid(cfg, s)
    ensures OneResetToken(s, token)
  {
  }

  /** In a reachable state a user has at most one unspent reset token, and only the last one issued resets. */
  lemma OnlyLatestResetTokenWorks(cfg: Settings, now: int, calls: seq<Call>, token: Token)
    ensures OneResetToken(Run(cfg, Empty(now), calls), token)
  {
    ReachableValid(cfg, now, calls);
    LatestResetTokenOnly(cfg, Run(cfg, Empty(now), calls), token);
  }

  lemma ResetSpendsToken(cfg: Settings, s: Db, call: Call)
    requires call.ResetPassword? && ResetUser(s, call.token).Some?
    ensures TokenSpent(Step(cfg, s, call).0, call.token)
  {
    var i := FindReset(s.resets, Sha256(call.token)).value;
    var row := Step(cfg, s, call).0.resets[i];
    assert row.usedAt.Some? && row.tokenHash == Sha256(call.token);
  }

  ghost predicate TokenSpent(s: Db, token: Token) {
    exists i :: 0 <= i < |s.resets| && s.resets[i].tokenHash == Sha256(token) && s.resets[i].usedAt.Some?
  }

  lemma SpentTokenStaysSpent(cfg: Settings, a: Db, b: Db, token: Token)
    requires Evolves(a, b) && Valid(cfg, b) && TokenSpent(a, token)
    ensures ResetUser(b, token).None?
  {
    var i :| 0 <= i < |a.resets| && a.resets[i].tokenHash == Sha256(token) && a.resets[i].usedAt.Some?;
    assert ResetEvolves(a.resets[i], b.resets[i]);
  }

  /** Over any run, each reset token succeeds at most once. */
  lemma EachResetTokenWorksAtMostOnce(cfg: Settings, s: Db, calls: seq<Call>, j: nat, k: nat, token: Token)
    requires Valid(cfg, s) && j < k < |calls|
    requires calls[j].ResetPassword? && calls[j].token == token
    requires ResetUser(Run(cfg, s, calls[..j]), token).Some?
    ensures ResetUser(Run(cfg, s, calls[..k]), token).None?
  {
    ResetSpendsToken(cfg, Run(cfg, s, calls[..j]), calls[j]);
    LastCall(cfg, s, calls, j);
    RunEvolves(cfg, s, calls, j + 1, k);
    RunKeepsValid(cfg, s, calls[..k]);
    SpentTokenStaysSpent(cfg, Run(cfg, s, calls[..j + 1]), Run(cfg, s, calls[..k]), token);
  }

  /******* Which families can still be refreshed *******/

  // A token no row carries, among those up to m.
  lemma {:induction false} SomeUnseenToken(rows: seq<RefreshToken>) returns (unseen: Token)
    ensures forall i | 0 <= i < |rows| :: rows[i].tokenHash.token < unseen
  {
    if |rows| == 0 { unseen := 0; }
    else {
      var rest := SomeUnseenToken(rows[..|rows| - 1]);
      unseen := if rest <= rows[|rows| - 1].tokenHash.token then rows[|rows| - 1].tokenHash.token + 1 else rest;
    }
  }

  ghost predicate CanComeBack(cfg: Settings, s: Db, f: nat) {
    exists calls, call :: Refreshed(cfg, Run(cfg, s, calls), call) == Some(f)
  }

  /**
   Some run refreshes family f again exactly when f still has an unrevoked, unexpired row
   whose owner is not deleted.
   */
  lemma ComesBackExactly(cfg: Settings, s: Db, f: nat)
    requires Valid(cfg, s) && f < s.families
    ensures CanComeBack(cfg, s, f) <==>
            exists i :: 0 <= i < |s.tokens| && s.tokens[i].familyId == f && s.tokens[i].revokedAt.None?
                        && s.now <= s.tokens[i].expiresAt && Visible(s.users, s.tokens[i].userId)
  {
    if CanComeBack(cfg, s, f) {
      var calls, call :| Refreshed(cfg, Run(cfg, s, calls), call) == Some(f);
      var _ := LiveRowNeeded(cfg, s, calls, call, f);
    }
    if i :| 0 <= i < |s.tokens| && s.tokens[i].familyId == f && s.tokens[i].revokedAt.None?
            && s.now <= s.tokens[i].expiresAt && Visible(s.users, s.tokens[i].userId) {
      LiveRowSuffices(cfg, s, i);
    }
  }

  lemma LiveRowNeeded(cfg: Settings, s: Db, calls: seq<Call>, call: Call, f: nat) returns (i: nat)
    requires Valid(cfg, s) && f < s.families && Refreshed(cfg, Run(cfg, s, calls), call) == Some(f)
    ensures i < |s.tokens| && s.tokens[i].familyId == f && s.tokens[i].revokedAt.None?
    ensures s.now <= s.tokens[i].expiresAt && Visible(s.users, s.tokens[i].userId)
  {
    var t := Run(cfg, s, calls);
    assert calls[..|calls|] == calls && calls[..0] == [];
    RunEvolves(cfg, s, calls, 0, |calls|);
    RunKeepsValid(cfg, s, calls);
    RefreshSpendsLiveRow(cfg, t, call);
    if Barred(s, f) { BarredForGood(s, t, f); }
    i :| 0 <= i < |s.tokens| && s.tokens[i].familyId == f && s.tokens[i].revokedAt.None?
         && s.now <= s.tokens[i].expiresAt;
    var j := FindToken(t.tokens, Sha256(call.presented.value)).value;
    SameOwner(cfg, s, t, i, j);
    assert UserEvolves(s.users[s.tokens[i].userId], t.users[s.tokens[i].userId]);
  }

  lemma SameOwner(cfg: Settings, s: Db, t: Db, i: nat, j: nat)
    requires Evolves(s, t) && Valid(cfg, t) && i < |s.tokens| && j < |t.tokens|
    requires s.tokens[i].familyId == t.tokens[j].familyId
    ensures s.tokens[i].userId == t.tokens[j].userId
  {
    assert RowEvolves(s.tokens[i], t.tokens[i]);
  }

  lemma LiveRowSuffices(cfg: Settings, s: Db, i: nat)
    requires Valid(cfg, s) && i < |s.tokens| && s.tokens[i].revokedAt.None? && s.now <= s.tokens[i].expiresAt
    requires Visible(s.users, s.tokens[i].userId)
    ensures CanComeBack(cfg, s, s.tokens[i].familyId)
  {
    assert LinkOk(s.tokens, i);
    var activate := UpdateUser(s.tokens[i].userId, Some(Active), None);
    var unseen := SomeUnseenToken(s.tokens);
    var call := Refresh(Some(s.tokens[i].tokenHash.token), unseen);
    assert [activate][..0] == [];
    assert Run(cfg, s, []) == s;
    var t := Run(cfg, s, [activate]);
    assert t == Step(cfg, s, activate).0;
    assert FindToken(t.tokens, Sha256(call.presented.value)) == Some(i);
    assert FindToken(t.tokens, Sha256(unseen)).None?;
    assert Refreshed(cfg, Run(cfg, s, [activate]), call) == Some(s.tokens[i].familyId);
  }
}
