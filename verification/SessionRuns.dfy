/** Theorems about whole runs of the credential service. */
module SessionRuns {
  import opened Common
  import opened Sessions
  import opened SessionInvariants

  // The user whose session a refresh call renews, and its family.
  function Refreshed(cfg: Settings, db: Db, call: Call): Option<nat> {
    if call.Refresh? && Step(cfg, db, call).1.Session? then
      Some(db.tokens[FindToken(db.tokens, Sha256(call.presented.value)).value].familyId)
    else None
  }

  // Nothing in family f can be presented any more: every row is revoked or has expired.
  ghost predicate Barred(db: Db, f: nat) {
    forall i | 0 <= i < |db.tokens| && db.tokens[i].familyId == f && db.tokens[i].revokedAt.None? ::
      db.tokens[i].expiresAt < db.now
  }

  /******* The tables only move forward *******/

  ghost predicate RowEvolves(a: RefreshToken, b: RefreshToken) {
    && b.tokenHash == a.tokenHash && b.userId == a.userId && b.familyId == a.familyId
    && b.expiresAt == a.expiresAt && b.createdAt == a.createdAt
    && (a.revokedAt.Some? ==> b == a)
  }

  ghost predicate ResetEvolves(a: ResetToken, b: ResetToken) {
    && b.tokenHash == a.tokenHash && b.userId == a.userId && b.expiresAt == a.expiresAt
    && (a.usedAt.Some? ==> b == a)
  }

  ghost predicate UserEvolves(a: User, b: User) {
    b.email == a.email && (a.deletedAt.Some? ==> b.deletedAt == a.deletedAt)
  }

  // A row can be added to a new family, or to one that can still be refreshed.
  ghost predicate MayJoin(s: Db, row: RefreshToken) {
    s.families <= row.familyId || !Barred(s, row.familyId)
  }

  ghost predicate TokensEvolve(s: Db, t: Db) {
    && s.now <= t.now && s.families <= t.families
    && |s.tokens| <= |t.tokens|
    && (forall i {:trigger RowEvolves(s.tokens[i], t.tokens[i])} | 0 <= i < |s.tokens| ::
          RowEvolves(s.tokens[i], t.tokens[i]))
    && (forall i {:trigger MayJoin(s, t.tokens[i])} | |s.tokens| <= i < |t.tokens| :: MayJoin(s, t.tokens[i]))
  }

  ghost predicate Evolves(s: Db, t: Db) {
    && TokensEvolve(s, t)
    && |s.users| <= |t.users|
    && (forall u {:trigger UserEvolves(s.users[u], t.users[u])} | 0 <= u < |s.users| ::
          UserEvolves(s.users[u], t.users[u]))
    && |s.resets| <= |t.resets|
    && (forall i {:trigger ResetEvolves(s.resets[i], t.resets[i])} | 0 <= i < |s.resets| ::
          ResetEvolves(s.resets[i], t.resets[i]))
  }

  ghost predicate FamiliesDrawn(s: Db) {
    forall i | 0 <= i < |s.tokens| :: s.tokens[i].familyId < s.families
  }

  lemma NewRowMayJoin(s: Db, t: Db, i: nat)
    requires TokensEvolve(s, t) && |s.tokens| <= i < |t.tokens|
    ensures MayJoin(s, t.tokens[i])
  {
    assert MayJoin(s, t.tokens[i]);
  }

  lemma BarredForGood(s: Db, t: Db, f: nat)
    requires FamiliesDrawn(s) && TokensEvolve(s, t) && Barred(s, f) && f < s.families
    ensures Barred(t, f)
  {
    forall i | 0 <= i < |t.tokens| && t.tokens[i].familyId == f && t.tokens[i].revokedAt.None?
      ensures t.tokens[i].expiresAt < t.now
    {
      if i < |s.tokens| { assert RowEvolves(s.tokens[i], t.tokens[i]); } else { NewRowMayJoin(s, t, i); }
    }
  }

  lemma EvolvesTransitive(s: Db, t: Db, u: Db)
    requires FamiliesDrawn(s) && Evolves(s, t) && Evolves(t, u)
    ensures Evolves(s, u)
  {
    forall i | 0 <= i < |s.tokens| ensures RowEvolves(s.tokens[i], u.tokens[i]) {
      assert RowEvolves(s.tokens[i], t.tokens[i]) && RowEvolves(t.tokens[i], u.tokens[i]);
    }
    forall i | 0 <= i < |s.resets| ensures ResetEvolves(s.resets[i], u.resets[i]) {
      assert ResetEvolves(s.resets[i], t.resets[i]) && ResetEvolves(t.resets[i], u.resets[i]);
    }
    forall i | 0 <= i < |s.users| ensures UserEvolves(s.users[i], u.users[i]) {
      assert UserEvolves(s.users[i], t.users[i]) && UserEvolves(t.users[i], u.users[i]);
    }
    forall i | |s.tokens| <= i < |u.tokens| ensures MayJoin(s, u.tokens[i]) {
      if i < |t.tokens| { assert MayJoin(s, t.tokens[i]) && RowEvolves(t.tokens[i], u.tokens[i]); }
      else {
        var f := u.tokens[i].familyId;
        assert MayJoin(t, u.tokens[i]);
        if f < s.families && Barred(s, f) { BarredForGood(s, t, f); }
      }
    }
  }

  lemma EvolvesReflexive(s: Db)
    ensures Evolves(s, s)
  {
  }

  lemma RefreshEvolves(cfg: Settings, s: Db, presented: Token, drawn: Token)
    requires Valid(cfg, s)
    ensures Evolves(s, RefreshTransaction(cfg, s, presented, drawn).0)
  {
    var found := FindToken(s.tokens, Sha256(presented));
    if found.Some? && RefreshTransaction(cfg, s, presented, drawn).1.Rotated? {
      assert LinkOk(s.tokens, found.value);
      assert !Barred(s, s.tokens[found.value].familyId);
    }
  }

  lemma OpenSessionEvolves(cfg: Settings, s: Db, user: nat, drawn: Token)
    ensures Evolves(s, OpenSession(cfg, s, user, drawn).0)
  {
  }

  lemma CreateUserEvolves(s: Db, email: string, password: string, rolesExist: bool)
    ensures Evolves(s, CreateUserStep(s, email, password, rolesExist).0)
  {
  }

  lemma RegisterEvolves(cfg: Settings, s: Db, email: string, password: string, rolesExist: bool, drawn: Token)
    requires FamiliesDrawn(s)
    ensures Evolves(s, RegisterStep(cfg, s, email, password, rolesExist, drawn).0)
  {
    CreateUserEvolves(s, email, password, rolesExist);
    if CreateUserStep(s, email, password, rolesExist).1 == Done {
      OpenSessionEvolves(cfg, AddUser(s, email, password), |s.users|, drawn);
      EvolvesTransitive(s, AddUser(s, email, password),
                        OpenSession(cfg, AddUser(s, email, password), |s.users|, drawn).0);
    }
  }

  lemma LoginEvolves(cfg: Settings, s: Db, email: string, password: string, drawn: Token)
    ensures Evolves(s, LoginStep(cfg, s, email, password, drawn).0)
  {
    var found := FindByEmail(s.users, email);
    if found.Some? { OpenSessionEvolves(cfg, s, found.value, drawn); }
  }

  lemma ResetPasswordEvolves(s: Db, token: Token, newPassword: string)
    ensures Evolves(s, ResetPasswordStep(s, token, newPassword).0)
  {
  }

  lemma SoftDeleteEvolves(s: Db, id: nat, actingUserId: Option<nat>)
    ensures Evolves(s, SoftDeleteStep(s, id, actingUserId).0)
  {
  }

  lemma ForgotPasswordEvolves(cfg: Settings, s: Db, email: string, drawn: Token)
    ensures Evolves(s, ForgotPasswordStep(cfg, s, email, drawn).0)
  {
  }

  lemma LogoutEvolves(s: Db, presented: Option<Token>)
    ensures Evolves(s, LogoutStep(s, presented).0)
  {
  }

  lemma UpdateUserEvolves(s: Db, id: nat, status: Option<UserStatus>, actingUserId: Option<nat>)
    ensures Evolves(s, UpdateUserStep(s, id, status, actingUserId).0)
  {
  }

  lemma StepEvolves(cfg: Settings, s: Db, call: Call)
    requires Valid(cfg, s)
    ensures Evolves(s, Step(cfg, s, call).0)
  {
    match call
    case Register(email, password, rolesExist, drawn) =>
      RegisterEvolves(cfg, s, email, password, rolesExist, drawn);
    case Login(email, password, drawn) => LoginEvolves(cfg, s, email, password, drawn);
    case Refresh(presented, drawn) =>
      if presented.Some? { RefreshEvolves(cfg, s, presented.value, drawn); } else { EvolvesReflexive(s); }
    case Logout(presented) => LogoutEvolves(s, presented);
    case ForgotPassword(email, drawn) => ForgotPasswordEvolves(cfg, s, email, drawn);
    case ResetPassword(token, newPassword) => ResetPasswordEvolves(s, token, newPassword);
    case CreateUser(email, password, rolesExist) => CreateUserEvolves(s, email, password, rolesExist);
    case UpdateUser(id, status, acting) => UpdateUserEvolves(s, id, status, acting);
    case SoftDelete(id, acting) => SoftDeleteEvolves(s, id, acting);
    case Wait(ms) => WaitEvolves(s, ms);
  }

  lemma WaitEvolves(s: Db, ms: nat)
    ensures Evolves(s, s.(now := s.now + ms))
  {
  }

  lemma LastCall(cfg: Settings, s: Db, calls: seq<Call>, k: nat)
    requires k < |calls|
    ensures Run(cfg, s, calls[..k + 1]) == Step(cfg, Run(cfg, s, calls[..k]), calls[k]).0
  {
    assert calls[..k + 1][..k] == calls[..k];
  }

  // Call k takes the state it finds forward.
  lemma CallEvolves(cfg: Settings, s: Db, calls: seq<Call>, k: nat)
    requires Valid(cfg, s) && k < |calls|
    ensures Evolves(Run(cfg, s, calls[..k]), Run(cfg, s, calls[..k + 1]))
  {
    RunKeepsValid(cfg, s, calls[..k]);
    StepEvolves(cfg, Run(cfg, s, calls[..k]), calls[k]);
    LastCall(cfg, s, calls, k);
  }

  lemma RunDrawsFamilies(cfg: Settings, s: Db, calls: seq<Call>)
    requires Valid(cfg, s)
    ensures FamiliesDrawn(Run(cfg, s, calls))
  {
    RunKeepsValid(cfg, s, calls);
  }

  lemma RunEvolvesOneMore(cfg: Settings, s: Db, calls: seq<Call>, j: nat, k: nat)
    requires Valid(cfg, s) && j <= k < |calls| && Evolves(Run(cfg, s, calls[..j]), Run(cfg, s, calls[..k]))
    ensures Evolves(Run(cfg, s, calls[..j]), Run(cfg, s, calls[..k + 1]))
  {
    RunDrawsFamilies(cfg, s, calls[..j]);
    CallEvolves(cfg, s, calls, k);
    EvolvesTransitive(Run(cfg, s, calls[..j]), Run(cfg, s, calls[..k]), Run(cfg, s, calls[..k + 1]));
  }

  /** The state found by call j evolves into the state found by any later call k. */
  lemma {:induction false} RunEvolves(cfg: Settings, s: Db, calls: seq<Call>, j: nat, k: nat)
    requires Valid(cfg, s) && j <= k <= |calls|
    ensures Evolves(Run(cfg, s, calls[..j]), Run(cfg, s, calls[..k]))
    decreases k - j
  {
    if j == k {
      EvolvesReflexive(Run(cfg, s, calls[..j]));
    } else {
      RunEvolves(cfg, s, calls, j, k - 1);
      RunEvolvesOneMore(cfg, s, calls, j, k - 1);
    }
  }

  /******* Dead families *******/

  // A successful refresh presents the one unrevoked, unexpired row of its family, and spends it.
  lemma RefreshSpendsLiveRow(cfg: Settings, s: Db, call: Call)
    requires Valid(cfg, s) && Refreshed(cfg, s, call).Some?
    ensures
      var f := Refreshed(cfg, s, call).value;
      var i := FindToken(s.tokens, Sha256(call.presented.value)).value;
      var t := Step(cfg, s, call).0;
      && f < s.families && !Barred(s, f)
      && s.tokens[i].familyId == f && s.tokens[i].revokedAt.None? && LastInFamily(s.tokens, i)
      && s.now <= s.tokens[i].expiresAt && CanAct(s.users, s.tokens[i].userId)
      && t.tokens[i].revokedAt == Some(s.now)
      && |t.tokens| == |s.tokens| + 1 && t.tokens[|s.tokens|].familyId == f
      && t.tokens[|s.tokens|].createdAt == s.now
      && t.tokens[|s.tokens|].userId == s.tokens[i].userId
  {
    var i := FindToken(s.tokens, Sha256(call.presented.value)).value;
    assert LinkOk(s.tokens, i);
  }

  lemma BarredIsNotRefreshed(cfg: Settings, s: Db, call: Call, f: nat)
    requires Valid(cfg, s) && Barred(s, f)
    ensures Refreshed(cfg, s, call) != Some(f)
  {
    if Refreshed(cfg, s, call) == Some(f) { RefreshSpendsLiveRow(cfg, s, call); }
  }

  /** A barred family is never refreshed again, whatever is called afterwards. */
  lemma DeadFamiliesStayDead(cfg: Settings, s: Db, calls: seq<Call>, f: nat, k: nat)
    requires Valid(cfg, s) && f < s.families && Barred(s, f) && k < |calls|
    ensures Refreshed(cfg, Run(cfg, s, calls[..k]), calls[k]) != Some(f)
  {
    RunEvolves(cfg, s, calls, 0, k);
    RunKeepsValid(cfg, s, calls[..k]);
    assert calls[..0] == [];
    BarredForGood(s, Run(cfg, s, calls[..k]), f);
    BarredIsNotRefreshed(cfg, Run(cfg, s, calls[..k]), calls[k], f);
  }

  /** Re-presenting a used or revoked token, presenting an expired one, or logging out a live one bars the family. */
  lemma WhatBarsAFamily(cfg: Settings, s: Db, presented: Token, drawn: Token)
    requires Valid(cfg, s) && FindToken(s.tokens, Sha256(presented)).Some?
    ensures
      var row := s.tokens[FindToken(s.tokens, Sha256(presented)).value];
      var (t, outcome) := RefreshTransaction(cfg, s, presented, drawn);
      && (outcome == Theft <==> row.revokedAt.Some?)
      && (outcome == Theft || outcome == Expired ==> Barred(t, row.familyId))
      && (row.revokedAt.None? ==> Barred(LogoutStep(s, Some(presented)).0, row.familyId))
      && (row.revokedAt.Some? ==> LogoutStep(s, Some(presented)).0 == s)
  {
    var i := FindToken(s.tokens, Sha256(presented)).value;
    assert LinkOk(s.tokens, i);
    var f := s.tokens[i].familyId;
    forall k | 0 <= k < |s.tokens| && s.tokens[k].familyId == f && k != i && s.tokens[i].revokedAt.None?
      ensures s.tokens[k].revokedAt.Some?
    {
      assert LinkOk(s.tokens, k);
      assert k < i;
    }
  }

  lemma RowStaysSpent(a: Db, a1: Db, b: Db, i: nat)
    requires i < |a.tokens| && i < |a1.tokens| && Evolves(a1, b)
    requires a1.tokens[i].revokedAt.Some? && a1.tokens[i].tokenHash == a.tokens[i].tokenHash
    requires forall x, y | 0 <= x < y < |b.tokens| :: b.tokens[x].tokenHash != b.tokens[y].tokenHash
    ensures FindToken(b.tokens, a.tokens[i].tokenHash) == Some(i) && b.tokens[i].revokedAt.Some?
  {
    assert RowEvolves(a1.tokens[i], b.tokens[i]);
  }

  /** Over any run, each refresh token succeeds at most once. */
  lemma EachTokenRefreshesAtMostOnce(cfg: Settings, s: Db, calls: seq<Call>, j: nat, k: nat)
    requires Valid(cfg, s) && j < k < |calls|
    requires calls[j].Refresh? && calls[k].Refresh? && calls[j].presented == calls[k].presented
    ensures Refreshed(cfg, Run(cfg, s, calls[..j]), calls[j]).None?
         || Refreshed(cfg, Run(cfg, s, calls[..k]), calls[k]).None?
  {
    var a, b := Run(cfg, s, calls[..j]), Run(cfg, s, calls[..k]);
    RunKeepsValid(cfg, s, calls[..j]);
    RunKeepsValid(cfg, s, calls[..k]);
    if Refreshed(cfg, a, calls[j]).Some? {
      RefreshSpendsLiveRow(cfg, a, calls[j]);
      assert calls[..j + 1][..j] == calls[..j];
      RunEvolves(cfg, s, calls, j + 1, k);
      RowStaysSpent(a, Run(cfg, s, calls[..j + 1]), b, FindToken(a.tokens, Sha256(calls[j].presented.value)).value);
    }
  }

  /******* Counting *******/

  function FamilySize(rows: seq<RefreshToken>, f: nat): nat {
    if |rows| == 0 then 0
    else FamilySize(rows[..|rows| - 1], f) + (if rows[|rows| - 1].familyId == f then 1 else 0)
  }

  lemma {:induction false} FamilySizeLooksAtFamiliesOnly(a: seq<RefreshToken>, b: seq<RefreshToken>, f: nat)
    requires |a| == |b| && forall i | 0 <= i < |a| :: a[i].familyId == b[i].familyId
    ensures FamilySize(a, f) == FamilySize(b, f)
  {
    if |a| > 0 { FamilySizeLooksAtFamiliesOnly(a[..|a| - 1], b[..|b| - 1], f); }
  }

  // How many of the run's calls refreshed family f.
  function Refreshes(cfg: Settings, s: Db, calls: seq<Call>, f: nat): nat
    decreases |calls|
  {
    if |calls| == 0 then 0
    else
      var init := calls[..|calls| - 1];
      Refreshes(cfg, s, init, f) + if Refreshed(cfg, Run(cfg, s, init), calls[|calls| - 1]) == Some(f) then 1 else 0
  }

  // A call appends at most one row: the successor in a refreshed family, or the first row of a new one.
  lemma StepShape(cfg: Settings, s: Db, call: Call)
    ensures
      var t := Step(cfg, s, call).0;
      var n := |s.tokens|;
      && s.families <= t.families <= s.families + 1
      && (Refreshed(cfg, s, call).Some? ==> t.families == s.families)
      && |t.tokens| == n + (if Refreshed(cfg, s, call).Some? || s.families < t.families then 1 else 0)
      && (Refreshed(cfg, s, call).Some? ==> t.tokens[n].familyId == Refreshed(cfg, s, call).value)
      && (s.families < t.families ==> t.tokens[n].familyId == s.families)
      && forall i | 0 <= i < n :: t.tokens[i].familyId == s.tokens[i].familyId
  {
  }

  // One call adds a row to f exactly when it refreshes f or opens it.
  lemma StepGrowsFamily(cfg: Settings, s: Db, call: Call, f: nat)
    ensures
      var t := Step(cfg, s, call).0;
      FamilySize(t.tokens, f) == FamilySize(s.tokens, f)
        + (if Refreshed(cfg, s, call) == Some(f) then 1 else 0)
        + (if s.families <= f < t.families then 1 else 0)
  {
    var t, n := Step(cfg, s, call).0, |s.tokens|;
    StepShape(cfg, s, call);
    FamilySizeLooksAtFamiliesOnly(s.tokens, t.tokens[..n], f);
    if |t.tokens| == n { assert t.tokens[..n] == t.tokens; }
  }

  /** In every reachable state a family holds one row more than the number of its successful refreshes. */
  lemma {:induction false} FamilySizeCountsRefreshes(cfg: Settings, now: int, calls: seq<Call>, f: nat)
    ensures
      var s := Run(cfg, Empty(now), calls);
      if f < s.families then FamilySize(s.tokens, f) == 1 + Refreshes(cfg, Empty(now), calls, f)
      else FamilySize(s.tokens, f) == 0 && Refreshes(cfg, Empty(now), calls, f) == 0
    decreases |calls|
  {
    if |calls| > 0 {
      var init := calls[..|calls| - 1];
      var s := Run(cfg, Empty(now), init);
      FamilySizeCountsRefreshes(cfg, now, init, f);
      ReachableValid(cfg, now, init);
      StepGrowsFamily(cfg, s, calls[|calls| - 1], f);
      StepEvolves(cfg, s, calls[|calls| - 1]);
      if Refreshed(cfg, s, calls[|calls| - 1]) == Some(f) { RefreshSpendsLiveRow(cfg, s, calls[|calls| - 1]); }
    }
  }

  /******* Sliding deadline *******/

  lemma {:induction false} EmptyFamily(rows: seq<RefreshToken>, f: nat)
    ensures FamilySize(rows, f) == 0 <==> forall i | 0 <= i < |rows| :: rows[i].familyId != f
  {
    if |rows| > 0 { EmptyFamily(rows[..|rows| - 1], f); }
  }

  // The last row of f in a non-empty prefix.
  lemma {:induction false} LastOf(rows: seq<RefreshToken>, f: nat) returns (p: nat)
    requires FamilySize(rows, f) > 0
    ensures p < |rows| && rows[p].familyId == f
    ensures forall k | p < k < |rows| :: rows[k].familyId != f
    ensures FamilySize(rows[..p], f) == FamilySize(rows, f) - 1
  {
    if rows[|rows| - 1].familyId == f { p := |rows| - 1; }
    else {
      p := LastOf(rows[..|rows| - 1], f);
      assert rows[..|rows| - 1][..p] == rows[..p];
    }
  }

  // A row with no family row between itself and i is i's predecessor, and i is created in its lifetime.
  lemma PredecessorIsAlive(cfg: Settings, s: Db, p: nat, i: nat)
    requires Valid(cfg, s) && p < i < |s.tokens| && s.tokens[p].familyId == s.tokens[i].familyId
    requires forall k | p < k < i :: s.tokens[k].familyId != s.tokens[p].familyId
    ensures s.tokens[p].replacedByTokenId == Some(i)
    ensures s.tokens[i].createdAt <= s.tokens[p].createdAt + cfg.refreshExpiresInMs
  {
    assert LinkOk(s.tokens, p) && ClockOk(cfg, s.now, s.tokens, p);
  }

  // The k-th row after the opening row o is created at most k lifetimes after it.
  lemma {:induction false} ChainDeadline(cfg: Settings, s: Db, o: nat, i: nat, f: nat)
    requires Valid(cfg, s) && o <= i < |s.tokens| && s.tokens[o].familyId == f == s.tokens[i].familyId
    requires FamilySize(s.tokens[..o], f) == 0
    ensures s.tokens[i].createdAt <= s.tokens[o].createdAt + FamilySize(s.tokens[..i], f) * cfg.refreshExpiresInMs
    decreases i
  {
    if o < i {
      var p := PredecessorOf(s.tokens, o, i, f);
      ChainDeadline(cfg, s, o, p, f);
      PredecessorIsAlive(cfg, s, p, i);
      OneMore(FamilySize(s.tokens[..p], f), cfg.refreshExpiresInMs);
    }
  }

  lemma PredecessorOf(rows: seq<RefreshToken>, o: nat, i: nat, f: nat) returns (p: nat)
    requires o < i < |rows| && rows[o].familyId == f
    ensures o <= p < i && rows[p].familyId == f && forall k | p < k < i :: rows[k].familyId != f
    ensures FamilySize(rows[..i], f) == FamilySize(rows[..p], f) + 1
  {
    EmptyFamily(rows[..i], f);
    assert rows[..i][o].familyId == f;
    p := LastOf(rows[..i], f);
    assert rows[..i][..p] == rows[..p];
    assert forall k | p < k < i :: rows[..i][k] == rows[k];
    assert o <= p;
  }

  lemma OneMore(n: nat, ttl: nat)
    ensures (n + 1) * ttl == n * ttl + ttl
  {
  }

  lemma TailDeadline(cfg: Settings, s: Db, o: nat, i: nat, f: nat)
    requires Valid(cfg, s) && o <= i < |s.tokens| && s.tokens[o].familyId == f == s.tokens[i].familyId
    requires FamilySize(s.tokens[..o], f) == 0 && LastInFamily(s.tokens, i)
    ensures s.tokens[i].expiresAt <= s.tokens[o].createdAt + FamilySize(s.tokens, f) * cfg.refreshExpiresInMs
  {
    ChainDeadline(cfg, s, o, i, f);
    TailIsLast(s.tokens, i);
    assert ClockOk(cfg, s.now, s.tokens, i);
    OneMore(FamilySize(s.tokens[..i], f), cfg.refreshExpiresInMs);
  }

  /**
   Sliding session bound: the k-th successful refresh of a family happens at most
   k * refreshExpiresInMs after the family was opened (o is its opening row).
   */
  lemma SlidingDeadline(cfg: Settings, now: int, calls: seq<Call>, call: Call, o: nat, f: nat)
    requires Refreshed(cfg, Run(cfg, Empty(now), calls), call) == Some(f)
    requires o < |Run(cfg, Empty(now), calls).tokens| && Run(cfg, Empty(now), calls).tokens[o].familyId == f
    requires FamilySize(Run(cfg, Empty(now), calls).tokens[..o], f) == 0
    ensures
      var s := Run(cfg, Empty(now), calls);
      var k := Refreshes(cfg, Empty(now), calls, f) + 1;
      s.now <= s.tokens[o].createdAt + k * cfg.refreshExpiresInMs
  {
    ReachableValid(cfg, now, calls);
    var s := Run(cfg, Empty(now), calls);
    RefreshSpendsLiveRow(cfg, s, call);
    FamilySizeCountsRefreshes(cfg, now, calls, f);
    TailDeadline(cfg, s, o, FindToken(s.tokens, Sha256(call.presented.value)).value, f);
  }

  lemma {:induction false} TailIsLast(rows: seq<RefreshToken>, i: nat)
    requires i < |rows| && LastInFamily(rows, i)
    ensures FamilySize(rows, rows[i].familyId) == FamilySize(rows[..i], rows[i].familyId) + 1
  {
    if i < |rows| - 1 {
      assert rows[..|rows| - 1][..i] == rows[..i];
      TailIsLast(rows[..|rows| - 1], i);
    }
  }

  /******* Idle families *******/

  // Without a refresh in between, every row of an open family is as old as the family's last refresh.
  lemma {:induction false} QuietRowsAreOld(cfg: Settings, s: Db, calls: seq<Call>, f: nat, j: nat, k: nat)
    requires Valid(cfg, s) && j <= k <= |calls| && f < Run(cfg, s, calls[..j]).families
    requires forall m | j <= m < k :: Refreshed(cfg, Run(cfg, s, calls[..m]), calls[m]) != Some(f)
    ensures f < Run(cfg, s, calls[..k]).families
    ensures CreatedBy(Run(cfg, s, calls[..k]), f, Run(cfg, s, calls[..j]).now)
    decreases k - j
  {
    if j == k {
      RunKeepsValid(cfg, s, calls[..j]);
      NoneCreatedLater(cfg, Run(cfg, s, calls[..j]), f);
    } else {
      QuietRowsAreOld(cfg, s, calls, f, j, k - 1);
      RunKeepsValid(cfg, s, calls[..k - 1]);
      LastCall(cfg, s, calls, k - 1);
      QuietStep(cfg, Run(cfg, s, calls[..k - 1]), calls[k - 1], f, Run(cfg, s, calls[..j]).now);
    }
  }

  ghost predicate CreatedBy(s: Db, f: nat, at: int) {
    forall i | 0 <= i < |s.tokens| && s.tokens[i].familyId == f :: s.tokens[i].createdAt <= at
  }

  lemma NoneCreatedLater(cfg: Settings, s: Db, f: nat)
    requires Valid(cfg, s)
    ensures CreatedBy(s, f, s.now)
  {
    forall i | 0 <= i < |s.tokens| ensures s.tokens[i].createdAt <= s.now { assert ClockOk(cfg, s.now, s.tokens, i); }
  }

  lemma QuietStep(cfg: Settings, s: Db, call: Call, f: nat, at: int)
    requires Valid(cfg, s) && f < s.families && CreatedBy(s, f, at) && Refreshed(cfg, s, call) != Some(f)
    ensures f < Step(cfg, s, call).0.families && CreatedBy(Step(cfg, s, call).0, f, at)
  {
    var t := Step(cfg, s, call).0;
    StepShape(cfg, s, call);
    StepEvolves(cfg, s, call);
    forall i | 0 <= i < |t.tokens| && t.tokens[i].familyId == f ensures t.tokens[i].createdAt <= at {
      if i < |s.tokens| { assert RowEvolves(s.tokens[i], t.tokens[i]); }
    }
  }

  // Rows created more than a lifetime ago have expired.
  lemma OldRowsAreBarred(cfg: Settings, s: Db, f: nat, at: int)
    requires Valid(cfg, s) && CreatedBy(s, f, at) && s.now - at > cfg.refreshExpiresInMs
    ensures Barred(s, f)
  {
    forall i | 0 <= i < |s.tokens| && s.tokens[i].familyId == f ensures s.tokens[i].expiresAt < s.now {
      assert ClockOk(cfg, s.now, s.tokens, i);
    }
  }

  /**
   A family that is not refreshed for longer than refreshExpiresInMs, from call j to call k, is never refreshed again.
   */
  lemma IdleFamiliesDie(cfg: Settings, s: Db, calls: seq<Call>, f: nat, j: nat, k: nat, m: nat)
    requires Valid(cfg, s) && j <= k <= m < |calls| && f < Run(cfg, s, calls[..j]).families
    requires forall i | j <= i < k :: Refreshed(cfg, Run(cfg, s, calls[..i]), calls[i]) != Some(f)
    requires Run(cfg, s, calls[..k]).now - Run(cfg, s, calls[..j]).now > cfg.refreshExpiresInMs
    ensures Refreshed(cfg, Run(cfg, s, calls[..m]), calls[m]) != Some(f)
  {
    var b, found := Run(cfg, s, calls[..k]), Run(cfg, s, calls[..m]);
    RunKeepsValid(cfg, s, calls[..k]);
    QuietRowsAreOld(cfg, s, calls, f, j, k);
    OldRowsAreBarred(cfg, b, f, Run(cfg, s, calls[..j]).now);
    RunEvolves(cfg, s, calls, k, m);
    BarredForGood(b, found, f);
    RunKeepsValid(cfg, s, calls[..m]);
    BarredIsNotRefreshed(cfg, found, calls[m], f);
  }

  /** Two consecutive successful refreshes of a family are at most refreshExpiresInMs apart. */
  lemma ConsecutiveRefreshes(cfg: Settings, s: Db, calls: seq<Call>, f: nat, j: nat, k: nat)
    requires Valid(cfg, s) && j < k < |calls|
    requires Refreshed(cfg, Run(cfg, s, calls[..j]), calls[j]) == Some(f)
    requires Refreshed(cfg, Run(cfg, s, calls[..k]), calls[k]) == Some(f)
    requires forall m | j < m < k :: Refreshed(cfg, Run(cfg, s, calls[..m]), calls[m]) != Some(f)
    ensures Run(cfg, s, calls[..k]).now - Run(cfg, s, calls[..j]).now <= cfg.refreshExpiresInMs
  {
    RunKeepsValid(cfg, s, calls[..j]);
    RefreshTakesNoTime(cfg, Run(cfg, s, calls[..j]), calls[j], f);
    LastCall(cfg, s, calls, j);
    if Run(cfg, s, calls[..k]).now - Run(cfg, s, calls[..j]).now > cfg.refreshExpiresInMs {
      IdleFamiliesDie(cfg, s, calls, f, j + 1, k, k);
    }
  }

  lemma RefreshTakesNoTime(cfg: Settings, s: Db, call: Call, f: nat)
    requires Valid(cfg, s) && Refreshed(cfg, s, call) == Some(f)
    ensures Step(cfg, s, call).0.now == s.now && f < Step(cfg, s, call).0.families
  {
    RefreshSpendsLiveRow(cfg, s, call);
    StepShape(cfg, s, call);
  }
}
