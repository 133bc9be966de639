/**
 What holds of every run of the credential service, whatever the interleaving.
 */
module AuthTheorems {
  import opened Options
  import SessionLaws
  import opened AuthStore
  import opened SessionTx
  import opened OneTimeTx
  import opened Chains
  import opened Tokens
  import opened AuthRuns
  import opened AuthInvariant

  // What a step is

  /** The tables a transaction leaves, with the clock at `now`; a logout or a logout in between that read a
      later clock is none. */
  function Committed(cfg: Config, db: Db, op: Op, now: Time): Option<Db> {
    match op
    case CommitLogin(u, verified, hash) => Some(StartSession(cfg, db, u, verified, hash, now).0)
    case CommitRotate(read, hash) => Some(Rotate(cfg, db, read.id, read.row, hash, now).0)
    case CommitLogout(row, at) => if at > now then None else Some(db.(refresh := RevokeWhere(db.refresh, {row}, at)))
    case CommitRevokeSession(u, requester, target, ended, at) =>
      if at > now then None else Some(RevokeSession(db, u, requester, target, ended, at, now).0)
    case CommitRevokeAll(u, requester) => Some(RevokeAllSessions(db, u, requester, now).0)
    case CommitRevokeOthers(u, keep) => Some(RevokeOthers(db, u, keep, now).0)
    case CommitChangePassword(u, verified, requester, newHash, keepOthers) =>
      Some(ChangePassword(db, u, verified, requester, newHash, keepOthers, now).0)
    case CommitState(u, disable, permitted) => Some(SetUserState(db, u, disable, permitted, now).0)
    case CommitIssue(u, flow, hash) => Some(Issue(cfg, db, u, flow, hash, now).0)
    case CommitActivate(read) => Some(Activate(db, read.id, read.token, now).0)
    case CommitWithdraw(id) => Some(Withdraw(db, id))
    case CommitUse(read, use) => Some(UseToken(cfg, db, read.id, read.token, use, now).0)
    case _ => None
  }

  /** A request can only act on what it holds. */
  predicate Holds(w: World, op: Op) {
    && (op.CommitRotate? ==> op.rowRead in w.rowReads)
    && (op.CommitActivate? || op.CommitUse? ==> op.tokenRead in w.tokenReads)
  }

  /** Every step of a run that commits a transaction leaves exactly what the transaction leaves. */
  lemma StepsAreTransactions(cfg: Config, w: World, e: Event)
    requires e.now >= w.now && Holds(w, e.op) && Committed(cfg, w.db, e.op, e.now).Some?
    ensures Step(cfg, w, e).db == Committed(cfg, w.db, e.op, e.now).value && Step(cfg, w, e).now == e.now
  {
    match e.op
    case CommitLogin(_, _, _) =>
    case CommitIssue(_, _, _) =>
    case _ =>
  }

  /** What a run's other steps do to the accounts: a creation under a normalized address that is not empty and not
      taken, verified from the start for a superuser and for no one else; a write of an address by another path,
      unless another account has it; a deletion. */
  lemma AccountSteps(cfg: Config, w: World, e: Event)
    requires e.now >= w.now
    ensures var w' := Step(cfg, w, e);
            && (e.op.CreateUser? ==>
                  var address := NormalizeEmail(e.op.email);
                  if address == "" || exists id | id in w.db.users :: w.db.users[id].email == address then w'.db == w.db
                  else
                    && w'.db == w.db.(users := w'.db.users, nextUser := w.db.nextUser + 1)
                    && w'.db.users == w.db.users[w.db.nextUser :=
                         User(address, e.op.passwordHash, e.op.superuser, None,
                              if e.op.superuser then Some(e.now) else None, if e.op.superuser then address else "")]
                    && ((w.db.nextUser, address) in w'.vouched <==>
                          e.op.superuser || (w.db.nextUser, address) in w.vouched))
            && (e.op.WriteEmail? ==>
                  var u := e.op.userId;
                  if u !in w.db.users || exists id | id in w.db.users && id != u :: w.db.users[id].email == e.op.email
                  then w'.db == w.db
                  else w'.db == w.db.(users := w.db.users[u := w.db.users[u].(email := e.op.email)]))
            && (e.op.DeleteUser? ==> w'.db == w.db.(users := w.db.users - {e.op.userId}))
  {
  }

  /** A read is held from then on, with the version it found; a send holds the token it issued. */
  lemma ReadsAreHeld(cfg: Config, w: World, e: Event, id: nat)
    requires e.now >= w.now
    ensures e.op.ReadRow? && id in w.db.refresh && w.db.refresh[id].tokenHash == e.op.tokenHash ==>
              RowRead(id, w.db.refresh[id]) in Step(cfg, w, e).rowReads
    ensures e.op.ReadToken? && id in w.db.tokens && w.db.tokens[id].tokenHash == e.op.tokenHash ==>
              TokenRead(id, w.db.tokens[id]) in Step(cfg, w, e).tokenReads
    ensures e.op.CommitIssue? && Issue(cfg, w.db, e.op.userId, e.op.flow, e.op.tokenHash, e.now).1 == Issued(id) ==>
              && id in Step(cfg, w, e).db.tokens
              && TokenRead(id, Step(cfg, w, e).db.tokens[id]) in Step(cfg, w, e).tokenReads
  {
  }

  /** A login is in the history with its row as the origin of its session, and an acceptance with its token. */
  lemma HistoryIsKept(cfg: Config, w: World, e: Event)
    requires e.now >= w.now
    ensures e.op.CommitLogin? ==>
              var r := StartSession(cfg, w.db, e.op.userId, e.op.verifiedHash, e.op.tokenHash, e.now).1;
              r.SignedIn? ==>
                && r.row in Step(cfg, w, e).logins && Step(cfg, w, e).logins[r.row].userId == e.op.userId
                && r.row in Step(cfg, w, e).origin && Step(cfg, w, e).origin[r.row] == r.row
    ensures e.op.CommitUse? && Holds(w, e.op) ==>
              var r := UseToken(cfg, w.db, e.op.tokenRead.id, e.op.tokenRead.token, e.op.use, e.now).1;
              Step(cfg, w, e).accepted == if r.Accepted? then w.accepted + [e.op.tokenRead.id] else w.accepted
  {
  }

  // Revoking everything

  /** A commit that revokes every row of the user: a disable, a reset that ends sessions, the reuse
      cascade, a revoke-all, or a password change made outside any session. */
  predicate RevokesAll(cfg: Config, w: World, e: Event, userId: nat) {
    && e.now >= w.now
    && match e.op
       case CommitState(u, disable, permitted) =>
         u == userId && disable && SetUserState(w.db, u, true, permitted, e.now).1 == StateSet(true)
       case CommitUse(read, use) =>
         && read in w.tokenReads && read.token.userId == userId && use.UseReset? && !cfg.keepSessionsOnReset
         && UseToken(cfg, w.db, read.id, read.token, use, e.now).1.Accepted?
       case CommitRotate(read, hash) =>
         && read in w.rowReads && read.row.userId == userId
         && Rotate(cfg, w.db, read.id, read.row, hash, e.now).1.Reuse?
       case CommitRevokeAll(u, requester) =>
         u == userId && RevokeAllSessions(w.db, u, requester, e.now).1.SessionsRevoked?
       case CommitChangePassword(u, verified, requester, newHash, keepOthers) =>
         && u == userId && requester == 0 && !keepOthers
         && ChangePassword(w.db, u, verified, requester, newHash, keepOthers, e.now).1.Changed?
       case _ => false
  }

  lemma RevokesAllLeavesNone(cfg: Config, w: World, e: Event, userId: nat)
    requires RevokesAll(cfg, w, e, userId)
    ensures Unrevoked(Step(cfg, w, e).db.refresh, userId) == {}
  {
  }

  /** A revoked row stays revoked: it neither authenticates nor rotates, whoever holds it. */
  lemma RevokedRowIsDead(cfg: Config, w: World, w': World, id: nat)
    requires Evolves(w.db.refresh, w'.db.refresh) && RowReadsOk(w'.db.refresh, w'.rowReads)
    requires id in w.db.refresh && w.db.refresh[id].revokedAt.Some?
    ensures forall user, now :: !Authenticates(w'.db, user, id, now)
    ensures forall read, hash, now | read in w'.rowReads && read.id == id ::
              !Rotate(cfg, w'.db, id, read.row, hash, now).1.Rotated?
  {
    assert Earlier(w.db.refresh[id], w'.db.refresh[id]);
  }

  /** No row that existed when everything was revoked authenticates or rotates again. */
  lemma RevokedForGood(cfg: Config, ws: seq<World>, es: seq<Event>, i: nat, j: nat, userId: nat, id: nat)
    requires IsRun(cfg, ws, es) && i < j < |ws|
    requires RevokesAll(cfg, ws[i], es[i], userId)
    requires id in ws[i].db.refresh && ws[i].db.refresh[id].userId == userId
    ensures forall user, now :: !Authenticates(ws[j].db, user, id, now)
    ensures forall read, hash, now | read in ws[j].rowReads && read.id == id ::
              !Rotate(cfg, ws[j].db, id, read.row, hash, now).1.Rotated?
  {
    AllRevokedAfter(cfg, ws, es, i, userId, id);
    RunGrows(cfg, ws, es, i + 1, j);
    RevokedRowIsDead(cfg, ws[i + 1], ws[j], id);
  }

  lemma AllRevokedAfter(cfg: Config, ws: seq<World>, es: seq<Event>, i: nat, userId: nat, id: nat)
    requires IsRun(cfg, ws, es) && i < |es|
    requires RevokesAll(cfg, ws[i], es[i], userId)
    requires id in ws[i].db.refresh && ws[i].db.refresh[id].userId == userId
    ensures id in ws[i + 1].db.refresh && ws[i + 1].db.refresh[id].revokedAt.Some?
  {
    RevokesAllLeavesNone(cfg, ws[i], es[i], userId);
    RunInv(cfg, ws, es, i);
    StepKeeps(cfg, ws[i], es[i]);
    assert Earlier(ws[i].db.refresh[id], ws[i + 1].db.refresh[id]);
    assert id !in Unrevoked(ws[i + 1].db.refresh, userId);
  }

  /** Every row of a chain has the chain's origin, the head included. */
  lemma {:induction false} HeadOrigin(refresh: RefreshTable, nextRow: nat, origin: map<nat, nat>,
                                      logins: map<nat, Login>, id: nat)
    requires LinksOk(refresh, nextRow) && OriginOk(refresh, origin, logins) && id in refresh
    ensures var head := Head(refresh, nextRow, id);
            && head in refresh && refresh[head].replacedBy.None?
            && head in origin && origin[head] == origin[id]
            && refresh[head].userId == refresh[id].userId
    decreases nextRow - id
  {
    assert LinkOk(refresh, nextRow, id);
    assert StartsAtLogin(refresh, origin, logins, id);
    if refresh[id].replacedBy.Some? {
      HeadOrigin(refresh, nextRow, origin, logins, refresh[id].replacedBy.value);
    }
  }

  // Ended sessions

  /** A row of the session that started at login `o`. */
  predicate OfSession(w: World, o: nat, id: nat) {
    id in w.db.refresh && id in w.origin && w.origin[id] == o
  }

  /** The session that started at login `o` has no unrevoked row. */
  ghost predicate Ended(w: World, o: nat) {
    forall id | OfSession(w, o, id) :: w.db.refresh[id].revokedAt.Some?
  }

  /** A session whose current row is revoked has ended. */
  lemma RevokedHeadEnds(w: World, head: nat)
    requires Inv(w) && head in w.db.refresh
    requires w.db.refresh[head].revokedAt.Some? && w.db.refresh[head].replacedBy.None?
    ensures Ended(w, w.origin[head])
  {
    forall id | OfSession(w, w.origin[head], id) ensures w.db.refresh[id].revokedAt.Some? {
      assert LinkOk(w.db.refresh, w.db.nextRow, id);
      if w.db.refresh[id].replacedBy.None? {
        OneHead(w, head, id);
      }
    }
  }

  /** A session whose rows are all revoked gains no unrevoked row, whatever the user's other sessions do. */
  lemma EndedChainsStayEnded(w: World, w': World, o: nat)
    requires Inv(w) && Inv(w') && Grows(w, w')
    requires o in w.logins && Ended(w, o)
    ensures Ended(w', o)
  {
    HeadOrigin(w.db.refresh, w.db.nextRow, w.origin, w.logins, o);
    var head := Head(w.db.refresh, w.db.nextRow, o);
    assert OfSession(w, o, head);
    assert Earlier(w.db.refresh[head], w'.db.refresh[head]);
    RevokedHeadEnds(w', head);
  }

  /** So a user left without a session has later ones only from later logins. */
  lemma NoSessionComesBack(w: World, w': World, userId: nat, id: nat)
    requires Inv(w) && Inv(w') && Grows(w, w')
    requires Unrevoked(w.db.refresh, userId) == {}
    requires id in Unrevoked(w'.db.refresh, userId)
    ensures id in w'.origin && w'.origin[id] >= w.db.nextRow
  {
    var o := w'.origin[id];
    assert StartsAtLogin(w'.db.refresh, w'.origin, w'.logins, id);
    if o < w.db.nextRow {
      OldLogin(w, w', o);
      forall row | OfSession(w, o, row) ensures w.db.refresh[row].revokedAt.Some? {
        assert StartsAtLogin(w.db.refresh, w.origin, w.logins, row);
        assert row !in Unrevoked(w.db.refresh, userId);
      }
      EndedChainsStayEnded(w, w', o);
      assert OfSession(w', o, id);
    }
  }

  /** A login whose row is not new was there before. */
  lemma OldLogin(w: World, w': World, o: nat)
    requires Inv(w) && Inv(w') && Grows(w, w') && o in w'.logins && o < w.db.nextRow
    ensures o in w.logins && w.logins[o] == w'.logins[o]
  {
    assert o in w'.origin && w'.origin[o] == o;
    assert o in w.db.refresh && w.origin[o] == o;
    assert StartsAtLogin(w.db.refresh, w.origin, w.logins, o);
  }

  /** A commit that ends the session that started at login `o` and may leave others: a logout or a
      revocation of its current row, or a revocation of the others from another session. */
  predicate EndsOne(cfg: Config, w: World, e: Event, o: nat)
    requires o in w.logins
  {
    && e.now >= w.now
    && match e.op
       case CommitLogout(row, at) =>
         at <= e.now && OfSession(w, o, row) && w.db.refresh[row].revokedAt.None?
       case CommitRevokeSession(u, requester, target, ended, at) =>
         && at <= e.now && OfSession(w, o, target)
         && RevokeSession(w.db, u, requester, target, ended, at, e.now).1.SessionRevoked?
       case CommitRevokeOthers(u, keep) =>
         && u == w.logins[o].userId && !OfSession(w, o, keep)
         && RevokeOthers(w.db, u, keep, e.now).1.SessionsRevoked?
       case CommitChangePassword(u, verified, requester, newHash, keepOthers) =>
         && u == w.logins[o].userId && requester != 0 && !OfSession(w, o, requester) && !keepOthers
         && ChangePassword(w.db, u, verified, requester, newHash, keepOthers, e.now).1.Changed?
       case _ => false
  }

  predicate EndsSession(cfg: Config, w: World, e: Event, o: nat) {
    o in w.logins && (RevokesAll(cfg, w, e, w.logins[o].userId) || EndsOne(cfg, w, e, o))
  }

  /** A row that was the current one of its session and is revoked ends it. */
  lemma RevokedNowEnds(w: World, w': World, o: nat, row: nat)
    requires Inv(w) && Inv(w') && Grows(w, w') && OfSession(w, o, row)
    requires w.db.refresh[row].revokedAt.None?
    requires w'.db.refresh[row] == w.db.refresh[row].(revokedAt := w'.db.refresh[row].revokedAt)
    requires w'.db.refresh[row].revokedAt.Some?
    ensures Ended(w', o)
  {
    assert LinkOk(w.db.refresh, w.db.nextRow, row);
    RevokedHeadEnds(w', row);
  }

  /** Sparing another session's chain spares no row of this one. */
  lemma SparedElsewhereEnds(w: World, w': World, o: nat, keep: nat)
    requires Inv(w) && Inv(w') && Grows(w, w') && o in w.logins && w'.origin == w.origin
    requires keep in w.db.refresh && !OfSession(w, o, keep)
    requires Unrevoked(w'.db.refresh, w.logins[o].userId) == {Head(w.db.refresh, w.db.nextRow, keep)}
    ensures Ended(w', o)
  {
    HeadOrigin(w.db.refresh, w.db.nextRow, w.origin, w.logins, keep);
    var head := Head(w.db.refresh, w.db.nextRow, keep);
    forall id | OfSession(w', o, id) ensures w'.db.refresh[id].revokedAt.Some? {
      assert StartsAtLogin(w'.db.refresh, w'.origin, w'.logins, id);
      assert id != head;
      assert id !in Unrevoked(w'.db.refresh, w.logins[o].userId);
    }
  }

  /** Leaving the user no unrevoked row ends each of their sessions. */
  lemma NoneLeftEnds(w: World, w': World, o: nat)
    requires Inv(w) && Inv(w') && Grows(w, w') && o in w.logins
    requires Unrevoked(w'.db.refresh, w.logins[o].userId) == {}
    ensures Ended(w', o)
  {
    forall id | OfSession(w', o, id) ensures w'.db.refresh[id].revokedAt.Some? {
      assert StartsAtLogin(w'.db.refresh, w'.origin, w'.logins, id);
      assert id !in Unrevoked(w'.db.refresh, w.logins[o].userId);
    }
  }

  lemma LogoutEnds(cfg: Config, w: World, e: Event, o: nat)
    requires Inv(w) && Inv(Step(cfg, w, e)) && Grows(w, Step(cfg, w, e)) && o in w.logins && EndsOne(cfg, w, e, o)
    requires e.op.CommitLogout?
    ensures Ended(Step(cfg, w, e), o)
  {
    RevokedNowEnds(w, Step(cfg, w, e), o, e.op.rowId);
  }

  lemma RevokedSessionEnds(cfg: Config, w: World, e: Event, o: nat)
    requires Inv(w) && Inv(Step(cfg, w, e)) && Grows(w, Step(cfg, w, e)) && o in w.logins && EndsOne(cfg, w, e, o)
    requires e.op.CommitRevokeSession?
    ensures Ended(Step(cfg, w, e), o)
  {
    TargetRevoked(w.db, e.op.userId, e.op.requester, e.op.target, e.op.ended, e.op.at, e.now);
    RevokedNowEnds(w, Step(cfg, w, e), o, e.op.target);
  }

  lemma RevokedOthersEnd(cfg: Config, w: World, e: Event, o: nat)
    requires Inv(w) && Inv(Step(cfg, w, e)) && Grows(w, Step(cfg, w, e)) && o in w.logins && EndsOne(cfg, w, e, o)
    requires e.op.CommitRevokeOthers?
    ensures Ended(Step(cfg, w, e), o)
  {
    SessionLaws.RevokeOthersExact(w.db, e.op.userId, e.op.keep, e.now);
    SparedElsewhereEnds(w, Step(cfg, w, e), o, e.op.keep);
  }

  lemma ChangedPasswordEnds(cfg: Config, w: World, e: Event, o: nat)
    requires Inv(w) && Inv(Step(cfg, w, e)) && Grows(w, Step(cfg, w, e)) && o in w.logins && EndsOne(cfg, w, e, o)
    requires e.op.CommitChangePassword?
    ensures Ended(Step(cfg, w, e), o)
  {
    SessionLaws.ChangePasswordSessions(w.db, e.op.userId, e.op.verifiedHash, e.op.requester, e.op.newHash,
                                       e.op.keepOthers, e.now);
    SparedElsewhereEnds(w, Step(cfg, w, e), o, e.op.requester);
  }

  lemma EndsOneEnds(cfg: Config, w: World, e: Event, o: nat)
    requires Inv(w) && Inv(Step(cfg, w, e)) && Grows(w, Step(cfg, w, e)) && o in w.logins && EndsOne(cfg, w, e, o)
    ensures Ended(Step(cfg, w, e), o)
  {
    match e.op
    case CommitLogout(_, _) => LogoutEnds(cfg, w, e, o);
    case CommitRevokeSession(_, _, _, _, _) => RevokedSessionEnds(cfg, w, e, o);
    case CommitRevokeOthers(_, _) => RevokedOthersEnd(cfg, w, e, o);
    case CommitChangePassword(_, _, _, _, _) => ChangedPasswordEnds(cfg, w, e, o);
  }

  lemma EndsSessionEnds(cfg: Config, w: World, e: Event, o: nat)
    requires Inv(w) && Inv(Step(cfg, w, e)) && Grows(w, Step(cfg, w, e)) && EndsSession(cfg, w, e, o)
    ensures Ended(Step(cfg, w, e), o)
  {
    if RevokesAll(cfg, w, e, w.logins[o].userId) {
      RevokesAllLeavesNone(cfg, w, e, w.logins[o].userId);
      NoneLeftEnds(w, Step(cfg, w, e), o);
    } else {
      EndsOneEnds(cfg, w, e, o);
    }
  }

  lemma TargetRevoked(db: Db, userId: nat, requester: nat, target: nat, ended: set<nat>, at: Time, now: Time)
    requires RevokeSession(db, userId, requester, target, ended, at, now).1.SessionRevoked?
    ensures var after := RevokeSession(db, userId, requester, target, ended, at, now).0.refresh;
            && target in db.refresh && db.refresh[target].revokedAt.None?
            && target in after && after[target] == db.refresh[target].(revokedAt := Some(now))
  {
  }

  /** A session that a logout, a revocation, a password change or anything else has ended stays ended: none
      of its rows, the later ones a rotation might add included, authenticates or rotates again. */
  lemma SessionEndedForGood(cfg: Config, ws: seq<World>, es: seq<Event>, i: nat, j: nat, o: nat, id: nat)
    requires IsRun(cfg, ws, es) && i < j < |ws|
    requires EndsSession(cfg, ws[i], es[i], o)
    requires OfSession(ws[j], o, id)
    ensures ws[j].db.refresh[id].revokedAt.Some?
    ensures forall user, now :: !Authenticates(ws[j].db, user, id, now)
    ensures forall read, hash, now | read in ws[j].rowReads && read.id == id ::
              !Rotate(cfg, ws[j].db, id, read.row, hash, now).1.Rotated?
  {
    RunGrows(cfg, ws, es, i, i + 1);
    EndsSessionEnds(cfg, ws[i], es[i], o);
    RunGrows(cfg, ws, es, i + 1, j);
    EndedChainsStayEnded(ws[i + 1], ws[j], o);
    EvolvesItself(ws[j].db.refresh, ws[j].db.nextRow);
    RevokedRowIsDead(cfg, ws[j], ws[j], id);
  }

  lemma EvolvesItself(refresh: RefreshTable, nextRow: nat)
    requires TableOk(refresh, nextRow)
    ensures Evolves(refresh, refresh)
  {
    forall id | id in refresh ensures Earlier(refresh[id], refresh[id]) {
      assert LinkOk(refresh, nextRow, id);
    }
  }

  /** A chain has one row that nothing has replaced. */
  lemma OneHead(w: World, a: nat, b: nat)
    requires Inv(w) && a in w.db.refresh && b in w.db.refresh
    requires w.db.refresh[a].replacedBy.None? && w.db.refresh[b].replacedBy.None?
    requires w.origin[a] == w.origin[b]
    ensures a == b
  {
    assert OlderReplaced(w.db.refresh, w.origin, a, b) && OlderReplaced(w.db.refresh, w.origin, b, a);
  }

  lemma LoginsAreRows(w: World)
    requires Inv(w)
    ensures forall id | id in w.logins :: id < w.db.nextRow
  {
    forall id | id in w.logins ensures id < w.db.nextRow {
      assert id in w.db.refresh && LinkOk(w.db.refresh, w.db.nextRow, id);
    }
  }

  /** A login that started the session whose first row is `row`, with the stored hash verified. */
  predicate SignsIn(cfg: Config, w: World, e: Event, userId: nat, row: nat) {
    && e.now >= w.now
    && e.op.CommitLogin?
    && e.op.userId == userId
    && StartSession(cfg, w.db, userId, e.op.verifiedHash, e.op.tokenHash, e.now).1 == SignedIn(row)
    && userId in w.db.users
    && !w.db.users[userId].Disabled()
    && w.db.users[userId].passwordHash == e.op.verifiedHash
  }

  lemma LoginRecorded(cfg: Config, w: World, e: Event, row: nat)
    requires row in Step(cfg, w, e).logins && row !in w.logins
    ensures SignsIn(cfg, w, e, Step(cfg, w, e).logins[row].userId, row)
  {
  }

  lemma {:induction false} LoginHappened(cfg: Config, ws: seq<World>, es: seq<Event>, i: nat, j: nat, row: nat)
    returns (k: nat)
    requires IsRun(cfg, ws, es) && i <= j < |ws|
    requires row in ws[j].logins && row !in ws[i].logins
    ensures i <= k < j && SignsIn(cfg, ws[k], es[k], ws[j].logins[row].userId, row)
    decreases j - i
  {
    if row in ws[j - 1].logins {
      k := LoginHappened(cfg, ws, es, i, j - 1, row);
      RunGrows(cfg, ws, es, j - 1, j);
    } else {
      k := j - 1;
      LoginRecorded(cfg, ws[k], es[k], row);
    }
  }

  /** After everything was revoked, a session of the user comes from a later login, whose verified
      hash was the stored one under the lock. */
  lemma LaterSessionsComeFromLaterLogins(cfg: Config, ws: seq<World>, es: seq<Event>, i: nat, j: nat, userId: nat,
                                         id: nat)
    returns (k: nat)
    requires IsRun(cfg, ws, es) && i < j < |ws|
    requires RevokesAll(cfg, ws[i], es[i], userId)
    requires id in Unrevoked(ws[j].db.refresh, userId)
    ensures i < k < j && id in ws[j].origin && SignsIn(cfg, ws[k], es[k], userId, ws[j].origin[id])
  {
    RevokesAllLeavesNone(cfg, ws[i], es[i], userId);
    RunGrows(cfg, ws, es, i + 1, j);
    NoSessionComesBack(ws[i + 1], ws[j], userId, id);
    var o := ws[j].origin[id];
    assert StartsAtLogin(ws[j].db.refresh, ws[j].origin, ws[j].logins, id);
    LoginsAreRows(ws[i + 1]);
    k := LoginHappened(cfg, ws, es, i + 1, j, o);
  }

  // Sessions and rotations

  function LoginsOf(w: World, userId: nat): set<nat> {
    set id | id in w.logins && w.logins[id].userId == userId
  }

  /** A user's unrevoked rows never outnumber their logins. */
  lemma SessionsPerLogin(cfg: Config, ws: seq<World>, es: seq<Event>, i: nat, userId: nat)
    requires IsRun(cfg, ws, es) && i < |ws|
    ensures |Unrevoked(ws[i].db.refresh, userId)| <= |LoginsOf(ws[i], userId)|
  {
    RunInv(cfg, ws, es, i);
    var w := ws[i];
    forall id | id in Unrevoked(w.db.refresh, userId) ensures id in w.origin && w.origin[id] in LoginsOf(w, userId) {
      assert StartsAtLogin(w.db.refresh, w.origin, w.logins, id);
    }
    DistinctOrigins(ws[i], userId, Unrevoked(ws[i].db.refresh, userId), LoginsOf(ws[i], userId));
  }

  lemma {:induction false} DistinctOrigins(w: World, userId: nat, rows: set<nat>, logins: set<nat>)
    requires Inv(w)
    requires rows <= Unrevoked(w.db.refresh, userId)
    requires forall id | id in rows :: id in w.origin && w.origin[id] in logins
    ensures |rows| <= |logins|
    decreases |rows|
  {
    if rows != {} {
      var id :| id in rows;
      forall other | other in rows - {id} ensures other in w.origin && w.origin[other] in logins - {w.origin[id]} {
        assert LinkOk(w.db.refresh, w.db.nextRow, id) && LinkOk(w.db.refresh, w.db.nextRow, other);
        if w.origin[other] == w.origin[id] {
          OneHead(w, id, other);
        }
      }
      DistinctOrigins(w, userId, rows - {id}, logins - {w.origin[id]});
    }
  }

  predicate RotatesAt(cfg: Config, w: World, e: Event, id: nat) {
    && e.now >= w.now
    && e.op.CommitRotate?
    && e.op.rowRead in w.rowReads
    && e.op.rowRead.id == id
    && Rotate(cfg, w.db, id, e.op.rowRead.row, e.op.tokenHash, e.now).1.Rotated?
  }

  lemma RotatedRowIsRevoked(cfg: Config, w: World, e: Event, id: nat)
    requires Inv(w) && RotatesAt(cfg, w, e, id)
    ensures id in Step(cfg, w, e).db.refresh && Step(cfg, w, e).db.refresh[id].revokedAt.Some?
  {
    assert LinkOk(w.db.refresh, w.db.nextRow, id);
    ReplaceIs(cfg, w.db, id, e.op.rowRead.row.userId, e.op.tokenHash, e.now);
  }

  /** Of all the rotations racing on one token, at most one succeeds. */
  lemma OneRotationPerToken(cfg: Config, ws: seq<World>, es: seq<Event>, i: nat, j: nat, id: nat)
    requires IsRun(cfg, ws, es) && i < j < |es|
    requires RotatesAt(cfg, ws[i], es[i], id)
    ensures !RotatesAt(cfg, ws[j], es[j], id)
  {
    RunInv(cfg, ws, es, i);
    RotatedRowIsRevoked(cfg, ws[i], es[i], id);
    RunGrows(cfg, ws, es, i + 1, j);
    RevokedRowIsDead(cfg, ws[i + 1], ws[j], id);
  }

  /** Whatever happened since its unlocked read, a request that commits a rotation holds an earlier
      version of a row of a well-formed table. */
  lemma RotationsReadEarlierRows(cfg: Config, ws: seq<World>, es: seq<Event>, i: nat, read: RowRead)
    requires IsRun(cfg, ws, es) && i < |ws| && read in ws[i].rowReads
    ensures TableOk(ws[i].db.refresh, ws[i].db.nextRow)
    ensures read.id in ws[i].db.refresh && Earlier(read.row, ws[i].db.refresh[read.id])
  {
    RunInv(cfg, ws, es, i);
  }

  /** Revocation and link are written once along every run. */
  lemma RowsAreWrittenOnce(cfg: Config, ws: seq<World>, es: seq<Event>, i: nat, j: nat, id: nat)
    requires IsRun(cfg, ws, es) && i <= j < |ws|
    requires id in ws[i].db.refresh
    ensures id in ws[j].db.refresh
    ensures ws[i].db.refresh[id].revokedAt.Some? ==> ws[j].db.refresh[id] == ws[i].db.refresh[id]
    ensures ws[i].db.refresh[id].replacedBy.Some? ==> ws[j].db.refresh[id].replacedBy == ws[i].db.refresh[id].replacedBy
  {
    RunGrows(cfg, ws, es, i, j);
    assert Earlier(ws[i].db.refresh[id], ws[j].db.refresh[id]);
  }

  // One-time tokens

  predicate AcceptsAt(cfg: Config, w: World, e: Event, id: nat) {
    && e.now >= w.now
    && e.op.CommitUse?
    && e.op.tokenRead in w.tokenReads
    && e.op.tokenRead.id == id
    && UseToken(cfg, w.db, id, e.op.tokenRead.token, e.op.use, e.now).1.Accepted?
  }

  /** An accepted token is delivered, unexpired, and the one working link of its user and purpose. */
  lemma AcceptedWorks(cfg: Config, w: World, e: Event, id: nat)
    requires Inv(w) && AcceptsAt(cfg, w, e, id)
    ensures id in w.db.tokens && w.db.tokens[id].Usable() && e.now < w.db.tokens[id].expiresAt
    ensures forall other | other in w.db.tokens && w.db.tokens[other].Usable()
                           && SameFlow(w.db.tokens[other], w.db.tokens[id]) :: other == id
    ensures Spent(Step(cfg, w, e).db.tokens, id)
  {
    var read := e.op.tokenRead;
    UseTokenEffect(cfg, w.db, id, read.token, e.op.use, e.now);
    assert EarlierToken(read.token, w.db.tokens[id]);
  }

  /** A token is accepted at most once in a run, and never before its delivery. */
  lemma AcceptedOnce(cfg: Config, ws: seq<World>, es: seq<Event>, i: nat, j: nat, id: nat)
    requires IsRun(cfg, ws, es) && i < j < |es|
    requires AcceptsAt(cfg, ws[i], es[i], id)
    ensures id in ws[i].db.tokens && ws[i].db.tokens[id].Usable() && es[i].now < ws[i].db.tokens[id].expiresAt
    ensures !AcceptsAt(cfg, ws[j], es[j], id)
  {
    RunInv(cfg, ws, es, i);
    AcceptedWorks(cfg, ws[i], es[i], id);
    RunGrows(cfg, ws, es, i + 1, j);
    SpentIsNotAccepted(cfg, ws[i + 1], ws[j], es[j], id);
  }

  lemma SpentIsNotAccepted(cfg: Config, w: World, w': World, e: Event, id: nat)
    requires Grows(w, w') && Spent(w.db.tokens, id)
    ensures !AcceptsAt(cfg, w', e, id)
  {
    assert EarlierToken(w.db.tokens[id], w'.db.tokens[id]);
    if AcceptsAt(cfg, w', e, id) {
      UseTokenEffect(cfg, w'.db, id, e.op.tokenRead.token, e.op.use, e.now);
      assert false;
    }
  }

  /** A commit that outdates the user's earlier links of the purposes. */
  predicate Outdates(cfg: Config, w: World, e: Event, userId: nat, purposes: set<Purpose>) {
    && e.now >= w.now
    && match e.op
       case CommitChangePassword(u, verified, requester, newHash, keepOthers) =>
         && u == userId && purposes == PASSWORD_BOUND
         && ChangePassword(w.db, u, verified, requester, newHash, keepOthers, e.now).1.Changed?
       case CommitState(u, disable, permitted) =>
         && u == userId && disable && purposes == ALL_PURPOSES
         && SetUserState(w.db, u, true, permitted, e.now).1 == StateSet(true)
       case CommitUse(read, use) =>
         && read in w.tokenReads && read.token.userId == userId
         && ((use.UseReset? && purposes == PASSWORD_BOUND) || (use.UseChange? && purposes == ALL_PURPOSES))
         && UseToken(cfg, w.db, read.id, read.token, use, e.now).1.Accepted?
       case _ => false
  }

  lemma OutdatesSpends(cfg: Config, w: World, e: Event, userId: nat, purposes: set<Purpose>, id: nat)
    requires Inv(w) && Outdates(cfg, w, e, userId, purposes)
    requires id in Step(cfg, w, e).db.tokens
    requires Step(cfg, w, e).db.tokens[id].userId == userId && Step(cfg, w, e).db.tokens[id].purpose in purposes
    ensures Step(cfg, w, e).db.tokens[id].usedAt.Some?
  {
    var later := w.(now := e.now);
    if e.op.CommitUse? {
      var (read, use) := (e.op.tokenRead, e.op.use);
      UseTokenEffect(cfg, later.db, read.id, read.token, use, later.now);
    } else {
      VoidsIsTheEffect(cfg, later, e.op);
      assert id != 0;
    }
  }

  /** After a password reset or change no earlier reset or email change link is accepted, and after an
      email change or a disable no earlier link at all; a message still in flight is not activated. */
  lemma OutdatedForGood(cfg: Config, ws: seq<World>, es: seq<Event>, i: nat, j: nat, userId: nat,
                        purposes: set<Purpose>, held: TokenRead)
    requires IsRun(cfg, ws, es) && i < j < |ws|
    requires Outdates(cfg, ws[i], es[i], userId, purposes)
    requires held in ws[j].tokenReads && held.id < ws[i].db.nextToken
    requires held.token.userId == userId && held.token.purpose in purposes
    ensures forall use, now :: !UseToken(cfg, ws[j].db, held.id, held.token, use, now).1.Accepted?
    ensures forall now :: !Activate(ws[j].db, held.id, held.token, now).1
  {
    RunGrows(cfg, ws, es, i, i + 1);
    RunGrows(cfg, ws, es, i + 1, j);
    var id := held.id;
    if id in ws[j].db.tokens {
      assert EarlierToken(held.token, ws[j].db.tokens[id]);
      assert id in ws[i + 1].db.tokens && EarlierToken(ws[i + 1].db.tokens[id], ws[j].db.tokens[id]);
      OutdatesSpends(cfg, ws[i], es[i], userId, purposes, id);
    }
    UsedIsRefused(cfg, ws[j].db, id, held.token);
  }

  lemma UsedIsRefused(cfg: Config, db: Db, id: nat, token: OneTimeToken)
    requires id in db.tokens ==> db.tokens[id].usedAt.Some?
    ensures forall use, now :: !UseToken(cfg, db, id, token, use, now).1.Accepted?
    ensures forall now :: !Activate(db, id, token, now).1
  {
    forall use, now ensures !UseToken(cfg, db, id, token, use, now).1.Accepted? {
      UseTokenEffect(cfg, db, id, token, use, now);
    }
  }

  predicate IssuesAt(cfg: Config, w: World, e: Event, userId: nat, purpose: Purpose, id: nat) {
    && e.now >= w.now
    && e.op.CommitIssue?
    && e.op.userId == userId
    && e.op.flow.Purpose() == purpose
    && Issue(cfg, w.db, userId, e.op.flow, e.op.tokenHash, e.now).1 == Issued(id)
  }

  /** Two messages of one user and purpose are a minute apart, unless the first was withdrawn
      by the time of the second. */
  lemma MessagesAreSpaced(cfg: Config, ws: seq<World>, es: seq<Event>, i: nat, j: nat, userId: nat, purpose: Purpose,
                          a: nat, b: nat)
    requires IsRun(cfg, ws, es) && i < j < |es|
    requires IssuesAt(cfg, ws[i], es[i], userId, purpose, a) && IssuesAt(cfg, ws[j], es[j], userId, purpose, b)
    requires a in ws[j].db.tokens
    ensures es[j].now >= es[i].now + 60_000_000_000
  {
    RunInv(cfg, ws, es, i);
    IssuedNow(cfg, ws[i], es[i], userId, purpose, a);
    RunGrows(cfg, ws, es, i + 1, j);
    SpacedFrom(cfg, ws[i + 1], ws[j], es[j], userId, purpose, a, b);
  }

  lemma IssuedNow(cfg: Config, w: World, e: Event, userId: nat, purpose: Purpose, id: nat)
    requires IssuesAt(cfg, w, e, userId, purpose, id)
    ensures var tokens := Step(cfg, w, e).db.tokens;
            && id in tokens && tokens[id].createdAt == e.now
            && tokens[id].userId == userId && tokens[id].purpose == purpose
  {
  }

  lemma SpacedFrom(cfg: Config, w: World, w': World, e: Event, userId: nat, purpose: Purpose, a: nat, b: nat)
    requires Grows(w, w') && Inv(w')
    requires a in w.db.tokens && a in w'.db.tokens
    requires w.db.tokens[a].userId == userId && w.db.tokens[a].purpose == purpose
    requires IssuesAt(cfg, w', e, userId, purpose, b)
    ensures e.now >= w.db.tokens[a].createdAt + RESEND_INTERVAL
  {
    assert EarlierToken(w.db.tokens[a], w'.db.tokens[a]);
    assert TokensOk(w'.db.tokens, w'.db.nextToken, e.now);
    WaitSpaces(w'.db, userId, purpose, e.now);
  }

  // Provenance of a verified address

  lemma {:induction false} AcceptedHappened(cfg: Config, ws: seq<World>, es: seq<Event>, j: nat, id: nat)
    returns (k: nat)
    requires IsRun(cfg, ws, es) && j < |ws| && id in ws[j].accepted
    ensures k < j && AcceptsAt(cfg, ws[k], es[k], id)
  {
    if id in ws[j - 1].accepted {
      k := AcceptedHappened(cfg, ws, es, j - 1, id);
    } else {
      k := j - 1;
      AcceptedNow(cfg, ws[k], es[k], id);
    }
  }

  lemma AcceptedNow(cfg: Config, w: World, e: Event, id: nat)
    requires id in Step(cfg, w, e).accepted && id !in w.accepted
    ensures AcceptsAt(cfg, w, e, id)
  {
  }

  predicate VouchesAt(w: World, e: Event, userId: nat, address: string) {
    && e.now >= w.now
    && e.op.CreateUser?
    && e.op.superuser
    && userId == w.db.nextUser
    && address == NormalizeEmail(e.op.email)
    && address != ""
    && !EmailTaken(w.db.users, address)
  }

  lemma {:induction false} VouchedHappened(cfg: Config, ws: seq<World>, es: seq<Event>, j: nat, userId: nat,
                                           address: string)
    returns (k: nat)
    requires IsRun(cfg, ws, es) && j < |ws| && (userId, address) in ws[j].vouched
    ensures k < j && VouchesAt(ws[k], es[k], userId, address)
  {
    if (userId, address) in ws[j - 1].vouched {
      k := VouchedHappened(cfg, ws, es, j - 1, userId, address);
    } else {
      k := j - 1;
    }
  }

  /** A verified email was proven: up to normalization, it is the address of a delivered token the user
      had accepted, or the one an operator created them with. */
  lemma VerifiedMeansProven(cfg: Config, ws: seq<World>, es: seq<Event>, j: nat, userId: nat)
    returns (k: nat, address: string)
    requires IsRun(cfg, ws, es) && j < |ws|
    requires userId in ws[j].db.users && ws[j].db.users[userId].EmailVerified()
    ensures NormalizeEmail(address) == NormalizeEmail(ws[j].db.users[userId].email)
    ensures k < j
    ensures || VouchesAt(ws[k], es[k], userId, address)
            || exists id :: AcceptsAt(cfg, ws[k], es[k], id) && ProvedBy(ws[k].db.tokens, id, userId, address)
  {
    RunInv(cfg, ws, es, j);
    address := ws[j].db.users[userId].verifiedEmail;
    if (userId, address) in ws[j].vouched {
      k := VouchedHappened(cfg, ws, es, j, userId, address);
    } else {
      var id :| id in ws[j].accepted && ProvedBy(ws[j].db.tokens, id, userId, address);
      k := AcceptedHappened(cfg, ws, es, j, id);
      RunGrows(cfg, ws, es, k, j);
      AcceptedWorks(cfg, ws[k], es[k], id);
      assert EarlierToken(ws[k].db.tokens[id], ws[j].db.tokens[id]);
      assert ProvedBy(ws[k].db.tokens, id, userId, address);
    }
  }
}
