/**
 Every step keeps the invariants of `AuthRuns`, and nothing a step has written
 once comes undone.
 */
module AuthInvariant {
  import opened Options
  import opened AuthStore
  import opened SessionTx
  import opened OneTimeTx
  import opened Chains
  import opened Tokens
  import opened AuthRuns

  // The refresh token table

  /** The table of `w'` follows from that of `w` by one statement, and the reads still hold. */
  predicate SessionStep(w: World, w': World) {
    && SessionInv(w'.db.refresh, w'.db.nextRow, w'.origin, w'.logins, w'.rowReads)
    && w.db.nextRow <= w'.db.nextRow
    && Evolves(w.db.refresh, w'.db.refresh)
    && (forall id | id in w'.db.refresh :: id in w.db.refresh || id >= w.db.nextRow)
    && (forall id | id in w.origin :: id in w'.origin && w'.origin[id] == w.origin[id])
    && (forall id | id in w.logins :: id in w'.logins && w'.logins[id] == w.logins[id])
    && w.rowReads <= w'.rowReads
  }

  lemma ReadsStay(before: RefreshTable, after: RefreshTable, rowReads: set<RowRead>)
    requires RowReadsOk(before, rowReads) && Evolves(before, after)
    ensures RowReadsOk(after, rowReads)
  {
    forall read | read in rowReads ensures read.id in after && Earlier(read.row, after[read.id]) {
      assert Earlier(read.row, before[read.id]) && Earlier(before[read.id], after[read.id]);
    }
  }

  lemma SameSessions(w: World, w': World)
    requires SessionInv(w.db.refresh, w.db.nextRow, w.origin, w.logins, w.rowReads)
    requires w'.db.refresh == w.db.refresh && w'.db.nextRow == w.db.nextRow
    requires w'.origin == w.origin && w'.logins == w.logins && w'.rowReads == w.rowReads
    ensures SessionStep(w, w')
  {
    assert RevokeWhere(w.db.refresh, {}, 0) == w.db.refresh;
    RevokeKeeps(w.db.refresh, w.db.nextRow, {}, 0);
  }

  lemma RevokeStep(w: World, w': World, ids: set<nat>, at: Time)
    requires SessionInv(w.db.refresh, w.db.nextRow, w.origin, w.logins, w.rowReads)
    requires w'.db.refresh == RevokeWhere(w.db.refresh, ids, at) && w'.db.nextRow == w.db.nextRow
    requires w'.origin == w.origin && w'.logins == w.logins && w'.rowReads == w.rowReads
    ensures SessionStep(w, w')
  {
    RevokeKeeps(w.db.refresh, w.db.nextRow, ids, at);
    ReadsStay(w.db.refresh, w'.db.refresh, w.rowReads);
    RevokedOrigin(w.db.refresh, w.origin, w.logins, ids, at);
  }

  /** Revoking rows moves none of them to another chain. */
  lemma RevokedOrigin(refresh: RefreshTable, origin: map<nat, nat>, logins: map<nat, Login>, ids: set<nat>, at: Time)
    requires OriginOk(refresh, origin, logins)
    ensures OriginOk(RevokeWhere(refresh, ids, at), origin, logins)
  {
    var after := RevokeWhere(refresh, ids, at);
    forall id | id in after ensures StartsAtLogin(after, origin, logins, id) {
      assert StartsAtLogin(refresh, origin, logins, id);
    }
    forall a, b | a in after && b in after ensures OlderReplaced(after, origin, a, b) {
      assert OlderReplaced(refresh, origin, a, b);
    }
  }

  lemma LoginStep(cfg: Config, w: World, userId: nat, verified: string, tokenHash: string)
    requires SessionInv(w.db.refresh, w.db.nextRow, w.origin, w.logins, w.rowReads)
    ensures SessionStep(w, Perform(cfg, w, CommitLogin(userId, verified, tokenHash)))
  {
    var w' := Perform(cfg, w, CommitLogin(userId, verified, tokenHash));
    if StartSession(cfg, w.db, userId, verified, tokenHash, w.now).1.SignedIn? {
      SignedInStep(cfg, w, w', userId, tokenHash, w'.logins[w.db.nextRow]);
    } else {
      SameSessions(w, w');
    }
  }

  lemma SignedInStep(cfg: Config, w: World, w': World, userId: nat, tokenHash: string, login: Login)
    requires SessionInv(w.db.refresh, w.db.nextRow, w.origin, w.logins, w.rowReads)
    requires !RowHashTaken(w.db.refresh, tokenHash)
    requires w'.db == IssueRow(cfg, w.db, userId, tokenHash, w.now) && w'.rowReads == w.rowReads
    requires w'.origin == w.origin[w.db.nextRow := w.db.nextRow] && w'.logins == w.logins[w.db.nextRow := login]
    requires login.userId == userId && login.verifiedHash == login.storedHash
    ensures SessionStep(w, w')
  {
    Chains.IssueKeeps(cfg, w.db, userId, tokenHash, w.now);
    ReadsStay(w.db.refresh, w'.db.refresh, w.rowReads);
    forall id | id in w.db.refresh ensures id < w.db.nextRow {
      assert LinkOk(w.db.refresh, w.db.nextRow, id);
    }
    NewOrigin(w.db.refresh, w'.db.refresh[w.db.nextRow], w.origin, w.logins, login, w.db.nextRow);
  }

  /** A login's row starts a chain of its own. */
  lemma NewOrigin(before: RefreshTable, row: RefreshRow, origin: map<nat, nat>, logins: map<nat, Login>,
                  login: Login, id: nat)
    requires OriginOk(before, origin, logins)
    requires forall other | other in before :: other < id
    requires row.replacedBy.None?
    requires login.userId == row.userId && login.verifiedHash == login.storedHash
    ensures OriginOk(before[id := row], origin[id := id], logins[id := login])
  {
    var (after, origin', logins') := (before[id := row], origin[id := id], logins[id := login]);
    forall other | other in after ensures StartsAtLogin(after, origin', logins', other) {
      assert other != id ==> StartsAtLogin(before, origin, logins, other);
    }
    forall a, b | a in after && b in after ensures OlderReplaced(after, origin', a, b) {
      if a in before && b in before {
        assert OlderReplaced(before, origin, a, b);
      } else if a in before {
        assert StartsAtLogin(before, origin, logins, a);
      }
    }
  }

  /** A rotation's row continues the chain of the row it replaces. */
  lemma NextOrigin(before: RefreshTable, replaced: RefreshRow, row: RefreshRow, origin: map<nat, nat>,
                   logins: map<nat, Login>, id: nat, next: nat)
    requires OriginOk(before, origin, logins)
    requires id in before && before[id].replacedBy.None?
    requires forall other | other in before :: other < next
    requires replaced.userId == row.userId == before[id].userId
    requires replaced.replacedBy == Some(next) && row.replacedBy.None?
    ensures OriginOk(before[id := replaced][next := row], origin[next := origin[id]], logins)
  {
    var after := before[id := replaced][next := row];
    var origin' := origin[next := origin[id]];
    forall other | other in after ensures StartsAtLogin(after, origin', logins, other) {
      assert StartsAtLogin(before, origin, logins, id);
      assert other != next ==> StartsAtLogin(before, origin, logins, other);
    }
    forall a, b | a in after && b in after ensures OlderReplaced(after, origin', a, b) {
      // An older row of the chain `next` joins is older than `id`, or is `id`.
      if a in before {
        assert OlderReplaced(before, origin, a, if b == next then id else b) && OlderReplaced(before, origin, id, a);
      }
    }
  }

  lemma ReplaceStep(cfg: Config, w: World, w': World, id: nat, tokenHash: string)
    requires SessionInv(w.db.refresh, w.db.nextRow, w.origin, w.logins, w.rowReads)
    requires id in w.db.refresh && w.db.refresh[id].revokedAt.None? && !RowHashTaken(w.db.refresh, tokenHash)
    requires w'.db == Replace(cfg, w.db, id, w.db.refresh[id].userId, tokenHash, w.now)
    requires w'.origin == w.origin[w.db.nextRow := w.origin[id]]
    requires w'.logins == w.logins && w'.rowReads == w.rowReads
    ensures SessionStep(w, w')
  {
    ReplaceKeeps(cfg, w.db, id, w.db.refresh[id].userId, tokenHash, w.now);
    ReadsStay(w.db.refresh, w'.db.refresh, w.rowReads);
    forall other | other in w.db.refresh ensures other < w.db.nextRow {
      assert LinkOk(w.db.refresh, w.db.nextRow, other);
    }
    assert LinkOk(w.db.refresh, w.db.nextRow, id);
    ReplaceIs(cfg, w.db, id, w.db.refresh[id].userId, tokenHash, w.now);
    NextOrigin(w.db.refresh, w'.db.refresh[id], w'.db.refresh[w.db.nextRow], w.origin, w.logins, id, w.db.nextRow);
  }

  lemma RotateStep(cfg: Config, w: World, read: RowRead, tokenHash: string)
    requires SessionInv(w.db.refresh, w.db.nextRow, w.origin, w.logins, w.rowReads)
    ensures SessionStep(w, Perform(cfg, w, CommitRotate(read, tokenHash)))
  {
    var w' := Perform(cfg, w, CommitRotate(read, tokenHash));
    var r := Rotate(cfg, w.db, read.id, read.row, tokenHash, w.now).1;
    RotateWrites(cfg, w.db, read.id, read.row, tokenHash, w.now);
    if read in w.rowReads && r.Rotated? {
      ReplaceStep(cfg, w, w', read.id, tokenHash);
    } else if read in w.rowReads && r.Reuse? {
      RevokeStep(w, w', RowsOf(w.db.refresh, read.row.userId), w.now);
    } else {
      SameSessions(w, w');
    }
  }

  lemma RotateWrites(cfg: Config, db: Db, id: nat, read: RefreshRow, tokenHash: string, now: Time)
    ensures var (db', r) := Rotate(cfg, db, id, read, tokenHash, now);
            && (!r.Rotated? && !r.Reuse? ==> db' == db)
            && (r.Reuse? ==> db' == db.(refresh := RevokeAll(db.refresh, read.userId, now)))
            && (r.Rotated? ==>
                  && id in db.refresh && db.refresh[id].revokedAt.None? && !RowHashTaken(db.refresh, tokenHash)
                  && r.row == db.nextRow && db' == Replace(cfg, db, id, read.userId, tokenHash, now))
  {
  }

  /** The rows a commit that only revokes revokes. */
  function Revokes(cfg: Config, w: World, op: Op): set<nat> {
    match op
    case CommitLogout(rowId, at) => if at > w.now then {} else {rowId}
    case CommitRevokeAll(userId, requester) =>
      if RevokeAllSessions(w.db, userId, requester, w.now).1.SessionsRevoked? then RowsOf(w.db.refresh, userId) else {}
    case CommitRevokeOthers(userId, keep) =>
      if RevokeOthers(w.db, userId, keep, w.now).1.SessionsRevoked?
      then set id | id in RowsOf(w.db.refresh, userId)
                    && id !in RequesterChain(w.db.refresh, userId, keep, w.now).value
      else {}
    case CommitChangePassword(userId, verified, requester, newHash, keepOthers) =>
      if !ChangePassword(w.db, userId, verified, requester, newHash, keepOthers, w.now).1.Changed? || keepOthers then {}
      else if requester == 0 then RowsOf(w.db.refresh, userId)
      else set id | id in RowsOf(w.db.refresh, userId)
                    && id !in RequesterChain(w.db.refresh, userId, requester, w.now).value
    case CommitState(userId, disable, permitted) =>
      if SetUserState(w.db, userId, disable, permitted, w.now).1 == StateSet(true) && disable
      then RowsOf(w.db.refresh, userId) else {}
    case CommitUse(read, use) =>
      if read in w.tokenReads && use.UseReset? && !cfg.keepSessionsOnReset
         && UseToken(cfg, w.db, read.id, read.token, use, w.now).1.Accepted?
      then RowsOf(w.db.refresh, read.token.userId) else {}
    case _ => {}
  }

  /** The instant a commit writes: a logout reads its clock before its update. */
  function InstantOf(w: World, op: Op): Time {
    match op
    case CommitLogout(_, at) => at
    case _ => w.now
  }

  predicate OnlyRevoking(op: Op) {
    !op.CommitLogin? && !op.ReadRow? && !op.CommitRotate? && !op.CommitRevokeSession?
  }

  lemma RevokesIsTheEffect(cfg: Config, w: World, op: Op)
    requires OnlyRevoking(op)
    ensures var w' := Perform(cfg, w, op);
            && w'.db.refresh == RevokeWhere(w.db.refresh, Revokes(cfg, w, op), InstantOf(w, op))
            && w'.db.nextRow == w.db.nextRow
            && w'.origin == w.origin && w'.logins == w.logins && w'.rowReads == w.rowReads
  {
    assert RevokeWhere(w.db.refresh, {}, InstantOf(w, op)) == w.db.refresh;
    match op
    case CommitChangePassword(_, _, _, _, _) => ChangeRevokes(cfg, w, op);
    case CommitUse(_, _) => UseRevokes(cfg, w, op);
    case CommitLogout(_, _) =>
    case CommitRevokeAll(_, _) =>
    case CommitRevokeOthers(_, _) =>
    case CommitState(_, _, _) =>
    case _ => RevokesNothing(cfg, w, op);
  }

  lemma RevokesNothing(cfg: Config, w: World, op: Op)
    requires OnlyRevoking(op) && !op.CommitLogout? && !op.CommitRevokeAll?
    requires !op.CommitRevokeOthers? && !op.CommitChangePassword? && !op.CommitState? && !op.CommitUse?
    ensures var w' := Perform(cfg, w, op);
            && w'.db.refresh == w.db.refresh && w'.db.nextRow == w.db.nextRow
            && w'.origin == w.origin && w'.logins == w.logins && w'.rowReads == w.rowReads
    ensures Revokes(cfg, w, op) == {}
  {
  }

  lemma ChangeRevokes(cfg: Config, w: World, op: Op)
    requires op.CommitChangePassword?
    ensures Perform(cfg, w, op).db.refresh == RevokeWhere(w.db.refresh, Revokes(cfg, w, op), w.now)
    ensures Perform(cfg, w, op) == w.(db := Perform(cfg, w, op).db)
    ensures Perform(cfg, w, op).db.nextRow == w.db.nextRow
  {
    assert RevokeWhere(w.db.refresh, {}, w.now) == w.db.refresh;
  }

  lemma UseRevokes(cfg: Config, w: World, op: Op)
    requires op.CommitUse?
    ensures Perform(cfg, w, op).db.refresh == RevokeWhere(w.db.refresh, Revokes(cfg, w, op), w.now)
    ensures Perform(cfg, w, op) == w.(db := Perform(cfg, w, op).db, accepted := Perform(cfg, w, op).accepted)
    ensures Perform(cfg, w, op).db.nextRow == w.db.nextRow
  {
    assert RevokeWhere(w.db.refresh, {}, w.now) == w.db.refresh;
  }

  lemma SessionStepTransitive(a: World, b: World, c: World)
    requires SessionStep(a, b) && SessionStep(b, c)
    ensures SessionStep(a, c)
  {
    EvolvesTransitive(a.db.refresh, b.db.refresh, c.db.refresh);
  }

  /** The logouts that come between the list and the update, and the update. */
  lemma RevokeSessionStep(cfg: Config, w: World, userId: nat, requester: nat, target: nat, ended: set<nat>, at: Time)
    requires SessionInv(w.db.refresh, w.db.nextRow, w.origin, w.logins, w.rowReads)
    ensures SessionStep(w, Perform(cfg, w, CommitRevokeSession(userId, requester, target, ended, at)))
  {
    var w' := Perform(cfg, w, CommitRevokeSession(userId, requester, target, ended, at));
    RevokeSessionWrites(w.db, userId, requester, target, ended, at, w.now);
    if w'.db == w.db {
      SameSessions(w, w');
    } else {
      var later := w.(db := w.db.(refresh := RevokeWhere(w.db.refresh, ended, at)));
      RevokeStep(w, later, ended, at);
      if w'.db != later.db {
        RevokeStep(later, w', {target}, w.now);
        SessionStepTransitive(w, later, w');
      }
    }
  }

  lemma RevokeSessionWrites(db: Db, userId: nat, requester: nat, target: nat, ended: set<nat>, at: Time, now: Time)
    ensures var db' := RevokeSession(db, userId, requester, target, ended, at, now).0;
            var later := RevokeWhere(db.refresh, ended, at);
            || db' == db
            || db' == db.(refresh := later)
            || db' == db.(refresh := RevokeWhere(later, {target}, now))
  {
  }

  lemma SessionKeeps(cfg: Config, w: World, op: Op)
    requires SessionInv(w.db.refresh, w.db.nextRow, w.origin, w.logins, w.rowReads)
    ensures SessionStep(w, Perform(cfg, w, op))
  {
    match op
    case CommitLogin(userId, verified, tokenHash) => LoginStep(cfg, w, userId, verified, tokenHash);
    case CommitRotate(read, tokenHash) => RotateStep(cfg, w, read, tokenHash);
    case CommitRevokeSession(userId, requester, target, ended, at) =>
      RevokeSessionStep(cfg, w, userId, requester, target, ended, at);
    case ReadRow(tokenHash) =>
      SameSessions(w, w);
    case _ =>
      RevokesIsTheEffect(cfg, w, op);
      RevokeStep(w, Perform(cfg, w, op), Revokes(cfg, w, op), InstantOf(w, op));
  }

  // The one-time token table

  predicate TokenStep(w: World, w': World) {
    && TokenInv(w'.db.tokens, w'.db.nextToken, w'.now, w'.tokenReads, w'.accepted)
    && w.db.nextToken <= w'.db.nextToken
    && TokensEvolve(w.db.tokens, w.db.nextToken, w'.db.tokens)
    && w.tokenReads <= w'.tokenReads
    && w.accepted <= w'.accepted
  }

  /** What a request holds of a token, and what has been accepted, outlive any statement. */
  lemma HoldingsStay(tokens: TokenTable, nextToken: nat, after: TokenTable, nextAfter: nat, held: set<TokenRead>,
                     accepted: seq<nat>)
    requires TokenReadsOk(tokens, nextToken, held) && AcceptedOk(tokens, accepted)
    requires TokensEvolve(tokens, nextToken, after) && nextToken <= nextAfter
    ensures TokenReadsOk(after, nextAfter, held) && AcceptedOk(after, accepted)
  {
    forall read | read in held
      ensures if read.id in after then EarlierToken(read.token, after[read.id]) else read.token.sentAt.None?
    {
      if read.id in tokens {
        assert EarlierToken(read.token, tokens[read.id]);
      }
    }
    forall i | 0 <= i < |accepted| ensures Spent(after, accepted[i]) {
      assert Spent(tokens, accepted[i]);
    }
  }

  lemma EvolveStep(w: World, w': World)
    requires TokenInv(w.db.tokens, w.db.nextToken, w.now, w.tokenReads, w.accepted)
    requires TokensOk(w'.db.tokens, w'.db.nextToken, w'.now) && w.db.nextToken <= w'.db.nextToken
    requires TokensEvolve(w.db.tokens, w.db.nextToken, w'.db.tokens)
    requires w'.tokenReads == w.tokenReads && w'.accepted == w.accepted
    ensures TokenStep(w, w')
  {
    HoldingsStay(w.db.tokens, w.db.nextToken, w'.db.tokens, w'.db.nextToken, w.tokenReads, w.accepted);
  }

  lemma IssueStep(cfg: Config, w: World, userId: nat, flow: Flow, tokenHash: string)
    requires TokenInv(w.db.tokens, w.db.nextToken, w.now, w.tokenReads, w.accepted)
    ensures TokenStep(w, Perform(cfg, w, CommitIssue(userId, flow, tokenHash)))
  {
    var w' := Perform(cfg, w, CommitIssue(userId, flow, tokenHash));
    Tokens.IssueKeeps(cfg, w.db, userId, flow, tokenHash, w.now);
    MarkUsedNothing(w.db.tokens, w.db.nextToken, w.now);
    HoldingsStay(w.db.tokens, w.db.nextToken, w'.db.tokens, w'.db.nextToken, w.tokenReads, w.accepted);
  }

  lemma MarkUsedNothing(tokens: TokenTable, nextToken: nat, now: Time)
    requires TokensOk(tokens, nextToken, now)
    ensures MarkUsed(tokens, {}, now) == tokens
    ensures TokensEvolve(tokens, nextToken, tokens)
  {
    assert MarkUsed(tokens, {}, now) == tokens;
    MarkUsedKeeps(tokens, nextToken, now, {}, now);
  }

  lemma UseStep(cfg: Config, w: World, read: TokenRead, use: Use)
    requires TokenInv(w.db.tokens, w.db.nextToken, w.now, w.tokenReads, w.accepted)
    ensures TokenStep(w, Perform(cfg, w, CommitUse(read, use)))
  {
    var w' := Perform(cfg, w, CommitUse(read, use));
    if read !in w.tokenReads {
      MarkUsedNothing(w.db.tokens, w.db.nextToken, w.now);
    } else {
      UseTokenKeeps(cfg, w.db, read.id, read.token, use, w.now);
      UseTokenEffect(cfg, w.db, read.id, read.token, use, w.now);
      HoldingsStay(w.db.tokens, w.db.nextToken, w'.db.tokens, w'.db.nextToken, w.tokenReads, w.accepted);
      if UseToken(cfg, w.db, read.id, read.token, use, w.now).1.Accepted? {
        NotYetAccepted(w.db.tokens, w.accepted, read.id);
        AcceptedMore(w'.db.tokens, w.accepted, read.id);
      }
    }
  }

  /** An unused token is none of those accepted before. */
  lemma NotYetAccepted(tokens: TokenTable, accepted: seq<nat>, id: nat)
    requires AcceptedOk(tokens, accepted) && id in tokens && tokens[id].usedAt.None?
    ensures id !in accepted
  {
    forall i | 0 <= i < |accepted| ensures accepted[i] != id {
      assert Spent(tokens, accepted[i]);
    }
  }

  lemma AcceptedMore(tokens: TokenTable, accepted: seq<nat>, id: nat)
    requires AcceptedOk(tokens, accepted) && Spent(tokens, id) && id !in accepted
    ensures AcceptedOk(tokens, accepted + [id])
  {
  }

  /** The tokens a commit voids, apart from a use. */
  function Voids(w: World, op: Op): set<nat> {
    match op
    case CommitChangePassword(userId, verified, requester, newHash, keepOthers) =>
      if ChangePassword(w.db, userId, verified, requester, newHash, keepOthers, w.now).1.Changed?
      then TokensOf(w.db.tokens, userId, PASSWORD_BOUND) - {0} else {}
    case CommitState(userId, disable, permitted) =>
      if SetUserState(w.db, userId, disable, permitted, w.now).1 == StateSet(true) && disable
      then TokensOf(w.db.tokens, userId, ALL_PURPOSES) - {0} else {}
    case _ => {}
  }

  predicate OnlyVoiding(op: Op) {
    !op.CommitIssue? && !op.CommitActivate? && !op.CommitWithdraw? && !op.ReadToken? && !op.CommitUse?
  }

  lemma VoidsIsTheEffect(cfg: Config, w: World, op: Op)
    requires OnlyVoiding(op)
    ensures var w' := Perform(cfg, w, op);
            && w'.db.tokens == MarkUsed(w.db.tokens, Voids(w, op), w.now)
            && w'.db.nextToken == w.db.nextToken && w'.now == w.now
            && w'.tokenReads == w.tokenReads && w'.accepted == w.accepted
  {
    assert MarkUsed(w.db.tokens, {}, w.now) == w.db.tokens;
  }

  lemma ActivateStep(cfg: Config, w: World, read: TokenRead)
    requires TokenInv(w.db.tokens, w.db.nextToken, w.now, w.tokenReads, w.accepted)
    ensures TokenStep(w, Perform(cfg, w, CommitActivate(read)))
  {
    if read in w.tokenReads {
      ActivateKeeps(w.db, read.id, read.token, w.now);
    } else {
      EvolvesAsIs(w.db.tokens, w.db.nextToken);
    }
    EvolveStep(w, Perform(cfg, w, CommitActivate(read)));
  }

  lemma ReadTokenStep(cfg: Config, w: World, tokenHash: string)
    requires TokenInv(w.db.tokens, w.db.nextToken, w.now, w.tokenReads, w.accepted)
    ensures TokenStep(w, Perform(cfg, w, ReadToken(tokenHash)))
  {
    EvolvesAsIs(w.db.tokens, w.db.nextToken);
  }

  lemma TokenKeeps(cfg: Config, w: World, op: Op)
    requires TokenInv(w.db.tokens, w.db.nextToken, w.now, w.tokenReads, w.accepted)
    ensures TokenStep(w, Perform(cfg, w, op))
  {
    match op
    case CommitIssue(userId, flow, tokenHash) => IssueStep(cfg, w, userId, flow, tokenHash);
    case CommitUse(read, use) => UseStep(cfg, w, read, use);
    case CommitActivate(read) => ActivateStep(cfg, w, read);
    case CommitWithdraw(tokenId) =>
      WithdrawKeeps(w.db, tokenId, w.now);
      EvolveStep(w, Perform(cfg, w, op));
    case ReadToken(tokenHash) => ReadTokenStep(cfg, w, tokenHash);
    case _ =>
      VoidsIsTheEffect(cfg, w, op);
      MarkUsedKeeps(w.db.tokens, w.db.nextToken, w.now, Voids(w, op), w.now);
      EvolveStep(w, Perform(cfg, w, op));
  }

  // Verified addresses

  lemma ProvenStays(w: World, w': World, userId: nat, address: string)
    requires AcceptedOk(w.db.tokens, w.accepted)
    requires TokensEvolve(w.db.tokens, w.db.nextToken, w'.db.tokens)
    requires w.accepted <= w'.accepted && w.vouched <= w'.vouched
    requires Proven(w.db.tokens, w.accepted, w.vouched, userId, address)
    ensures Proven(w'.db.tokens, w'.accepted, w'.vouched, userId, address)
  {
    if (userId, address) !in w.vouched {
      var i :| 0 <= i < |w.accepted| && ProvedBy(w.db.tokens, w.accepted[i], userId, address);
      assert Spent(w.db.tokens, w.accepted[i]) && w.accepted[i] == w'.accepted[i];
      assert ProvedBy(w'.db.tokens, w.accepted[i], userId, address);
    }
  }

  /** Whether a user's verification fields are those of `before`, or newly proven. */
  predicate VerificationKept(before: UserTable, after: UserTable, id: nat)
    requires id in after
  {
    && id in before
    && after[id].emailVerifiedAt == before[id].emailVerifiedAt
    && after[id].verifiedEmail == before[id].verifiedEmail
  }

  /** A use that writes a verification, to the address its token was mailed to. */
  predicate VerifiesBy(cfg: Config, w: World, op: Op, id: nat, address: string) {
    && op.CommitUse?
    && op.tokenRead in w.tokenReads
    && !op.use.UseReset?
    && UseToken(cfg, w.db, op.tokenRead.id, op.tokenRead.token, op.use, w.now).1.Accepted?
    && id == op.tokenRead.token.userId
    && address == op.tokenRead.token.email
  }

  /** A step leaves a user's verification as it was, or writes one it has just proven. */
  lemma VerificationWritten(cfg: Config, w: World, op: Op, id: nat)
    requires forall other | other in w.db.users :: other < w.db.nextUser
    requires id in Perform(cfg, w, op).db.users
    ensures var w' := Perform(cfg, w, op);
            && id < w'.db.nextUser
            && (|| VerificationKept(w.db.users, w'.db.users, id)
                || w'.db.users[id].emailVerifiedAt.None?
                || (id, w'.db.users[id].verifiedEmail) in w'.vouched
                || VerifiesBy(cfg, w, op, id, w'.db.users[id].verifiedEmail))
  {
    match op
    case CreateUser(email, hash, superuser) => CreateVerifies(w, email, hash, superuser, id);
    case CommitUse(_, _) => UseVerifies(cfg, w, op, id);
    case _ => NeverVerifies(cfg, w, op, id);
  }

  lemma CreateVerifies(w: World, email: string, hash: string, superuser: bool, id: nat)
    requires forall other | other in w.db.users :: other < w.db.nextUser
    requires id in AddUser(w, email, hash, superuser).db.users
    ensures var w' := AddUser(w, email, hash, superuser);
            && id < w'.db.nextUser
            && (|| VerificationKept(w.db.users, w'.db.users, id)
                || w'.db.users[id].emailVerifiedAt.None?
                || (id, w'.db.users[id].verifiedEmail) in w'.vouched)
  {
  }

  lemma UseVerifies(cfg: Config, w: World, op: Op, id: nat)
    requires op.CommitUse? && id in Perform(cfg, w, op).db.users
    ensures var w' := Perform(cfg, w, op);
            && id in w.db.users && w'.db.nextUser == w.db.nextUser
            && (|| VerificationKept(w.db.users, w'.db.users, id)
                || VerifiesBy(cfg, w, op, id, w'.db.users[id].verifiedEmail))
  {
    if op.tokenRead in w.tokenReads {
      UseWritesUsers(cfg, w.db, op.tokenRead.id, op.tokenRead.token, op.use, w.now);
    }
  }

  /** A use writes its user's row alone: a reset its hash, the others the address the token was mailed to. */
  lemma UseWritesUsers(cfg: Config, db: Db, id: nat, token: OneTimeToken, use: Use, now: Time)
    ensures var (db', r) := UseToken(cfg, db, id, token, use, now);
            && db'.users.Keys == db.users.Keys && db'.nextUser == db.nextUser
            && (forall u | u in db.users && u != token.userId :: db'.users[u] == db.users[u])
            && (!r.Accepted? ==> db'.users == db.users)
            && (r.Accepted? ==>
                  && token.userId in db.users
                  && var (user, user') := (db.users[token.userId], db'.users[token.userId]);
                     if use.UseReset? then user' == user.(passwordHash := user'.passwordHash)
                     else user' == user || user'.verifiedEmail == token.email)
  {
  }

  lemma NeverVerifies(cfg: Config, w: World, op: Op, id: nat)
    requires !op.CreateUser? && !op.CommitUse? && id in Perform(cfg, w, op).db.users
    ensures var w' := Perform(cfg, w, op);
            VerificationKept(w.db.users, w'.db.users, id) && w'.db.nextUser == w.db.nextUser
  {
    match op
    case WriteEmail(_, _) =>
    case DeleteUser(_) =>
    case CommitChangePassword(_, _, _, _, _) =>
    case CommitState(_, _, _) =>
    case _ => UsersKept(cfg, w, op);
  }

  lemma UsersKept(cfg: Config, w: World, op: Op)
    requires !op.CreateUser? && !op.WriteEmail? && !op.DeleteUser?
    requires !op.CommitChangePassword? && !op.CommitState? && !op.CommitUse?
    ensures var w' := Perform(cfg, w, op);
            w'.db.users == w.db.users && w'.db.nextUser == w.db.nextUser
  {
  }

  lemma ProofKeeps(cfg: Config, w: World, op: Op)
    requires Inv(w)
    requires TokenStep(w, Perform(cfg, w, op))
    ensures var w' := Perform(cfg, w, op);
            && w.vouched <= w'.vouched
            && ProofInv(w'.db.users, w'.db.nextUser, w'.db.tokens, w'.accepted, w'.vouched)
  {
    var w' := Perform(cfg, w, op);
    assert w.vouched <= w'.vouched;
    forall id | id in w'.db.users
      ensures id < w'.db.nextUser
      ensures w'.db.users[id].emailVerifiedAt.Some? && w'.db.users[id].verifiedEmail != "" ==>
                Proven(w'.db.tokens, w'.accepted, w'.vouched, id, w'.db.users[id].verifiedEmail)
    {
      VerificationWritten(cfg, w, op, id);
      if w'.db.users[id].emailVerifiedAt.Some? && w'.db.users[id].verifiedEmail != "" {
        if VerificationKept(w.db.users, w'.db.users, id) {
          ProvenStays(w, w', id, w.db.users[id].verifiedEmail);
        } else if (id, w'.db.users[id].verifiedEmail) !in w'.vouched {
          UseProves(cfg, w, op.tokenRead, op.use);
        }
      }
    }
  }

  /** An accepted verification or email change proves the address its token was mailed to. */
  lemma UseProves(cfg: Config, w: World, read: TokenRead, use: Use)
    requires TokenInv(w.db.tokens, w.db.nextToken, w.now, w.tokenReads, w.accepted)
    requires read in w.tokenReads && !use.UseReset?
    requires UseToken(cfg, w.db, read.id, read.token, use, w.now).1.Accepted?
    ensures var w' := Perform(cfg, w, CommitUse(read, use));
            Proven(w'.db.tokens, w'.accepted, w'.vouched, read.token.userId, read.token.email)
  {
    var w' := Perform(cfg, w, CommitUse(read, use));
    UseTokenEffect(cfg, w.db, read.id, read.token, use, w.now);
    assert w'.accepted[|w.accepted|] == read.id && read.id in w'.accepted;
    assert ProvedBy(w'.db.tokens, read.id, read.token.userId, read.token.email);
  }

  // Steps and runs

  lemma StepKeeps(cfg: Config, w: World, e: Event)
    requires Inv(w)
    ensures Inv(Step(cfg, w, e)) && Grows(w, Step(cfg, w, e))
  {
    if e.now < w.now {
      GrowsReflexive(w);
    } else {
      var later := w.(now := e.now);
      assert TokenInv(later.db.tokens, later.db.nextToken, later.now, later.tokenReads, later.accepted);
      SessionKeeps(cfg, later, e.op);
      TokenKeeps(cfg, later, e.op);
      ProofKeeps(cfg, later, e.op);
    }
  }

  lemma GrowsReflexive(w: World)
    requires Inv(w)
    ensures Grows(w, w)
  {
    SameSessions(w, w);
    MarkUsedNothing(w.db.tokens, w.db.nextToken, w.now);
  }

  lemma GrowsTransitive(a: World, b: World, c: World)
    requires Inv(a) && Grows(a, b) && Grows(b, c)
    ensures Grows(a, c)
  {
    EvolvesTransitive(a.db.refresh, b.db.refresh, c.db.refresh);
    TokensEvolveTransitive(a.db.tokens, a.db.nextToken, b.db.tokens, b.db.nextToken, c.db.tokens);
    assert a.accepted <= c.accepted;
  }

  /** Every world of every run meets the invariants. */
  lemma {:induction false} RunInv(cfg: Config, ws: seq<World>, es: seq<Event>, i: nat)
    requires IsRun(cfg, ws, es) && i < |ws|
    ensures Inv(ws[i])
  {
    if i > 0 {
      RunInv(cfg, ws, es, i - 1);
      StepKeeps(cfg, ws[i - 1], es[i - 1]);
    }
  }

  lemma {:induction false} GrowsAlong(ws: seq<World>, i: nat, j: nat)
    requires i <= j < |ws|
    requires forall k | i <= k <= j :: Inv(ws[k])
    requires forall k | i <= k < j :: Grows(ws[k], ws[k + 1])
    ensures Grows(ws[i], ws[j])
    decreases j - i
  {
    if i == j {
      GrowsReflexive(ws[i]);
    } else {
      GrowsAlong(ws, i, j - 1);
      assert Grows(ws[j - 1], ws[j - 1 + 1]);
      GrowsTransitive(ws[i], ws[j - 1], ws[j]);
    }
  }

  /** Along a run nothing that is written once comes undone. */
  lemma RunGrows(cfg: Config, ws: seq<World>, es: seq<Event>, i: nat, j: nat)
    requires IsRun(cfg, ws, es) && i <= j < |ws|
    ensures Inv(ws[i]) && Inv(ws[j]) && Grows(ws[i], ws[j])
  {
    forall k | i <= k <= j ensures Inv(ws[k]) {
      RunInv(cfg, ws, es, k);
    }
    forall k | i <= k < j ensures Grows(ws[k], ws[k + 1]) {
      StepKeeps(cfg, ws[k], es[k]);
    }
    GrowsAlong(ws, i, j);
  }
}
