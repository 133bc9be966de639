/**
 What the session transactions guarantee, one commit at a time: the exact
 outcome of a rotation whose first read may be stale, and what a revocation
 leaves signed in.
 */
module SessionLaws {
  import opened Options
  import opened AuthStore
  import opened SessionTx
  import opened Chains

  predicate Enabled(db: Db, userId: nat) {
    userId in db.users && !db.users[userId].Disabled()
  }

  /** Rows of other users are untouched, and a user's row only ever gains a revocation, as of `now`. */
  predicate OnlyRevokes(before: RefreshTable, after: RefreshTable, userId: nat, now: Time) {
    && before.Keys == after.Keys
    && (forall id | id in before ::
          || after[id] == before[id]
          || (&& before[id].userId == userId && before[id].revokedAt.None?
              && after[id] == before[id].(revokedAt := Some(now))))
  }

  /** A live session: the chain of `rowId` is the user's and its last row is unrevoked and unexpired. */
  predicate LiveSession(refresh: RefreshTable, nextRow: nat, userId: nat, rowId: nat, now: Time)
    requires LinksOk(refresh, nextRow)
  {
    && rowId in refresh
    && refresh[rowId].userId == userId
    && Head(refresh, nextRow, rowId) in refresh
    && Active(refresh[Head(refresh, nextRow, rowId)], now)
  }

  /** Whether the walk from `rowId` reaches the end of its chain within `limit` rows. */
  predicate WalkReaches(refresh: RefreshTable, nextRow: nat, rowId: nat, limit: nat)
    requires LinksOk(refresh, nextRow) && rowId in refresh
  {
    |ChainFrom(refresh, nextRow, rowId)| <= limit
  }

  /** Whether a successor has itself been rotated. */
  predicate RotatedOn(refresh: RefreshTable, id: nat) {
    id in refresh && refresh[id].replacedBy.Some?
  }

  // Login

  /** Each answer of a login's transaction, and the one row it writes. */
  lemma StartSessionExact(cfg: Config, db: Db, userId: nat, verifiedHash: string, tokenHash: string, now: Time)
    ensures var (db', r) := StartSession(cfg, db, userId, verifiedHash, tokenHash, now);
            var verified := Enabled(db, userId) && db.users[userId].passwordHash == verifiedHash;
            && (r.AccountGone? <==> userId !in db.users)
            && (r.LoginDisabled? <==> userId in db.users && !Enabled(db, userId))
            && (r.PasswordStale? <==> Enabled(db, userId) && !verified)
            && (r.LoginFailure? <==> verified && RowHashTaken(db.refresh, tokenHash))
            && (r.SignedIn? <==> verified && !RowHashTaken(db.refresh, tokenHash))
            && (r.SignedIn? ==>
                  && r.row == db.nextRow
                  && db' == db.(refresh := db'.refresh, nextRow := db.nextRow + 1)
                  && db'.refresh.Keys == db.refresh.Keys + {r.row}
                  && db'.refresh[r.row] == RefreshRow(userId, tokenHash, now + cfg.refreshTTL, None, None, now)
                  && (forall id | id in db.refresh && id != r.row :: db'.refresh[id] == db.refresh[id]))
            && (!r.SignedIn? ==> db' == db)
  {
  }

  /** A new session's access token works from the login to the end of the refresh token's lifetime, for its
      user and no other. */
  lemma SignedInAuthenticates(cfg: Config, db: Db, userId: nat, verifiedHash: string, tokenHash: string, now: Time,
                              user: nat, later: Time)
    requires StartSession(cfg, db, userId, verifiedHash, tokenHash, now).1.SignedIn?
    ensures var (db', r) := StartSession(cfg, db, userId, verifiedHash, tokenHash, now);
            Authenticates(db', user, r.row, later) <==> user == userId && later < now + cfg.refreshTTL
  {
    StartSessionExact(cfg, db, userId, verifiedHash, tokenHash, now);
  }

  // Rotation

  /** The outcome of a rotation, from the row as it is now and the version its first read found. */
  lemma RotateExact(cfg: Config, db: Db, id: nat, read: RefreshRow, tokenHash: string, now: Time)
    requires TableOk(db.refresh, db.nextRow)
    requires id in db.refresh && Earlier(read, db.refresh[id])
    ensures var (db', r) := Rotate(cfg, db, id, read, tokenHash, now);
            var row := db.refresh[id];
            var usable := Enabled(db, row.userId) && row.expiresAt > now;
            // The compare-and-swap decides: a stale read never stops or starts a rotation.
            && (r.Rotated? <==> usable && row.revokedAt.None? && !RowHashTaken(db.refresh, tokenHash))
            && (r.RotateFailure? <==> usable && row.revokedAt.None? && RowHashTaken(db.refresh, tokenHash))
            // The cascade runs exactly on a token that was seen rotated, the grace or more ago
            // or with a successor that has itself been rotated.
            && (r.Reuse? <==>
                  && usable
                  && read.replacedBy.Some?
                  && (InGrace(cfg, read, now) ==> RotatedOn(db.refresh, read.replacedBy.value)))
            // A lost race is told apart from a dead token by the successor.
            && (r.Raced? <==>
                  && Enabled(db, row.userId)
                  && row.replacedBy.Some?
                  && (|| row.expiresAt <= now
                      || read.revokedAt.None?
                      || (InGrace(cfg, read, now) && Unrotated(db.refresh, row.replacedBy.value, now, true))))
            && (r.InvalidToken? <==>
                  && row.userId in db.users
                  && (|| !Enabled(db, row.userId)
                      || (row.replacedBy.None? && (row.revokedAt.Some? || row.expiresAt <= now))
                      || (&& row.replacedBy.Some? && row.expiresAt > now && read.revokedAt.Some?
                          && InGrace(cfg, read, now) && Unrotated(db.refresh, row.replacedBy.value, now, false))))
            && (r.UserGone? <==> row.userId !in db.users)
            && (!r.Rotated? && !r.Reuse? ==> db' == db)
  {
    assert LinkOk(db.refresh, db.nextRow, id);
  }

  /** The row was revoked less than the grace ago, and there is a grace. */
  predicate InGrace(cfg: Config, read: RefreshRow, now: Time) {
    read.revokedAt.Some? && cfg.reuseGrace > 0 && now < read.revokedAt.value + cfg.reuseGrace
  }

  /** A successor nothing has replaced, unrevoked and unexpired or not. */
  predicate Unrotated(refresh: RefreshTable, id: nat, now: Time, live: bool) {
    && id in refresh
    && refresh[id].replacedBy.None?
    && (live <==> refresh[id].revokedAt.None? && now < refresh[id].expiresAt)
  }

  /** A token replayed within the grace loses the race; once the grace is over it ends every session. */
  lemma GraceEnds(cfg: Config, db: Db, id: nat, tokenHash: string, rotatedAt: Time, now: Time)
    requires TableOk(db.refresh, db.nextRow)
    requires id in db.refresh && Enabled(db, db.refresh[id].userId) && now < db.refresh[id].expiresAt
    requires db.refresh[id].revokedAt == Some(rotatedAt) && db.refresh[id].replacedBy.Some?
    requires Unrotated(db.refresh, db.refresh[id].replacedBy.value, now, true)
    ensures var r := Rotate(cfg, db, id, db.refresh[id], tokenHash, now).1;
            r == if cfg.reuseGrace > 0 && now - rotatedAt < cfg.reuseGrace then Raced else Reuse
  {
    assert LinkOk(db.refresh, db.nextRow, id);
    RotateExact(cfg, db, id, db.refresh[id], tokenHash, now);
  }

  /** A rotation moves the session from the presented row to the new one and touches no other. */
  lemma RotatedMovesTheSession(cfg: Config, db: Db, id: nat, read: RefreshRow, tokenHash: string, now: Time)
    requires TableOk(db.refresh, db.nextRow)
    requires id in db.refresh && Earlier(read, db.refresh[id])
    requires Rotate(cfg, db, id, read, tokenHash, now).1.Rotated?
    ensures var (db', r) := Rotate(cfg, db, id, read, tokenHash, now);
            var userId := db.refresh[id].userId;
            && r.row !in db.refresh
            && db'.refresh.Keys == db.refresh.Keys + {r.row}
            && Unrevoked(db'.refresh, userId) == Unrevoked(db.refresh, userId) - {id} + {r.row}
            && db'.refresh[id] == db.refresh[id].(revokedAt := Some(now), replacedBy := Some(r.row))
            && db'.refresh[r.row] == RefreshRow(userId, tokenHash, now + cfg.refreshTTL, None, None, now)
            && (forall other | other in db.refresh && other != id :: db'.refresh[other] == db.refresh[other])
            && db'.users == db.users && db'.tokens == db.tokens
  {
    forall other | other in db.refresh ensures other < db.nextRow {
      assert LinkOk(db.refresh, db.nextRow, other);
    }
  }

  /** The session goes on under the new row for a full lifetime, and the presented one is dead at once. */
  lemma RotatedAuthenticates(cfg: Config, db: Db, id: nat, read: RefreshRow, tokenHash: string, now: Time,
                             user: nat, later: Time)
    requires TableOk(db.refresh, db.nextRow)
    requires id in db.refresh && Earlier(read, db.refresh[id])
    requires Rotate(cfg, db, id, read, tokenHash, now).1.Rotated?
    ensures var (db', r) := Rotate(cfg, db, id, read, tokenHash, now);
            && (Authenticates(db', user, r.row, later) <==>
                  user == db.refresh[id].userId && later < now + cfg.refreshTTL)
            && !Authenticates(db', user, id, later)
  {
    RotateExact(cfg, db, id, read, tokenHash, now);
    RotatedMovesTheSession(cfg, db, id, read, tokenHash, now);
  }

  /** The reuse cascade ends every session of the user and nothing else. */
  lemma ReuseEndsEverySession(cfg: Config, db: Db, id: nat, read: RefreshRow, tokenHash: string, now: Time)
    requires id in db.refresh && Earlier(read, db.refresh[id])
    requires Rotate(cfg, db, id, read, tokenHash, now).1.Reuse?
    ensures var db' := Rotate(cfg, db, id, read, tokenHash, now).0;
            && Unrevoked(db'.refresh, db.refresh[id].userId) == {}
            && OnlyRevokes(db.refresh, db'.refresh, db.refresh[id].userId, now)
            && db' == db.(refresh := db'.refresh)
  {
  }

  // Revocations on behalf of a session

  lemma RequesterChainExact(refresh: RefreshTable, nextRow: nat, userId: nat, rowId: nat, now: Time)
    requires LinksOk(refresh, nextRow)
    ensures RequesterChain(refresh, userId, rowId, now).Some? <==>
              && LiveSession(refresh, nextRow, userId, rowId, now)
              && WalkReaches(refresh, nextRow, rowId, MAX_CHAIN_HOPS)
    ensures RequesterChain(refresh, userId, rowId, now).Some? ==>
              RequesterChain(refresh, userId, rowId, now).value == ChainFrom(refresh, nextRow, rowId)
  {
    if rowId in refresh && refresh[rowId].userId == userId {
      var chain := ChainFrom(refresh, nextRow, rowId);
      ChainShape(refresh, nextRow, rowId);
      WalkFollows(refresh, nextRow, userId, [rowId], None, MAX_CHAIN_HOPS);
      assert [rowId] + chain[1..] == chain;
      assert |chain| > MAX_CHAIN_HOPS ==> refresh[chain[MAX_CHAIN_HOPS - 1]].revokedAt.Some?;
    }
  }

  // A session that is refreshed very often

  /** One login, refreshed at every instant from 1 on: rows 1 to `n`, each replaced by the next. */
  function Refreshed(n: nat): RefreshTable {
    map id | 1 <= id <= n ::
      if id < n then RefreshRow(7, Numbered(id), 10_000, Some(id), Some(id + 1), id)
      else RefreshRow(7, Numbered(id), 10_000, None, None, id)
  }

  /** A token hash of its own for each row. */
  function Numbered(id: nat): string {
    if id == 0 then "" else Numbered(id - 1) + "#"
  }

  lemma RefreshedLinks(n: nat)
    ensures LinksOk(Refreshed(n), n + 1)
  {
    forall id | id in Refreshed(n) ensures LinkOk(Refreshed(n), n + 1, id) {
    }
  }

  lemma {:induction false} RefreshedChain(n: nat, id: nat)
    requires LinksOk(Refreshed(n), n + 1) && 1 <= id <= n
    ensures |ChainFrom(Refreshed(n), n + 1, id)| == n + 1 - id && Head(Refreshed(n), n + 1, id) == n
    decreases n - id
  {
    assert LinkOk(Refreshed(n), n + 1, id);
    if id < n {
      assert LinkOk(Refreshed(n), n + 1, id + 1);
      RefreshedChain(n, id + 1);
    }
  }

  /** Its first access token's row is the requester: the session is live, and it is answered as ended
      exactly once it has been refreshed a thousand times since. */
  lemma LongSessionIsRefused(n: nat)
    requires n >= 1
    ensures LinksOk(Refreshed(n), n + 1)
    ensures LiveSession(Refreshed(n), n + 1, 7, 1, 9_999)
    ensures RequesterChain(Refreshed(n), 7, 1, 9_999).None? <==> n > 1000
  {
    RefreshedLinks(n);
    RefreshedChain(n, 1);
    RequesterChainExact(Refreshed(n), n + 1, 7, 1, 9_999);
  }

  /** Keeping a session's chain leaves exactly its head unrevoked. */
  lemma RevokeButLeavesTheHead(refresh: RefreshTable, nextRow: nat, userId: nat, rowId: nat, now: Time)
    requires LinksOk(refresh, nextRow)
    requires LiveSession(refresh, nextRow, userId, rowId, now)
    ensures var after := RevokeBut(refresh, userId, ChainFrom(refresh, nextRow, rowId), now);
            && Unrevoked(after, userId) == {Head(refresh, nextRow, rowId)}
            && OnlyRevokes(refresh, after, userId, now)
  {
    var chain := ChainFrom(refresh, nextRow, rowId);
    var after := RevokeBut(refresh, userId, chain, now);
    var head := Head(refresh, nextRow, rowId);
    ChainShape(refresh, nextRow, rowId);
    assert chain[|chain| - 1] == head && head in chain;
    forall id | id in Unrevoked(after, userId) ensures id == head {
      assert id in refresh && refresh[id].revokedAt.None? && id in chain;
    }
    assert head in Unrevoked(after, userId);
  }

  /** Revoking the other sessions leaves the requester's head, or refuses and changes nothing. */
  lemma RevokeOthersExact(db: Db, userId: nat, keep: nat, now: Time)
    requires LinksOk(db.refresh, db.nextRow)
    requires userId in db.users
    ensures var (db', r) := RevokeOthers(db, userId, keep, now);
            if LiveSession(db.refresh, db.nextRow, userId, keep, now)
               && WalkReaches(db.refresh, db.nextRow, keep, MAX_CHAIN_HOPS)
            then
              && r == SessionsRevoked
              && Unrevoked(db'.refresh, userId) == {Head(db.refresh, db.nextRow, keep)}
              && OnlyRevokes(db.refresh, db'.refresh, userId, now)
              && db' == db.(refresh := db'.refresh)
            else r == SessionEnded && db' == db
  {
    RequesterChainExact(db.refresh, db.nextRow, userId, keep, now);
    if RequesterChain(db.refresh, userId, keep, now).Some? {
      RevokeButLeavesTheHead(db.refresh, db.nextRow, userId, keep, now);
    }
  }

  /** Whether the session a password change runs in, if any, is live and within the walk. */
  predicate RequesterLive(db: Db, userId: nat, requester: nat, now: Time)
    requires LinksOk(db.refresh, db.nextRow)
  {
    requester == 0 || (&& LiveSession(db.refresh, db.nextRow, userId, requester, now)
                       && WalkReaches(db.refresh, db.nextRow, requester, MAX_CHAIN_HOPS))
  }

  /** When a password change happens, and that it otherwise changes nothing. */
  lemma ChangePasswordOutcome(db: Db, userId: nat, verifiedHash: string, requester: nat, newHash: string,
                              keepOthers: bool, now: Time)
    requires LinksOk(db.refresh, db.nextRow)
    ensures var (db', r) := ChangePassword(db, userId, verifiedHash, requester, newHash, keepOthers, now);
            var authorized := Enabled(db, userId) && db.users[userId].passwordHash == verifiedHash;
            && (r.Changed? <==> authorized && RequesterLive(db, userId, requester, now))
            && (r.ChangeUserGone? <==> userId !in db.users)
            && (r.ChangeDisabled? <==> userId in db.users && !Enabled(db, userId))
            && (r.ChangePasswordStale? <==> Enabled(db, userId) && !authorized)
            && (r.ChangeSessionEnded? <==> authorized && !RequesterLive(db, userId, requester, now))
            && (!r.Changed? ==> db' == db)
  {
    RequesterChainExact(db.refresh, db.nextRow, userId, requester, now);
  }

  /** A password change from a live session with revocation leaves that session alone signed in. */
  lemma ChangePasswordSessions(db: Db, userId: nat, verifiedHash: string, requester: nat, newHash: string,
                               keepOthers: bool, now: Time)
    requires LinksOk(db.refresh, db.nextRow)
    requires ChangePassword(db, userId, verifiedHash, requester, newHash, keepOthers, now).1.Changed?
    ensures var after := ChangePassword(db, userId, verifiedHash, requester, newHash, keepOthers, now).0.refresh;
            && OnlyRevokes(db.refresh, after, userId, now)
            && (keepOthers ==> after == db.refresh)
            && (!keepOthers && requester == 0 ==> Unrevoked(after, userId) == {})
            && (!keepOthers && requester != 0 ==>
                  && requester in db.refresh
                  && Unrevoked(after, userId) == {Head(db.refresh, db.nextRow, requester)})
  {
    RequesterChainExact(db.refresh, db.nextRow, userId, requester, now);
    if requester != 0 {
      RevokeButLeavesTheHead(db.refresh, db.nextRow, userId, requester, now);
    }
  }

  /** A change writes the new hash, and leaves no reset or email change token of the user unused. */
  lemma ChangePasswordOutdates(db: Db, userId: nat, verifiedHash: string, requester: nat, newHash: string,
                               keepOthers: bool, now: Time)
    requires ChangePassword(db, userId, verifiedHash, requester, newHash, keepOthers, now).1.Changed?
    ensures var db' := ChangePassword(db, userId, verifiedHash, requester, newHash, keepOthers, now).0;
            && userId in db.users && db'.users.Keys == db.users.Keys
            && db'.users[userId] == db.users[userId].(passwordHash := newHash)
            && (forall id | id in db.users && id != userId :: db'.users[id] == db.users[id])
            && db'.tokens.Keys == db.tokens.Keys
            && (forall id | id in db'.tokens && id != 0 && db'.tokens[id].userId == userId ::
                  db'.tokens[id].purpose.VerifyEmail? || db'.tokens[id].usedAt.Some?)
            && (forall id | id in db.tokens && (db.tokens[id].userId != userId || db.tokens[id].purpose.VerifyEmail?) ::
                  db'.tokens[id] == db.tokens[id])
  {
  }

  /** Setting the state leaves the user in it. A disable that changes it ends every session and every
      link; setting it again writes nothing; enabling gives none of them back. */
  lemma SetUserStateExact(db: Db, userId: nat, disable: bool, permitted: bool, now: Time)
    ensures var (db', r) := SetUserState(db, userId, disable, permitted, now);
            && (r.StateUserGone? <==> userId !in db.users)
            && (r.StateRefused? <==> userId in db.users && !permitted)
            && (r.StateSet? ==> userId in db'.users && db'.users[userId].Disabled() == disable)
            && (r == StateSet(true) ==>
                  db'.users == db.users[userId := db.users[userId].(disabledAt := if disable then Some(now) else None)])
            && (r == StateSet(true) <==> userId in db.users && permitted && db.users[userId].Disabled() != disable)
            && (r != StateSet(true) ==> db' == db)
            && (r == StateSet(true) && disable ==>
                  && Unrevoked(db'.refresh, userId) == {}
                  && forall id | id in db'.tokens && id != 0 && db'.tokens[id].userId == userId ::
                       db'.tokens[id].usedAt.Some?)
            && (!disable ==> db'.refresh == db.refresh && db'.tokens == db.tokens)
  {
    var db' := SetUserState(db, userId, disable, permitted, now).0;
    if userId in db.users && permitted && disable && !db.users[userId].Disabled() {
      forall id | id in db'.tokens && id != 0 && db'.tokens[id].userId == userId ensures db'.tokens[id].usedAt.Some? {
        var purpose := db.tokens[id].purpose;
        assert purpose.VerifyEmail? || purpose.ResetPassword? || purpose.ChangeEmail?;
        assert id in TokensOf(db.tokens, userId, ALL_PURPOSES);
      }
    }
  }

  /** Revoking everything ends every session, or refuses, with nothing changed, a requester whose own
      session has ended or is out of reach. */
  lemma RevokeAllExact(db: Db, userId: nat, requester: nat, now: Time)
    requires LinksOk(db.refresh, db.nextRow)
    requires userId in db.users
    ensures var (db', r) := RevokeAllSessions(db, userId, requester, now);
            if RequesterLive(db, userId, requester, now) then
              && r == SessionsRevoked
              && Unrevoked(db'.refresh, userId) == {}
              && OnlyRevokes(db.refresh, db'.refresh, userId, now)
              && db' == db.(refresh := db'.refresh)
            else r == SessionEnded && db' == db
  {
    RequesterChainExact(db.refresh, db.nextRow, userId, requester, now);
  }

  /** The session a request runs in is found by the head of its chain. */
  lemma SessionRowIsTheHead(refresh: RefreshTable, nextRow: nat, userId: nat, rowId: nat, now: Time)
    requires LinksOk(refresh, nextRow)
    ensures SessionRow(refresh, userId, rowId, now) ==
            if LiveSession(refresh, nextRow, userId, rowId, now)
               && WalkReaches(refresh, nextRow, rowId, MAX_CHAIN_HOPS + 1)
            then Head(refresh, nextRow, rowId) else 0
  {
    if rowId in refresh && refresh[rowId].userId == userId {
      var chain := ChainFrom(refresh, nextRow, rowId);
      ChainShape(refresh, nextRow, rowId);
      WalkFollows(refresh, nextRow, userId, [rowId], None, MAX_CHAIN_HOPS);
      var ids := SessionChain(refresh, userId, rowId).0;
      if |chain| <= MAX_CHAIN_HOPS + 1 {
        assert ids == chain;
        OnlyTheLastListed(refresh, userId, ids, now);
      } else {
        assert forall k | 0 <= k < |ids| :: ids[k] == chain[k];
        NoneListed(refresh, userId, ids, now);
      }
    } else {
      NoneListed(refresh, userId, [rowId], now);
    }
  }

  lemma {:induction false} NoneListed(refresh: RefreshTable, userId: nat, ids: seq<nat>, now: Time)
    requires forall k | 0 <= k < |ids| :: !Listed(refresh, userId, ids[k], now)
    ensures FirstListed(refresh, userId, ids, now) == 0
  {
    if ids != [] {
      NoneListed(refresh, userId, ids[1..], now);
    }
  }

  lemma {:induction false} OnlyTheLastListed(refresh: RefreshTable, userId: nat, ids: seq<nat>, now: Time)
    requires ids != []
    requires forall k | 0 <= k < |ids| - 1 :: !Listed(refresh, userId, ids[k], now)
    ensures FirstListed(refresh, userId, ids, now) ==
            if Listed(refresh, userId, ids[|ids| - 1], now) then ids[|ids| - 1] else 0
  {
    if |ids| > 1 {
      OnlyTheLastListed(refresh, userId, ids[1..], now);
    }
  }

  /** Ending one session by its listed row: that session and no other, or nothing. */
  lemma RevokeSessionExact(db: Db, userId: nat, requester: nat, target: nat, ended: set<nat>, at: Time, now: Time)
    requires LinksOk(db.refresh, db.nextRow)
    requires userId in db.users
    ensures var (db', r) := RevokeSession(db, userId, requester, target, ended, at, now);
            var later := RevokeWhere(db.refresh, ended, at);
            var current := requester == 0 || (&& LiveSession(db.refresh, db.nextRow, userId, requester, now)
                                              && WalkReaches(db.refresh, db.nextRow, requester, MAX_CHAIN_HOPS + 1));
            && (r.SessionEnded? <==> !current)
            // A success means this call ended the session, not a logout that came in between.
            && (r.SessionRevoked? <==> current && Listed(db.refresh, userId, target, now) && target !in ended)
            && (r.SessionNotFound? <==> current && (!Listed(db.refresh, userId, target, now) || target in ended))
            && (r.SessionRevoked? ==>
                  && Unrevoked(db'.refresh, userId) == Unrevoked(later, userId) - {target}
                  && OnlyRevokes(later, db'.refresh, userId, now)
                  && db' == db.(refresh := db'.refresh)
                  && (r.endedCurrent <==> requester != 0 && target == Head(db.refresh, db.nextRow, requester)))
            && (!r.SessionRevoked? ==>
                  db' == if current && Listed(db.refresh, userId, target, now) then db.(refresh := later) else db)
  {
    SessionRowIsTheHead(db.refresh, db.nextRow, userId, requester, now);
    if requester in db.refresh {
      ChainShape(db.refresh, db.nextRow, requester);
      assert LinkOk(db.refresh, db.nextRow, Head(db.refresh, db.nextRow, requester));
    }
  }
}
