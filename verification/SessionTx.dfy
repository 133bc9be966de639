/**
 The session transactions (`auth/service.go`, `auth/sessions.go`,
 `auth/password_change.go`, `auth/account_state.go`) as functions of the
 committed tables, and what each of them does to a user's sessions.

 Every transaction below runs under the user's row lock, so it is one step.
 `now` is the instant it reads once it holds the lock.
 */
module SessionTx {
  import opened Options
  import opened AuthStore

  // Login

  datatype LoginResult =
    | SignedIn(row: nat)
    | AccountGone
    | LoginDisabled
    | PasswordStale
    | LoginFailure

  /** The tables with a new row for the user's token `tokenHash`. */
  function IssueRow(cfg: Config, db: Db, userId: nat, tokenHash: string, now: Time): Db {
    db.(refresh := db.refresh[db.nextRow := RefreshRow(userId, tokenHash, now + cfg.refreshTTL, None, None, now)],
        nextRow := db.nextRow + 1)
  }

  /** `startSession`, from a login that verified the password hash `verifiedHash`. */
  function StartSession(cfg: Config, db: Db, userId: nat, verifiedHash: string, tokenHash: string, now: Time)
    : (Db, LoginResult)
  {
    if userId !in db.users then (db, AccountGone)
    else if db.users[userId].Disabled() then (db, LoginDisabled)
    else if db.users[userId].passwordHash != verifiedHash then (db, PasswordStale)
    else if RowHashTaken(db.refresh, tokenHash) then (db, LoginFailure)
    else (IssueRow(cfg, db, userId, tokenHash, now), SignedIn(db.nextRow))
  }

  // Rotation

  datatype RotateResult =
    | Rotated(row: nat)
    | InvalidToken
    | Raced
    | Reuse
    | UserGone
    | RotateFailure

  /** The row's revocation, the user's new row and the link to it. */
  function Replace(cfg: Config, db: Db, id: nat, userId: nat, tokenHash: string, now: Time): Db
    requires id in db.refresh
  {
    var revoked := db.(refresh := db.refresh[id := db.refresh[id].(revokedAt := Some(now))]);
    var issued := IssueRow(cfg, revoked, userId, tokenHash, now);
    issued.(refresh := issued.refresh[id := issued.refresh[id].(replacedBy := Some(db.nextRow))])
  }

  /** A re-read of row `id` under the lock: raced when a rotation has given it a successor. */
  function Reread(refresh: RefreshTable, id: nat): RotateResult {
    if id !in refresh then RotateFailure
    else if refresh[id].replacedBy.Some? then Raced
    else InvalidToken
  }

  /** Whether a token revoked at `revokedAt` is presented within the reuse grace. */
  predicate WithinGrace(cfg: Config, revokedAt: Time, now: Time) {
    cfg.reuseGrace > 0 && revokedAt > now - cfg.reuseGrace
  }

  /** `rotateRefreshOnce` after its unlocked read, which found row `id` as `read`. */
  function Rotate(cfg: Config, db: Db, id: nat, read: RefreshRow, tokenHash: string, now: Time): (Db, RotateResult) {
    if read.userId !in db.users then (db, UserGone)
    else if db.users[read.userId].Disabled() then (db, InvalidToken)
    else if read.expiresAt <= now then
      (db, if read.revokedAt.None? then Reread(db.refresh, id)
           else if read.replacedBy.Some? then Raced else InvalidToken)
    else if read.revokedAt.Some? then
      if read.replacedBy.None? then (db, InvalidToken)
      else
        var next := read.replacedBy.value;
        if WithinGrace(cfg, read.revokedAt.value, now) && next !in db.refresh then (db, RotateFailure)
        else if WithinGrace(cfg, read.revokedAt.value, now) && db.refresh[next].replacedBy.None? then
          (db, if Active(db.refresh[next], now) then Raced else InvalidToken)
        else (db.(refresh := RevokeAll(db.refresh, read.userId, now)), Reuse)
    else if id !in db.refresh || db.refresh[id].revokedAt.Some? then (db, Reread(db.refresh, id))
    else if RowHashTaken(db.refresh, tokenHash) then (db, RotateFailure)
    else (Replace(cfg, db, id, read.userId, tokenHash, now), Rotated(db.nextRow))
  }

  /** `parseAccess`, for a valid access token that names the user and the row. */
  predicate Authenticates(db: Db, userId: nat, rowId: nat, now: Time) {
    && userId in db.users
    && !db.users[userId].Disabled()
    && rowId in db.refresh
    && db.refresh[rowId].userId == userId
    && Active(db.refresh[rowId], now)
  }

  // The walk along a session's chain

  /** `sessionChain`, `hops` reads from the end: the ids it followed and the last row it read. */
  function Walk(refresh: RefreshTable, userId: nat, ids: seq<nat>, last: Option<nat>, hops: nat)
    : (seq<nat>, Option<nat>)
    requires ids != []
    decreases hops
  {
    var next := ids[|ids| - 1];
    if hops == 0 || next !in refresh || refresh[next].userId != userId then (ids, last)
    else if refresh[next].replacedBy.None? || refresh[next].replacedBy.value in ids then (ids, Some(next))
    else Walk(refresh, userId, ids + [refresh[next].replacedBy.value], Some(next), hops - 1)
  }

  function SessionChain(refresh: RefreshTable, userId: nat, fromId: nat): (seq<nat>, Option<nat>) {
    Walk(refresh, userId, [fromId], None, MAX_CHAIN_HOPS)
  }

  /** `requesterChain`: the ids to keep, or none when the session has ended. */
  function RequesterChain(refresh: RefreshTable, userId: nat, rowId: nat, now: Time): Option<seq<nat>> {
    var (ids, last) := SessionChain(refresh, userId, rowId);
    if last.Some? && last.value in refresh && Active(refresh[last.value], now) then Some(ids) else None
  }

  predicate Listed(refresh: RefreshTable, userId: nat, id: nat, now: Time) {
    id in refresh && refresh[id].userId == userId && Active(refresh[id], now)
  }

  /** The first of `ids` that is an active session of the user, or zero. */
  function FirstListed(refresh: RefreshTable, userId: nat, ids: seq<nat>, now: Time): nat {
    if ids == [] then 0
    else if Listed(refresh, userId, ids[0], now) then ids[0]
    else FirstListed(refresh, userId, ids[1..], now)
  }

  /** `sessionRow`: the active row of the session that row `rowId` belongs to, or zero. */
  function SessionRow(refresh: RefreshTable, userId: nat, rowId: nat, now: Time): nat {
    FirstListed(refresh, userId, SessionChain(refresh, userId, rowId).0, now)
  }

  // Revocations

  datatype SessionResult =
    | SessionRevoked(endedCurrent: bool)
    | SessionsRevoked
    | SessionEnded
    | SessionNotFound

  /** `revokeSessionAs`; `target` is the row whose opaque id was given. Logout takes no lock: `ended` are
      the rows that logouts which read their clock at `at` end between the list and the update. */
  function RevokeSession(db: Db, userId: nat, requester: nat, target: nat, ended: set<nat>, at: Time, now: Time)
    : (Db, SessionResult)
  {
    var own := SessionRow(db.refresh, userId, requester, now);
    if userId !in db.users then (db, SessionNotFound)
    else if requester != 0 && own == 0 then (db, SessionEnded)
    else if !Listed(db.refresh, userId, target, now) then (db, SessionNotFound)
    else
      var later := RevokeWhere(db.refresh, ended, at);
      if later[target].revokedAt.Some? then (db.(refresh := later), SessionNotFound)
      else (db.(refresh := RevokeWhere(later, {target}, now)), SessionRevoked(requester != 0 && target == own))
  }

  /** `revokeAllSessionsAs`. */
  function RevokeAllSessions(db: Db, userId: nat, requester: nat, now: Time): (Db, SessionResult) {
    if userId !in db.users then (db, SessionNotFound)
    else if requester != 0 && RequesterChain(db.refresh, userId, requester, now).None? then (db, SessionEnded)
    else (db.(refresh := RevokeAll(db.refresh, userId, now)), SessionsRevoked)
  }

  /** `revokeOtherSessions`. */
  function RevokeOthers(db: Db, userId: nat, keep: nat, now: Time): (Db, SessionResult) {
    if userId !in db.users then (db, SessionNotFound)
    else
      var chain := RequesterChain(db.refresh, userId, keep, now);
      if chain.None? then (db, SessionEnded)
      else (db.(refresh := RevokeBut(db.refresh, userId, chain.value, now)), SessionsRevoked)
  }

  // Password change and account state

  datatype ChangeResult =
    | Changed
    | ChangeUserGone
    | ChangeDisabled
    | ChangePasswordStale
    | ChangeSessionEnded

  /** `ChangePassword`'s transaction, for a current password whose hash was `verifiedHash`. */
  function ChangePassword(db: Db, userId: nat, verifiedHash: string, requester: nat, newHash: string,
                          keepOthers: bool, now: Time): (Db, ChangeResult)
  {
    if userId !in db.users then (db, ChangeUserGone)
    else if db.users[userId].Disabled() then (db, ChangeDisabled)
    else if db.users[userId].passwordHash != verifiedHash then (db, ChangePasswordStale)
    else
      var chain := RequesterChain(db.refresh, userId, requester, now);
      if requester != 0 && chain.None? then (db, ChangeSessionEnded)
      else
        (db.(users := db.users[userId := db.users[userId].(passwordHash := newHash)],
             tokens := VoidTokens(db.tokens, userId, 0, now, PASSWORD_BOUND),
             refresh := if keepOthers then db.refresh
                        else if requester != 0 then RevokeBut(db.refresh, userId, chain.value, now)
                        else RevokeAll(db.refresh, userId, now)),
         Changed)
  }

  datatype StateResult = StateSet(changed: bool) | StateUserGone | StateRefused

  /** `setUserState`; `permitted` is what the caller's check says of the locked row. */
  function SetUserState(db: Db, userId: nat, disable: bool, permitted: bool, now: Time): (Db, StateResult) {
    if userId !in db.users then (db, StateUserGone)
    else if !permitted then (db, StateRefused)
    else if db.users[userId].Disabled() == disable then (db, StateSet(false))
    else if !disable then
      (db.(users := db.users[userId := db.users[userId].(disabledAt := None)]), StateSet(true))
    else
      (db.(users := db.users[userId := db.users[userId].(disabledAt := Some(now))],
           refresh := RevokeAll(db.refresh, userId, now),
           tokens := VoidTokens(db.tokens, userId, 0, now, ALL_PURPOSES)),
       StateSet(true))
  }
}
