/**
 The service's transactions as they run: statements that update the tables in
 place, in the order the source issues them, each method one committed
 transaction. Each is proved to have the effect of its function in `SessionTx`
 or `OneTimeTx`, which the theorems about runs are stated over.
 */
module AuthService {
  import opened Options
  import opened AuthStore
  import opened SessionTx
  import opened OneTimeTx

  class Service {
    const cfg: Config
    var users: UserTable
    var nextUser: nat
    var refresh: RefreshTable
    var nextRow: nat
    var tokens: TokenTable
    var nextToken: nat

    constructor (cfg: Config)
      ensures this.cfg == cfg && Tables() == Db(map[], 1, map[], 1, map[], 1)
    {
      this.cfg := cfg;
      users, refresh, tokens := map[], map[], map[];
      nextUser, nextRow, nextToken := 1, 1, 1;
    }

    function Tables(): Db
      reads this
    {
      Db(users, nextUser, refresh, nextRow, tokens, nextToken)
    }

    /** `issueTokens`: inserts the row of a new token, unless its hash is in use. */
    method IssueTokens(userId: nat, tokenHash: string, now: Time) returns (row: Option<nat>)
      modifies this`refresh, this`nextRow
      ensures row == if RowHashTaken(old(refresh), tokenHash) then None else Some(old(nextRow))
      ensures Tables() == if row.Some? then IssueRow(cfg, old(Tables()), userId, tokenHash, now) else old(Tables())
    {
      if RowHashTaken(refresh, tokenHash) {
        return None;
      }
      row := Some(nextRow);
      refresh := refresh[nextRow := RefreshRow(userId, tokenHash, now + cfg.refreshTTL, None, None, now)];
      nextRow := nextRow + 1;
    }

    method StartSession(userId: nat, verifiedHash: string, tokenHash: string, now: Time) returns (r: LoginResult)
      modifies this`refresh, this`nextRow
      ensures (Tables(), r) == SessionTx.StartSession(cfg, old(Tables()), userId, verifiedHash, tokenHash, now)
    {
      if userId !in users {
        return AccountGone;
      }
      if users[userId].Disabled() {
        return LoginDisabled;
      }
      if users[userId].passwordHash != verifiedHash {
        return PasswordStale;
      }
      var row := IssueTokens(userId, tokenHash, now);
      r := if row.Some? then SignedIn(row.value) else LoginFailure;
    }

    /** `rotateRefreshOnce` after its unlocked read. The statements that follow a failed insert are
        rolled back with it. */
    method RotateRefreshOnce(id: nat, read: RefreshRow, tokenHash: string, now: Time) returns (r: RotateResult)
      modifies this`refresh, this`nextRow
      ensures (Tables(), r) == Rotate(cfg, old(Tables()), id, read, tokenHash, now)
    {
      if read.userId !in users {
        return UserGone;
      }
      if users[read.userId].Disabled() {
        return InvalidToken;
      }
      if read.expiresAt <= now {
        if read.revokedAt.None? {
          return Reread(refresh, id);
        }
        return if read.replacedBy.Some? then Raced else InvalidToken;
      }
      if read.revokedAt.Some? {
        if read.replacedBy.None? {
          return InvalidToken;
        }
        if cfg.reuseGrace > 0 && read.revokedAt.value > now - cfg.reuseGrace {
          if read.replacedBy.value !in refresh {
            return RotateFailure;
          }
          var successor := refresh[read.replacedBy.value];
          if successor.replacedBy.None? {
            return if successor.revokedAt.None? && successor.expiresAt > now then Raced else InvalidToken;
          }
        }
        refresh := RevokeAll(refresh, read.userId, now);
        return Reuse;
      }
      if id !in refresh || refresh[id].revokedAt.Some? {
        return Reread(refresh, id);
      }
      var saved := refresh;
      refresh := refresh[id := refresh[id].(revokedAt := Some(now))];
      assert forall k | k in refresh :: refresh[k].tokenHash == saved[k].tokenHash;
      var row := IssueTokens(read.userId, tokenHash, now);
      if row.None? {
        refresh := saved;
        return RotateFailure;
      }
      refresh := refresh[id := refresh[id].(replacedBy := row)];
      r := Rotated(row.value);
    }

    /** `RevokeRefresh`'s update, with the instant it read before it; true when it ended the session. */
    method RevokeRefresh(id: nat, at: Time) returns (ended: bool)
      modifies this`refresh
      ensures refresh == RevokeWhere(old(refresh), {id}, at)
      ensures ended <==> id in old(refresh) && old(refresh)[id].revokedAt.None?
    {
      ended := id in refresh && refresh[id].revokedAt.None?;
      if ended {
        refresh := refresh[id := refresh[id].(revokedAt := Some(at))];
      }
      assert refresh == RevokeWhere(old(refresh), {id}, at);
    }

    /** `sessionChain`. */
    method FollowChain(userId: nat, fromId: nat) returns (ids: seq<nat>, last: Option<nat>)
      ensures (ids, last) == SessionChain(refresh, userId, fromId)
    {
      var seen := {fromId};
      ids, last := [fromId], None;
      var next := fromId;
      var hop := 0;
      while hop < MAX_CHAIN_HOPS
        invariant 0 <= hop <= MAX_CHAIN_HOPS
        invariant ids != [] && ids[|ids| - 1] == next
        invariant seen == set id | id in ids
        invariant SessionChain(refresh, userId, fromId) == Walk(refresh, userId, ids, last, MAX_CHAIN_HOPS - hop)
      {
        if next !in refresh || refresh[next].userId != userId {
          break;
        }
        last := Some(next);
        if refresh[next].replacedBy.None? || refresh[next].replacedBy.value in seen {
          return;
        }
        next := refresh[next].replacedBy.value;
        seen := seen + {next};
        ids := ids + [next];
        hop := hop + 1;
      }
    }

    /** `requesterChain`. */
    method KeptChain(userId: nat, rowId: nat, now: Time) returns (keep: Option<seq<nat>>)
      ensures keep == RequesterChain(refresh, userId, rowId, now)
    {
      var ids, last := FollowChain(userId, rowId);
      if last.None? || last.value !in refresh || refresh[last.value].revokedAt.Some?
         || refresh[last.value].expiresAt <= now
      {
        return None;
      }
      keep := Some(ids);
    }

    /** `sessionRow`, over the rows `ActiveRows` lists. */
    method OwnRow(userId: nat, rowId: nat, now: Time) returns (own: nat)
      ensures own == SessionRow(refresh, userId, rowId, now)
    {
      var ids, _ := FollowChain(userId, rowId);
      var k := 0;
      while k < |ids|
        invariant 0 <= k <= |ids|
        invariant FirstListed(refresh, userId, ids, now) == FirstListed(refresh, userId, ids[k..], now)
      {
        if Listed(refresh, userId, ids[k], now) {
          return ids[k];
        }
        k := k + 1;
      }
      own := 0;
    }

    /** `revokeSessionAs`, with the logouts that commit between its list and its update. */
    method RevokeSessionAs(userId: nat, requester: nat, target: nat, ended: set<nat>, at: Time, now: Time)
      returns (r: SessionResult)
      modifies this`refresh
      ensures (Tables(), r) == RevokeSession(old(Tables()), userId, requester, target, ended, at, now)
    {
      if userId !in users {
        return SessionNotFound;
      }
      var own := 0;
      if requester != 0 {
        own := OwnRow(userId, requester, now);
        if own == 0 {
          return SessionEnded;
        }
      }
      if !Listed(refresh, userId, target, now) {
        return SessionNotFound;
      }
      refresh := RevokeWhere(refresh, ended, at);
      ghost var later := refresh;
      var revoked := RevokeRefresh(target, now);
      if !revoked {
        assert refresh == later;
        return SessionNotFound;
      }
      r := SessionRevoked(requester != 0 && target == own);
    }

    method RevokeAllSessionsAs(userId: nat, requester: nat, now: Time) returns (r: SessionResult)
      modifies this`refresh
      ensures (Tables(), r) == RevokeAllSessions(old(Tables()), userId, requester, now)
    {
      if userId !in users {
        return SessionNotFound;
      }
      if requester != 0 {
        var keep := KeptChain(userId, requester, now);
        if keep.None? {
          return SessionEnded;
        }
      }
      refresh := RevokeAll(refresh, userId, now);
      r := SessionsRevoked;
    }

    method RevokeOtherSessions(userId: nat, keepId: nat, now: Time) returns (r: SessionResult)
      modifies this`refresh
      ensures (Tables(), r) == RevokeOthers(old(Tables()), userId, keepId, now)
    {
      if userId !in users {
        return SessionNotFound;
      }
      var keep := KeptChain(userId, keepId, now);
      if keep.None? {
        return SessionEnded;
      }
      refresh := RevokeBut(refresh, userId, keep.value, now);
      r := SessionsRevoked;
    }

    method ChangePassword(userId: nat, verifiedHash: string, requester: nat, newHash: string, keepOthers: bool,
                          now: Time)
      returns (r: ChangeResult)
      modifies this`users, this`refresh, this`tokens
      ensures (Tables(), r) ==
              SessionTx.ChangePassword(old(Tables()), userId, verifiedHash, requester, newHash, keepOthers, now)
    {
      if userId !in users {
        return ChangeUserGone;
      }
      if users[userId].Disabled() {
        return ChangeDisabled;
      }
      if users[userId].passwordHash != verifiedHash {
        return ChangePasswordStale;
      }
      var keep := None;
      if requester != 0 {
        keep := KeptChain(userId, requester, now);
        if keep.None? {
          return ChangeSessionEnded;
        }
      }
      users := users[userId := users[userId].(passwordHash := newHash)];
      tokens := VoidTokens(tokens, userId, 0, now, PASSWORD_BOUND);
      if !keepOthers {
        refresh := if keep.Some? then RevokeBut(refresh, userId, keep.value, now) else RevokeAll(refresh, userId, now);
      }
      r := Changed;
    }

    /** `setUserState`: the check decides on the row the change is made to. */
    method SetUserState(userId: nat, disable: bool, check: User -> bool, now: Time) returns (r: StateResult)
      modifies this`users, this`refresh, this`tokens
      ensures var permitted := userId in old(users) && check(old(users)[userId]);
              (Tables(), r) == SessionTx.SetUserState(old(Tables()), userId, disable, permitted, now)
    {
      if userId !in users {
        return StateUserGone;
      }
      if !check(users[userId]) {
        return StateRefused;
      }
      if users[userId].Disabled() == disable {
        return StateSet(false);
      }
      users := users[userId := users[userId].(disabledAt := if disable then Some(now) else None)];
      if disable {
        refresh := RevokeAll(refresh, userId, now);
        tokens := VoidTokens(tokens, userId, 0, now, ALL_PURPOSES);
      }
      r := StateSet(true);
    }

    method IssueOneTimeToken(userId: nat, flow: Flow, tokenHash: string, now: Time) returns (r: IssueResult)
      modifies this`tokens, this`nextToken
      ensures (Tables(), r) == Issue(cfg, old(Tables()), userId, flow, tokenHash, now)
    {
      if userId !in users {
        return IssueUserGone;
      }
      var user := users[userId];
      if user.Disabled() {
        return IssueDisabled;
      }
      var refusal := Refusal(users, user, flow);
      if refusal.Some? {
        return refusal.value;
      }
      var wait := OneTimeWait(Tables(), userId, flow.Purpose(), now);
      if wait > 0 {
        return TooSoon(wait);
      }
      if TokenHashTaken(tokens, tokenHash) {
        return IssueFailure;
      }
      r := Issued(nextToken);
      tokens := tokens[nextToken := NewToken(cfg, userId, user, flow, tokenHash, now)];
      nextToken := nextToken + 1;
    }

    method ActivateToken(id: nat, token: OneTimeToken, now: Time) returns (ok: bool)
      modifies this`tokens
      ensures (Tables(), ok) == Activate(old(Tables()), id, token, now)
    {
      if token.userId !in users {
        return false;
      }
      if id !in tokens || !tokens[id].Pending() {
        return false;
      }
      tokens := tokens[id := tokens[id].(sentAt := Some(now))];
      tokens := MarkUsed(tokens, Superseded(tokens, token.userId, token.purpose, id), now);
      ok := true;
    }

    method WithdrawToken(id: nat)
      modifies this`tokens
      ensures Tables() == Withdraw(old(Tables()), id)
    {
      if id in tokens && tokens[id].sentAt.None? {
        tokens := tokens - {id};
      }
    }

    /** `consumeOneTimeToken`: marks the token used before it compares the user's address, so a caller
        it refuses has to roll back. */
    method ConsumeOneTimeToken(id: nat, read: OneTimeToken, now: Time) returns (ok: bool)
      modifies this`tokens
      ensures ok <==> Consume(old(Tables()), id, read, now).Some?
      ensures ok ==> tokens == Consume(old(Tables()), id, read, now).value
    {
      if read.userId !in users || users[read.userId].Disabled() {
        return false;
      }
      if read.sentAt.None? || read.usedAt.Some? || now >= read.expiresAt {
        return false;
      }
      if id !in tokens || !tokens[id].Usable() {
        return false;
      }
      tokens := MarkUsed(tokens, {id}, now);
      var from := if read.fromEmail == "" then read.email else read.fromEmail;
      ok := users[read.userId].email == from;
    }

    method ConsumeToken(id: nat, read: OneTimeToken, use: Use, now: Time) returns (r: UseResult)
      modifies this`users, this`refresh, this`tokens
      ensures (Tables(), r) == UseToken(cfg, old(Tables()), id, read, use, now)
    {
      if read.purpose != use.Purpose() {
        return TokenInvalid;
      }
      var savedTokens := tokens;
      var ok := ConsumeOneTimeToken(id, read, now);
      if !ok {
        tokens := savedTokens;
        return TokenInvalid;
      }
      var userId := read.userId;
      match use {
      case UseVerification =>
        if !users[userId].EmailVerified() {
          users := users[userId := users[userId].(emailVerifiedAt := Some(now), verifiedEmail := read.email)];
        }
      case UseReset(newHash) =>
        users := users[userId := users[userId].(passwordHash := newHash)];
        tokens := VoidTokens(tokens, userId, id, now, PASSWORD_BOUND);
        if !cfg.keepSessionsOnReset {
          refresh := RevokeAll(refresh, userId, now);
        }
      case UseChange =>
        if EmailTakenByOther(users, read.email, userId) {
          tokens := savedTokens;
          return UseEmailTaken;
        }
        users := users[userId := users[userId].(email := read.email, emailVerifiedAt := Some(now),
                                                verifiedEmail := read.email)];
        tokens := VoidTokens(tokens, userId, id, now, ALL_PURPOSES);
      }
      r := Accepted;
    }
  }
}
