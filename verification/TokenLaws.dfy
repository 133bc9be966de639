/**
 What the one-time token transactions guarantee, one commit at a time: when a
 message may be sent and what its token carries, what activation changes, and
 what an accepted link writes.
 */
module TokenLaws {
  import opened Options
  import opened AuthStore
  import opened OneTimeTx
  import opened Tokens

  predicate Enabled(db: Db, userId: nat) {
    userId in db.users && db.users[userId].disabledAt.None?
  }

  // The resend wait

  /** The instant a message counts from: its delivery, or its issue while it is in flight. */
  function CountsFrom(token: OneTimeToken): Time {
    if token.sentAt.Some? then token.sentAt.value else token.createdAt
  }

  /** At `t`, every message of the kind is at least the resend interval old. */
  predicate Rested(db: Db, userId: nat, purpose: Purpose, t: Time) {
    forall id | id in db.tokens && OfKind(db.tokens[id], userId, purpose) ::
      CountsFrom(db.tokens[id]) + RESEND_INTERVAL <= t
  }

  predicate OfKind(token: OneTimeToken, userId: nat, purpose: Purpose) {
    token.userId == userId && token.purpose == purpose
  }

  /** No message counts from later than the two the wait looks at. */
  lemma NoneLater(db: Db, userId: nat, purpose: Purpose, now: Time, id: nat)
    requires TokensOk(db.tokens, db.nextToken, now) && id in db.tokens && OfKind(db.tokens[id], userId, purpose)
    ensures var sent := LastSent(db.tokens, userId, purpose, db.nextToken);
            var pending := LastUnsent(db.tokens, userId, purpose, db.nextToken);
            if db.tokens[id].sentAt.Some? then sent.Some? && CountsFrom(db.tokens[id]) <= sent.value
            else pending.Some? && CountsFrom(db.tokens[id]) <= db.tokens[pending.value].createdAt
  {
    assert 0 < id < db.nextToken && RowOk(db.tokens[id], now);
  }

  /** Each of the two is a message of the kind. */
  lemma BothCount(db: Db, userId: nat, purpose: Purpose, t: Time)
    requires Rested(db, userId, purpose, t)
    ensures var sent := LastSent(db.tokens, userId, purpose, db.nextToken);
            var pending := LastUnsent(db.tokens, userId, purpose, db.nextToken);
            && (sent.Some? ==> sent.value + RESEND_INTERVAL <= t)
            && (pending.Some? ==> db.tokens[pending.value].createdAt + RESEND_INTERVAL <= t)
  {
    var sent := LastSent(db.tokens, userId, purpose, db.nextToken);
    if sent.Some? {
      var id :| id in db.tokens && OfKind(db.tokens[id], userId, purpose) && db.tokens[id].sentAt == sent;
      assert CountsFrom(db.tokens[id]) == sent.value;
    }
  }

  /** The wait is the least after which every message of the kind is old enough, and zero if they are. */
  lemma WaitExact(db: Db, userId: nat, purpose: Purpose, now: Time, later: Time)
    requires TokensOk(db.tokens, db.nextToken, now) && later >= now
    ensures OneTimeWait(db, userId, purpose, now) >= 0
    ensures Rested(db, userId, purpose, later) <==> later >= now + OneTimeWait(db, userId, purpose, now)
  {
    if Rested(db, userId, purpose, later) {
      BothCount(db, userId, purpose, later);
    }
    if later >= now + OneTimeWait(db, userId, purpose, now) {
      forall id | id in db.tokens && OfKind(db.tokens[id], userId, purpose)
        ensures CountsFrom(db.tokens[id]) + RESEND_INTERVAL <= later
      {
        NoneLater(db, userId, purpose, now, id);
      }
    }
  }

  /** From `wait` on, and not before, every message of the kind is old enough. */
  ghost predicate RestedAfter(db: Db, userId: nat, purpose: Purpose, now: Time, wait: int) {
    forall later | later >= now :: Rested(db, userId, purpose, later) <==> later >= now + wait
  }

  // Issue

  /** The send is one the flow allows of the locked user. */
  predicate Allowed(db: Db, userId: nat, flow: Flow) {
    && Enabled(db, userId)
    && var user := db.users[userId];
       match flow
       case SendVerification => !user.EmailVerified()
       case SendReset => true
       case SendChange(to, hash, email) =>
         user.passwordHash == hash && user.email == email && forall id | id in db.users :: db.users[id].email != to
  }

  /** The token a message carries: for a change to the new address, mailed there, otherwise to the account's. */
  predicate Carries(cfg: Config, user: User, userId: nat, flow: Flow, tokenHash: string, now: Time,
                    token: OneTimeToken)
  {
    && token.userId == userId && token.tokenHash == tokenHash && token.createdAt == now
    && token.fromEmail == user.email
    && token.sentAt.None? && token.usedAt.None?
    && match flow
       case SendVerification =>
         token.purpose == VerifyEmail && token.email == user.email && token.expiresAt == now + cfg.verificationTTL
       case SendReset =>
         token.purpose == ResetPassword && token.email == user.email && token.expiresAt == now + cfg.resetTTL
       case SendChange(to, _, _) =>
         && token.purpose == ChangeEmail && token.expiresAt == now + cfg.verificationTTL
         && token.email == if to == "" then user.email else to
  }

  /** The purpose a flow's messages are spaced by. */
  function KindOf(flow: Flow): Purpose {
    match flow
    case SendVerification => VerifyEmail
    case SendReset => ResetPassword
    case SendChange(_, _, _) => ChangeEmail
  }

  /** Each answer of a send. */
  lemma IssueExact(cfg: Config, db: Db, userId: nat, flow: Flow, tokenHash: string, now: Time)
    requires TokensOk(db.tokens, db.nextToken, now)
    ensures var r := Issue(cfg, db, userId, flow, tokenHash, now).1;
            var rested := Rested(db, userId, KindOf(flow), now);
            && (r.IssueUserGone? <==> userId !in db.users)
            && (r.IssueDisabled? <==> userId in db.users && !Enabled(db, userId))
            && (r.TooSoon? <==> Allowed(db, userId, flow) && !rested)
            && (r.TooSoon? ==> r.retryAfter > 0 && RestedAfter(db, userId, KindOf(flow), now, r.retryAfter))
            && (r.IssueFailure? <==> Allowed(db, userId, flow) && rested && TokenHashTaken(db.tokens, tokenHash))
            && (r.Issued? <==> Allowed(db, userId, flow) && rested && !TokenHashTaken(db.tokens, tokenHash))
  {
    var kind := KindOf(flow);
    WaitExact(db, userId, kind, now, now);
    var wait := OneTimeWait(db, userId, kind, now);
    assert RestedAfter(db, userId, kind, now, wait) by {
      forall later | later >= now ensures Rested(db, userId, kind, later) <==> later >= now + wait {
        WaitExact(db, userId, kind, now, later);
      }
    }
    IssueAnswers(cfg, db, userId, flow, tokenHash, now, wait);
  }

  lemma IssueAnswers(cfg: Config, db: Db, userId: nat, flow: Flow, tokenHash: string, now: Time, wait: int)
    requires wait == OneTimeWait(db, userId, KindOf(flow), now)
    ensures var r := Issue(cfg, db, userId, flow, tokenHash, now).1;
            && (r.IssueUserGone? <==> userId !in db.users)
            && (r.IssueDisabled? <==> userId in db.users && !Enabled(db, userId))
            && (r.TooSoon? <==> Allowed(db, userId, flow) && wait > 0)
            && (r.TooSoon? ==> r.retryAfter == wait)
            && (r.IssueFailure? <==> Allowed(db, userId, flow) && wait <= 0 && TokenHashTaken(db.tokens, tokenHash))
            && (r.Issued? <==> Allowed(db, userId, flow) && wait <= 0 && !TokenHashTaken(db.tokens, tokenHash))
  {
  }

  /** What a send writes: one pending token with what its message needs, or nothing. */
  lemma IssueWrites(cfg: Config, db: Db, userId: nat, flow: Flow, tokenHash: string, now: Time)
    ensures var (db', r) := Issue(cfg, db, userId, flow, tokenHash, now);
            && (r.Issued? ==>
                  && r.id == db.nextToken && userId in db.users
                  && db' == db.(tokens := db'.tokens, nextToken := db.nextToken + 1)
                  && db'.tokens.Keys == db.tokens.Keys + {r.id}
                  && Carries(cfg, db.users[userId], userId, flow, tokenHash, now, db'.tokens[r.id])
                  && (forall id | id in db.tokens && id != r.id :: db'.tokens[id] == db.tokens[id]))
            && (!r.Issued? ==> db' == db)
  {
  }

  /** Why a flow refuses an account that is there and enabled. */
  lemma RefusalExact(cfg: Config, db: Db, userId: nat, flow: Flow, tokenHash: string, now: Time)
    ensures var r := Issue(cfg, db, userId, flow, tokenHash, now).1;
            && (r.AlreadyVerified? <==>
                  Enabled(db, userId) && flow.SendVerification? && db.users[userId].EmailVerified())
            && (r.IssuePasswordChanged? <==>
                  Enabled(db, userId) && flow.SendChange? && db.users[userId].passwordHash != flow.verifiedHash)
            && (r.IssueEmailChanged? <==>
                  && Enabled(db, userId) && flow.SendChange? && db.users[userId].passwordHash == flow.verifiedHash
                  && db.users[userId].email != flow.verifiedEmail)
            && (r.IssueEmailTaken? <==>
                  && Enabled(db, userId) && flow.SendChange? && db.users[userId].passwordHash == flow.verifiedHash
                  && db.users[userId].email == flow.verifiedEmail
                  && exists id | id in db.users :: db.users[id].email == flow.to)
  {
  }

  // Activation and withdrawal

  /** A pending token becomes the working link as of `now` and the user's other working links of its purpose
      stop; otherwise nothing changes. */
  lemma ActivateExact(db: Db, id: nat, token: OneTimeToken, now: Time)
    ensures var (db', ok) := Activate(db, id, token, now);
            && (ok <==> token.userId in db.users && id in db.tokens
                        && db.tokens[id].sentAt.None? && db.tokens[id].usedAt.None?)
            && (!ok ==> db' == db)
            && (ok ==>
                  && db' == db.(tokens := db'.tokens)
                  && db'.tokens.Keys == db.tokens.Keys
                  && db'.tokens[id] == db.tokens[id].(sentAt := Some(now))
                  && (forall other | other in db.tokens && other != id ::
                        db'.tokens[other] ==
                        if Supersedes(token, db.tokens[other]) then db.tokens[other].(usedAt := Some(now))
                        else db.tokens[other]))
  {
  }

  predicate Supersedes(token: OneTimeToken, other: OneTimeToken) {
    other.userId == token.userId && other.purpose == token.purpose && other.sentAt.Some? && other.usedAt.None?
  }

  /** Withdrawal deletes the token exactly when it was never delivered. */
  lemma WithdrawExact(db: Db, id: nat)
    ensures var db' := Withdraw(db, id);
            && db' == db.(tokens := db'.tokens)
            && (id in db'.tokens <==> id in db.tokens && db.tokens[id].sentAt.Some?)
            && (forall other | other != id :: other in db'.tokens <==> other in db.tokens)
            && (forall other | other in db'.tokens :: db'.tokens[other] == db.tokens[other])
  {
  }

  // Consumption

  /** The link works: for its purpose, delivered, unused and unexpired, for an enabled account that still has
      the address the link was issued for. */
  predicate Works(db: Db, id: nat, read: OneTimeToken, use: Use, now: Time) {
    && (match use
        case UseVerification => read.purpose == VerifyEmail
        case UseReset(_) => read.purpose == ResetPassword
        case UseChange => read.purpose == ChangeEmail)
    && Enabled(db, read.userId)
    && read.sentAt.Some? && read.usedAt.None? && now < read.expiresAt
    && id in db.tokens && db.tokens[id].sentAt.Some? && db.tokens[id].usedAt.None?
    && db.users[read.userId].email == if read.fromEmail == "" then read.email else read.fromEmail
  }

  predicate TakenByOther(db: Db, address: string, userId: nat) {
    exists id | id in db.users && id != userId :: db.users[id].email == address
  }

  /** Each answer of a consumption; a refused one writes nothing. */
  lemma UseTokenExact(cfg: Config, db: Db, id: nat, read: OneTimeToken, use: Use, now: Time)
    ensures var (db', r) := UseToken(cfg, db, id, read, use, now);
            var taken := use.UseChange? && TakenByOther(db, read.email, read.userId);
            && (r.Accepted? <==> Works(db, id, read, use, now) && !taken)
            && (r.UseEmailTaken? <==> Works(db, id, read, use, now) && taken)
            && (r.TokenInvalid? <==> !Works(db, id, read, use, now))
            && (!r.Accepted? ==> db' == db)
  {
  }

  /** What an accepted link writes to its user, and to no other: a reset the new hash; an email change the
      address the link was mailed to, as the account's and as verified; a verification that address as
      verified, unless the account is verified already. */
  lemma AcceptedWritesUser(cfg: Config, db: Db, id: nat, read: OneTimeToken, use: Use, now: Time)
    requires UseToken(cfg, db, id, read, use, now).1.Accepted?
    ensures var db' := UseToken(cfg, db, id, read, use, now).0;
            && read.userId in db.users && db'.users.Keys == db.users.Keys && db'.nextUser == db.nextUser
            && (forall u | u in db.users && u != read.userId :: db'.users[u] == db.users[u])
            && var (user, user') := (db.users[read.userId], db'.users[read.userId]);
               match use
               case UseReset(newHash) => user' == user.(passwordHash := newHash)
               case UseChange =>
                 user' == user.(email := read.email, emailVerifiedAt := Some(now), verifiedEmail := read.email)
               case UseVerification =>
                 user' == if user.EmailVerified() then user
                          else user.(emailVerifiedAt := Some(now), verifiedEmail := read.email)
  {
  }

  /** So an email change leaves the account verified for its new address, and a verification leaves it
      verified exactly when it was or the link was mailed to its address, up to normalization. */
  lemma AcceptedVerifies(cfg: Config, db: Db, id: nat, read: OneTimeToken, use: Use, now: Time)
    requires UseToken(cfg, db, id, read, use, now).1.Accepted? && read.email != ""
    ensures var (user, user') := (db.users[read.userId], UseToken(cfg, db, id, read, use, now).0.users[read.userId]);
            && (use.UseChange? ==> user'.EmailVerified() && user'.email == read.email)
            && (use.UseVerification? ==>
                  && user'.email == user.email
                  && (user'.EmailVerified() <==>
                        user.EmailVerified() || NormalizeEmail(read.email) == NormalizeEmail(user.email)))
  {
  }

  /** Whether a link of the user is outdated by the use: a reset outdates resets and email changes, an email
      change every link. */
  predicate Outdated(use: Use, userId: nat, other: OneTimeToken) {
    && other.userId == userId
    && match use
       case UseVerification => false
       case UseReset(_) => other.purpose == ResetPassword || other.purpose == ChangeEmail
       case UseChange => true
  }

  /** What an accepted link writes to the links and the sessions: it is spent as of `now` with what it outdates,
      and a reset ends every session unless it is set to keep them. */
  lemma AcceptedSpends(cfg: Config, db: Db, id: nat, read: OneTimeToken, use: Use, now: Time)
    requires UseToken(cfg, db, id, read, use, now).1.Accepted?
    ensures var db' := UseToken(cfg, db, id, read, use, now).0;
            && db'.tokens.Keys == db.tokens.Keys && db'.nextToken == db.nextToken
            && (forall t | t in db.tokens ::
                  db'.tokens[t] ==
                  if (t == id || Outdated(use, read.userId, db.tokens[t])) && db.tokens[t].usedAt.None?
                  then db.tokens[t].(usedAt := Some(now)) else db.tokens[t])
            && db'.refresh.Keys == db.refresh.Keys && db'.nextRow == db.nextRow
            && (forall row | row in db.refresh ::
                  db'.refresh[row] ==
                  if use.UseReset? && !cfg.keepSessionsOnReset && db.refresh[row].userId == read.userId
                     && db.refresh[row].revokedAt.None?
                  then db.refresh[row].(revokedAt := Some(now)) else db.refresh[row])
  {
    UseTokenEffect(cfg, db, id, read, use, now);
    forall t | t in db.tokens
      ensures t in {id} + AlsoSpent(db.tokens, read.userId, id, use) <==>
              t == id || Outdated(use, read.userId, db.tokens[t])
    {
      var purpose := db.tokens[t].purpose;
      assert purpose.VerifyEmail? || purpose.ResetPassword? || purpose.ChangeEmail?;
    }
  }
}
