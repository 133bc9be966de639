/**
 The one-time token transactions (`auth/onetime.go`, `auth/verification.go`,
 `auth/password.go`, `auth/email_change.go`). A mail send sits between issuing
 a token and activating it, and a consumption starts from an unlocked read, so
 other transactions run in between.
 */
module OneTimeTx {
  import opened Options
  import opened AuthStore

  // Issue

  /** What a purpose plugs into a send: an email change carries the new address and the
      account as it was when the current password was checked. */
  datatype Flow =
    | SendVerification
    | SendReset
    | SendChange(to: string, verifiedHash: string, verifiedEmail: string)
  {
    function Purpose(): Purpose {
      match this
      case SendVerification => VerifyEmail
      case SendReset => ResetPassword
      case SendChange(_, _, _) => ChangeEmail
    }

    function TTL(cfg: Config): int {
      if SendReset? then cfg.resetTTL else cfg.verificationTTL
    }
  }

  datatype IssueResult =
    | Issued(id: nat)
    | IssueUserGone
    | IssueDisabled
    | AlreadyVerified
    | IssuePasswordChanged
    | IssueEmailChanged
    | IssueEmailTaken
    | TooSoon(retryAfter: int)
    | IssueFailure

  /** The latest delivery of a message of the purpose among the tokens below `n`. */
  function LastSent(tokens: TokenTable, userId: nat, purpose: Purpose, n: nat): (r: Option<Time>)
    ensures forall id | 0 <= id < n && id in tokens && tokens[id].userId == userId && tokens[id].purpose == purpose
                        && tokens[id].sentAt.Some? :: r.Some? && tokens[id].sentAt.value <= r.value
    ensures r.Some? ==> exists id | id in tokens && id < n && tokens[id].userId == userId
                        && tokens[id].purpose == purpose :: tokens[id].sentAt == r
  {
    if n == 0 then None
    else
      var before := LastSent(tokens, userId, purpose, n - 1);
      var id := n - 1;
      if id in tokens && tokens[id].userId == userId && tokens[id].purpose == purpose && tokens[id].sentAt.Some?
         && (before.None? || before.value <= tokens[id].sentAt.value)
      then tokens[id].sentAt
      else before
  }

  /** The latest token of the purpose below `n` whose message is not delivered. */
  function LastUnsent(tokens: TokenTable, userId: nat, purpose: Purpose, n: nat): (r: Option<nat>)
    ensures r.Some? ==> r.value in tokens && r.value < n && tokens[r.value].userId == userId
                        && tokens[r.value].purpose == purpose && tokens[r.value].sentAt.None?
    ensures forall id | 0 <= id < n && id in tokens && tokens[id].userId == userId && tokens[id].purpose == purpose
                        && tokens[id].sentAt.None? :: r.Some? && id <= r.value
  {
    if n == 0 then None
    else if n - 1 in tokens && tokens[n - 1].userId == userId && tokens[n - 1].purpose == purpose
            && tokens[n - 1].sentAt.None?
    then Some(n - 1)
    else LastUnsent(tokens, userId, purpose, n - 1)
  }

  function Max(a: int, b: int): int {
    if a < b then b else a
  }

  /** `oneTimeWait`: how long until another message of the purpose may be sent. */
  function OneTimeWait(db: Db, userId: nat, purpose: Purpose, now: Time): int {
    var sent := LastSent(db.tokens, userId, purpose, db.nextToken);
    var pending := LastUnsent(db.tokens, userId, purpose, db.nextToken);
    var wait := if sent.Some? then RESEND_INTERVAL - (now - sent.value) else 0;
    Max(if pending.Some? then Max(wait, RESEND_INTERVAL - (now - db.tokens[pending.value].createdAt)) else wait, 0)
  }

  /** The flow's own refusal of the locked user, if any. */
  function Refusal(users: UserTable, user: User, flow: Flow): Option<IssueResult> {
    match flow
    case SendVerification => if user.EmailVerified() then Some(AlreadyVerified) else None
    case SendReset => None
    case SendChange(to, hash, email) =>
      if user.passwordHash != hash then Some(IssuePasswordChanged)
      else if user.email != email then Some(IssueEmailChanged)
      else if EmailTaken(users, to) then Some(IssueEmailTaken)
      else None
  }

  function NewToken(cfg: Config, userId: nat, user: User, flow: Flow, tokenHash: string, now: Time): OneTimeToken {
    OneTimeToken(userId, flow.Purpose(), tokenHash,
                 if flow.SendChange? && flow.to != "" then flow.to else user.email,
                 user.email, now + flow.TTL(cfg), None, None, now)
  }

  /** `issueOneTimeToken`: writes a pending token once the flow and the resend wait allow one. */
  function Issue(cfg: Config, db: Db, userId: nat, flow: Flow, tokenHash: string, now: Time): (Db, IssueResult) {
    if userId !in db.users then (db, IssueUserGone)
    else
      var user := db.users[userId];
      var refusal := Refusal(db.users, user, flow);
      var wait := OneTimeWait(db, userId, flow.Purpose(), now);
      if user.Disabled() then (db, IssueDisabled)
      else if refusal.Some? then (db, refusal.value)
      else if wait > 0 then (db, TooSoon(wait))
      else if TokenHashTaken(db.tokens, tokenHash) then (db, IssueFailure)
      else
        (db.(tokens := db.tokens[db.nextToken := NewToken(cfg, userId, user, flow, tokenHash, now)],
             nextToken := db.nextToken + 1),
         Issued(db.nextToken))
  }

  // Activation and withdrawal

  /** Delivered, unused tokens of the user and purpose but `keep`. */
  function Superseded(tokens: TokenTable, userId: nat, purpose: Purpose, keep: nat): set<nat> {
    set id | id in TokensOf(tokens, userId, {purpose}) && tokens[id].Usable() && id != keep
  }

  /** `activateToken`, for the token the sender issued as `token`. */
  function Activate(db: Db, id: nat, token: OneTimeToken, now: Time): (Db, bool) {
    if token.userId !in db.users || id !in db.tokens || !db.tokens[id].Pending() then (db, false)
    else
      var sent := db.tokens[id := db.tokens[id].(sentAt := Some(now))];
      (db.(tokens := MarkUsed(sent, Superseded(sent, token.userId, token.purpose, id), now)), true)
  }

  /** `withdrawToken`: deletes a token whose message was never delivered. */
  function Withdraw(db: Db, id: nat): Db {
    if id in db.tokens && db.tokens[id].sentAt.None? then db.(tokens := db.tokens - {id}) else db
  }

  // Consumption

  /** `consumeOneTimeToken` after its unlocked read, which found token `id` as `read`; none when it
      is refused, and then the caller's transaction rolls back, the use included. */
  function Consume(db: Db, id: nat, read: OneTimeToken, now: Time): Option<TokenTable> {
    if read.userId !in db.users || db.users[read.userId].Disabled() then None
    else if !read.Usable() || now >= read.expiresAt then None
    else if id !in db.tokens || !db.tokens[id].Usable() then None
    else if db.users[read.userId].email != (if read.fromEmail == "" then read.email else read.fromEmail) then None
    else Some(MarkUsed(db.tokens, {id}, now))
  }

  datatype Use = UseVerification | UseReset(newHash: string) | UseChange
  {
    function Purpose(): Purpose {
      match this
      case UseVerification => VerifyEmail
      case UseReset(_) => ResetPassword
      case UseChange => ChangeEmail
    }
  }

  datatype UseResult = Accepted | TokenInvalid | UseEmailTaken

  /** `consumeVerification`, `consumeReset` and `consumeEmailChange`. */
  function UseToken(cfg: Config, db: Db, id: nat, read: OneTimeToken, use: Use, now: Time): (Db, UseResult) {
    var consumed := Consume(db, id, read, now);
    if read.purpose != use.Purpose() || consumed.None? then (db, TokenInvalid)
    else
      var userId := read.userId;
      var user := db.users[userId];
      match use
      case UseVerification =>
        (db.(tokens := consumed.value,
             users := if user.EmailVerified() then db.users
                      else db.users[userId := user.(emailVerifiedAt := Some(now), verifiedEmail := read.email)]),
         Accepted)
      case UseReset(newHash) =>
        (db.(tokens := VoidTokens(consumed.value, userId, id, now, PASSWORD_BOUND),
             users := db.users[userId := user.(passwordHash := newHash)],
             refresh := if cfg.keepSessionsOnReset then db.refresh else RevokeAll(db.refresh, userId, now)),
         Accepted)
      case UseChange =>
        if EmailTakenByOther(db.users, read.email, userId) then (db, UseEmailTaken)
        else
          (db.(tokens := VoidTokens(consumed.value, userId, id, now, ALL_PURPOSES),
               users := db.users[userId := user.(email := read.email, emailVerifiedAt := Some(now),
                                                 verifiedEmail := read.email)]),
           Accepted)
  }
}
