/**
 Whole runs of the credential service. A world is the committed tables plus
 what the requests in flight hold (the versions their unlocked reads found)
 and a history of what happened. Every commit and every unlocked read is one
 step; steps of different requests interleave in any order, and a read may be
 acted on at any later time or never.
 */
module AuthRuns {
  import opened Options
  import opened AuthStore
  import opened SessionTx
  import opened OneTimeTx
  import opened Chains
  import opened Tokens

  datatype RowRead = RowRead(id: nat, row: RefreshRow)

  datatype TokenRead = TokenRead(id: nat, token: OneTimeToken)

  /** A login: the hash its password check verified and the hash stored when its session started. */
  datatype Login = Login(userId: nat, verifiedHash: string, storedHash: string)

  datatype World = World(
    db: Db,
    now: Time,
    // What requests in flight hold.
    rowReads: set<RowRead>,
    tokenReads: set<TokenRead>,
    // History: the login row each row's chain starts at, the logins by that row, the accepted
    // one-time tokens in order, and the addresses an operator vouched for.
    origin: map<nat, nat>,
    logins: map<nat, Login>,
    accepted: seq<nat>,
    vouched: set<(nat, string)>)

  datatype Op =
    | CreateUser(email: string, passwordHash: string, superuser: bool)
    | WriteEmail(userId: nat, email: string)
    | DeleteUser(userId: nat)
    | CommitLogin(userId: nat, verifiedHash: string, tokenHash: string)
    | ReadRow(tokenHash: string)
    | CommitRotate(rowRead: RowRead, tokenHash: string)
    | CommitLogout(rowId: nat, at: Time)
    | CommitRevokeSession(userId: nat, requester: nat, target: nat, ended: set<nat>, at: Time)
    | CommitRevokeAll(userId: nat, requester: nat)
    | CommitRevokeOthers(userId: nat, keep: nat)
    | CommitChangePassword(userId: nat, verifiedHash: string, requester: nat, newHash: string, keepOthers: bool)
    | CommitState(userId: nat, disable: bool, permitted: bool)
    | CommitIssue(userId: nat, flow: Flow, tokenHash: string)
    | CommitActivate(tokenRead: TokenRead)
    | CommitWithdraw(tokenId: nat)
    | ReadToken(tokenHash: string)
    | CommitUse(tokenRead: TokenRead, use: Use)

  /** A step and the instant it runs at. */
  datatype Event = At(now: Time, op: Op)

  /** `createUser`: a superuser's address starts verified. */
  function AddUser(w: World, email: string, passwordHash: string, superuser: bool): World {
    var address := NormalizeEmail(email);
    if address == "" || EmailTaken(w.db.users, address) then w
    else
      var user := User(address, passwordHash, superuser, None,
                       if superuser then Some(w.now) else None, if superuser then address else "");
      w.(db := w.db.(users := w.db.users[w.db.nextUser := user], nextUser := w.db.nextUser + 1),
         vouched := if superuser then w.vouched + {(w.db.nextUser, address)} else w.vouched)
  }

  function Perform(cfg: Config, w: World, op: Op): World {
    match op
    case CreateUser(email, hash, superuser) => AddUser(w, email, hash, superuser)
    case WriteEmail(userId, email) =>
      if userId !in w.db.users || EmailTakenByOther(w.db.users, email, userId) then w
      else w.(db := w.db.(users := w.db.users[userId := w.db.users[userId].(email := email)]))
    case DeleteUser(userId) => w.(db := w.db.(users := w.db.users - {userId}))
    case CommitLogin(userId, verified, tokenHash) =>
      var (db, r) := StartSession(cfg, w.db, userId, verified, tokenHash, w.now);
      if !r.SignedIn? then w
      else w.(db := db,
              origin := w.origin[r.row := r.row],
              logins := w.logins[r.row := Login(userId, verified, w.db.users[userId].passwordHash)])
    case ReadRow(tokenHash) =>
      w.(rowReads := w.rowReads + set id | id in w.db.refresh && w.db.refresh[id].tokenHash == tokenHash
                                    :: RowRead(id, w.db.refresh[id]))
    case CommitRotate(read, tokenHash) =>
      if read !in w.rowReads then w
      else
        var (db, r) := Rotate(cfg, w.db, read.id, read.row, tokenHash, w.now);
        w.(db := db,
           origin := if r.Rotated? && read.id in w.origin then w.origin[r.row := w.origin[read.id]] else w.origin)
    case CommitLogout(rowId, at) =>
      if at > w.now then w else w.(db := w.db.(refresh := RevokeWhere(w.db.refresh, {rowId}, at)))
    case CommitRevokeSession(userId, requester, target, ended, at) =>
      if at > w.now then w else w.(db := RevokeSession(w.db, userId, requester, target, ended, at, w.now).0)
    case CommitRevokeAll(userId, requester) => w.(db := RevokeAllSessions(w.db, userId, requester, w.now).0)
    case CommitRevokeOthers(userId, keep) => w.(db := RevokeOthers(w.db, userId, keep, w.now).0)
    case CommitChangePassword(userId, verified, requester, newHash, keepOthers) =>
      w.(db := ChangePassword(w.db, userId, verified, requester, newHash, keepOthers, w.now).0)
    case CommitState(userId, disable, permitted) => w.(db := SetUserState(w.db, userId, disable, permitted, w.now).0)
    case CommitIssue(userId, flow, tokenHash) =>
      var (db, r) := Issue(cfg, w.db, userId, flow, tokenHash, w.now);
      if !r.Issued? || r.id !in db.tokens then w
      else w.(db := db, tokenReads := w.tokenReads + {TokenRead(r.id, db.tokens[r.id])})
    case CommitActivate(read) =>
      if read !in w.tokenReads then w else w.(db := Activate(w.db, read.id, read.token, w.now).0)
    case CommitWithdraw(tokenId) => w.(db := Withdraw(w.db, tokenId))
    case ReadToken(tokenHash) =>
      w.(tokenReads := w.tokenReads + set id | id in w.db.tokens && w.db.tokens[id].tokenHash == tokenHash
                                        :: TokenRead(id, w.db.tokens[id]))
    case CommitUse(read, use) =>
      if read !in w.tokenReads then w
      else
        var (db, r) := UseToken(cfg, w.db, read.id, read.token, use, w.now);
        w.(db := db, accepted := if r.Accepted? then w.accepted + [read.id] else w.accepted)
  }

  /** One step. The clock does not run backwards: an event from the past does nothing. */
  function Step(cfg: Config, w: World, e: Event): World {
    if e.now < w.now then w else Perform(cfg, w.(now := e.now), e.op)
  }

  predicate Initial(w: World) {
    && w.db == Db(map[], 1, map[], 1, map[], 1)
    && w.rowReads == {} && w.tokenReads == {} && w.origin == map[] && w.logins == map[]
    && w.accepted == [] && w.vouched == {}
  }

  /** A run: the worlds before, between and after the events. */
  predicate IsRun(cfg: Config, ws: seq<World>, es: seq<Event>) {
    && |ws| == |es| + 1
    && Initial(ws[0])
    && forall i | 0 <= i < |es| :: ws[i + 1] == Step(cfg, ws[i], es[i])
  }

  // Invariants

  /** A row's chain starts at a login of its user that verified the stored hash, and a row's
      successor is on the same chain. */
  predicate StartsAtLogin(refresh: RefreshTable, origin: map<nat, nat>, logins: map<nat, Login>, id: nat)
    requires id in refresh && id in origin
  {
    && origin[id] <= id
    && origin[id] in logins
    && logins[origin[id]].userId == refresh[id].userId
    && logins[origin[id]].verifiedHash == logins[origin[id]].storedHash
    && (refresh[id].replacedBy.Some? ==>
          refresh[id].replacedBy.value in origin && origin[refresh[id].replacedBy.value] == origin[id])
  }

  /** Of two rows of one chain, the older has been replaced. */
  predicate OlderReplaced(refresh: RefreshTable, origin: map<nat, nat>, a: nat, b: nat)
    requires a in refresh && a in origin && b in origin
  {
    a < b && origin[a] == origin[b] ==> refresh[a].replacedBy.Some?
  }

  predicate OriginOk(refresh: RefreshTable, origin: map<nat, nat>, logins: map<nat, Login>) {
    && origin.Keys == refresh.Keys
    && (forall id | id in logins :: id in origin && origin[id] == id)
    && (forall id {:trigger StartsAtLogin(refresh, origin, logins, id)} | id in refresh ::
          StartsAtLogin(refresh, origin, logins, id))
    && (forall a, b {:trigger OlderReplaced(refresh, origin, a, b)} | a in refresh && b in refresh ::
          OlderReplaced(refresh, origin, a, b))
  }

  predicate RowReadsOk(refresh: RefreshTable, rowReads: set<RowRead>) {
    forall read | read in rowReads :: read.id in refresh && Earlier(read.row, refresh[read.id])
  }

  predicate SessionInv(refresh: RefreshTable, nextRow: nat, origin: map<nat, nat>, logins: map<nat, Login>,
                       rowReads: set<RowRead>)
  {
    && nextRow > 0
    && TableOk(refresh, nextRow)
    && OriginOk(refresh, origin, logins)
    && RowReadsOk(refresh, rowReads)
  }

  /** A token a request holds is an earlier version of its row, or was withdrawn undelivered. */
  predicate TokenReadsOk(tokens: TokenTable, nextToken: nat, tokenReads: set<TokenRead>) {
    forall read | read in tokenReads ::
      && read.id < nextToken
      && if read.id in tokens then EarlierToken(read.token, tokens[read.id]) else read.token.sentAt.None?
  }

  predicate Spent(tokens: TokenTable, id: nat) {
    id in tokens && tokens[id].sentAt.Some? && tokens[id].usedAt.Some?
  }

  /** No token is accepted twice, and an accepted one was delivered and is spent. */
  predicate AcceptedOk(tokens: TokenTable, accepted: seq<nat>) {
    && (forall i | 0 <= i < |accepted| :: Spent(tokens, accepted[i]))
    && (forall i, j | 0 <= i < j < |accepted| :: accepted[i] != accepted[j])
  }

  predicate TokenInv(tokens: TokenTable, nextToken: nat, now: Time, tokenReads: set<TokenRead>, accepted: seq<nat>) {
    && TokensOk(tokens, nextToken, now)
    && TokenReadsOk(tokens, nextToken, tokenReads)
    && AcceptedOk(tokens, accepted)
  }

  /** The user consumed a delivered token mailed to the address, or was created with it by an operator. */
  predicate Proven(tokens: TokenTable, accepted: seq<nat>, vouched: set<(nat, string)>, userId: nat, address: string) {
    || (userId, address) in vouched
    || exists id | id in accepted :: ProvedBy(tokens, id, userId, address)
  }

  predicate ProvedBy(tokens: TokenTable, id: nat, userId: nat, address: string) {
    && id in tokens
    && tokens[id].userId == userId
    && tokens[id].email == address
    && tokens[id].sentAt.Some?
    && !tokens[id].purpose.ResetPassword?
  }

  predicate ProofInv(users: UserTable, nextUser: nat, tokens: TokenTable, accepted: seq<nat>,
                     vouched: set<(nat, string)>)
  {
    forall id | id in users ::
      && id < nextUser
      && (users[id].emailVerifiedAt.Some? && users[id].verifiedEmail != "" ==>
            Proven(tokens, accepted, vouched, id, users[id].verifiedEmail))
  }

  predicate Inv(w: World) {
    && SessionInv(w.db.refresh, w.db.nextRow, w.origin, w.logins, w.rowReads)
    && TokenInv(w.db.tokens, w.db.nextToken, w.now, w.tokenReads, w.accepted)
    && ProofInv(w.db.users, w.db.nextUser, w.db.tokens, w.accepted, w.vouched)
  }

  /** What never comes undone between two worlds of a run. */
  predicate Grows(w: World, w': World) {
    && w.now <= w'.now
    && w.db.nextRow <= w'.db.nextRow && w.db.nextToken <= w'.db.nextToken
    && Evolves(w.db.refresh, w'.db.refresh)
    && (forall id | id in w'.db.refresh :: id in w.db.refresh || id >= w.db.nextRow)
    && TokensEvolve(w.db.tokens, w.db.nextToken, w'.db.tokens)
    && (forall id | id in w.origin :: id in w'.origin && w'.origin[id] == w.origin[id])
    && (forall id | id in w.logins :: id in w'.logins && w'.logins[id] == w.logins[id])
    && w.rowReads <= w'.rowReads && w.tokenReads <= w'.tokenReads
    && w.accepted <= w'.accepted && w.vouched <= w'.vouched
  }
}
