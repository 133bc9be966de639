/**
 The credential tables (`auth/models.go`) and the statements the transactions
 run on them. Row and user ids start at one and are never reused; zero stands
 for "none" where the source passes a zero id.
 */
module AuthStore {
  import opened Options

  /** An instant, in nanoseconds. */
  type Time = int

  datatype User = User(
    email: string,
    passwordHash: string,
    isSuperuser: bool,
    disabledAt: Option<Time>,
    emailVerifiedAt: Option<Time>,
    verifiedEmail: string)
  {
    predicate Disabled() {
      disabledAt.Some?
    }

    predicate EmailVerified() {
      && emailVerifiedAt.Some?
      && verifiedEmail != ""
      && NormalizeEmail(verifiedEmail) == NormalizeEmail(email)
    }
  }

  /** One refresh token. A login starts a chain of rows and each rotation
      extends it through `replacedBy`. */
  datatype RefreshRow = RefreshRow(
    userId: nat,
    tokenHash: string,
    expiresAt: Time,
    revokedAt: Option<Time>,
    replacedBy: Option<nat>,
    createdAt: Time)

  datatype Purpose = VerifyEmail | ResetPassword | ChangeEmail

  /** A mailed, single-use token: pending until `sentAt`, spent once `usedAt`. */
  datatype OneTimeToken = OneTimeToken(
    userId: nat,
    purpose: Purpose,
    tokenHash: string,
    email: string,
    fromEmail: string,
    expiresAt: Time,
    sentAt: Option<Time>,
    usedAt: Option<Time>,
    createdAt: Time)
  {
    predicate Pending() {
      sentAt.None? && usedAt.None?
    }

    /** Delivered and not used: the link in the mailbox works. */
    predicate Usable() {
      sentAt.Some? && usedAt.None?
    }
  }

  type RefreshTable = map<nat, RefreshRow>
  type TokenTable = map<nat, OneTimeToken>
  type UserTable = map<nat, User>

  datatype Db = Db(
    users: UserTable,
    nextUser: nat,
    refresh: RefreshTable,
    nextRow: nat,
    tokens: TokenTable,
    nextToken: nat)

  /** The settings the transactions read. A grace that is not positive is off. */
  datatype Config = Config(
    refreshTTL: int,
    reuseGrace: int,
    keepSessionsOnReset: bool,
    verificationTTL: int,
    resetTTL: int)

  /** `resendInterval`: one minute. */
  const RESEND_INTERVAL: int := 60_000_000_000

  /** `maxChainHops`. */
  const MAX_CHAIN_HOPS: nat := 1000

  // Addresses

  function Lower(c: char): char {
    if 'A' <= c <= 'Z' then c + 32 as char else c
  }

  predicate Blank(c: char) {
    c == ' ' || '\t' <= c <= '\r'
  }

  function TrimLeft(s: string): string {
    if s != "" && Blank(s[0]) then TrimLeft(s[1..]) else s
  }

  function TrimRight(s: string): string {
    if s != "" && Blank(s[|s| - 1]) then TrimRight(s[..|s| - 1]) else s
  }

  /** The address without surrounding blanks, in lower case (ASCII). */
  function NormalizeEmail(email: string): string {
    var trimmed := TrimRight(TrimLeft(email));
    seq(|trimmed|, i requires 0 <= i < |trimmed| => Lower(trimmed[i]))
  }

  /** No blanks around it and no capital letter. */
  predicate Normal(s: string) {
    && (s != "" ==> !Blank(s[0]) && !Blank(s[|s| - 1]))
    && forall k | 0 <= k < |s| :: !('A' <= s[k] <= 'Z')
  }

  predicate SameButCase(c: char, d: char) {
    c == d || ('A' <= c <= 'Z' && d as int == c as int + 32) || ('A' <= d <= 'Z' && c as int == d as int + 32)
  }

  lemma {:induction false} TrimmedLeft(s: string)
    ensures TrimLeft(s) != "" ==> !Blank(TrimLeft(s)[0]) && s[|s| - 1] == TrimLeft(s)[|TrimLeft(s)| - 1]
  {
    if s != "" && Blank(s[0]) {
      TrimmedLeft(s[1..]);
    }
  }

  lemma {:induction false} TrimmedRight(s: string)
    ensures TrimRight(s) <= s && (TrimRight(s) != "" ==> !Blank(TrimRight(s)[|TrimRight(s)| - 1]))
  {
    if s != "" && Blank(s[|s| - 1]) {
      TrimmedRight(s[..|s| - 1]);
    }
  }

  /** An address is normal once normalized, and a normal one is its own normal form. */
  lemma NormalizeExact(s: string)
    ensures Normal(NormalizeEmail(s))
    ensures Normal(s) ==> NormalizeEmail(s) == s
  {
    TrimmedLeft(s);
    TrimmedRight(TrimLeft(s));
  }

  lemma {:induction false} TrimLeftIgnores(blank: char, s: string)
    requires Blank(blank)
    ensures TrimLeft([blank] + s) == TrimLeft(s)
  {
    assert ([blank] + s)[1..] == s;
  }

  /** Blanks around an address make no difference. */
  lemma NormalizeIgnoresBlanks(before: char, s: string, after: char)
    requires Blank(before) && Blank(after)
    ensures NormalizeEmail([before] + s) == NormalizeEmail(s)
    ensures NormalizeEmail(s + [after]) == NormalizeEmail(s)
  {
    TrimLeftIgnores(before, s);
    TrimIgnoresLast(s, after);
  }

  lemma {:induction false} TrimIgnoresLast(s: string, after: char)
    requires Blank(after)
    ensures TrimRight(TrimLeft(s + [after])) == TrimRight(TrimLeft(s))
  {
    if s == "" {
      assert TrimLeft("" + [after]) == TrimLeft((""+ [after])[1..]) == "";
    } else if Blank(s[0]) {
      assert (s + [after])[1..] == s[1..] + [after];
      TrimIgnoresLast(s[1..], after);
    } else {
      assert TrimLeft(s + [after]) == s + [after];
      assert (s + [after])[..|s|] == s;
    }
  }

  /** Nor does the case of its letters. */
  lemma NormalizeIgnoresCase(s: string, t: string)
    requires |s| == |t| && forall k | 0 <= k < |s| :: SameButCase(s[k], t[k])
    ensures NormalizeEmail(s) == NormalizeEmail(t)
  {
    TrimsAlike(s, t);
  }

  lemma {:induction false} TrimsAlike(s: string, t: string)
    requires |s| == |t| && forall k | 0 <= k < |s| :: SameButCase(s[k], t[k])
    ensures var (a, b) := (TrimRight(TrimLeft(s)), TrimRight(TrimLeft(t)));
            |a| == |b| && forall k | 0 <= k < |a| :: SameButCase(a[k], b[k])
  {
    if s != "" && Blank(s[0]) {
      TrimsAlike(s[1..], t[1..]);
    } else {
      TrimsRightAlike(s, t);
    }
  }

  lemma {:induction false} TrimsRightAlike(s: string, t: string)
    requires |s| == |t| && forall k | 0 <= k < |s| :: SameButCase(s[k], t[k])
    ensures var (a, b) := (TrimRight(s), TrimRight(t));
            |a| == |b| && forall k | 0 <= k < |a| :: SameButCase(a[k], b[k])
  {
    if s != "" && Blank(s[|s| - 1]) {
      TrimsRightAlike(s[..|s| - 1], t[..|s| - 1]);
    }
  }

  // Statements on refresh_tokens

  function RowsOf(refresh: RefreshTable, userId: nat): set<nat> {
    set id | id in refresh && refresh[id].userId == userId
  }

  /** The user's unrevoked rows, expired ones included. */
  function Unrevoked(refresh: RefreshTable, userId: nat): set<nat> {
    set id | id in refresh && refresh[id].userId == userId && refresh[id].revokedAt.None?
  }

  /** UPDATE ... SET revoked_at = now WHERE id IN ids AND revoked_at IS NULL. */
  function RevokeWhere(refresh: RefreshTable, ids: set<nat>, now: Time): RefreshTable {
    map id | id in refresh ::
      if id in ids && refresh[id].revokedAt.None? then refresh[id].(revokedAt := Some(now)) else refresh[id]
  }

  function RevokeAll(refresh: RefreshTable, userId: nat, now: Time): RefreshTable {
    RevokeWhere(refresh, RowsOf(refresh, userId), now)
  }

  function RevokeBut(refresh: RefreshTable, userId: nat, keep: seq<nat>, now: Time): RefreshTable {
    RevokeWhere(refresh, (set id | id in RowsOf(refresh, userId) && id !in keep), now)
  }

  predicate RowHashTaken(refresh: RefreshTable, tokenHash: string) {
    exists id | id in refresh :: refresh[id].tokenHash == tokenHash
  }

  /** Whether the row is an active session at `now`: unrevoked and unexpired. */
  predicate Active(row: RefreshRow, now: Time) {
    row.revokedAt.None? && row.expiresAt > now
  }

  // Statements on auth_one_time_tokens

  /** UPDATE ... SET used_at = now WHERE id IN ids AND used_at IS NULL. */
  function MarkUsed(tokens: TokenTable, ids: set<nat>, now: Time): TokenTable {
    map id | id in tokens ::
      if id in ids && tokens[id].usedAt.None? then tokens[id].(usedAt := Some(now)) else tokens[id]
  }

  function TokensOf(tokens: TokenTable, userId: nat, purposes: set<Purpose>): set<nat> {
    set id | id in tokens && tokens[id].userId == userId && tokens[id].purpose in purposes
  }

  const ALL_PURPOSES: set<Purpose> := {VerifyEmail, ResetPassword, ChangeEmail}

  /** Purposes whose links a password change outdates. */
  const PASSWORD_BOUND: set<Purpose> := {ResetPassword, ChangeEmail}

  /** `voidTokensTx`: every unused token of the user but `except`, pending ones included. */
  function VoidTokens(tokens: TokenTable, userId: nat, except: nat, now: Time, purposes: set<Purpose>): TokenTable {
    MarkUsed(tokens, TokensOf(tokens, userId, purposes) - {except}, now)
  }

  predicate TokenHashTaken(tokens: TokenTable, tokenHash: string) {
    exists id | id in tokens :: tokens[id].tokenHash == tokenHash
  }

  predicate EmailTaken(users: UserTable, email: string) {
    exists id | id in users :: users[id].email == email
  }

  predicate EmailTakenByOther(users: UserTable, email: string, userId: nat) {
    exists id | id in users && id != userId :: users[id].email == email
  }
}
