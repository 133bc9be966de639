/**
 The shape of the one-time token table, and that every statement on it keeps
 that shape: at most one working link per user and purpose, and messages of a
 purpose spaced by the resend interval.
 */
module Tokens {
  import opened Options
  import opened AuthStore
  import opened OneTimeTx

  predicate RowOk(token: OneTimeToken, now: Time) {
    && token.createdAt <= now
    && (token.sentAt.Some? ==> token.createdAt <= token.sentAt.value <= now)
  }

  predicate RowsOk(tokens: TokenTable, nextToken: nat, now: Time) {
    && nextToken > 0
    && forall id | id in tokens :: 0 < id < nextToken && RowOk(tokens[id], now)
  }

  predicate SameFlow(a: OneTimeToken, b: OneTimeToken) {
    a.userId == b.userId && a.purpose == b.purpose
  }

  /** Tokens are created in the order of their ids, those of one user and purpose at least the
      resend interval apart. */
  predicate SpacedOk(tokens: TokenTable) {
    forall a, b | a in tokens && b in tokens && a < b ::
      tokens[a].createdAt + (if SameFlow(tokens[a], tokens[b]) then RESEND_INTERVAL else 0) <= tokens[b].createdAt
  }

  /** Only the latest delivered link of a user and purpose works. */
  predicate OneUsable(tokens: TokenTable) {
    forall a, b | a in tokens && b in tokens && tokens[a].Usable() && tokens[b].Usable()
                  && SameFlow(tokens[a], tokens[b]) :: a == b
  }

  predicate TokenHashesUnique(tokens: TokenTable) {
    forall a, b | a in tokens && b in tokens && tokens[a].tokenHash == tokens[b].tokenHash :: a == b
  }

  predicate TokensOk(tokens: TokenTable, nextToken: nat, now: Time) {
    RowsOk(tokens, nextToken, now) && SpacedOk(tokens) && OneUsable(tokens) && TokenHashesUnique(tokens)
  }

  /** `earlier` is a version the row `later` had: delivery and use are written once. */
  predicate EarlierToken(earlier: OneTimeToken, later: OneTimeToken) {
    && earlier == later.(sentAt := earlier.sentAt, usedAt := earlier.usedAt)
    && (earlier.sentAt.Some? ==> earlier.sentAt == later.sentAt)
    && (earlier.usedAt.Some? ==> earlier.usedAt == later.usedAt)
  }

  /** Rows change only forward; only undelivered ones are deleted, and new ones have new ids. */
  predicate TokensEvolve(before: TokenTable, nextBefore: nat, after: TokenTable) {
    && (forall id | id in before ::
          if id in after then EarlierToken(before[id], after[id]) else before[id].sentAt.None?)
    && (forall id | id in after :: id in before || id >= nextBefore)
  }

  lemma TokensEvolveTransitive(a: TokenTable, nextA: nat, b: TokenTable, nextB: nat, c: TokenTable)
    requires TokensEvolve(a, nextA, b) && TokensEvolve(b, nextB, c) && nextA <= nextB
    requires forall id | id in a :: id < nextB
    ensures TokensEvolve(a, nextA, c)
  {
    forall id | id in a
      ensures if id in c then EarlierToken(a[id], c[id]) else a[id].sentAt.None?
    {
      if id !in b {
        assert id !in c;
      }
    }
  }

  lemma MarkUsedKeeps(tokens: TokenTable, nextToken: nat, now: Time, ids: set<nat>, at: Time)
    requires TokensOk(tokens, nextToken, now)
    ensures TokensOk(MarkUsed(tokens, ids, at), nextToken, now)
    ensures TokensEvolve(tokens, nextToken, MarkUsed(tokens, ids, at))
  {
    var after := MarkUsed(tokens, ids, at);
    assert forall id | id in after :: after[id] == tokens[id].(usedAt := after[id].usedAt);
  }

  /** A new message is allowed only a full interval after every earlier one of its kind. */
  lemma WaitSpaces(db: Db, userId: nat, purpose: Purpose, now: Time)
    requires TokensOk(db.tokens, db.nextToken, now)
    requires OneTimeWait(db, userId, purpose, now) <= 0
    ensures forall id | id in db.tokens && db.tokens[id].userId == userId && db.tokens[id].purpose == purpose ::
              db.tokens[id].createdAt + RESEND_INTERVAL <= now
  {
    forall id | id in db.tokens && db.tokens[id].userId == userId && db.tokens[id].purpose == purpose
      ensures db.tokens[id].createdAt + RESEND_INTERVAL <= now
    {
      assert 0 < id < db.nextToken && RowOk(db.tokens[id], now);
      if db.tokens[id].sentAt.None? {
        var latest := LastUnsent(db.tokens, userId, purpose, db.nextToken).value;
        assert db.tokens[id].createdAt <= db.tokens[latest].createdAt;
      }
    }
  }

  lemma InsertKeeps(tokens: TokenTable, nextToken: nat, now: Time, token: OneTimeToken)
    requires TokensOk(tokens, nextToken, now)
    requires token.Pending() && token.createdAt == now && !TokenHashTaken(tokens, token.tokenHash)
    requires forall id | id in tokens && SameFlow(tokens[id], token) :: tokens[id].createdAt + RESEND_INTERVAL <= now
    ensures nextToken !in tokens
    ensures TokensOk(tokens[nextToken := token], nextToken + 1, now)
    ensures TokensEvolve(tokens, nextToken, tokens[nextToken := token])
  {
    var after := tokens[nextToken := token];
    assert nextToken !in tokens;
    forall a, b | a in after && b in after && a < b
      ensures after[a].createdAt + (if SameFlow(after[a], after[b]) then RESEND_INTERVAL else 0) <= after[b].createdAt
    {
      assert a in tokens && RowOk(tokens[a], now);
      if b == nextToken && SameFlow(after[a], after[b]) {
        assert SameFlow(tokens[a], token);
      }
    }
  }

  lemma IssueKeeps(cfg: Config, db: Db, userId: nat, flow: Flow, tokenHash: string, now: Time)
    requires TokensOk(db.tokens, db.nextToken, now)
    ensures var db' := Issue(cfg, db, userId, flow, tokenHash, now).0;
            && TokensOk(db'.tokens, db'.nextToken, now)
            && TokensEvolve(db.tokens, db.nextToken, db'.tokens)
            && db.nextToken <= db'.nextToken
  {
    if Issue(cfg, db, userId, flow, tokenHash, now).1.Issued? {
      var token := NewToken(cfg, userId, db.users[userId], flow, tokenHash, now);
      IssueInserts(cfg, db, userId, flow, tokenHash, now, token);
      InsertKeeps(db.tokens, db.nextToken, now, token);
    } else {
      EvolvesAsIs(db.tokens, db.nextToken);
    }
  }

  lemma EvolvesAsIs(tokens: TokenTable, nextToken: nat)
    ensures TokensEvolve(tokens, nextToken, tokens)
  {
  }

  lemma IssueInserts(cfg: Config, db: Db, userId: nat, flow: Flow, tokenHash: string, now: Time, token: OneTimeToken)
    requires TokensOk(db.tokens, db.nextToken, now)
    requires Issue(cfg, db, userId, flow, tokenHash, now).1.Issued?
    requires token == NewToken(cfg, userId, db.users[userId], flow, tokenHash, now)
    ensures token.Pending() && token.createdAt == now && !TokenHashTaken(db.tokens, token.tokenHash)
    ensures forall id | id in db.tokens && SameFlow(db.tokens[id], token) ::
              db.tokens[id].createdAt + RESEND_INTERVAL <= now
    ensures Issue(cfg, db, userId, flow, tokenHash, now).0
            == db.(tokens := db.tokens[db.nextToken := token], nextToken := db.nextToken + 1)
  {
    WaitSpaces(db, userId, flow.Purpose(), now);
  }

  /** Rows that differ only in delivery and use keep their spacing and their hashes. */
  lemma DeliveryKeepsSpacing(before: TokenTable, after: TokenTable)
    requires SpacedOk(before) && TokenHashesUnique(before) && before.Keys == after.Keys
    requires forall id | id in before ::
               after[id] == before[id].(sentAt := after[id].sentAt, usedAt := after[id].usedAt)
    ensures SpacedOk(after) && TokenHashesUnique(after)
  {
    forall a, b | a in after && b in after && a < b
      ensures after[a].createdAt + (if SameFlow(after[a], after[b]) then RESEND_INTERVAL else 0) <= after[b].createdAt
    {
      assert SameFlow(after[a], after[b]) == SameFlow(before[a], before[b]);
    }
  }

  /** The table after token `id` is delivered: it works, and the other links of its kind are spent. */
  function Delivered(tokens: TokenTable, id: nat, now: Time): TokenTable
    requires id in tokens
  {
    map k | k in tokens ::
      if k == id then tokens[k].(sentAt := Some(now))
      else if tokens[k].Usable() && SameFlow(tokens[k], tokens[id]) then tokens[k].(usedAt := Some(now))
      else tokens[k]
  }

  lemma ActivateDelivers(db: Db, id: nat, token: OneTimeToken, now: Time)
    requires Activate(db, id, token, now).1 && EarlierToken(token, db.tokens[id])
    ensures Activate(db, id, token, now).0 == db.(tokens := Delivered(db.tokens, id, now))
  {
    var after := Activate(db, id, token, now).0.tokens;
    assert after.Keys == db.tokens.Keys;
    forall k | k in after ensures after[k] == Delivered(db.tokens, id, now)[k] {
    }
  }

  lemma DeliverKeeps(tokens: TokenTable, nextToken: nat, now: Time, id: nat)
    requires TokensOk(tokens, nextToken, now)
    requires id in tokens && tokens[id].Pending()
    ensures TokensOk(Delivered(tokens, id, now), nextToken, now)
    ensures TokensEvolve(tokens, nextToken, Delivered(tokens, id, now))
  {
    var after := Delivered(tokens, id, now);
    DeliveryKeepsSpacing(tokens, after);
    forall a, b | a in after && b in after && after[a].Usable() && after[b].Usable() && SameFlow(after[a], after[b])
      ensures a == b
    {
      assert SameFlow(tokens[a], tokens[b]);
    }
  }

  lemma ActivateKeeps(db: Db, id: nat, token: OneTimeToken, now: Time)
    requires TokensOk(db.tokens, db.nextToken, now)
    requires id in db.tokens ==> EarlierToken(token, db.tokens[id])
    ensures var (db', ok) := Activate(db, id, token, now);
            && TokensOk(db'.tokens, db'.nextToken, now)
            && TokensEvolve(db.tokens, db.nextToken, db'.tokens)
            // The new link works and no earlier one of its kind does, or nothing changed.
            && (ok ==> id in db'.tokens && db'.tokens[id].Usable())
            && (!ok ==> db' == db)
  {
    if Activate(db, id, token, now).1 {
      ActivateDelivers(db, id, token, now);
      DeliverKeeps(db.tokens, db.nextToken, now, id);
    }
  }

  lemma WithdrawKeeps(db: Db, id: nat, now: Time)
    requires TokensOk(db.tokens, db.nextToken, now)
    ensures TokensOk(Withdraw(db, id).tokens, db.nextToken, now)
    ensures TokensEvolve(db.tokens, db.nextToken, Withdraw(db, id).tokens)
  {
  }

  /** The tokens an accepted use spends besides its own. */
  function AlsoSpent(tokens: TokenTable, userId: nat, id: nat, use: Use): set<nat> {
    match use
    case UseVerification => {}
    case UseReset(_) => TokensOf(tokens, userId, PASSWORD_BOUND) - {id}
    case UseChange => TokensOf(tokens, userId, ALL_PURPOSES) - {id}
  }

  /** A refused use changes nothing; an accepted one finds the token delivered and unused, and spends
      it and what its purpose outdates. */
  lemma UseTokenEffect(cfg: Config, db: Db, id: nat, read: OneTimeToken, use: Use, now: Time)
    ensures var (db', r) := UseToken(cfg, db, id, read, use, now);
            && (!r.Accepted? ==> db' == db)
            && (r.Accepted? ==>
                  && read.Usable() && now < read.expiresAt && read.purpose == use.Purpose()
                  && id in db.tokens && db.tokens[id].Usable()
                  && db'.tokens == MarkUsed(db.tokens, {id} + AlsoSpent(db.tokens, read.userId, id, use), now)
                  && db'.nextToken == db.nextToken)
  {
    SpendsTogether(db.tokens, read.userId, id, use, now);
    assert MarkUsed(MarkUsed(db.tokens, {id}, now), {}, now) == MarkUsed(db.tokens, {id}, now);
  }

  /** Using a token and then spending what it outdates is spending them together. */
  lemma SpendsTogether(tokens: TokenTable, userId: nat, id: nat, use: Use, now: Time)
    ensures var consumed := MarkUsed(tokens, {id}, now);
            MarkUsed(consumed, AlsoSpent(consumed, userId, id, use), now)
            == MarkUsed(tokens, {id} + AlsoSpent(tokens, userId, id, use), now)
  {
    var consumed := MarkUsed(tokens, {id}, now);
    assert forall k | k in consumed :: consumed[k] == tokens[k].(usedAt := consumed[k].usedAt);
    assert AlsoSpent(consumed, userId, id, use) == AlsoSpent(tokens, userId, id, use);
  }

  lemma UseTokenKeeps(cfg: Config, db: Db, id: nat, read: OneTimeToken, use: Use, now: Time)
    requires TokensOk(db.tokens, db.nextToken, now)
    ensures var db' := UseToken(cfg, db, id, read, use, now).0;
            && TokensOk(db'.tokens, db'.nextToken, now)
            && TokensEvolve(db.tokens, db.nextToken, db'.tokens)
  {
    UseTokenEffect(cfg, db, id, read, use, now);
    MarkUsedKeeps(db.tokens, db.nextToken, now, {id} + AlsoSpent(db.tokens, read.userId, id, use), now);
  }
}
