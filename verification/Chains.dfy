/**
 The shape of the refresh token table: every user's rows form disjoint chains,
 one per login, and only the last row of a chain can be unrevoked.
 */
module Chains {
  import opened Options
  import opened AuthStore
  import opened SessionTx

  /** A replaced row is revoked, and its successor is a later row of the same user. */
  predicate LinkOk(refresh: RefreshTable, nextRow: nat, id: nat)
    requires id in refresh
  {
    && 0 < id < nextRow
    && (refresh[id].replacedBy.Some? ==>
          && refresh[id].revokedAt.Some?
          && id < refresh[id].replacedBy.value
          && refresh[id].replacedBy.value in refresh
          && refresh[refresh[id].replacedBy.value].userId == refresh[id].userId)
  }

  predicate LinksOk(refresh: RefreshTable, nextRow: nat) {
    forall id {:trigger LinkOk(refresh, nextRow, id)} | id in refresh :: LinkOk(refresh, nextRow, id)
  }

  predicate SameSuccessor(refresh: RefreshTable, a: nat, b: nat)
    requires a in refresh && b in refresh
  {
    refresh[a].replacedBy.Some? && refresh[a].replacedBy == refresh[b].replacedBy
  }

  predicate SuccessorsInjective(refresh: RefreshTable) {
    forall a, b {:trigger SameSuccessor(refresh, a, b)} | a in refresh && b in refresh ::
      SameSuccessor(refresh, a, b) ==> a == b
  }

  predicate HashesUnique(refresh: RefreshTable) {
    forall a, b | a in refresh && b in refresh && refresh[a].tokenHash == refresh[b].tokenHash :: a == b
  }

  predicate TableOk(refresh: RefreshTable, nextRow: nat) {
    LinksOk(refresh, nextRow) && SuccessorsInjective(refresh) && HashesUnique(refresh)
  }

  /** `earlier` is a version the row `later` had: its revocation and its link are written once. */
  predicate Earlier(earlier: RefreshRow, later: RefreshRow) {
    && earlier == later.(revokedAt := earlier.revokedAt, replacedBy := earlier.replacedBy)
    && (earlier.revokedAt.Some? ==> earlier == later)
    && (earlier.replacedBy.Some? ==> earlier.revokedAt.Some?)
  }

  /** Every row of `before` is in `after`, as the same or a later version of itself. */
  predicate Evolves(before: RefreshTable, after: RefreshTable) {
    forall id | id in before :: id in after && Earlier(before[id], after[id])
  }

  lemma EvolvesTransitive(a: RefreshTable, b: RefreshTable, c: RefreshTable)
    requires Evolves(a, b) && Evolves(b, c)
    ensures Evolves(a, c)
  {
    forall id | id in a ensures id in c && Earlier(a[id], c[id]) {
      assert id in b;
    }
  }

  // What the three statements keep

  lemma RevokeKeeps(refresh: RefreshTable, nextRow: nat, ids: set<nat>, now: Time)
    requires TableOk(refresh, nextRow)
    ensures TableOk(RevokeWhere(refresh, ids, now), nextRow)
    ensures Evolves(refresh, RevokeWhere(refresh, ids, now))
  {
    var after := RevokeWhere(refresh, ids, now);
    forall id | id in after ensures LinkOk(after, nextRow, id) {
      assert LinkOk(refresh, nextRow, id);
    }
    forall a, b | a in after && b in after && SameSuccessor(after, a, b) ensures a == b {
      assert SameSuccessor(refresh, a, b);
    }
    forall id | id in refresh ensures id in after && Earlier(refresh[id], after[id]) {
      assert LinkOk(refresh, nextRow, id);
    }
  }

  lemma IssueKeeps(cfg: Config, db: Db, userId: nat, tokenHash: string, now: Time)
    requires TableOk(db.refresh, db.nextRow) && db.nextRow > 0
    requires !RowHashTaken(db.refresh, tokenHash)
    ensures var db' := IssueRow(cfg, db, userId, tokenHash, now);
            TableOk(db'.refresh, db'.nextRow) && Evolves(db.refresh, db'.refresh)
  {
    var db' := IssueRow(cfg, db, userId, tokenHash, now);
    forall id | id in db.refresh
      ensures id != db.nextRow && Earlier(db.refresh[id], db'.refresh[id])
    {
      assert LinkOk(db.refresh, db.nextRow, id);
    }
    forall id | id in db'.refresh ensures LinkOk(db'.refresh, db'.nextRow, id) {
      if id != db.nextRow {
        assert LinkOk(db.refresh, db.nextRow, id);
      }
    }
    forall a, b | a in db'.refresh && b in db'.refresh && SameSuccessor(db'.refresh, a, b) ensures a == b {
      assert a in db.refresh && b in db.refresh && SameSuccessor(db.refresh, a, b);
    }
  }

  lemma ReplaceIs(cfg: Config, db: Db, id: nat, userId: nat, tokenHash: string, now: Time)
    requires id in db.refresh && id < db.nextRow
    ensures var row := RefreshRow(userId, tokenHash, now + cfg.refreshTTL, None, None, now);
            var replaced := db.refresh[id].(revokedAt := Some(now), replacedBy := Some(db.nextRow));
            Replace(cfg, db, id, userId, tokenHash, now)
            == db.(refresh := db.refresh[id := replaced][db.nextRow := row], nextRow := db.nextRow + 1)
  {
  }

  lemma ReplaceKeeps(cfg: Config, db: Db, id: nat, userId: nat, tokenHash: string, now: Time)
    requires TableOk(db.refresh, db.nextRow) && db.nextRow > 0
    requires id in db.refresh && db.refresh[id].revokedAt.None? && db.refresh[id].userId == userId
    requires !RowHashTaken(db.refresh, tokenHash)
    ensures var db' := Replace(cfg, db, id, userId, tokenHash, now);
            TableOk(db'.refresh, db'.nextRow) && Evolves(db.refresh, db'.refresh)
  {
    assert LinkOk(db.refresh, db.nextRow, id);
    ReplaceIs(cfg, db, id, userId, tokenHash, now);
    var after := Replace(cfg, db, id, userId, tokenHash, now).refresh;
    forall other | other in db.refresh
      ensures other < db.nextRow && Earlier(db.refresh[other], after[other])
    {
      assert LinkOk(db.refresh, db.nextRow, other);
    }
    forall other | other in after ensures LinkOk(after, db.nextRow + 1, other) {
      assert other != db.nextRow ==> LinkOk(db.refresh, db.nextRow, other);
    }
    forall a, b | a in after && b in after && SameSuccessor(after, a, b) ensures a == b {
      assert LinkOk(db.refresh, db.nextRow, a) && LinkOk(db.refresh, db.nextRow, b);
      assert a != id && b != id ==> SameSuccessor(db.refresh, a, b);
    }
  }

  // The head of a chain

  /** The rows from `id` to the one nothing has replaced, in order. */
  function ChainFrom(refresh: RefreshTable, nextRow: nat, id: nat): seq<nat>
    requires LinksOk(refresh, nextRow) && id in refresh
    decreases nextRow - id
  {
    assert LinkOk(refresh, nextRow, id);
    if refresh[id].replacedBy.None? then [id]
    else
      assert LinkOk(refresh, nextRow, refresh[id].replacedBy.value);
      [id] + ChainFrom(refresh, nextRow, refresh[id].replacedBy.value)
  }

  /** The last row of the chain of `id`: the session's current token. */
  function Head(refresh: RefreshTable, nextRow: nat, id: nat): nat
    requires LinksOk(refresh, nextRow) && id in refresh
    decreases nextRow - id
  {
    assert LinkOk(refresh, nextRow, id);
    if refresh[id].replacedBy.None? then id
    else
      assert LinkOk(refresh, nextRow, refresh[id].replacedBy.value);
      Head(refresh, nextRow, refresh[id].replacedBy.value)
  }

  /** On a chain, every row but the last is revoked, and all belong to one user. */
  lemma {:induction false} ChainShape(refresh: RefreshTable, nextRow: nat, id: nat)
    requires LinksOk(refresh, nextRow) && id in refresh
    ensures var chain := ChainFrom(refresh, nextRow, id);
            && chain != []
            && chain[0] == id
            && chain[|chain| - 1] == Head(refresh, nextRow, id)
            && Head(refresh, nextRow, id) in refresh
            && refresh[Head(refresh, nextRow, id)].replacedBy.None?
            && (forall k | 0 <= k < |chain| :: chain[k] in refresh && refresh[chain[k]].userId == refresh[id].userId)
            && (forall k | 0 <= k < |chain| - 1 ::
                  refresh[chain[k]].revokedAt.Some? && refresh[chain[k]].replacedBy == Some(chain[k + 1]))
            && (forall k | 0 <= k < |chain| :: chain[k] >= id)
    decreases nextRow - id
  {
    assert LinkOk(refresh, nextRow, id);
    if refresh[id].replacedBy.Some? {
      assert LinkOk(refresh, nextRow, refresh[id].replacedBy.value);
      ChainShape(refresh, nextRow, refresh[id].replacedBy.value);
    }
  }

  function Min(a: nat, b: nat): nat {
    if a < b then a else b
  }

  /** The walk follows the chain for as many rows as it may read. */
  lemma {:induction false} WalkFollows(refresh: RefreshTable, nextRow: nat, userId: nat, ids: seq<nat>,
                                       last: Option<nat>, hops: nat)
    requires LinksOk(refresh, nextRow)
    requires ids != [] && ids[|ids| - 1] in refresh && refresh[ids[|ids| - 1]].userId == userId
    requires forall k | 0 <= k < |ids| - 1 :: ids[k] < ids[|ids| - 1]
    requires hops > 0
    ensures var chain := ChainFrom(refresh, nextRow, ids[|ids| - 1]);
            && chain != []
            && Walk(refresh, userId, ids, last, hops) ==
               (ids + chain[1..Min(|chain|, hops + 1)], Some(chain[Min(|chain|, hops) - 1]))
    decreases hops
  {
    var next := ids[|ids| - 1];
    var chain := ChainFrom(refresh, nextRow, next);
    assert LinkOk(refresh, nextRow, next);
    if refresh[next].replacedBy.None? {
      assert ids + chain[1..1] == ids;
    } else {
      var succ := refresh[next].replacedBy.value;
      WalkStep(refresh, nextRow, userId, ids, last, hops);
      if hops > 1 {
        var rest := ChainFrom(refresh, nextRow, succ);
        WalkFollows(refresh, nextRow, userId, ids + [succ], Some(next), hops - 1);
        TailJoins(ids, next, rest, Min(|rest|, hops));
      } else {
        assert Walk(refresh, userId, ids + [succ], Some(next), 0) == (ids + [succ], Some(next));
        assert chain[1..2] == [succ];
      }
    }
  }

  lemma TailJoins(ids: seq<nat>, first: nat, rest: seq<nat>, n: nat)
    requires 1 <= n <= |rest|
    ensures (ids + [rest[0]]) + rest[1..n] == ids + ([first] + rest)[1..n + 1]
  {
    assert ([first] + rest)[1..n + 1] == rest[..n] == [rest[0]] + rest[1..n];
  }

  /** One read of the walk, at a row that has been replaced. */
  lemma WalkStep(refresh: RefreshTable, nextRow: nat, userId: nat, ids: seq<nat>, last: Option<nat>, hops: nat)
    requires LinksOk(refresh, nextRow)
    requires ids != [] && ids[|ids| - 1] in refresh && refresh[ids[|ids| - 1]].userId == userId
    requires forall k | 0 <= k < |ids| - 1 :: ids[k] < ids[|ids| - 1]
    requires hops > 0 && refresh[ids[|ids| - 1]].replacedBy.Some?
    ensures var next := ids[|ids| - 1];
            var succ := refresh[next].replacedBy.value;
            && next < succ && succ in refresh && refresh[succ].userId == userId
            && Walk(refresh, userId, ids, last, hops) == Walk(refresh, userId, ids + [succ], Some(next), hops - 1)
            && ChainFrom(refresh, nextRow, next) == [next] + ChainFrom(refresh, nextRow, succ)
            && ChainFrom(refresh, nextRow, succ) != [] && ChainFrom(refresh, nextRow, succ)[0] == succ
  {
    assert LinkOk(refresh, nextRow, ids[|ids| - 1]);
  }
}
