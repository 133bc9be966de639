/**
 `gombit jobs retry --all` (`cli/jobs.go`): pages through a queue's failed jobs
 and retries each. Other commands and workers may change the queue between any
 two of its steps; a queue that nothing else touches is quiet.
 */
module RetryAll {
  import opened Options

  datatype Id = Id(text: string)

  /** A uniqueness key as a job carries it, and as its holder has claimed it. */
  datatype Unique = Unique(key: string, ttl: int)
  datatype Claim = Claim(holder: Id, expires: int)

  type Claims = map<string, Claim>
  type Uniques = map<Id, Unique>

  predicate Distinct(ids: seq<Id>) {
    forall i, j | 0 <= i < j < |ids| :: ids[i] != ids[j]
  }

  /** The ids without the first that is `id`. */
  function Remove(ids: seq<Id>, id: Id): seq<Id> {
    if ids == [] then []
    else if ids[0] == id then ids[1..]
    else [ids[0]] + Remove(ids[1..], id)
  }

  lemma {:induction false} RemoveBetween(before: seq<Id>, id: Id, after: seq<Id>)
    requires id !in before
    ensures Remove(before + [id] + after, id) == before + after
  {
    var ids := before + [id] + after;
    if before == [] {
      assert ids[0] == id && ids[1..] == after == before + after;
    } else {
      RemoveBetween(before[1..], id, after);
      assert ids[0] == before[0] && ids[1..] == before[1..] + [id] + after;
      assert [before[0]] + (before[1..] + after) == before + after;
    }
  }

  /** The job's uniqueness key is held, at `now`, by a job other than itself. */
  predicate HeldByAnother(id: Id, claims: Claims, uniques: Uniques, now: int) {
    && id in uniques && uniques[id].key in claims
    && var claim := claims[uniques[id].key]; now < claim.expires && claim.holder != id
  }

  function Claimed(id: Id, claims: Claims, uniques: Uniques, now: int): Claims {
    if id in uniques then claims[uniques[id].key := Claim(id, now + uniques[id].ttl)] else claims
  }

  // The simple form: every job once, in order, each at its time, with no paging.

  datatype Swept = Swept(left: seq<Id>, claims: Claims)

  function Sweep(ids: seq<Id>, times: seq<int>, claims: Claims, uniques: Uniques): (r: Swept)
    requires |ids| == |times|
    ensures |r.left| <= |ids|
    ensures forall id | id in r.left :: id in ids
  {
    if ids == [] then Swept([], claims)
    else
      var (last, now) := (ids[|ids| - 1], times[|ids| - 1]);
      var before := Sweep(ids[..|ids| - 1], times[..|ids| - 1], claims, uniques);
      if HeldByAnother(last, before.claims, uniques, now) then Swept(before.left + [last], before.claims)
      else Swept(before.left, Claimed(last, before.claims, uniques, now))
  }

  predicate Ordered(times: seq<int>) {
    forall i, j | 0 <= i < j < |times| :: times[i] <= times[j]
  }

  /** The job tried `i`-th is put back with its key claimed until its lifetime is over. */
  predicate PutBack(ids: seq<Id>, times: seq<int>, claims: Claims, uniques: Uniques, i: nat)
    requires |ids| == |times| && i < |ids|
  {
    ids[i] !in Sweep(ids, times, claims, uniques).left && ids[i] in uniques
  }

  /** The claim of a job put back is still there, or ran out before someone else tried the key. */
  lemma {:induction false} ClaimKept(ids: seq<Id>, times: seq<int>, claims: Claims, uniques: Uniques, i: nat)
    requires |ids| == |times| && Distinct(ids) && Ordered(times) && i < |ids|
    requires PutBack(ids, times, claims, uniques, i)
    ensures var (u, after) := (uniques[ids[i]], Sweep(ids, times, claims, uniques).claims);
            || (u.key in after && after[u.key] == Claim(ids[i], times[i] + u.ttl))
            || exists m | i < m < |ids| :: times[i] + u.ttl <= times[m]
  {
    var n := |ids| - 1;
    if i < n {
      ClaimKept(ids[..n], times[..n], claims, uniques, i);
      if exists m | i < m < n :: times[i] + uniques[ids[i]].ttl <= times[..n][m] {
        var m :| i < m < n && times[i] + uniques[ids[i]].ttl <= times[..n][m];
        assert times[m] == times[..n][m];
      } else if ids[n] in uniques && uniques[ids[n]].key == uniques[ids[i]].key {
        assert HeldByAnother(ids[n], Sweep(ids[..n], times[..n], claims, uniques).claims, uniques, times[n])
               <==> times[n] < times[i] + uniques[ids[i]].ttl;
      }
    }
  }

  /** Of two jobs that share a key, the second is put back only once the claim of the first has run out. */
  lemma {:induction false} OneRetriedPerClaim(ids: seq<Id>, times: seq<int>, claims: Claims, uniques: Uniques,
                                              i: nat, j: nat)
    requires |ids| == |times| && Distinct(ids) && Ordered(times) && i < j < |ids|
    requires PutBack(ids, times, claims, uniques, i) && PutBack(ids, times, claims, uniques, j)
    requires uniques[ids[i]].key == uniques[ids[j]].key
    ensures times[i] + uniques[ids[i]].ttl <= times[j]
    decreases |ids|
  {
    var n := |ids| - 1;
    LeftBefore(ids, times, claims, uniques);
    if j < n {
      OneRetriedPerClaim(ids[..n], times[..n], claims, uniques, i, j);
    } else {
      ClaimKept(ids[..n], times[..n], claims, uniques, i);
      if m: nat :| i < m < n && times[..n][i] + uniques[ids[..n][i]].ttl <= times[..n][m] {
        assert times[m] <= times[n];
      }
    }
  }

  lemma LeftBefore(ids: seq<Id>, times: seq<int>, claims: Claims, uniques: Uniques)
    requires |ids| == |times| && Distinct(ids) && ids != []
    ensures var n := |ids| - 1;
            forall k | 0 <= k < n ::
              ids[k] in Sweep(ids, times, claims, uniques).left <==>
              ids[k] in Sweep(ids[..n], times[..n], claims, uniques).left
  {
  }

  /** A job is left failed exactly when a live claim of another job kept it out when it was tried. */
  lemma {:induction false} SweepExact(ids: seq<Id>, times: seq<int>, claims: Claims, uniques: Uniques, i: nat)
    requires |ids| == |times| && Distinct(ids) && i < |ids|
    ensures var held := Sweep(ids[..i], times[..i], claims, uniques).claims;
            ids[i] in Sweep(ids, times, claims, uniques).left <==>
              && ids[i] in uniques && uniques[ids[i]].key in held
              && held[uniques[ids[i]].key].holder != ids[i] && times[i] < held[uniques[ids[i]].key].expires
    decreases |ids|
  {
    var n := |ids| - 1;
    if i < n {
      LeftBefore(ids, times, claims, uniques);
      SweepExact(ids[..n], times[..n], claims, uniques, i);
      assert ids[..n][..i] == ids[..i] && times[..n][..i] == times[..i];
    } else {
      assert ids[n] !in ids[..n];
    }
  }

  // The queue and the command.

  datatype Retry =
    | Retried
    | NotFailed
    | Duplicate(holder: Id)
    | Broken

  /** The failed jobs, most recent first, the claimed uniqueness keys, and the clock. */
  class Queue {
    var failed: seq<Id>
    var claims: Claims
    var now: int
    const uniques: Uniques
    const quiet: bool

    constructor (failed: seq<Id>, claims: Claims, uniques: Uniques, now: int, quiet: bool)
      ensures this.failed == failed && this.claims == claims && this.uniques == uniques
      ensures this.now == now && this.quiet == quiet
    {
      this.failed, this.claims, this.uniques, this.now, this.quiet := failed, claims, uniques, now, quiet;
    }

    /** Time passes; what others do to the queue in the meantime is anything, or on a quiet queue nothing. */
    method Interfere()
      modifies this
      ensures now >= old(now)
      ensures quiet ==> failed == old(failed) && claims == old(claims)
    {
      var later: int := *;
      if later > now {
        now := later;
      }
      if !quiet {
        failed := *;
        claims := *;
      }
    }

    /** `Failed`: the most recent failed jobs, at most `limit`; the read can fail. */
    method Failed(limit: nat) returns (page: Option<seq<Id>>)
      requires limit > 0
      modifies this
      ensures now >= old(now)
      ensures quiet ==> failed == old(failed) && claims == old(claims) && page.Some?
      ensures page.Some? ==> page.value == failed[..if limit < |failed| then limit else |failed|]
    {
      Interfere();
      var broken: bool := *;
      if !quiet && broken {
        return None;
      }
      page := Some(failed[..if limit < |failed| then limit else |failed|]);
    }

    /** `RetryFailed`: puts the job back, unless another job holds its key. */
    method RetryFailed(id: Id) returns (r: Retry)
      modifies this
      ensures now >= old(now)
      ensures quiet && id in old(failed) ==>
        if HeldByAnother(id, old(claims), uniques, now) then
          r == Duplicate(old(claims)[uniques[id].key].holder) && failed == old(failed) && claims == old(claims)
        else
          r == Retried && failed == Remove(old(failed), id) && claims == Claimed(id, old(claims), uniques, now)
      ensures quiet && id !in old(failed) ==> r == NotFailed && failed == old(failed) && claims == old(claims)
    {
      Interfere();
      var broken: bool := *;
      if !quiet && broken {
        return Broken;
      }
      if id !in failed {
        return NotFailed;
      }
      if id in uniques {
        var key := uniques[id].key;
        if key in claims && now < claims[key].expires && claims[key].holder != id {
          return Duplicate(claims[key].holder);
        }
        claims := claims[key := Claim(id, now + uniques[id].ttl)];
      }
      failed := Remove(failed, id);
      r := Retried;
    }
  }

  /** The attempted ids in order and when each was tried, those of them skipped as duplicates, and how many
      were retried or gone. */
  datatype Progress = Progress(attempted: seq<Id>, times: seq<int>, skipped: set<Id>, total: nat)

  /** No id twice; the skipped are among the attempted, and the others are counted. */
  predicate Consistent(p: Progress, now: int) {
    && Distinct(p.attempted)
    && |p.times| == |p.attempted| && Ordered(p.times) && (forall t | t in p.times :: t <= now)
    && (forall id | id in p.skipped :: id in p.attempted)
    && p.total + |p.skipped| == |p.attempted|
  }

  /** The simple form on what was attempted, when it was. */
  function SweptSoFar(p: Progress, held: Claims, uniques: Uniques): Swept
    requires |p.times| == |p.attempted|
  {
    Sweep(p.attempted, p.times, held, uniques)
  }

  /** The simple form has been carried out on the newest of the failures `was`, and on no others. */
  ghost predicate Carried(failed: seq<Id>, claims: Claims, uniques: Uniques, was: seq<Id>, held: Claims, p: Progress) {
    && p.attempted <= was
    && |p.times| == |p.attempted|
    && var done := SweptSoFar(p, held, uniques);
    && failed == done.left + was[|p.attempted|..]
    && claims == done.claims
    && (forall id :: id in p.skipped <==> id in done.left)
  }

  function Attempted(p: Progress, id: Id, now: int, r: Retry): Progress {
    var next := p.(attempted := p.attempted + [id], times := p.times + [now]);
    match r
    case Duplicate(_) => next.(skipped := p.skipped + {id})
    case Broken => next
    case _ => next.(total := p.total + 1)
  }

  lemma SweepStep(ids: seq<Id>, times: seq<int>, id: Id, now: int, claims: Claims, uniques: Uniques)
    requires |ids| == |times|
    ensures var before := Sweep(ids, times, claims, uniques);
      Sweep(ids + [id], times + [now], claims, uniques) ==
      if HeldByAnother(id, before.claims, uniques, now) then Swept(before.left + [id], before.claims)
      else Swept(before.left, Claimed(id, before.claims, uniques, now))
  {
    assert (ids + [id])[..|ids|] == ids && (times + [now])[..|ids|] == times;
  }

  lemma NextOfFailed(left: seq<Id>, was: seq<Id>, attempted: seq<Id>)
    requires attempted <= was && |attempted| < |was|
    ensures left + was[|attempted|..] == left + [was[|attempted|]] + was[|attempted| + 1..]
    ensures attempted + [was[|attempted|]] <= was
  {
    assert was[|attempted|..] == [was[|attempted|]] + was[|attempted| + 1..];
  }

  /** Trying the next failure carries the simple form one job further. */
  lemma AttemptCarries(failed: seq<Id>, claims: Claims, uniques: Uniques,
                       was: seq<Id>, held: Claims, p: Progress, id: Id, now: int)
    requires Carried(failed, claims, uniques, was, held, p)
    requires |p.attempted| < |was| && was[|p.attempted|] == id && id !in p.attempted
    ensures id in failed
    ensures if HeldByAnother(id, claims, uniques, now)
      then Carried(failed, claims, uniques, was, held, Attempted(p, id, now, Duplicate(claims[uniques[id].key].holder)))
      else Carried(Remove(failed, id), Claimed(id, claims, uniques, now), uniques, was, held,
                   Attempted(p, id, now, Retried))
  {
    var left := SweptSoFar(p, held, uniques).left;
    var rest := was[|p.attempted| + 1..];
    NextOfFailed(left, was, p.attempted);
    assert failed == left + [id] + rest;
    assert failed[|left|] == id;
    SweepStep(p.attempted, p.times, id, now, held, uniques);
    if !HeldByAnother(id, claims, uniques, now) {
      RemoveBetween(left, id, rest);
    }
  }

  lemma AttemptedConsistent(p: Progress, id: Id, before: int, now: int, r: Retry)
    requires Consistent(p, before) && before <= now && id !in p.attempted
    ensures Distinct(Attempted(p, id, now, r).attempted)
    ensures !r.Broken? ==> Consistent(Attempted(p, id, now, r), now)
  {
    assert forall i | 0 <= i < |p.times| :: p.times[i] in p.times;
  }

  ghost predicate Follows(q: Queue, was: seq<Id>, held: Claims, p: Progress)
    reads q
  {
    q.quiet ==> Carried(q.failed, q.claims, q.uniques, was, held, p)
  }

  /** One attempt: the id is recorded before it is tried. */
  method Attempt(q: Queue, id: Id, p: Progress, ghost was: seq<Id>, ghost held: Claims)
    returns (p': Progress, broken: bool)
    requires Consistent(p, q.now) && Follows(q, was, held, p) && id !in p.attempted
    requires q.quiet ==> |p.attempted| < |was| && was[|p.attempted|] == id
    modifies q
    ensures p'.attempted == p.attempted + [id]
    ensures Distinct(p'.attempted)
    ensures !broken ==> Consistent(p', q.now) && Follows(q, was, held, p')
    ensures q.quiet ==> !broken
  {
    ghost var failed, claims, before := q.failed, q.claims, q.now;
    var r := q.RetryFailed(id);
    if q.quiet {
      AttemptCarries(failed, claims, q.uniques, was, held, p, id, q.now);
    }
    AttemptedConsistent(p, id, before, q.now, r);
    p' := p.(attempted := p.attempted + [id], times := p.times + [q.now]);
    broken := false;
    match r {
      case Duplicate(_) => p' := p'.(skipped := p.skipped + {id});
      case Broken => broken := true;
      case _ => p' := p'.(total := p.total + 1);
    }
    assert p' == Attempted(p, id, q.now, r);
  }

  /** A page holds ids already attempted, then the next of the failures. */
  lemma PageSplits(failed: seq<Id>, claims: Claims, uniques: Uniques,
                   was: seq<Id>, held: Claims, p: Progress, page: seq<Id>, j: nat)
    requires Carried(failed, claims, uniques, was, held, p) && page <= failed && j < |page|
    ensures var left := |SweptSoFar(p, held, uniques).left|;
      if j < left then page[j] in p.attempted
      else j - left + |p.attempted| < |was| && page[j] == was[j - left + |p.attempted|]
  {
    assert page[j] == failed[j];
  }

  /** Where a pass over the page is: past the ids seen before, the next id is the next failure. */
  lemma PageNext(failed: seq<Id>, claims: Claims, uniques: Uniques, was: seq<Id>, held: Claims,
                 p: Progress, page: seq<Id>, k: nat, attempted: seq<Id>)
    requires Carried(failed, claims, uniques, was, held, p) && page <= failed && k < |page| && Distinct(was)
    requires p.attempted <= attempted <= was
    requires var left := |SweptSoFar(p, held, uniques).left|;
      |attempted| == |p.attempted| + if k <= left then 0 else k - left
    ensures if k < |SweptSoFar(p, held, uniques).left| then page[k] in attempted
      else |attempted| < |was| && page[k] == was[|attempted|] && page[k] !in attempted
  {
    PageSplits(failed, claims, uniques, was, held, p, page, k);
    assert forall i | 0 <= i < |attempted| :: attempted[i] == was[i];
  }

  /** One pass over a page: at most `size` ids not tried before are tried. */
  method TryPage(q: Queue, page: seq<Id>, size: nat, p: Progress, ghost was: seq<Id>, ghost held: Claims)
    returns (p': Progress, tried: nat, broken: bool)
    requires size > 0 && Consistent(p, q.now) && Follows(q, was, held, p) && Distinct(was)
    requires q.quiet ==> page <= q.failed
    modifies q
    ensures p.attempted <= p'.attempted && tried == |p'.attempted| - |p.attempted| <= size
    ensures Distinct(p'.attempted)
    ensures !broken ==> Consistent(p', q.now) && Follows(q, was, held, p')
    ensures q.quiet ==> !broken
    ensures tried == 0 ==> p' == p && unchanged(q) && forall id | id in page :: id in p.attempted
  {
    p', tried, broken := p, 0, false;
    ghost var left := |SweptSoFar(p, held, q.uniques).left|;
    ghost var failed, claims := q.failed, q.claims;
    var k := 0;
    while k < |page|
      invariant 0 <= k <= |page|
      invariant Consistent(p', q.now) && Follows(q, was, held, p')
      invariant p.attempted <= p'.attempted && tried == |p'.attempted| - |p.attempted| <= size
      invariant tried == 0 ==> p' == p && unchanged(q) && forall j | 0 <= j < k :: page[j] in p.attempted
      invariant q.quiet ==> tried == if k <= left then 0 else k - left
    {
      var id := page[k];
      if q.quiet {
        PageNext(failed, claims, q.uniques, was, held, p, page, k, p'.attempted);
      }
      if id in p'.attempted {
        k := k + 1;
        continue;
      }
      if tried == size {
        break;
      }
      tried := tried + 1;
      p', broken := Attempt(q, id, p', was, held);
      if broken {
        return;
      }
      k := k + 1;
    }
  }

  /** How the command ends: done, a failed read or retry, or its deadline. */
  datatype Outcome = Done | Failure | DeadlinePassed

  /** Reads a quiet queue of `n` failures can take. */
  function ReadsNeeded(n: nat): nat {
    (n + 1) * (n + 2)
  }

  /** The most reads `untried` jobs can take: for each, every width of page and the read that tries it. */
  function Rounds(untried: nat, n: nat): nat {
    if untried == 0 then 0 else Rounds(untried - 1, n) + n + 2
  }

  lemma {:induction false} RoundsAre(untried: nat, n: nat)
    ensures Rounds(untried, n) == untried * (n + 2)
  {
    if untried > 0 {
      RoundsAre(untried - 1, n);
    }
  }

  lemma {:induction false} RoundsFall(untried: nat, fewer: nat, n: nat)
    requires fewer < untried
    ensures Rounds(fewer, n) + n + 2 <= Rounds(untried, n)
  {
    if fewer < untried - 1 {
      RoundsFall(untried - 1, fewer, n);
    }
  }

  /** What is left to do: untried jobs first, then room to widen the page. */
  function Remaining(n: nat, attempted: nat, limit: nat): nat
    requires attempted <= n
  {
    Rounds(n - attempted, n) + if limit <= n then n + 1 - limit else 0
  }

  lemma RemainingFalls(n: nat, before: nat, after: nat, limit: nat, next: nat)
    requires before <= after <= n && next > 0
    requires before < after || (limit <= n && limit < next)
    ensures Remaining(n, after, next) < Remaining(n, before, limit)
  {
    if before < after {
      RoundsFall(n - before, n - after, n);
    }
  }

  lemma EnoughReads(n: nat, limit: nat)
    requires limit > 0
    ensures Remaining(n, 0, limit) < ReadsNeeded(n)
  {
    RoundsAre(n, n);
  }

  lemma NextIsFailed(failed: seq<Id>, claims: Claims, uniques: Uniques,
                     was: seq<Id>, held: Claims, p: Progress)
    requires Carried(failed, claims, uniques, was, held, p) && Distinct(was)
    requires |p.attempted| < |was|
    ensures exists id :: id in failed && id !in p.attempted
  {
    var next := was[|p.attempted|];
    assert failed[|SweptSoFar(p, held, uniques).left|] == next;
    assert next in failed;
    assert forall i | 0 <= i < |p.attempted| :: p.attempted[i] == was[i] != next;
  }

  /** When nothing failed is untried, the simple form is complete. */
  lemma NothingLeft(failed: seq<Id>, claims: Claims, uniques: Uniques,
                    was: seq<Id>, held: Claims, p: Progress)
    requires Carried(failed, claims, uniques, was, held, p) && Distinct(was)
    requires forall id | id in failed :: id in p.attempted
    ensures p.attempted == was
    ensures Swept(failed, claims) == Sweep(was, p.times, held, uniques)
  {
    if |p.attempted| < |was| {
      NextIsFailed(failed, claims, uniques, was, held, p);
    }
  }

  /** The places of a page that show ids already attempted. */
  function Seen(page: seq<Id>, attempted: seq<Id>): set<nat> {
    set k: nat | k < |page| && page[k] in attempted
  }

  method CountSeen(page: seq<Id>, attempted: seq<Id>) returns (seen: nat)
    ensures seen == |Seen(page, attempted)|
  {
    seen := 0;
    for k := 0 to |page|
      invariant seen == |Seen(page[..k], attempted)|
    {
      if page[k] in attempted {
        assert Seen(page[..k + 1], attempted) == Seen(page[..k], attempted) + {k};
        seen := seen + 1;
      } else {
        assert Seen(page[..k + 1], attempted) == Seen(page[..k], attempted);
      }
    }
    assert page[..|page|] == page;
  }

  function FirstOf(ids: seq<Id>, limit: nat): seq<Id> {
    ids[..if limit < |ids| then limit else |ids|]
  }

  /** Every failure the queue holds has been attempted; a quiet one as the simple form would. */
  ghost predicate Complete(q: Queue, was: seq<Id>, held: Claims, p: Progress)
    reads q
  {
    && Consistent(p, q.now)
    && (forall id | id in q.failed :: id in p.attempted)
    && (q.quiet ==>
          && p.attempted == was
          && |p.times| == |was| && Swept(q.failed, q.claims) == Sweep(was, p.times, held, q.uniques)
          && forall id :: id in p.skipped <==> id in q.failed)
  }

  lemma CompleteWhenShown(q: Queue, was: seq<Id>, held: Claims, p: Progress)
    requires Consistent(p, q.now) && Follows(q, was, held, p) && Distinct(was)
    requires forall id | id in q.failed :: id in p.attempted
    ensures Complete(q, was, held, p)
  {
    if q.quiet {
      NothingLeft(q.failed, q.claims, q.uniques, was, held, p);
    }
  }

  datatype Status = Going(limit: nat) | Ended(outcome: Outcome)

  /** One turn of the loop: a read from the top, a pass over it, and the next read's limit. */
  method Turn(q: Queue, size: nat, limit: nat, p: Progress, ghost was: seq<Id>, ghost held: Claims)
    returns (status: Status, p': Progress)
    requires size > 0 && limit > 0 && Consistent(p, q.now) && Follows(q, was, held, p) && Distinct(was)
    modifies q
    ensures Distinct(p'.attempted)
    ensures status == Ended(Done) ==> Complete(q, was, held, p')
    ensures status.Going? ==> status.limit > 0 && Consistent(p', q.now) && Follows(q, was, held, p')
    ensures q.quiet && status.Going? ==>
      && |p.attempted| <= |p'.attempted| <= |was|
      && (if |p.attempted| < |p'.attempted|
          then status.limit == size + |Seen(FirstOf(old(q.failed), limit), p.attempted)|
          else limit <= |was| && status.limit == limit + size)
    ensures q.quiet ==> status.Going? || status == Ended(Done)
  {
    var read := q.Failed(limit);
    if read.None? {
      return Ended(Failure), p;
    }
    var page := read.value;
    var seen := CountSeen(page, p.attempted);
    var tried, broken;
    p', tried, broken := TryPage(q, page, size, p, was, held);
    if broken {
      return Ended(Failure), p';
    }
    if tried > 0 {
      return Going(size + seen), p';
    }
    if |page| == limit && |page| != 0 {
      return Going(limit + size), p';
    }
    assert page == q.failed;
    CompleteWhenShown(q, was, held, p');
    return Ended(Done), p';
  }

  /** `retry --all`; `deadline` is how many reads the command's time allows. */
  method RetryAllFailed(q: Queue, size: nat, deadline: nat) returns (r: Outcome, p: Progress)
    requires size > 0
    requires q.quiet ==> Distinct(q.failed)
    modifies q
    ensures Distinct(p.attempted)
    ensures r.Done? ==> Complete(q, old(q.failed), old(q.claims), p)
    ensures q.quiet && deadline >= ReadsNeeded(|old(q.failed)|) ==> r.Done?
  {
    ghost var was, held := if q.quiet then q.failed else [], q.claims;
    ghost var n := |was|;
    p := Progress([], [], {}, 0);
    EnoughReads(n, size);
    var limit, allowed := size, deadline;
    while allowed > 0
      invariant limit > 0 && Consistent(p, q.now) && Follows(q, was, held, p)
      invariant q.quiet ==> |p.attempted| <= n
      invariant q.quiet && deadline >= ReadsNeeded(n) ==> allowed > Remaining(n, |p.attempted|, limit)
      decreases allowed
    {
      allowed := allowed - 1;
      ghost var before := |p.attempted|;
      var status;
      status, p := Turn(q, size, limit, p, was, held);
      if status.Ended? {
        return status.outcome, p;
      }
      if q.quiet {
        RemainingFalls(n, before, |p.attempted|, limit, status.limit);
      }
      limit := status.limit;
    }
    return DeadlinePassed, p;
  }
}
