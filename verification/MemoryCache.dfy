/**
 The in-process cache (`cache/memory.go`): a map whose entries expire, swept in
 batches by a janitor that works from an earlier clock reading and an earlier
 list of keys.
 */
module MemoryCache {
  import opened Options

  type Time = int

  newtype int64 = x: int | -0x8000_0000_0000_0000 <= x < 0x8000_0000_0000_0000

  const MAX: int64 := 0x7fff_ffff_ffff_ffff
  const MIN: int64 := -0x8000_0000_0000_0000

  /** A stored value: an integer; null, which a read takes for zero and a counter refuses; or anything else. */
  datatype Payload = Int(n: int64) | Null | NotInt(id: nat)

  /** An entry; one without a deadline never expires. */
  datatype Item = Item(payload: Payload, expiresAt: Option<Time>)

  /** The stored entries; keys are only compared. */
  type Items<!K> = map<K, Item>

  predicate Expired(item: Item, now: Time) {
    item.expiresAt.Some? && now >= item.expiresAt.value
  }

  /** What the cache shows at `now`: the entries that have not expired. */
  function Live<K>(items: Items<K>, now: Time): Items<K> {
    map k | k in items && !Expired(items[k], now) :: items[k]
  }

  // Checked arithmetic

  /** The sum, unless it leaves the range. The guard itself stays within it. */
  function AddChecked(current: int64, delta: int64): (sum: Option<int64>)
    ensures sum.Some? <==> MIN as int <= current as int + delta as int <= MAX as int
    ensures sum.Some? ==> sum.value as int == current as int + delta as int
  {
    if (delta > 0 && current > MAX - delta) || (delta < 0 && current < MIN - delta) then None
    else Some(current + delta)
  }

  /** The difference, unless it leaves the range. */
  function SubChecked(stored: int64, delta: int64): (difference: Option<int64>)
    ensures difference.Some? <==> MIN as int <= stored as int - delta as int <= MAX as int
    ensures difference.Some? ==> difference.value as int == stored as int - delta as int
  {
    if (delta < 0 && stored > MAX + delta) || (delta > 0 && stored < MIN + delta) then None
    else Some(stored - delta)
  }

  // The operations on the map

  datatype CounterResult =
    | Counted(value: int64)
    | NotCounter
    | Overflow
    | Missing

  /** `increment`, which reads the clock at `first` for the value and at `second` for the deadline;
      a positive `ttl` is the expiry of a key that has none. */
  function Increment<K>(items: Items<K>, key: K, delta: int64, ttl: int, first: Time, second: Time)
    : (Items<K>, CounterResult)
  {
    var live := key in items && !Expired(items[key], first);
    if live && !items[key].payload.Int? then (items, NotCounter)
    else
      var sum := AddChecked(if live then items[key].payload.n else 0, delta);
      if sum.None? then (items, Overflow)
      else
        var kept := if key in items && !Expired(items[key], second) then items[key].expiresAt else None;
        var deadline := if kept.None? && ttl > 0 then Some(second + ttl) else kept;
        (items[key := Item(Int(sum.value), deadline)], Counted(sum.value))
  }

  /** `DecrementExisting`. */
  function Decrement<K>(items: Items<K>, key: K, delta: int64, now: Time): (Items<K>, CounterResult) {
    if key !in items || Expired(items[key], now) then (items, Missing)
    else if !items[key].payload.Int? then (items, NotCounter)
    else
      var difference := SubChecked(items[key].payload.n, delta);
      if difference.None? then (items, Overflow)
      else (items[key := items[key].(payload := Int(difference.value))], Counted(difference.value))
  }

  /** What a sweep of `keys` at the clock reading `stale` leaves. */
  function Swept<K>(items: Items<K>, keys: seq<K>, stale: Time): Items<K> {
    map k | k in items && !(k in keys && Expired(items[k], stale)) :: items[k]
  }

  // Get, in its steps

  /** `Get`'s answer from the entry it read and a later clock reading. */
  function GetAnswer(item: Option<Item>, now: Time): Option<Payload> {
    if item.Some? && !Expired(item.value, now) then Some(item.value.payload) else None
  }

  function Lookup<K>(items: Items<K>, key: K): Option<Payload> {
    if key in items then Some(items[key].payload) else None
  }

  function Entry<K>(items: Items<K>, key: K): Option<Item> {
    if key in items then Some(items[key]) else None
  }

  // The cache

  class Memory<K(==)> {
    var items: Items<K>
    const batchSize: nat
    const quiet: bool

    constructor (batchSize: nat, quiet: bool)
      requires batchSize > 0
      ensures items == map[] && this.batchSize == batchSize && this.quiet == quiet
    {
      items := map[];
      this.batchSize, this.quiet := batchSize, quiet;
    }

    /** Whatever others do to the cache while no lock is held; on a quiet cache nothing. */
    method Interfere()
      modifies this`items
      ensures quiet ==> items == old(items)
    {
      if !quiet {
        items := *;
      }
    }

    /** `Get`'s read under the lock: whatever the clock will say, the answer is what the cache shows then
        if the key is left alone. */
    method Read(key: K) returns (item: Option<Item>)
      ensures forall now :: GetAnswer(item, now) == Lookup(Live(items, now), key)
      ensures item.Some? ==> key in items && items[key] == item.value
    {
      item := if key in items then Some(items[key]) else None;
    }

    /** `Get` after its read: an entry that has expired at the clock reading `now` is a miss, and the
        key is removed unless it holds an entry that is fresh at a second reading. */
    method Finish(key: K, item: Option<Item>, now: Time, again: Time) returns (hit: Option<Payload>)
      modifies this`items
      ensures hit == GetAnswer(item, now)
      ensures items == if item.Some? && hit.None? then Swept(old(items), [key], again) else old(items)
    {
      if item.None? {
        return None;
      }
      if Expired(item.value, now) {
        if key in items && Expired(items[key], again) {
          items := items - {key};
        }
        assert items == Swept(old(items), [key], again);
        return None;
      }
      hit := Some(item.value.payload);
    }

    method Set(key: K, payload: Payload, ttl: int, now: Time) returns (ok: bool)
      modifies this`items
      ensures ok <==> ttl >= 0
      ensures items == if ok then old(items)[key := Item(payload, if ttl > 0 then Some(now + ttl) else None)]
                       else old(items)
    {
      if ttl < 0 {
        return false;
      }
      items := items[key := Item(payload, if ttl > 0 then Some(now + ttl) else None)];
      ok := true;
    }

    method Delete(keys: seq<K>)
      modifies this`items
      ensures items == old(items) - set k | k in keys
    {
      var i := 0;
      while i < |keys|
        invariant 0 <= i <= |keys|
        invariant items == old(items) - set k | k in keys[..i]
      {
        items := items - {keys[i]};
        assert keys[..i + 1] == keys[..i] + [keys[i]];
        i := i + 1;
      }
      assert keys[..i] == keys;
    }

    method Count(key: K, delta: int64, ttl: int, first: Time, second: Time) returns (r: CounterResult)
      modifies this`items
      ensures (items, r) == Increment(old(items), key, delta, ttl, first, second)
    {
      var current: int64 := 0;
      if key in items && !Expired(items[key], first) {
        if !items[key].payload.Int? {
          return NotCounter;
        }
        current := items[key].payload.n;
      }
      if (delta > 0 && current > MAX - delta) || (delta < 0 && current < MIN - delta) {
        return Overflow;
      }
      current := current + delta;
      var expiresAt := None;
      if key in items && !Expired(items[key], second) {
        expiresAt := items[key].expiresAt;
      }
      if expiresAt.None? && ttl > 0 {
        expiresAt := Some(second + ttl);
      }
      items := items[key := Item(Int(current), expiresAt)];
      r := Counted(current);
    }

    method CountDown(key: K, delta: int64, now: Time) returns (r: CounterResult)
      modifies this`items
      ensures (items, r) == Decrement(old(items), key, delta, now)
    {
      if key !in items || Expired(items[key], now) {
        return Missing;
      }
      if !items[key].payload.Int? {
        return NotCounter;
      }
      var stored := items[key].payload.n;
      if (delta < 0 && stored > MAX + delta) || (delta > 0 && stored < MIN + delta) {
        return Overflow;
      }
      items := items[key := Item(Int(stored - delta), items[key].expiresAt)];
      r := Counted(stored - delta);
    }

    /** `sweepBatch`: re-reads each key, so one set again since the list was taken stays. */
    method SweepBatch(stale: Time, keys: seq<K>) returns (removed: Items<K>)
      modifies this`items
      ensures items == Swept(old(items), keys, stale)
      ensures forall k :: k in removed <==> k in old(items) && k !in items
      ensures forall k | k in removed :: removed[k] == old(items)[k] && k in keys && Expired(removed[k], stale)
    {
      removed := map[];
      var i := 0;
      while i < |keys|
        invariant 0 <= i <= |keys|
        invariant items == Swept(old(items), keys[..i], stale)
        invariant forall k :: k in removed <==> k in old(items) && k !in items
        invariant forall k | k in removed :: removed[k] == old(items)[k] && k in keys && Expired(removed[k], stale)
      {
        if keys[i] in items && Expired(items[keys[i]], stale) {
          removed := removed[keys[i] := items[keys[i]]];
          items := items - {keys[i]};
        }
        assert keys[..i + 1] == keys[..i] + [keys[i]];
        i := i + 1;
      }
      assert keys[..i] == keys;
    }

    /** The keys, in some order, each once. */
    method ListKeys() returns (keys: seq<K>)
      ensures forall k :: k in keys <==> k in items
      ensures |keys| == |items|
    {
      keys := [];
      var rest := items.Keys;
      while rest != {}
        invariant rest <= items.Keys && |keys| + |rest| == |items|
        invariant forall k :: k in keys <==> k in items && k !in rest
        decreases |rest|
      {
        var k :| k in rest;
        keys, rest := keys + [k], rest - {k};
      }
    }

    /** `sweepExpired`: whatever others do between its batches, it removes only what is expired when it is
        removed; left alone, it removes exactly the expired entries. */
    method SweepExpired(now: Time) returns (batches: nat, removed: seq<Items<K>>)
      requires batchSize > 0
      modifies this`items
      ensures |removed| == batches
      ensures forall b | 0 <= b < batches :: forall k | k in removed[b] :: Expired(removed[b][k], now)
      ensures quiet ==> items == Live(old(items), now)
      ensures (batches - 1) * batchSize < |old(items)| <= batches * batchSize
    {
      var keys := ListKeys();
      batches, removed := 0, [];
      var start := 0;
      while start < |keys|
        invariant 0 <= start <= |keys| && |removed| == batches
        invariant forall b | 0 <= b < batches :: forall k | k in removed[b] :: Expired(removed[b][k], now)
        invariant quiet ==> items == Swept(old(items), keys[..start], now)
        invariant (batches - 1) * batchSize < |keys|
        invariant start == if batches * batchSize < |keys| then batches * batchSize else |keys|
        decreases |keys| - start
      {
        var end := if start + batchSize < |keys| then start + batchSize else |keys|;
        Interfere();
        var gone := SweepBatch(now, keys[start..end]);
        assert keys[..end] == keys[..start] + keys[start..end];
        assert (batches + 1) * batchSize == batches * batchSize + batchSize;
        batches, removed := batches + 1, removed + [gone];
        start := end;
      }
      assert keys[..start] == keys;
    }
  }

  // The two clock readings of an increment

  /** Whether a deadline passes between the two clock readings of an increment. */
  predicate Straddles<K>(items: Items<K>, key: K, first: Time, second: Time) {
    key in items && !Expired(items[key], first) && Expired(items[key], second)
  }

  /** The two readings make a difference exactly when the deadline of a value other than zero passes
      between them: the old count then lives on under a new deadline. */
  lemma DoubleReadExact<K>(items: Items<K>, key: K, delta: int64, ttl: int, first: Time, second: Time)
    requires first <= second
    ensures Increment(items, key, delta, ttl, first, second) == Increment(items, key, delta, ttl, second, second)
            <==> !(Straddles(items, key, first, second) && items[key].payload != Int(0))
  {
    if Straddles(items, key, first, second) {
      var r := Increment(items, key, delta, ttl, second, second).1;
      assert r == Counted(delta);
    }
  }

  // Refinement: the cache against a map without stale entries

  /** An increment reads the clock first at `first`. A `Get` is its read and, later, its look at the clock;
      what it removes then is a sweep of its key. */
  datatype Op<K> =
    | SetOp(key: K, item: Item)
    | DeleteOp(keys: set<K>)
    | IncrementOp(key: K, delta: int64, ttl: int, first: Time)
    | DecrementOp(key: K, delta: int64)
    | ReadOp(get: nat, key: K)
    | LookOp(get: nat)
    | SweepOp(listed: seq<K>, stale: Time)

  datatype Event<K> = At(now: Time, op: Op<K>)

  datatype Answer = Done | Counter(r: CounterResult) | Got(value: Option<Payload>)

  /** The entries, and what the reads in flight found. */
  datatype Cache<!K> = Cache(items: Items<K>, found: map<nat, Option<Item>>)

  /** What an operation does to the entries, and the answer of those that need no more. */
  function Act<K>(items: Items<K>, e: Event<K>): (Items<K>, Answer) {
    match e.op
    case SetOp(key, item) => (items[key := item], Done)
    case DeleteOp(keys) => (items - keys, Done)
    case IncrementOp(key, delta, ttl, first) =>
      var (after, r) := Increment(items, key, delta, ttl, first, e.now);
      (after, Counter(r))
    case DecrementOp(key, delta) =>
      var (after, r) := Decrement(items, key, delta, e.now);
      (after, Counter(r))
    case SweepOp(listed, stale) => (Swept(items, listed, stale), Done)
    case _ => (items, Done)
  }

  function Perform<K>(cache: Cache<K>, e: Event<K>): (Cache<K>, Answer) {
    match e.op
    case ReadOp(get, key) => (cache.(found := cache.found[get := Entry(cache.items, key)]), Done)
    case LookOp(get) => (cache, if get in cache.found then Got(GetAnswer(cache.found[get], e.now)) else Done)
    case _ =>
      var (items, answer) := Act(cache.items, e);
      (cache.(items := items), answer)
  }

  /** The same operation on a map that holds live entries only, which knows no sweeps and one clock reading. */
  function PerformSimply<K>(live: Items<K>, e: Event<K>): (Items<K>, Answer) {
    if e.op.SweepOp? then (live, Done)
    else if e.op.IncrementOp? then Act(live, At(e.now, e.op.(first := e.now)))
    else Act(live, e)
  }

  predicate Timely<K>(es: seq<Event<K>>) {
    && (forall i | 0 <= i < |es| && es[i].op.SweepOp? :: es[i].op.stale <= es[i].now)
    && (forall i | 0 <= i < |es| && es[i].op.IncrementOp? :: es[i].op.first <= es[i].now)
    && (forall i, j | 0 <= i < j < |es| :: es[i].now <= es[j].now)
  }

  function Run<K>(es: seq<Event<K>>): (r: (Cache<K>, seq<Answer>))
    ensures |r.1| == |es|
  {
    if es == [] then (Cache(map[], map[]), [])
    else
      var (before, answers) := Run(es[..|es| - 1]);
      var (after, answer) := Perform(before, es[|es| - 1]);
      (after, answers + [answer])
  }

  /** No value other than zero expires between the two clock readings of an increment. */
  predicate Smooth<K>(es: seq<Event<K>>) {
    forall i {:trigger SmoothAt(Run(es[..i]).0.items, es[i])} | 0 <= i < |es| :: SmoothAt(Run(es[..i]).0.items, es[i])
  }

  predicate SmoothAt<K>(items: Items<K>, e: Event<K>) {
    e.op.IncrementOp? ==>
      !(Straddles(items, e.op.key, e.op.first, e.now) && items[e.op.key].payload != Int(0))
  }

  /** The simple map forgets what has expired before each operation. */
  function RunSimply<K>(es: seq<Event<K>>): (r: (Items<K>, seq<Answer>))
    ensures |r.1| == |es|
  {
    if es == [] then (map[], [])
    else
      var e := es[|es| - 1];
      var (before, answers) := RunSimply(es[..|es| - 1]);
      var (after, answer) := PerformSimply(Live(before, e.now), e);
      (after, answers + [answer])
  }

  lemma LiveAgain<K>(items: Items<K>, early: Time, late: Time)
    requires early <= late
    ensures Live(Live(items, early), late) == Live(items, late)
  {
  }

  /** A sweep with an earlier clock reading is invisible: it removes no live entry. */
  lemma SweepInvisible<K>(items: Items<K>, keys: seq<K>, stale: Time, now: Time)
    requires stale <= now
    ensures Live(Swept(items, keys, stale), now) == Live(items, now)
  {
  }

  /** An operation sees and leaves the same live entries with the stale ones present or not. */
  lemma ActOnLive<K>(items: Items<K>, e: Event<K>)
    requires e.op.SweepOp? ==> e.op.stale <= e.now
    requires e.op.IncrementOp? ==> e.op.first <= e.now
    requires SmoothAt(items, e)
    ensures Act(items, e).1 == PerformSimply(Live(items, e.now), e).1
    ensures Live(Act(items, e).0, e.now) == Live(PerformSimply(Live(items, e.now), e).0, e.now)
  {
    match e.op
    case SweepOp(listed, stale) =>
      SweepInvisible(items, listed, stale, e.now);
      LiveAgain(items, e.now, e.now);
    case IncrementOp(key, delta, ttl, first) =>
      DoubleReadExact(items, key, delta, ttl, first, e.now);
    case _ =>
  }

  lemma SmoothPrefix<K>(es: seq<Event<K>>, n: nat)
    requires Smooth(es) && n <= |es|
    ensures Smooth(es[..n])
  {
    forall i | 0 <= i < n ensures SmoothAt(Run(es[..n][..i]).0.items, es[..n][i]) {
      assert es[..n][..i] == es[..i];
      assert SmoothAt(Run(es[..i]).0.items, es[i]);
    }
  }

  /** One operation on a cache and on a map that show the same. */
  lemma PerformAlike<K>(cache: Cache<K>, simple: Items<K>, e: Event<K>, now: Time)
    requires e.op.SweepOp? ==> e.op.stale <= e.now
    requires e.op.IncrementOp? ==> e.op.first <= e.now
    requires SmoothAt(cache.items, e) && e.now <= now
    requires Live(cache.items, e.now) == Live(simple, e.now)
    ensures var (after, answer) := Perform(cache, e);
            var (after', answer') := PerformSimply(Live(simple, e.now), e);
            (!e.op.LookOp? ==> answer == answer') && Live(after.items, now) == Live(after', now)
  {
    ActOnLive(cache.items, e);
    LiveAgain(Perform(cache, e).0.items, e.now, now);
    LiveAgain(PerformSimply(Live(simple, e.now), e).0, e.now, now);
  }

  /** Whatever the janitor does in between, the cache shows the entries of the simple map, and every
      operation but a `Get` answers as on it. */
  lemma {:induction false} MemoryRefinesSimpleMap<K>(es: seq<Event<K>>, now: Time)
    requires Timely(es) && Smooth(es) && (es == [] || es[|es| - 1].now <= now)
    ensures forall i | 0 <= i < |es| && !es[i].op.LookOp? :: Run(es).1[i] == RunSimply(es).1[i]
    ensures Live(Run(es).0.items, now) == Live(RunSimply(es).0, now)
  {
    if es != [] {
      var (init, e) := (es[..|es| - 1], es[|es| - 1]);
      SmoothPrefix(es, |es| - 1);
      MemoryRefinesSimpleMap(init, e.now);
      assert SmoothAt(Run(es[..|es| - 1]).0.items, es[|es| - 1]);
      PerformAlike(Run(init).0, RunSimply(init).0, e, now);
    }
  }

  // Counters

  /** With one clock reading an increment adds exactly, keeps an existing deadline, and fails unchanged. */
  lemma IncrementExact<K>(items: Items<K>, key: K, delta: int64, ttl: int, now: Time)
    ensures var (after, r) := Increment(items, key, delta, ttl, now, now);
            var live := Live(items, now);
            var base := if key in live && live[key].payload.Int? then live[key].payload.n as int else 0;
            && (r.NotCounter? <==> key in live && !live[key].payload.Int?)
            && (r.Counted? <==> !r.NotCounter? && MIN as int <= base + delta as int <= MAX as int)
            && (r.Counted? ==> r.value as int == base + delta as int)
            && (r.Counted? ==>
                  && after.Keys == items.Keys + {key}
                  && after[key].payload == Int(r.value)
                  && after[key].expiresAt ==
                     if key in live && live[key].expiresAt.Some? then live[key].expiresAt
                     else if ttl > 0 then Some(now + ttl) else None)
            && (!r.Counted? ==> after == items)
            && (forall other | other in items && other != key :: other in after && after[other] == items[other])
  {
  }

  /** A decrement subtracts exactly from a live counter and keeps its deadline; it makes no counter, and
      fails unchanged. */
  lemma DecrementExact<K>(items: Items<K>, key: K, delta: int64, now: Time)
    ensures var (after, r) := Decrement(items, key, delta, now);
            var live := Live(items, now);
            && (r.Missing? <==> key !in live)
            && (r.NotCounter? <==> key in live && !live[key].payload.Int?)
            && (r.Counted? <==> key in live && live[key].payload.Int?
                                && MIN as int <= live[key].payload.n as int - delta as int <= MAX as int)
            && (r.Counted? ==>
                  && r.value as int == live[key].payload.n as int - delta as int
                  && after == items[key := Item(Int(r.value), live[key].expiresAt)])
            && (!r.Counted? ==> after == items)
  {
  }

  /** A counter outliving its deadline: five attempts, expired at 10, are counted on at 10. */
  lemma CounterOutlivesItsDeadline()
    ensures var items := map["k" := Item(Int(5), Some(10))];
            var (twice, once) := (Increment(items, "k", 1, 20, 9, 10), Increment(items, "k", 1, 20, 10, 10));
            && twice.1 == Counted(6) && twice.0 == items["k" := Item(Int(6), Some(30))]
            && once.1 == Counted(1) && once.0 == items["k" := Item(Int(1), Some(30))]
  {
  }

  // Get against one table and against two

  /** A hit is a value the cache showed when it was read. */
  lemma HitWasLive<K>(items: Items<K>, key: K, read: Time, now: Time, hit: Payload)
    requires read <= now
    requires GetAnswer(Entry(items, key), now) == Some(hit)
    ensures Lookup(Live(items, read), key) == Some(hit)
  {
  }

  /** The answer is what the cache shows at the later reading exactly when what it read and what is there
      by then show the same; a live key is missed exactly when the entry read is not live and the one
      there by then is. The clean-up removes nothing live. */
  lemma GetExact<K>(items: Items<K>, later: Items<K>, key: K, now: Time)
    ensures GetAnswer(Entry(items, key), now) == Lookup(Live(later, now), key) <==>
            Lookup(Live(items, now), key) == Lookup(Live(later, now), key)
    ensures GetAnswer(Entry(items, key), now).None? && key in Live(later, now) <==>
            key !in Live(items, now) && key in later && !Expired(later[key], now)
    ensures Live(Swept(later, [key], now), now) == Live(later, now)
  {
    SweepInvisible(later, [key], now, now);
  }
}
