/**
 `Get` among other operations (`cache/memory.go`). It reads the entry under the
 lock and the clock without it, and anything can happen in between. The simple
 map of `MemoryCache` is the measure: a `Get` is right when its answer is what
 that map shows at some instant from its read to its look at the clock.
 */
module CacheGets {
  import opened Options
  import opened MemoryCache

  /** The simple map after `k` events. */
  function Simple<K>(es: seq<Event<K>>, k: nat): Items<K>
    requires k <= |es|
  {
    RunSimply(es[..k]).0
  }

  /** Events `r` and `c` are the read and the look of one `Get` of the key. */
  predicate IsGet<K(==)>(es: seq<Event<K>>, r: nat, c: nat, get: nat, key: K) {
    && r < c < |es|
    && es[r].op == ReadOp(get, key)
    && es[c].op == LookOp(get)
    && forall k | r < k < c :: !(es[k].op.ReadOp? && es[k].op.get == get)
  }

  function Answered<K>(es: seq<Event<K>>, c: nat): Answer
    requires c < |es|
  {
    Run(es).1[c]
  }

  /** An instant of the `Get`: after `k` events, at a time at which the next has not happened yet. */
  predicate Instant<K>(es: seq<Event<K>>, r: nat, c: nat, k: nat, t: Time)
    requires r < c < |es|
  {
    (k == r && t == es[r].now) || (r < k <= c && es[k - 1].now <= t <= es[k].now)
  }

  /** What an event leaves of the key's entry. */
  function LeftOf<K>(e: Event<K>, key: K, item: Item): Option<Item> {
    match e.op
    case SetOp(k, next) => Some(if k == key then next else item)
    case DeleteOp(keys) => if key in keys then None else Some(item)
    case IncrementOp(k, delta, ttl, _) =>
      if k != key then Some(item) else Entry(Increment(map[key := item], key, delta, ttl, e.now, e.now).0, key)
    case DecrementOp(k, delta) =>
      if k != key then Some(item) else Entry(Decrement(map[key := item], key, delta, e.now).0, key)
    case _ => Some(item)
  }

  /** From event `k` to the look the entry, or what replaces it in time, is never deleted and never expires. */
  predicate Survives<K>(es: seq<Event<K>>, k: nat, c: nat, key: K, item: Item)
    requires k <= c < |es|
    decreases c - k
  {
    && !Expired(item, es[k].now)
    && (k == c || var next := LeftOf(es[k], key, item); next.Some? && Survives(es, k + 1, c, key, next.value))
  }

  /** The entry read expires by the look, while the key lives on. */
  predicate Overtaken<K>(es: seq<Event<K>>, r: nat, c: nat, key: K)
    requires r < c < |es|
  {
    var shown := Live(Simple(es, r), es[r].now);
    key in shown && Expired(shown[key], es[c].now) && Survives(es, r + 1, c, key, shown[key])
  }

  // What the look finds

  lemma {:induction false} RunPrefix<K>(es: seq<Event<K>>, n: nat)
    requires n <= |es|
    ensures Run(es[..n]).1 == Run(es).1[..n]
    decreases |es|
  {
    if n == |es| {
      assert es[..n] == es;
    } else {
      var init := es[..|es| - 1];
      RunPrefix(init, n);
      assert init[..n] == es[..n];
    }
  }

  lemma {:induction false} FoundStays<K>(es: seq<Event<K>>, r: nat, c: nat, get: nat, key: K, k: nat)
    requires IsGet(es, r, c, get, key) && r < k <= c
    ensures get in Run(es[..k]).0.found
    ensures Run(es[..k]).0.found[get] == Entry(Run(es[..r]).0.items, key)
    decreases k
  {
    assert es[..k][..k - 1] == es[..k - 1];
    if k > r + 1 {
      FoundStays(es, r, c, get, key, k - 1);
    }
  }

  /** The answer is decided by the entry that was there at the read and the clock at the look. */
  lemma LookAnswers<K>(es: seq<Event<K>>, r: nat, c: nat, get: nat, key: K)
    requires IsGet(es, r, c, get, key)
    ensures Answered(es, c) == Got(GetAnswer(Entry(Run(es[..r]).0.items, key), es[c].now))
  {
    FoundStays(es, r, c, get, key, c);
    RunPrefix(es, c + 1);
    assert es[..c + 1][..c] == es[..c];
  }

  /** So a `Get` hits exactly when the simple map shows, at the read, an entry that outlives the look. */
  lemma AnswerFromShown<K>(es: seq<Event<K>>, r: nat, c: nat, get: nat, key: K)
    requires Timely(es) && Smooth(es) && IsGet(es, r, c, get, key)
    ensures var shown := Live(Simple(es, r), es[r].now);
            Answered(es, c) ==
            Got(if key in shown && !Expired(shown[key], es[c].now) then Some(shown[key].payload) else None)
  {
    LookAnswers(es, r, c, get, key);
    TimelyPrefix(es, r);
    SmoothPrefix(es, r);
    MemoryRefinesSimpleMap(es[..r], es[r].now);
    var items := Run(es[..r]).0.items;
    assert Live(items, es[r].now) == Live(Simple(es, r), es[r].now);
  }

  lemma TimelyPrefix<K>(es: seq<Event<K>>, n: nat)
    requires Timely(es) && n <= |es|
    ensures Timely(es[..n])
  {
  }

  // What the simple map shows meanwhile

  /** One event, seen from one key that is live. */
  lemma SimpleStep<K>(es: seq<Event<K>>, k: nat, key: K)
    requires k < |es|
    requires key in Live(Simple(es, k), es[k].now)
    ensures Entry(Simple(es, k + 1), key) == LeftOf(es[k], key, Simple(es, k)[key])
  {
    assert es[..k + 1][..k] == es[..k];
    var live := Live(Simple(es, k), es[k].now);
    assert live[key] == Simple(es, k)[key];
    assert Simple(es, k + 1) == PerformSimply(live, es[k]).0;
  }

  /** The key is shown at every instant from event `k` to the look. */
  ghost predicate ShownFrom<K>(es: seq<Event<K>>, k: nat, c: nat, key: K)
    requires k <= c < |es|
  {
    forall n | k <= n <= c :: key in Live(Simple(es, n), es[n].now)
  }

  lemma {:induction false} SurvivesIsShown<K>(es: seq<Event<K>>, k: nat, c: nat, key: K)
    requires k <= c < |es| && key in Simple(es, k)
    ensures Survives(es, k, c, key, Simple(es, k)[key]) <==> ShownFrom(es, k, c, key)
    decreases c - k
  {
    if key in Live(Simple(es, k), es[k].now) && k < c {
      SimpleStep(es, k, key);
      if key in Simple(es, k + 1) {
        SurvivesIsShown(es, k + 1, c, key);
        assert ShownFrom(es, k, c, key) <==> ShownFrom(es, k + 1, c, key);
      } else {
        assert key !in Live(Simple(es, k + 1), es[k + 1].now);
      }
    } else if k < c {
      assert key !in Live(Simple(es, k), es[k].now);
    }
  }

  /** The answer is what the simple map shows at this instant of the `Get`. */
  predicate RightAt<K>(es: seq<Event<K>>, r: nat, c: nat, key: K, k: nat, t: Time)
    requires r < c < |es|
  {
    Instant(es, r, c, k, t) && Answered(es, c) == Got(Lookup(Live(Simple(es, k), t), key))
  }

  /** A `Get` answers as the simple map at some instant from its read to its look, exactly unless the
      entry it read is overtaken. */
  lemma GetRightUnlessOvertaken<K>(es: seq<Event<K>>, r: nat, c: nat, get: nat, key: K)
    requires Timely(es) && Smooth(es) && IsGet(es, r, c, get, key)
    ensures (exists k, t :: RightAt(es, r, c, key, k, t)) <==> !Overtaken(es, r, c, key)
  {
    var shown := Live(Simple(es, r), es[r].now);
    AnswerFromShown(es, r, c, get, key);
    ReadLeavesShown(es, r, key);
    if key !in shown || !Expired(shown[key], es[c].now) {
      assert RightAt(es, r, c, key, r, es[r].now);
    } else {
      SurvivesIsShown(es, r + 1, c, key);
      if Overtaken(es, r, c, key) {
        forall k, t ensures !RightAt(es, r, c, key, k, t) {
          ShownAtEveryInstant(es, r, c, key, k, t);
        }
      } else {
        var n :| r + 1 <= n <= c && key !in Live(Simple(es, n), es[n].now);
        assert RightAt(es, r, c, key, n, es[n].now);
      }
    }
  }

  lemma ReadLeavesShown<K>(es: seq<Event<K>>, r: nat, key: K)
    requires r < |es| && es[r].op.ReadOp?
    ensures Simple(es, r + 1) == Live(Simple(es, r), es[r].now)
  {
    assert es[..r + 1][..r] == es[..r];
  }

  lemma ShownAtEveryInstant<K>(es: seq<Event<K>>, r: nat, c: nat, key: K, k: nat, t: Time)
    requires r < c < |es| && ShownFrom(es, r + 1, c, key)
    requires key in Live(Simple(es, r), es[r].now)
    ensures Instant(es, r, c, k, t) ==> Lookup(Live(Simple(es, k), t), key).Some?
  {
  }

  /** A hit is always what the simple map shows at the read. */
  lemma HitsAreRight<K>(es: seq<Event<K>>, r: nat, c: nat, get: nat, key: K)
    requires Timely(es) && Smooth(es) && IsGet(es, r, c, get, key)
    requires Answered(es, c) != Got(None)
    ensures RightAt(es, r, c, key, r, es[r].now)
  {
    AnswerFromShown(es, r, c, get, key);
  }

  /** Only a set of the key can overtake a `Get`, made while the entry read was still live. */
  lemma OvertakenBySet<K>(es: seq<Event<K>>, r: nat, c: nat, key: K) returns (k: nat)
    requires r < c < |es| && Overtaken(es, r, c, key)
    ensures r < k < c && es[k].op.SetOp? && es[k].op.key == key
    ensures !Expired(Live(Simple(es, r), es[r].now)[key], es[k].now)
  {
    k := SetInTime(es, r + 1, c, key, Live(Simple(es, r), es[r].now)[key]);
  }

  lemma {:induction false} SetInTime<K>(es: seq<Event<K>>, k: nat, c: nat, key: K, item: Item) returns (n: nat)
    requires k <= c < |es| && Survives(es, k, c, key, item) && Expired(item, es[c].now)
    ensures k <= n < c && es[n].op.SetOp? && es[n].op.key == key && !Expired(item, es[n].now)
    decreases c - k
  {
    if es[k].op.SetOp? && es[k].op.key == key {
      n := k;
    } else {
      // Counting keeps a deadline, so the entry that is left expires when this one does.
      var next := LeftOf(es[k], key, item).value;
      assert next.expiresAt == item.expiresAt;
      n := SetInTime(es, k + 1, c, key, next);
    }
  }

  lemma SimpleFirst(e: Event<string>)
    ensures RunSimply([e]).0 == PerformSimply(Live(map[], e.now), e).0
  {
    assert [e][..0] == [];
    assert RunSimply<string>([]).0 == map[];
  }

  /** A key set again just before its first entry expires is missed although it is there throughout. */
  lemma GetCanMissALiveKey(es: seq<Event<string>>)
    requires es == [At(0, SetOp("k", Item(Int(1), Some(10)))), At(1, ReadOp(0, "k")),
                    At(9, SetOp("k", Item(Int(2), Some(100)))), At(10, LookOp(0))]
    ensures Timely(es) && Smooth(es) && IsGet(es, 1, 3, 0, "k")
    ensures Answered(es, 3) == Got(None) && Overtaken(es, 1, 3, "k")
  {
    var shown := Live(Simple(es, 1), 1);
    assert es[..1] == [es[0]];
    SimpleFirst(es[0]);
    assert "k" in shown && shown["k"] == Item(Int(1), Some(10));
    assert LeftOf(es[2], "k", shown["k"]) == Some(Item(Int(2), Some(100)));
    assert Survives(es, 3, 3, "k", Item(Int(2), Some(100)));
    AnswerFromShown(es, 1, 3, 0, "k");
  }
}
