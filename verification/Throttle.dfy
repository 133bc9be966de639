/**
 The throttles (`auth/throttle.go`) over the expiring counters of `MemoryCache`.
 A rule counts the attempts of one subject in buckets of one window each. An
 attempt takes its place in a bucket by an atomic increment and gives it back
 by an atomic decrement; attempts interleave in any order.
 */
module Throttle {
  import opened Options
  import opened MemoryCache
  import opened ThrottleWait

  /** A rule that is on, applied to one subject: `id` stands for the hashed name and subject. */
  datatype Rule = Rule(id: nat, limit: int, window: int)

  predicate On(rule: Rule) {
    rule.limit > 0 && rule.window > 0
  }

  datatype BucketKey = BucketKey(rule: Rule, index: int)

  function Index(rule: Rule, now: Time): int
    requires rule.window > 0
  {
    now / rule.window
  }

  function BucketAt(rule: Rule, now: Time): BucketKey
    requires rule.window > 0
  {
    BucketKey(rule, Index(rule, now))
  }

  /** How much of the bucket at `now` has passed. */
  function Elapsed(rule: Rule, now: Time): (elapsed: real)
    requires rule.window > 0
    ensures 0.0 <= elapsed < 1.0
    ensures elapsed * rule.window as real == (now - Index(rule, now) * rule.window) as real
  {
    var into := now % rule.window;
    assert 0 <= into < rule.window && into == now - Index(rule, now) * rule.window;
    DecaysTo(rule.window as real, into as real, 0.0, 0.0);
    (into as real) / (rule.window as real)
  }

  /** The first instant at which the bucket is neither the current one nor the previous one. */
  function WeighedUntil(key: BucketKey): Time {
    (key.index + 2) * key.rule.window
  }

  /** A bucket is weighed from its start until then: while it is the current one or the previous one. */
  lemma WeighedExact(key: BucketKey, now: Time)
    requires key.rule.window > 0
    ensures key == BucketAt(key.rule, now) || key == BucketAt(key.rule, now - key.rule.window) <==>
            key.index * key.rule.window <= now < WeighedUntil(key)
  {
    var (rule, w) := (key.rule, key.rule.window);
    BucketBounds(rule, now);
    BucketBounds(rule, now - w);
    OneEarlier(rule, now);
    if key.index * w <= now < WeighedUntil(key) {
      OrderedProducts(key.index, Index(rule, now) + 1, w);
      OrderedProducts(Index(rule, now), key.index + 2, w);
    }
  }

  lemma OneEarlier(rule: Rule, now: Time)
    requires rule.window > 0
    ensures Index(rule, now - rule.window) == Index(rule, now) - 1
  {
    BucketBounds(rule, now);
    BucketBounds(rule, now - rule.window);
    OrderedProducts(Index(rule, now - rule.window), Index(rule, now), rule.window);
    OrderedProducts(Index(rule, now) - 1, Index(rule, now - rule.window) + 1, rule.window);
  }

  lemma BucketBounds(rule: Rule, now: Time)
    requires rule.window > 0
    ensures Index(rule, now) * rule.window <= now < (Index(rule, now) + 1) * rule.window
    ensures WeighedUntil(BucketAt(rule, now)) <= now + 2 * rule.window
  {
    assert now == now / rule.window * rule.window + now % rule.window;
  }

  type Counters = Items<BucketKey>

  /** What a read of the counter shows. */
  function CountOf(items: Counters, key: BucketKey, now: Time): int {
    if key in items && !Expired(items[key], now) && items[key].payload.Int? then items[key].payload.n as int else 0
  }

  // Interleaved attempts

  /** A place an attempt took in a bucket it chose at `at`; a reservation is one attempt's places. */
  datatype Place = Place(attempt: nat, key: BucketKey, at: Time)

  /** The counters, every place ever taken by its ticket, and which of those still count: the places held,
      and the increments that went over the limit and are still to be undone. */
  datatype State = State(
    items: Counters,
    now: Time,
    next: nat,
    took: map<nat, Place>,
    held: set<nat>,
    over: set<nat>)

  /** The tickets among `tickets` for the bucket. */
  function In(s: State, tickets: set<nat>, key: BucketKey): set<nat> {
    set t | t in tickets && t in s.took && s.took[t].key == key
  }

  function Held(s: State, key: BucketKey): set<nat> {
    In(s, s.held, key)
  }

  function Over(s: State, key: BucketKey): set<nat> {
    In(s, s.over, key)
  }

  datatype Op =
    | Take(attempt: nat, rule: Rule, previous: int, at: Time)
    | Undo(ticket: nat)
    | Refund(ticket: nat)
    | Sweep(listed: seq<BucketKey>, stale: Time)

  datatype Event = At(now: Time, op: Op)

  /** Whether an increment of the bucket at `now` continues its count: the counter is there, or there
      is nothing to count. */
  predicate Continues(s: State, key: BucketKey, now: Time) {
    (key in s.items && !Expired(s.items[key], now)) || |Held(s, key)| + |Over(s, key)| == 0
  }

  /** Whether the event can happen. A take chooses its bucket by a clock reading `at` and increments a
      little later, before the bucket's counter is gone. */
  predicate Enabled(s: State, e: Event) {
    && e.now >= s.now
    && match e.op
       case Take(_, rule, _, at) => On(rule) && at <= e.now && Continues(s, BucketAt(rule, at), e.now)
       case Undo(ticket) => ticket in s.over && ticket in s.took
       case Refund(ticket) => ticket in s.held && ticket in s.took
       case Sweep(_, stale) => stale <= e.now
  }

  /** `take`: counts the attempt and keeps its place if it fits; over the limit, the increment is to be
      undone. A cache that fails counts nothing. */
  function Taken(s: State, attempt: nat, rule: Rule, previous: int, at: Time): State
    requires On(rule)
  {
    var key := BucketAt(rule, at);
    var (items, r) := Increment(s.items, key, 1, 2 * rule.window, s.now, s.now);
    if !r.Counted? then s
    else
      var s := s.(items := items, next := s.next + 1, took := s.took[s.next := Place(attempt, key, at)]);
      if WindowWait(previous, MaxInt(r.value as int, 1), rule.limit, Elapsed(rule, at), rule.window) == 0
      then s.(held := s.held + {s.next - 1})
      else s.(over := s.over + {s.next - 1})
  }

  function Step(s: State, e: Event): State
    requires Enabled(s, e)
  {
    var s := s.(now := e.now);
    match e.op
    case Take(attempt, rule, previous, at) => Taken(s, attempt, rule, previous, at)
    case Undo(ticket) =>
      s.(items := Decrement(s.items, s.took[ticket].key, 1, s.now).0, over := s.over - {ticket})
    case Refund(ticket) =>
      s.(items := Decrement(s.items, s.took[ticket].key, 1, s.now).0, held := s.held - {ticket})
    case Sweep(listed, stale) => s.(items := Swept(s.items, listed, stale))
  }

  /** Tickets are given out once, and one that counts is held or over, not both. */
  predicate TicketsOk(s: State) {
    && (forall t | t in s.took :: t < s.next)
    && s.held <= s.took.Keys && s.over <= s.took.Keys && s.held !! s.over
  }

  /** A counter is exactly the places and overruns until it expires, which it does not while its bucket
      is weighed; no bucket holds more places than its rule allows. */
  predicate BucketOk(s: State, key: BucketKey) {
    && |Held(s, key)| <= MaxInt(key.rule.limit, 0)
    && (forall t | t in Held(s, key) :: key.rule.window > 0 && Index(key.rule, s.took[t].at) == key.index)
    && (key in s.items ==>
          && s.items[key].payload.Int?
          && s.items[key].expiresAt.Some?
          && WeighedUntil(key) <= s.items[key].expiresAt.value
          && (!Expired(s.items[key], s.now) ==>
                s.items[key].payload.n as int == |Held(s, key)| + |Over(s, key)|))
    && (key !in s.items && s.now < WeighedUntil(key) ==> |Held(s, key)| + |Over(s, key)| == 0)
  }

  ghost predicate Inv(s: State) {
    && TicketsOk(s)
    && forall key {:trigger BucketOk(s, key)} :: BucketOk(s, key)
  }

  /** An attempt that fits leaves the bucket's count within the limit, whatever was read of the
      previous bucket. */
  lemma FitsWithinLimit(previous: int, count: int, rule: Rule, at: Time)
    requires On(rule)
    requires WindowWait(previous, count, rule.limit, Elapsed(rule, at), rule.window) == 0
    ensures count <= rule.limit
  {
    ProductSign(MaxInt(previous, 0) as real, 1.0 - Elapsed(rule, at));
  }

  /** The bucket a take counts in: its counter is one higher, with a deadline past its weight. */
  lemma TakeCounts(s: State, rule: Rule, at: Time)
    requires On(rule) && at <= s.now && Continues(s, BucketAt(rule, at), s.now) && BucketOk(s, BucketAt(rule, at))
    ensures var key := BucketAt(rule, at);
            var (items, r) := Increment(s.items, key, 1, 2 * rule.window, s.now, s.now);
            && (!r.Counted? ==> items == s.items)
            && (r.Counted? ==>
                  && r.value as int == |Held(s, key)| + |Over(s, key)| + 1
                  && items == s.items[key := items[key]]
                  && items[key].payload == Int(r.value)
                  && items[key].expiresAt.Some?
                  && WeighedUntil(key) <= items[key].expiresAt.value)
  {
    BucketBounds(rule, at);
  }

  /** A counted take adds its ticket to one bucket, as a place or as an overrun, and to no other. */
  lemma TakeAdds(s: State, attempt: nat, rule: Rule, previous: int, at: Time)
    requires On(rule) && TicketsOk(s)
    requires Increment(s.items, BucketAt(rule, at), 1, 2 * rule.window, s.now, s.now).1.Counted?
    ensures var s' := Taken(s, attempt, rule, previous, at);
            var key := BucketAt(rule, at);
            && TicketsOk(s')
            && s.next !in Held(s, key) && s.next !in Over(s, key)
            && (if s.next in s'.held then Held(s', key) == Held(s, key) + {s.next} && Over(s', key) == Over(s, key)
                else Held(s', key) == Held(s, key) && Over(s', key) == Over(s, key) + {s.next})
            && (forall other | other != key :: Held(s', other) == Held(s, other) && Over(s', other) == Over(s, other))
            && (forall t | t in s.took :: t in s'.took && s'.took[t] == s.took[t])
            && s.next in s'.took && s'.took[s.next] == Place(attempt, key, at)
  {
    assert s.next !in s.took;
  }

  lemma TakenBucketOk(s: State, attempt: nat, rule: Rule, previous: int, at: Time)
    requires On(rule) && at <= s.now && Continues(s, BucketAt(rule, at), s.now) && BucketOk(s, BucketAt(rule, at))
    requires TicketsOk(s)
    ensures BucketOk(Taken(s, attempt, rule, previous, at), BucketAt(rule, at))
  {
    var key := BucketAt(rule, at);
    TakeCounts(s, rule, at);
    var r := Increment(s.items, key, 1, 2 * rule.window, s.now, s.now).1;
    if r.Counted? {
      TakeAdds(s, attempt, rule, previous, at);
      if WindowWait(previous, r.value as int, rule.limit, Elapsed(rule, at), rule.window) == 0 {
        FitsWithinLimit(previous, r.value as int, rule, at);
      }
    }
  }

  /** A bucket nothing was done to stays as it was while time passes. */
  lemma OtherBucketOk(s: State, s': State, key: BucketKey)
    requires BucketOk(s, key) && s.now <= s'.now
    requires Held(s', key) == Held(s, key) && Over(s', key) == Over(s, key)
    requires forall t | t in Held(s, key) :: t in s'.took && s'.took[t] == s.took[t]
    requires key in s.items <==> key in s'.items
    requires key in s.items ==> s.items[key] == s'.items[key]
    ensures BucketOk(s', key)
  {
  }

  lemma TakeKeeps(s: State, e: Event)
    requires Inv(s) && Enabled(s, e) && e.op.Take?
    ensures Inv(Step(s, e))
  {
    var (rule, at) := (e.op.rule, e.op.at);
    var later := s.(now := e.now);
    if Increment(s.items, BucketAt(rule, at), 1, 2 * rule.window, e.now, e.now).1.Counted? {
      TakeAdds(later, e.op.attempt, rule, e.op.previous, at);
    }
    forall key ensures BucketOk(Step(s, e), key) {
      assert BucketOk(s, key);
      TakeKeepsBucket(s, e, key);
    }
  }

  lemma TakeKeepsBucket(s: State, e: Event, key: BucketKey)
    requires TicketsOk(s) && Enabled(s, e) && e.op.Take? && BucketOk(s, key)
    ensures BucketOk(Step(s, e), key)
  {
    var (rule, at) := (e.op.rule, e.op.at);
    var later := s.(now := e.now);
    OtherBucketOk(s, later, key);
    if key == BucketAt(rule, at) {
      TakenBucketOk(later, e.op.attempt, rule, e.op.previous, at);
    } else {
      TakeSpares(later, e.op.attempt, rule, e.op.previous, at, key);
    }
  }

  lemma TakeSpares(s: State, attempt: nat, rule: Rule, previous: int, at: Time, key: BucketKey)
    requires On(rule) && TicketsOk(s) && BucketOk(s, key) && key != BucketAt(rule, at)
    ensures BucketOk(Taken(s, attempt, rule, previous, at), key)
  {
    if Increment(s.items, BucketAt(rule, at), 1, 2 * rule.window, s.now, s.now).1.Counted? {
      TakeAdds(s, attempt, rule, previous, at);
      OtherBucketOk(s, Taken(s, attempt, rule, previous, at), key);
    }
  }

  /** Giving a ticket back takes it from its bucket alone. */
  lemma GiveBackRemoves(s: State, e: Event)
    requires TicketsOk(s) && Enabled(s, e) && (e.op.Undo? || e.op.Refund?)
    ensures var s' := Step(s, e);
            var key := s.took[e.op.ticket].key;
            && TicketsOk(s')
            && s'.took == s.took
            && Held(s', key) == Held(s, key) - {e.op.ticket} && Over(s', key) == Over(s, key) - {e.op.ticket}
            && |Held(s', key)| + |Over(s', key)| == |Held(s, key)| + |Over(s, key)| - 1
            && (forall other | other != key :: Held(s', other) == Held(s, other) && Over(s', other) == Over(s, other))
  {
    var (s', t) := (Step(s, e), e.op.ticket);
    var key := s.took[t].key;
    assert Held(s', key) == Held(s, key) - {t} && Over(s', key) == Over(s, key) - {t};
    assert t in s.held <==> t in Held(s, key);
    assert t in s.over <==> t in Over(s, key);
  }

  lemma GiveBackKeeps(s: State, e: Event)
    requires Inv(s) && Enabled(s, e) && (e.op.Undo? || e.op.Refund?)
    ensures Inv(Step(s, e))
  {
    GiveBackRemoves(s, e);
    forall key ensures BucketOk(Step(s, e), key) {
      assert BucketOk(s, key);
      if key == s.took[e.op.ticket].key {
        GivenBackBucketOk(s, e);
      } else {
        OtherBucketOk(s, Step(s, e), key);
      }
    }
  }

  lemma GivenBackBucketOk(s: State, e: Event)
    requires TicketsOk(s) && Enabled(s, e) && (e.op.Undo? || e.op.Refund?)
    requires BucketOk(s, s.took[e.op.ticket].key)
    ensures BucketOk(Step(s, e), s.took[e.op.ticket].key)
  {
    GiveBackRemoves(s, e);
  }

  lemma StepKeeps(s: State, e: Event)
    requires Inv(s) && Enabled(s, e)
    ensures Inv(Step(s, e))
  {
    match e.op
    case Take(_, _, _, _) => TakeKeeps(s, e);
    case Sweep(_, _) =>
      forall key ensures BucketOk(Step(s, e), key) {
        assert BucketOk(s, key);
        assert Held(Step(s, e), key) == Held(s, key) && Over(Step(s, e), key) == Over(s, key);
      }
    case _ => GiveBackKeeps(s, e);
  }

  predicate Initial(s: State) {
    s.items == map[] && s.took == map[] && s.held == {} && s.over == {}
  }

  predicate IsRun(ss: seq<State>, es: seq<Event>) {
    && |ss| == |es| + 1
    && Initial(ss[0])
    && forall i | 0 <= i < |es| :: Enabled(ss[i], es[i]) && ss[i + 1] == Step(ss[i], es[i])
  }

  lemma {:induction false} RunInv(ss: seq<State>, es: seq<Event>, i: nat)
    requires IsRun(ss, es) && i < |ss|
    ensures Inv(ss[i])
  {
    if i == 0 {
      forall key ensures BucketOk(ss[0], key) {
        assert Held(ss[0], key) == {} && Over(ss[0], key) == {};
      }
    } else {
      RunInv(ss, es, i - 1);
      StepKeeps(ss[i - 1], es[i - 1]);
    }
  }

  /** Accepted attempts of a bucket that were not refunded never exceed the limit. */
  lemma BucketLimit(ss: seq<State>, es: seq<Event>, i: nat, key: BucketKey)
    requires IsRun(ss, es) && i < |ss| && key.rule.limit >= 0
    ensures |Held(ss[i], key)| <= key.rule.limit
  {
    RunInv(ss, es, i);
    assert BucketOk(ss[i], key);
  }

  /** The rule's accepted and unrefunded attempts of an interval. */
  function HeldBetween(s: State, rule: Rule, start: Time, end: Time): set<nat> {
    set t | t in s.held && t in s.took && s.took[t].key.rule == rule && start <= s.took[t].at < end
  }

  /** No interval of one window, wherever it starts, holds more than twice the limit. */
  lemma IntervalLimit(ss: seq<State>, es: seq<Event>, i: nat, rule: Rule, start: Time)
    requires IsRun(ss, es) && i < |ss| && On(rule)
    ensures |HeldBetween(ss[i], rule, start, start + rule.window)| <= 2 * rule.limit
  {
    RunInv(ss, es, i);
    var (first, second) := (BucketAt(rule, start), BucketKey(rule, Index(rule, start) + 1));
    BucketLimit(ss, es, i, first);
    BucketLimit(ss, es, i, second);
    var between := HeldBetween(ss[i], rule, start, start + rule.window);
    var both := Held(ss[i], first) + Held(ss[i], second);
    forall t | t in between ensures t in both {
      var place := ss[i].took[t];
      assert BucketOk(ss[i], place.key) && t in Held(ss[i], place.key);
      WithinOneWindow(rule, start, place.at);
    }
    Smaller(between, both);
  }

  lemma {:induction false} Smaller<T>(a: set<T>, b: set<T>)
    requires a <= b
    ensures |a| <= |b|
  {
    if a != {} {
      var x :| x in a;
      Smaller(a - {x}, b - {x});
    }
  }

  lemma WithinOneWindow(rule: Rule, start: Time, at: Time)
    requires rule.window > 0 && start <= at < start + rule.window
    ensures Index(rule, start) <= Index(rule, at) <= Index(rule, start) + 1
  {
    BucketBounds(rule, start);
    BucketBounds(rule, at);
    OrderedProducts(Index(rule, start), Index(rule, at) + 1, rule.window);
    OrderedProducts(Index(rule, at), Index(rule, start) + 2, rule.window);
  }

  lemma OrderedProducts(a: int, b: int, factor: int)
    requires factor > 0 && a * factor < b * factor
    ensures a < b
  {
  }

  /** A counter is there, and exact, at every instant at which its bucket is still weighed. */
  lemma CounterOutlivesItsWeight(ss: seq<State>, es: seq<Event>, i: nat, key: BucketKey)
    requires IsRun(ss, es) && i < |ss| && ss[i].now < WeighedUntil(key)
    ensures CountOf(ss[i].items, key, ss[i].now) == |Held(ss[i], key)| + |Over(ss[i], key)|
  {
    RunInv(ss, es, i);
    assert BucketOk(ss[i], key);
  }

  // Reservations among other attempts

  predicate GivesBack(e: Event, ticket: nat) {
    (e.op.Undo? || e.op.Refund?) && e.op.ticket == ticket
  }

  /** Every place the attempt ever took, overruns included, has been given back. */
  ghost predicate Settled(ss: seq<State>, es: seq<Event>, i: nat, attempt: nat)
    requires i < |ss| == |es| + 1
  {
    forall t | t in ss[i].took && ss[i].took[t].attempt == attempt :: exists n | 0 <= n < i :: GivesBack(es[n], t)
  }

  /** The tickets of other attempts that count in the bucket. */
  function Others(s: State, attempt: nat, key: BucketKey): set<nat> {
    set t | t in Held(s, key) + Over(s, key) && s.took[t].attempt != attempt
  }

  /** A ticket that was given back never counts again. */
  lemma {:induction false} GivenBackForGood(ss: seq<State>, es: seq<Event>, n: nat, i: nat, ticket: nat)
    requires IsRun(ss, es) && n < i < |ss| && GivesBack(es[n], ticket)
    ensures ticket in ss[i].took && ticket !in ss[i].held && ticket !in ss[i].over
  {
    RunInv(ss, es, i - 1);
    if n == i - 1 {
      GiveBackRemoves(ss[n], es[n]);
    } else {
      GivenBackForGood(ss, es, n, i - 1, ticket);
      assert ticket < ss[i - 1].next;
    }
  }

  /** A refused reservation that has undone its overrun and refunded its places leaves no trace, whatever
      the others did meanwhile: every bucket still weighed counts the others' tickets and nothing else. */
  lemma SettledLeavesNothing(ss: seq<State>, es: seq<Event>, i: nat, attempt: nat, key: BucketKey)
    requires IsRun(ss, es) && i < |ss| && Settled(ss, es, i, attempt)
    requires ss[i].now < WeighedUntil(key)
    ensures CountOf(ss[i].items, key, ss[i].now) == |Others(ss[i], attempt, key)|
  {
    RunInv(ss, es, i);
    CounterOutlivesItsWeight(ss, es, i, key);
    var (held, over) := (Held(ss[i], key), Over(ss[i], key));
    forall t | t in held + over ensures ss[i].took[t].attempt != attempt {
      if ss[i].took[t].attempt == attempt {
        var n :| 0 <= n < i && GivesBack(es[n], t);
        GivenBackForGood(ss, es, n, i, t);
      }
    }
    assert Others(ss[i], attempt, key) == held + over;
    assert held !! over;
  }

  /** A take that increments while its bucket is still weighed, within a window of the bucket's end, is
      always in time. */
  lemma PromptTakesContinue(s: State, key: BucketKey, now: Time)
    requires Inv(s) && s.now <= now < WeighedUntil(key)
    ensures Continues(s, key, now)
  {
    assert BucketOk(s, key);
  }

  /** A take keeps the bucket's accounts exactly when it continues the count: one that stalls until the
      counter is gone starts a fresh count beside the places already taken. */
  lemma TakeExactIffItContinues(s: State, attempt: nat, rule: Rule, previous: int, at: Time)
    requires Inv(s) && On(rule) && at <= s.now
    requires Increment(s.items, BucketAt(rule, at), 1, 2 * rule.window, s.now, s.now).1.Counted?
    ensures BucketOk(Taken(s, attempt, rule, previous, at), BucketAt(rule, at)) <==>
            Continues(s, BucketAt(rule, at), s.now)
  {
    var key := BucketAt(rule, at);
    assert BucketOk(s, key);
    if Continues(s, key, s.now) {
      TakenBucketOk(s, attempt, rule, previous, at);
    } else {
      TakeAdds(s, attempt, rule, previous, at);
    }
  }

  /** A limit of one, and two places in one bucket: the second take stalled for two windows. */
  lemma StalledTakeExceedsTheLimit(rule: Rule, s: State)
    requires rule == Rule(7, 1, 10)
    requires s == State(map[], 0, 0, map[], {}, {})
    ensures var first := Taken(s, 1, rule, 0, 0);
            var second := Taken(first.(now := 20), 2, rule, 0, 0);
            |Held(second, BucketAt(rule, 0))| == 2 > rule.limit
  {
    var key := BucketAt(rule, 0);
    var first := Taken(s, 1, rule, 0, 0);
    TakeAdds(s, 1, rule, 0, 0);
    TakeAdds(first.(now := 20), 2, rule, 0, 0);
    assert Held(s, key) == {};
    assert Held(first.(now := 20), key) == Held(first, key);
  }
}
