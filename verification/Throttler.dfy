/**
 The throttler's own steps (`auth/throttle.go`), on the counters it shares: a
 reservation reads every rule before it counts in any, and gives every place
 back when one refuses.
 */
module Throttler {
  import opened Options
  import opened MemoryCache
  import opened ThrottleWait
  import opened Throttle

  datatype ReserveResult =
    | Reserved(keys: seq<BucketKey>)
    | Refused(rule: Rule, wait: int)

  /** Every counter shows what it showed before, plus one for each of the places `keys`. */
  ghost predicate Places(before: Counters, after: Counters, keys: seq<BucketKey>, now: Time) {
    forall key {:trigger CountOf(after, key, now)} ::
      && CountOf(after, key, now) == CountOf(before, key, now) + multiset(keys)[key]
      && (key in keys || Counting(before, key, now) ==> Counting(after, key, now))
  }

  predicate Counting(items: Counters, key: BucketKey, now: Time) {
    key in items && !Expired(items[key], now) && items[key].payload.Int?
  }

  function Before(rule: Rule, now: Time): BucketKey
    requires rule.window > 0
  {
    BucketKey(rule, Index(rule, now) - 1)
  }

  /** A counter the cache cannot count on. */
  predicate Garbled(items: Counters, key: BucketKey, now: Time) {
    key in items && !Expired(items[key], now) && !items[key].payload.Int?
  }

  /** A counter a read cannot decode as a number; null decodes as zero. */
  predicate Unreadable(items: Counters, key: BucketKey, now: Time) {
    key in items && !Expired(items[key], now) && items[key].payload.NotInt?
  }

  predicate Readable(items: Counters, rule: Rule, now: Time)
    requires rule.window > 0
  {
    !Unreadable(items, BucketAt(rule, now), now) && !Unreadable(items, Before(rule, now), now)
  }

  /** The cache can count one more in the bucket. */
  predicate Countable(items: Counters, key: BucketKey, now: Time) {
    !Garbled(items, key, now) && CountOf(items, key, now) < MAX as int
  }

  /** The previous bucket's count as `reserve` weighs it: zero when the read failed. */
  function Weighed(items: Counters, rule: Rule, now: Time): int
    requires rule.window > 0
  {
    if Readable(items, rule, now) then CountOf(items, Before(rule, now), now) else 0
  }

  /** The bucket's count, with what the window still covers of the previous one, is within the limit. */
  predicate Within(previous: int, count: int, rule: Rule, now: Time)
    requires rule.window > 0
  {
    MaxInt(previous, 0) as real * (1.0 - Elapsed(rule, now)) + count as real <= rule.limit as real
  }

  /** Why an attempt is refused: counted as `count`, it has this long to wait. */
  predicate WaitsAs(items: Counters, rule: Rule, now: Time, count: int, wait: int) {
    On(rule) && wait == WindowWait(Weighed(items, rule, now), count, rule.limit, Elapsed(rule, now), rule.window)
  }

  /** Every rule that is on has its place, unless the cache could not count it. */
  predicate AllPlaced(items: Counters, rules: seq<Rule>, keys: seq<BucketKey>, now: Time) {
    forall rule | rule in rules && On(rule) ::
      BucketAt(rule, now) in keys || !Countable(items, BucketAt(rule, now), now)
  }

  ghost predicate AllWithin(before: Counters, items: Counters, keys: seq<BucketKey>, now: Time) {
    forall key | key in keys ::
      key.rule.window > 0 && Within(Weighed(before, key.rule, now), CountOf(items, key, now), key.rule, now)
  }

  /** The counter is a live number that one can be taken from. */
  predicate Refundable(items: Counters, key: BucketKey, now: Time) {
    Counting(items, key, now) && CountOf(items, key, now) > MIN as int
  }

  /** The keys of the spared rule. */
  function Spared(keys: seq<BucketKey>, rule: Option<Rule>): seq<BucketKey> {
    if keys == [] then []
    else
      var last := keys[|keys| - 1];
      Spared(keys[..|keys| - 1], rule) + if rule == Some(last.rule) then [last] else []
  }

  /** What is left of the places with `i` of them dealt with. */
  function Remaining(keys: seq<BucketKey>, rule: Option<Rule>, i: nat): seq<BucketKey>
    requires i <= |keys|
  {
    Spared(keys[..i], rule) + keys[i..]
  }

  lemma RemainingEnds(keys: seq<BucketKey>, rule: Option<Rule>)
    ensures Remaining(keys, rule, 0) == keys && Remaining(keys, rule, |keys|) == Spared(keys, rule)
  {
    assert keys[..0] == [] && keys[0..] == keys;
    assert keys[..|keys|] == keys && keys[|keys|..] == [];
  }

  lemma RemainingNext(keys: seq<BucketKey>, rule: Option<Rule>, i: nat)
    requires i < |keys|
    ensures var kept := Spared(keys[..i], rule);
            && Remaining(keys, rule, i) == kept + ([keys[i]] + keys[i + 1..])
            && Remaining(keys, rule, i + 1) ==
               if rule == Some(keys[i].rule) then Remaining(keys, rule, i) else kept + keys[i + 1..]
  {
    assert keys[i..] == [keys[i]] + keys[i + 1..];
    assert keys[..i + 1][..i] == keys[..i];
    var kept := Spared(keys[..i], rule);
    assert Spared(keys[..i + 1], rule) == kept + if rule == Some(keys[i].rule) then [keys[i]] else [];
  }

  lemma {:induction false} SparesNone(keys: seq<BucketKey>)
    ensures Spared(keys, None) == []
  {
    if keys != [] {
      SparesNone(keys[..|keys| - 1]);
    }
  }

  class Throttler {
    var items: Counters
    const disabled: bool

    constructor (disabled: bool)
      ensures items == map[] && this.disabled == disabled
    {
      items := map[];
      this.disabled := disabled;
    }

    /** `read`: the counts of the current and the previous bucket, or none when a counter holds no
        number. */
    method ReadWindow(rule: Rule, now: Time) returns (window: Option<(int, int)>)
      requires On(rule)
      ensures window.Some? <==> Readable(items, rule, now)
      ensures window.Some? ==>
        window.value == (CountOf(items, BucketAt(rule, now), now), CountOf(items, Before(rule, now), now))
    {
      var (current, previous) := (BucketAt(rule, now), BucketKey(rule, Index(rule, now) - 1));
      if Unreadable(items, current, now) || Unreadable(items, previous, now) {
        return None;
      }
      window := Some((CountOf(items, current, now), CountOf(items, previous, now)));
    }

    /** `refundKey`: a counter that is there counts one less, unless it is at the bottom of its range; no
        counter is made, and no other is touched. */
    method RefundKey(key: BucketKey, now: Time)
      modifies this`items
      ensures CountOf(items, key, now) ==
              CountOf(old(items), key, now) - if Refundable(old(items), key, now) then 1 else 0
      ensures Counting(items, key, now) <==> Counting(old(items), key, now)
      ensures items.Keys == old(items).Keys
      ensures forall other | other in items && other != key :: items[other] == old(items)[other]
      ensures key in items ==> items[key].expiresAt == old(items)[key].expiresAt
      ensures !Refundable(old(items), key, now) ==> items == old(items)
    {
      items := Decrement(items, key, 1, now).0;
    }

    /** `take`: counts one attempt; over the limit it takes it back and says how long to wait. */
    method TakePlace(rule: Rule, previous: int, now: Time) returns (counted: bool, wait: int)
      requires On(rule)
      modifies this`items
      ensures counted && wait == 0 ==> Places(old(items), items, [BucketAt(rule, now)], now)
      ensures counted && wait == 0 ==> Within(previous, CountOf(items, BucketAt(rule, now), now), rule, now)
      ensures !(counted && wait == 0) ==> Places(old(items), items, [], now)
      ensures counted <==> Countable(old(items), BucketAt(rule, now), now)
      ensures counted ==> wait == WindowWait(previous, MaxInt(CountOf(old(items), BucketAt(rule, now), now) + 1, 1),
                                             rule.limit, Elapsed(rule, now), rule.window)
      ensures forall key | key in old(items) && key != BucketAt(rule, now) ::
                key in items && items[key] == old(items)[key]
      ensures !counted ==> items == old(items)
    {
      var key := BucketAt(rule, now);
      var (after, r) := Increment(items, key, 1, 2 * rule.window, now, now);
      items := after;
      if !r.Counted? {
        return false, 0;
      }
      assert Places(old(items), items, [key], now);
      wait := WindowWait(previous, MaxInt(r.value as int, 1), rule.limit, Elapsed(rule, now), rule.window);
      counted := true;
      if wait > 0 {
        RefundKey(key, now);
      }
    }

    /** `refundExcept`: gives the places of a reservation back, but those of one rule; `refund` spares none. */
    method RefundExcept(keys: seq<BucketKey>, spared: Option<Rule>, now: Time, ghost before: Counters)
      requires Places(before, items, keys, now)
      modifies this`items
      ensures Places(before, items, Spared(keys, spared), now)
    {
      var i := 0;
      RemainingEnds(keys, spared);
      while i < |keys|
        invariant 0 <= i <= |keys|
        invariant Places(before, items, Remaining(keys, spared, i), now)
      {
        RemainingNext(keys, spared, i);
        if spared != Some(keys[i].rule) {
          ghost var was := items;
          RefundKey(keys[i], now);
          GaveBack(before, was, items, Spared(keys[..i], spared), keys[i], keys[i + 1..], now);
        }
        i := i + 1;
      }
    }

    /** `reserve`'s first pass: the first rule already at its limit refuses, with nothing written. */
    method ReadAll(rules: seq<Rule>, now: Time) returns (previous: seq<int>, refused: Option<(Rule, int)>)
      ensures refused.Some? ==>
        && refused.value.0 in rules && refused.value.1 > 0 && On(refused.value.0)
        && WaitsAs(items, refused.value.0, now,
                   CountOf(items, BucketAt(refused.value.0, now), now) + 1, refused.value.1)
      ensures refused.None? ==> |previous| == |rules| && forall k | 0 <= k < |rules| && On(rules[k]) ::
        previous[k] == Weighed(items, rules[k], now)
      ensures refused.None? ==> forall rule | rule in rules && On(rule) && Readable(items, rule, now) ::
        Within(Weighed(items, rule, now), CountOf(items, BucketAt(rule, now), now) + 1, rule, now)
    {
      previous, refused := [], None;
      var i := 0;
      while i < |rules|
        invariant 0 <= i <= |rules| && |previous| == i && refused.None?
        invariant forall k | 0 <= k < i && On(rules[k]) :: previous[k] == Weighed(items, rules[k], now)
        invariant forall k | 0 <= k < i && On(rules[k]) && Readable(items, rules[k], now) ::
          Within(Weighed(items, rules[k], now), CountOf(items, BucketAt(rules[k], now), now) + 1, rules[k], now)
      {
        var seen := 0;
        if On(rules[i]) {
          var window := ReadWindow(rules[i], now);
          if window.Some? {
            seen := window.value.1;
            var wait := WindowWait(seen, window.value.0 + 1, rules[i].limit, Elapsed(rules[i], now), rules[i].window);
            if wait > 0 {
              return previous, Some((rules[i], wait));
            }
          }
        }
        previous := previous + [seen];
        i := i + 1;
      }
    }

    /** One rule of the second pass: its place is added, or all are given back. */
    method TakeNext(rule: Rule, previous: int, keys: seq<BucketKey>, now: Time, ghost before: Counters,
                    ghost rules: seq<Rule>)
      returns (taken: seq<BucketKey>, wait: int)
      requires On(rule) && previous == Weighed(before, rule, now) && Taking(before, items, rules, keys, now)
      modifies this`items
      ensures wait >= 0
      ensures wait == 0 ==> Taking(before, items, rules + [rule], taken, now)
      ensures wait > 0 ==> Places(before, items, [], now) && RefusedAs(before, rule, wait, now)
      ensures wait > 0 && BucketAt(rule, now) !in keys ==> RefusedNext(before, rule, wait, now)
    {
      ghost var was := items;
      var counted;
      counted, wait := TakePlace(rule, previous, now);
      if !counted {
        return keys, 0;
      }
      if wait > 0 {
        PlacesAdd(before, was, items, keys, [], now);
        assert keys + [] == keys;
        RefusedNow(before, was, rule, keys, wait, now);
        if BucketAt(rule, now) !in keys {
          assert CountOf(was, BucketAt(rule, now), now) == CountOf(before, BucketAt(rule, now), now);
        }
        RefundExcept(keys, None, now, before);
        SparesNone(keys);
        return [], wait;
      }
      TakingStep(before, was, items, rules, keys, rule, now);
      taken := keys + [BucketAt(rule, now)];
    }

    /** `reserve`'s second pass: a place in each rule in turn, all given back when one refuses. */
    method TakeAll(rules: seq<Rule>, previous: seq<int>, now: Time) returns (r: ReserveResult)
      requires |previous| == |rules|
      requires forall k | 0 <= k < |rules| && On(rules[k]) :: previous[k] == Weighed(items, rules[k], now)
      modifies this`items
      ensures r.Refused? ==> Places(old(items), items, [], now) && r.rule in rules && r.wait > 0
      ensures r.Refused? ==> RefusedAs(old(items), r.rule, r.wait, now)
      ensures r.Refused? && multiset(rules)[r.rule] == 1 ==> RefusedNext(old(items), r.rule, r.wait, now)
      ensures r.Reserved? ==> Taking(old(items), items, rules, r.keys, now)
    {
      var keys: seq<BucketKey> := [];
      var i := 0;
      while i < |rules|
        invariant 0 <= i <= |rules|
        invariant Taking(old(items), items, rules[..i], keys, now)
      {
        assert rules[..i + 1] == rules[..i] + [rules[i]];
        if On(rules[i]) {
          var taken, wait := TakeNext(rules[i], previous[i], keys, now, old(items), rules[..i]);
          if wait > 0 {
            OnceOnly(rules, i);
            return Refused(rules[i], wait);
          }
          keys := taken;
        }
        i := i + 1;
      }
      assert rules[..|rules|] == rules;
      r := Reserved(keys);
    }

    /** `reserve`: a place in every rule that is on, or a refusal that leaves every count as it was. */
    method Reserve(rules: seq<Rule>, now: Time) returns (r: ReserveResult)
      modifies this`items
      ensures disabled ==> r == Reserved([]) && items == old(items)
      ensures r.Refused? ==> Places(old(items), items, [], now) && r.rule in rules && r.wait > 0
      ensures r.Refused? ==> RefusedAs(old(items), r.rule, r.wait, now)
      ensures r.Refused? && multiset(rules)[r.rule] == 1 ==> RefusedNext(old(items), r.rule, r.wait, now)
      ensures r.Reserved? && !disabled ==> Taking(old(items), items, rules, r.keys, now)
      ensures r.Reserved? && !disabled ==> forall rule | rule in rules && On(rule) && Readable(old(items), rule, now) ::
        Within(Weighed(old(items), rule, now), CountOf(old(items), BucketAt(rule, now), now) + 1, rule, now)
    {
      if disabled {
        return Reserved([]);
      }
      var previous, refused := ReadAll(rules, now);
      if refused.Some? {
        return Refused(refused.value.0, refused.value.1);
      }
      r := TakeAll(rules, previous, now);
    }
  }

  /** The refusal's wait is the rule's, for an attempt counted after those there were. */
  ghost predicate RefusedAs(before: Counters, rule: Rule, wait: int, now: Time) {
    && On(rule)
    && exists count ::
         WaitsAs(before, rule, now, count, wait) && CountOf(before, BucketAt(rule, now), now) < count
  }

  /** The refusal's wait is the rule's, for the attempt after those there were. */
  predicate RefusedNext(before: Counters, rule: Rule, wait: int, now: Time) {
    && On(rule)
    && var count := CountOf(before, BucketAt(rule, now), now);
       count >= 0 ==> WaitsAs(before, rule, now, count + 1, wait)
  }

  lemma OnceOnly(rules: seq<Rule>, i: nat)
    requires i < |rules|
    ensures multiset(rules)[rules[i]] == 1 ==> rules[i] !in rules[..i]
  {
    assert rules == rules[..i] + ([rules[i]] + rules[i + 1..]);
  }

  /** The places `keys` are those of the rules so far, all counted, and all within their limits. */
  ghost predicate Taking(before: Counters, items: Counters, rules: seq<Rule>, keys: seq<BucketKey>, now: Time) {
    && Places(before, items, keys, now)
    && (forall key | key in keys :: key.rule in rules && On(key.rule) && key == BucketAt(key.rule, now))
    && AllPlaced(items, rules, keys, now)
    && AllWithin(before, items, keys, now)
  }

  lemma TakingStep(before: Counters, was: Counters, items: Counters, rules: seq<Rule>, keys: seq<BucketKey>, rule: Rule,
                   now: Time)
    requires Taking(before, was, rules, keys, now) && On(rule)
    requires var key := BucketAt(rule, now);
      && Countable(was, key, now) && Places(was, items, [key], now)
      && Within(Weighed(before, rule, now), CountOf(items, key, now), rule, now)
      && forall k | k in was && k != key :: k in items && items[k] == was[k]
    ensures Taking(before, items, rules + [rule], keys + [BucketAt(rule, now)], now)
  {
    var key := BucketAt(rule, now);
    PlacesAdd(before, was, items, keys, [key], now);
    StillPlaced(was, items, rules, keys, key, now);
    StillWithin(before, was, items, keys, key, now);
  }

  lemma RefusedNow(before: Counters, was: Counters, rule: Rule, keys: seq<BucketKey>, wait: int, now: Time)
    requires Places(before, was, keys, now) && On(rule)
    requires WaitsAs(before, rule, now, MaxInt(CountOf(was, BucketAt(rule, now), now) + 1, 1), wait)
    ensures RefusedAs(before, rule, wait, now)
  {
    assert CountOf(was, BucketAt(rule, now), now) >= CountOf(before, BucketAt(rule, now), now);
  }

  lemma StillPlaced(was: Counters, items: Counters, rules: seq<Rule>, keys: seq<BucketKey>, key: BucketKey, now: Time)
    requires AllPlaced(was, rules, keys, now) && Countable(was, key, now)
    requires forall k | k in was && k != key :: k in items && items[k] == was[k]
    ensures AllPlaced(items, rules, keys + [key], now)
  {
    forall rule | rule in rules && On(rule)
      ensures BucketAt(rule, now) in keys + [key] || !Countable(items, BucketAt(rule, now), now)
    {
      assert BucketAt(rule, now) in keys || !Countable(was, BucketAt(rule, now), now);
    }
  }

  lemma StillWithin(before: Counters, was: Counters, items: Counters, keys: seq<BucketKey>, key: BucketKey, now: Time)
    requires AllWithin(before, was, keys, now) && Places(was, items, [key], now)
    requires key.rule.window > 0 && Within(Weighed(before, key.rule, now), CountOf(items, key, now), key.rule, now)
    ensures AllWithin(before, items, keys + [key], now)
  {
    forall k | k in keys + [key]
      ensures k.rule.window > 0 && Within(Weighed(before, k.rule, now), CountOf(items, k, now), k.rule, now)
    {
      if k != key {
        assert CountOf(items, k, now) == CountOf(was, k, now) + multiset([key])[k];
      }
    }
  }

  lemma PlacesAdd(a: Counters, b: Counters, c: Counters, keys: seq<BucketKey>, more: seq<BucketKey>, now: Time)
    requires Places(a, b, keys, now) && Places(b, c, more, now)
    ensures Places(a, c, keys + more, now)
  {
    forall key
      ensures CountOf(c, key, now) == CountOf(a, key, now) + multiset(keys + more)[key]
      ensures key in keys + more || Counting(a, key, now) ==> Counting(c, key, now)
    {
      assert CountOf(b, key, now) == CountOf(a, key, now) + multiset(keys)[key];
    }
  }

  lemma GaveBack(before: Counters, was: Counters, items: Counters, kept: seq<BucketKey>, key: BucketKey,
                 rest: seq<BucketKey>, now: Time)
    requires Places(before, was, kept + ([key] + rest), now)
    requires CountOf(items, key, now) == CountOf(was, key, now) - if Refundable(was, key, now) then 1 else 0
    requires Counting(items, key, now) <==> Counting(was, key, now)
    requires items.Keys == was.Keys && forall other | other in items && other != key :: items[other] == was[other]
    ensures Places(before, items, kept + rest, now)
  {
    assert key in kept + ([key] + rest);
    assert CountOf(was, key, now) == CountOf(before, key, now) + multiset(kept + ([key] + rest))[key];
    forall other
      ensures CountOf(items, other, now) == CountOf(before, other, now) + multiset(kept + rest)[other]
      ensures other in kept + rest || Counting(before, other, now) ==> Counting(items, other, now)
    {
      assert CountOf(was, other, now) == CountOf(before, other, now) + multiset(kept + ([key] + rest))[other];
      assert other in kept + rest ==> other in kept + ([key] + rest);
    }
  }

  // A refusal, in instants

  lemma BeforeIsEarlier(rule: Rule, now: Time)
    requires rule.window > 0
    ensures Before(rule, now) == BucketAt(rule, now - rule.window)
  {
    OneEarlier(rule, now);
  }

  /** The window has room for one more attempt at `t`. */
  predicate HasRoom(items: Counters, rule: Rule, t: Time)
    requires rule.window > 0
  {
    Within(CountOf(items, Before(rule, t), t), CountOf(items, BucketAt(rule, t), t) + 1, rule, t)
  }

  /** From `now` to `t` nothing is attempted under the rule, and no counter goes while it is weighed. */
  predicate LeftAlone(items: Counters, rule: Rule, now: Time, t: Time)
    requires rule.window > 0
  {
    var index := Index(rule, now);
    && (Index(rule, t) == index ==>
          CountOf(items, BucketKey(rule, index - 1), t) == CountOf(items, Before(rule, now), now))
    && (Index(rule, t) <= index + 1 ==>
          CountOf(items, BucketKey(rule, index), t) == CountOf(items, BucketAt(rule, now), now))
    && (Index(rule, t) > index ==> CountOf(items, BucketAt(rule, t), t) == 0)
    && (Index(rule, t) > index + 1 ==> CountOf(items, Before(rule, t), t) == 0)
  }

  /** Instant `t`, in windows from the start of the bucket of `now`. */
  function WindowsIn(rule: Rule, now: Time, t: Time): real
    requires rule.window > 0
  {
    (t - Index(rule, now) * rule.window) as real / rule.window as real
  }

  lemma Fraction(q: real, w: real, product: real)
    requires w > 0.0 && q * w == product
    ensures product / w == q
  {
  }

  lemma CastProduct(a: int, w: int)
    ensures (a * w) as real == a as real * w as real
  {
  }

  lemma Apart(i: int, j: int, w: int, t: int)
    ensures t - i * w == (j - i) * w + (t - j * w)
  {
  }

  lemma SumOfProducts(a: real, b: real, w: real)
    ensures (a + b) * w == a * w + b * w
  {
  }

  lemma WindowsInIs(rule: Rule, now: Time, t: Time)
    requires rule.window > 0
    ensures WindowsIn(rule, now, t) == (Index(rule, t) - Index(rule, now)) as real + Elapsed(rule, t)
    ensures WindowsIn(rule, now, t) * rule.window as real == (t - Index(rule, now) * rule.window) as real
  {
    Together(Index(rule, now), Index(rule, t), rule.window, t, Elapsed(rule, t));
    Fraction((Index(rule, t) - Index(rule, now)) as real + Elapsed(rule, t), rule.window as real,
             (t - Index(rule, now) * rule.window) as real);
  }

  lemma Together(i: int, j: int, window: int, t: int, elapsed: real)
    requires elapsed * window as real == (t - j * window) as real
    ensures ((j - i) as real + elapsed) * window as real == (t - i * window) as real
  {
    Apart(i, j, window, t);
    CastProduct(j - i, window);
    SumOfProducts((j - i) as real, elapsed, window as real);
  }

  lemma LaterBucket(rule: Rule, now: Time, t: Time)
    requires rule.window > 0 && now <= t
    ensures Index(rule, t) >= Index(rule, now)
  {
    BucketBounds(rule, now);
    BucketBounds(rule, t);
    OrderedProducts(Index(rule, now), Index(rule, t) + 1, rule.window);
  }

  /** The room at `t` is the room the wait is computed for. */
  lemma RoomIsFit(items: Counters, rule: Rule, now: Time, t: Time)
    requires On(rule) && now <= t && LeftAlone(items, rule, now, t)
    requires CountOf(items, BucketAt(rule, now), now) >= 0
    ensures HasRoom(items, rule, t) <==>
            FitsAt(MaxInt(CountOf(items, Before(rule, now), now), 0) as real,
                   CountOf(items, BucketAt(rule, now), now) as real, rule.limit as real, WindowsIn(rule, now, t))
  {
    WindowsInIs(rule, now, t);
    LaterBucket(rule, now, t);
  }

  /** What a wait that leads to a fit says of the instant it leads to. */
  lemma LedTo(previous: real, current: real, limit: real, elapsed: real, window: int, later: real, wait: int)
    returns (instant: real)
    requires LeadsToFit(previous, current, limit, elapsed, window, later, wait)
    ensures FitsAt(previous, current, limit, later) <==> later >= instant
    ensures TimeTo(instant, elapsed, window) > 0.0 && Near(wait, TimeTo(instant, elapsed, window))
  {
    instant := FitInstant(previous, current, limit);
  }

  /** The window has room at `t` exactly from `exact` nanoseconds on. */
  predicate RoomAfter(items: Counters, rule: Rule, now: Time, t: Time, exact: real)
    requires rule.window > 0
  {
    HasRoom(items, rule, t) <==> (t - now) as real >= exact
  }

  /** With nothing else attempted, a refused attempt has room from the instant its wait rounds, and not before. */
  lemma RefusedUntil(items: Counters, rule: Rule, now: Time, wait: int, t: Time)
    requires On(rule) && now <= t && LeftAlone(items, rule, now, t)
    requires Readable(items, rule, now) && CountOf(items, BucketAt(rule, now), now) >= 0
    requires wait > 0 && WaitsAs(items, rule, now, CountOf(items, BucketAt(rule, now), now) + 1, wait)
    ensures exists exact: real :: exact > 0.0 && Near(wait, exact) && RoomAfter(items, rule, now, t, exact)
  {
    var (previous, count) := (CountOf(items, Before(rule, now), now), CountOf(items, BucketAt(rule, now), now));
    var (elapsed, tau) := (Elapsed(rule, now), WindowsIn(rule, now, t));
    NoEarlier(rule, now, t);
    WindowWaitExact(previous, count + 1, rule.limit, elapsed, rule.window, tau);
    var instant := LedTo(MaxInt(previous, 0) as real, count as real, rule.limit as real, elapsed, rule.window, tau,
                         wait);
    RoomIsFit(items, rule, now, t);
    Ahead(rule, now, t, instant);
    assert RoomAfter(items, rule, now, t, TimeTo(instant, elapsed, rule.window));
  }

  lemma NoEarlier(rule: Rule, now: Time, t: Time)
    requires rule.window > 0 && now <= t
    ensures WindowsIn(rule, now, t) >= Elapsed(rule, now)
  {
    WindowsInIs(rule, now, t);
    ScaledOrder(rule.window as real, Elapsed(rule, now), WindowsIn(rule, now, t));
  }

  lemma Ahead(rule: Rule, now: Time, t: Time, instant: real)
    requires rule.window > 0
    ensures WindowsIn(rule, now, t) >= instant <==>
            (t - now) as real >= TimeTo(instant, Elapsed(rule, now), rule.window)
  {
    WindowsInIs(rule, now, t);
    ScaledOrder(rule.window as real, instant, WindowsIn(rule, now, t));
    SumOfProducts(instant, -Elapsed(rule, now), rule.window as real);
  }
}
