/**
 The production check on trusted proxy ranges (`config/config.go`): a prefix
 tree per address family decides whether the configured CIDR ranges together
 trust every peer. An address is its bits, most significant first.
 */
module ProxyTrie {
  import opened Options

  type Bits = seq<bool>

  const V4_BITS: nat := 32
  const V6_BITS: nat := 128

  // The prefix tree as a value

  datatype Trie = Empty | Node(covered: bool, zero: Trie, one: Trie)

  predicate IsCovered(t: Trie) {
    t.Node? && t.covered
  }

  function ZeroOf(t: Trie): Trie {
    if t.Node? then t.zero else Empty
  }

  function OneOf(t: Trie): Trie {
    if t.Node? then t.one else Empty
  }

  /** `insertTrustedProxyRange`: an absent node is one that covers nothing. */
  function Insert(t: Trie, prefix: Bits): Trie
    decreases |prefix|
  {
    if IsCovered(t) then t
    else if prefix == [] then Node(true, Empty, Empty)
    else
      var (zero, one) := (ZeroOf(t), OneOf(t));
      var zero' := if prefix[0] then zero else Insert(zero, prefix[1..]);
      var one' := if prefix[0] then Insert(one, prefix[1..]) else one;
      if IsCovered(zero') && IsCovered(one') then Node(true, Empty, Empty) else Node(false, zero', one')
  }

  function InsertAll(prefixes: seq<Bits>): Trie {
    if prefixes == [] then Empty
    else Insert(InsertAll(prefixes[..|prefixes| - 1]), prefixes[|prefixes| - 1])
  }

  /** Whether the tree holds a range that contains the address. */
  predicate Contains(t: Trie, address: Bits)
    decreases |address|
  {
    t.Node? && (t.covered || (address != [] && Contains(if address[0] then t.one else t.zero, address[1..])))
  }

  /** A node whose children are both covered is covered itself. */
  predicate Normal(t: Trie) {
    t.Node? ==>
      && Normal(t.zero) && Normal(t.one)
      && (!t.covered ==> !(IsCovered(t.zero) && IsCovered(t.one)))
  }

  lemma {:induction false} InsertNormal(t: Trie, prefix: Bits)
    requires Normal(t)
    ensures Normal(Insert(t, prefix))
    decreases |prefix|
  {
    if !IsCovered(t) && prefix != [] {
      var (zero, one) := (ZeroOf(t), OneOf(t));
      InsertNormal(if prefix[0] then one else zero, prefix[1..]);
    }
  }

  /** An insertion adds exactly the addresses that start with the prefix. */
  lemma {:induction false} InsertAdds(t: Trie, prefix: Bits, address: Bits)
    requires |prefix| <= |address|
    ensures Contains(Insert(t, prefix), address) <==> Contains(t, address) || prefix <= address
    decreases |prefix|
  {
    if !IsCovered(t) && prefix != [] {
      var (zero, one) := (ZeroOf(t), OneOf(t));
      var child := if prefix[0] then one else zero;
      InsertAdds(child, prefix[1..], address[1..]);
      assert prefix <= address <==> prefix[0] == address[0] && prefix[1..] <= address[1..];
    }
  }

  /** In a normal tree only a covered root contains every address. */
  lemma {:induction false} CoveredIffFull(t: Trie, width: nat)
    requires Normal(t)
    ensures IsCovered(t) <==> forall address: Bits | |address| == width :: Contains(t, address)
    decreases width
  {
    if !IsCovered(t) {
      var missing := MissingAddress(t, width);
      assert !Contains(t, missing);
    }
  }

  /** An address that an uncovered tree does not contain. */
  lemma {:induction false} MissingAddress(t: Trie, width: nat) returns (address: Bits)
    requires Normal(t) && !IsCovered(t)
    ensures |address| == width && !Contains(t, address)
    decreases width
  {
    if t.Empty? || width == 0 {
      address := seq(width, _ => false);
    } else {
      var bit := IsCovered(t.zero);
      var rest := MissingAddress(if bit then t.one else t.zero, width - 1);
      address := [bit] + rest;
      assert address[1..] == rest;
    }
  }

  predicate AnyContains(prefixes: seq<Bits>, address: Bits) {
    exists k | 0 <= k < |prefixes| :: prefixes[k] <= address
  }

  /** Whether the ranges together contain every address of the width. */
  ghost predicate CoverEvery(prefixes: seq<Bits>, width: nat) {
    forall address: Bits | |address| == width :: AnyContains(prefixes, address)
  }

  lemma {:induction false} InsertAllContains(prefixes: seq<Bits>, address: Bits)
    requires forall k | 0 <= k < |prefixes| :: |prefixes[k]| <= |address|
    ensures Contains(InsertAll(prefixes), address) <==> AnyContains(prefixes, address)
    ensures Normal(InsertAll(prefixes))
  {
    if prefixes != [] {
      var (init, last) := (prefixes[..|prefixes| - 1], prefixes[|prefixes| - 1]);
      InsertAllContains(init, address);
      InsertAdds(InsertAll(init), last, address);
      InsertNormal(InsertAll(init), last);
      assert prefixes == init + [last];
      assert AnyContains(prefixes, address) <==> AnyContains(init, address) || last <= address;
    }
  }

  /** The root is covered exactly when the inserted ranges together contain every address. */
  lemma TrieExact(prefixes: seq<Bits>, width: nat)
    requires forall k | 0 <= k < |prefixes| :: |prefixes[k]| <= width
    ensures IsCovered(InsertAll(prefixes)) <==> CoverEvery(prefixes, width)
  {
    InsertAllContains(prefixes, seq(width, _ => false));
    CoveredIffFull(InsertAll(prefixes), width);
    forall address: Bits | |address| == width
      ensures Contains(InsertAll(prefixes), address) <==> AnyContains(prefixes, address)
    {
      InsertAllContains(prefixes, address);
    }
  }

  /** Neither the order of the ranges nor their repetition changes the answer. */
  lemma OrderDoesNotMatter(a: seq<Bits>, b: seq<Bits>, width: nat)
    requires forall k | 0 <= k < |a| :: |a[k]| <= width
    requires forall p :: p in a <==> p in b
    ensures IsCovered(InsertAll(a)) == IsCovered(InsertAll(b))
  {
    forall k | 0 <= k < |b| ensures |b[k]| <= width {
      assert b[k] in a;
    }
    TrieExact(a, width);
    TrieExact(b, width);
    forall address: Bits | |address| == width ensures AnyContains(a, address) <==> AnyContains(b, address) {
      SameRanges(a, b, address);
      SameRanges(b, a, address);
    }
  }

  lemma SameRanges(a: seq<Bits>, b: seq<Bits>, address: Bits)
    requires forall p | p in a :: p in b
    ensures AnyContains(a, address) ==> AnyContains(b, address)
  {
    if AnyContains(a, address) {
      var k :| 0 <= k < |a| && a[k] <= address;
      assert a[k] in b;
    }
  }

  // The tree in the heap

  /** `trustedProxyRangeNode`. */
  class RangeNode {
    var covered: bool
    var zero: RangeNode?
    var one: RangeNode?
    ghost var repr: set<object>
    /** The tree below this node. */
    ghost var view: Trie

    ghost predicate Valid()
      reads this, repr
      decreases repr
    {
      && this in repr
      && (zero != null ==> zero in repr && zero.repr <= repr && this !in zero.repr && zero.Valid())
      && (one != null ==> one in repr && one.repr <= repr && this !in one.repr && one.Valid())
      && (zero != null && one != null ==> zero.repr !! one.repr)
      && view == Node(covered, if zero == null then Empty else zero.view, if one == null then Empty else one.view)
    }

    constructor ()
      ensures Valid() && fresh(repr) && view == Node(false, Empty, Empty)
    {
      covered, zero, one := false, null, null;
      repr, view := {this}, Node(false, Empty, Empty);
    }

    method InsertRange(address: Bits, bits: nat, depth: nat)
      requires Valid() && depth <= bits <= |address|
      modifies repr
      ensures Valid() && fresh(repr - old(repr))
      ensures view == Insert(old(view), address[depth..bits])
      decreases bits - depth
    {
      if covered {
        return;
      }
      if depth == bits {
        covered, zero, one := true, null, null;
        view := Node(true, Empty, Empty);
        return;
      }
      var bit := address[depth];
      assert address[depth..bits][0] == bit && address[depth..bits][1..] == address[depth + 1..bits];
      if bit {
        InsertOne(address, bits, depth);
      } else {
        InsertZero(address, bits, depth);
      }
      if zero != null && zero.covered && one != null && one.covered {
        covered, zero, one := true, null, null;
        view := Node(true, Empty, Empty);
      }
    }

    method InsertZero(address: Bits, bits: nat, depth: nat)
      requires Valid() && depth < bits <= |address|
      modifies repr
      ensures Valid() && fresh(repr - old(repr)) && covered == old(covered)
      ensures view == Node(covered, Insert(ZeroOf(old(view)), address[depth + 1..bits]), OneOf(old(view)))
      decreases bits - depth, 0
    {
      if zero == null {
        zero := new RangeNode();
        repr, view := repr + zero.repr, view.(zero := zero.view);
      }
      zero.InsertRange(address, bits, depth + 1);
      repr, view := repr + zero.repr, view.(zero := zero.view);
    }

    method InsertOne(address: Bits, bits: nat, depth: nat)
      requires Valid() && depth < bits <= |address|
      modifies repr
      ensures Valid() && fresh(repr - old(repr)) && covered == old(covered)
      ensures view == Node(covered, ZeroOf(old(view)), Insert(OneOf(old(view)), address[depth + 1..bits]))
      decreases bits - depth, 0
    {
      if one == null {
        one := new RangeNode();
        repr, view := repr + one.repr, view.(one := one.view);
      }
      one.InsertRange(address, bits, depth + 1);
      repr, view := repr + one.repr, view.(one := one.view);
    }
  }

  // Networks and the check

  /** A parsed CIDR range: the masked address, 4 or 16 bytes, and the length of its prefix. */
  datatype Network = Network(ip: Bits, ones: nat)

  predicate WellFormed(n: Network) {
    && (|n.ip| == V4_BITS || |n.ip| == V6_BITS)
    && n.ones <= |n.ip|
    && forall k | n.ones <= k < |n.ip| :: !n.ip[k]
  }

  /** `To4`: the IPv4 address, also of an IPv4-mapped one (section 2.5.5.2 of RFC 4291). */
  function To4(ip: Bits): Option<Bits> {
    if |ip| == V4_BITS then Some(ip)
    else if |ip| == V6_BITS && Mapped(ip) then Some(ip[96..])
    else None
  }

  /** Ten zero bytes and two of ones. */
  predicate Mapped(ip: Bits)
    requires |ip| == V6_BITS
  {
    (forall k | 0 <= k < 80 :: !ip[k]) && (forall k | 80 <= k < 96 :: ip[k])
  }

  /** An entry of the list: the wildcard, a range, or a text that is no range. */
  datatype Proxy = Wildcard | Range(network: Network) | NotARange

  predicate AllWellFormed(proxies: seq<Proxy>) {
    forall k | 0 <= k < |proxies| && proxies[k].Range? :: WellFormed(proxies[k].network)
  }

  /** The length of a network's prefix within its family. */
  function FamilyBits(n: Network): int {
    if To4(n.ip).Some? && |n.ip| == V6_BITS then n.ones - 96 else n.ones
  }

  /** Masking keeps an address IPv4-mapped only when the prefix reaches past the mapping. */
  lemma MappedPrefixIsLong(n: Network)
    requires WellFormed(n)
    ensures 0 <= FamilyBits(n) <= if To4(n.ip).Some? then V4_BITS else V6_BITS
    ensures To4(n.ip).Some? ==> |To4(n.ip).value| == V4_BITS
  {
    assert |n.ip| == V6_BITS && Mapped(n.ip) ==> n.ip[95];
  }

  /** The range's prefix in the family it belongs to, as no or one prefix of the other's list. */
  function PrefixIn(p: Proxy, v4: bool): seq<Bits>
    requires p.Range? ==> WellFormed(p.network)
  {
    if !p.Range? || To4(p.network.ip).Some? != v4 then []
    else
      MappedPrefixIsLong(p.network);
      var address := if v4 then To4(p.network.ip).value else p.network.ip;
      [address[..FamilyBits(p.network)]]
  }

  function Prefixes(proxies: seq<Proxy>, v4: bool): seq<Bits>
    requires AllWellFormed(proxies)
  {
    if proxies == [] then []
    else
      assert forall k | 0 <= k < |proxies| - 1 :: proxies[..|proxies| - 1][k] == proxies[k];
      Prefixes(proxies[..|proxies| - 1], v4) + PrefixIn(proxies[|proxies| - 1], v4)
  }

  function Width(v4: bool): nat {
    if v4 then V4_BITS else V6_BITS
  }

  /** Whether the ranges of one family together trust every address of it. */
  ghost predicate FamilyCovered(proxies: seq<Proxy>, v4: bool)
    requires AllWellFormed(proxies)
  {
    CoverEvery(Prefixes(proxies, v4), Width(v4))
  }

  /** The 96 bits before an IPv4-mapped address: ten zero bytes and two of ones (section 2.5.5.2 of RFC 4291). */
  function MappedPrefix(): (r: Bits)
    ensures |r| == 96 && forall k | 0 <= k < 96 :: r[k] == (k >= 80)
  {
    seq(96, k => k >= 80)
  }

  /** Whether a range contains a peer, a 32-bit IPv4 or a 128-bit IPv6 address. An IPv4 peer is in a range of
      mapped addresses by its mapped form; an IPv6 peer is in no range of those. */
  predicate Trusts(p: Proxy, peer: Bits)
    requires p.Range? ==> WellFormed(p.network)
  {
    && p.Range?
    && var (ip, ones) := (p.network.ip, p.network.ones);
       if |ip| == 32 then |peer| == 32 && ip[..ones] <= peer
       else if ip[..96] == MappedPrefix() then |peer| == 32 && ip[..ones] <= MappedPrefix() + peer
       else |peer| == 128 && ip[..ones] <= peer
  }

  lemma MappedIs(ip: Bits)
    requires |ip| == V6_BITS
    ensures Mapped(ip) <==> ip[..96] == MappedPrefix()
  {
    if ip[..96] == MappedPrefix() {
      forall k | 0 <= k < 96 ensures ip[k] == (k >= 80) {
        assert ip[k] == ip[..96][k];
      }
    }
  }

  /** In the tree of the peer's family a range's prefix stands for the peers it contains. */
  lemma PrefixTrusts(p: Proxy, v4: bool, peer: Bits)
    requires p.Range? ==> WellFormed(p.network)
    requires |peer| == Width(v4)
    ensures AnyContains(PrefixIn(p, v4), peer) <==> Trusts(p, peer)
  {
    if p.Range? {
      var (ip, ones) := (p.network.ip, p.network.ones);
      MappedPrefixIsLong(p.network);
      if PrefixIn(p, v4) != [] {
        assert AnyContains(PrefixIn(p, v4), peer) <==> PrefixIn(p, v4)[0] <= peer;
      }
      if |ip| == V6_BITS {
        MappedIs(ip);
        if v4 && Mapped(ip) {
          MappedMember(ip, ones, peer);
        }
      }
    }
  }

  lemma MappedMember(ip: Bits, ones: nat, peer: Bits)
    requires |ip| == V6_BITS && 96 <= ones <= V6_BITS && |peer| == V4_BITS && ip[..96] == MappedPrefix()
    ensures ip[96..][..ones - 96] <= peer <==> ip[..ones] <= MappedPrefix() + peer
  {
    assert ip[..ones] == ip[..96] + ip[96..][..ones - 96];
    CommonStart(MappedPrefix(), ip[96..][..ones - 96], peer);
  }

  lemma CommonStart(start: Bits, a: Bits, b: Bits)
    ensures start + a <= start + b <==> a <= b
  {
    if start + a <= start + b {
      forall k | 0 <= k < |a| ensures a[k] == b[k] {
        assert (start + a)[|start| + k] == (start + b)[|start| + k];
      }
    }
  }

  lemma {:induction false} PrefixesTrust(proxies: seq<Proxy>, v4: bool, peer: Bits)
    requires AllWellFormed(proxies) && |peer| == Width(v4)
    ensures AnyContains(Prefixes(proxies, v4), peer) <==>
            exists k | 0 <= k < |proxies| :: Trusts(proxies[k], peer)
  {
    if proxies != [] {
      var n := |proxies| - 1;
      var (init, last) := (proxies[..n], proxies[n]);
      assert forall k | 0 <= k < n :: init[k] == proxies[k];
      PrefixesTrust(init, v4, peer);
      PrefixTrusts(last, v4, peer);
      ContainsEither(Prefixes(init, v4), PrefixIn(last, v4), peer);
    }
  }

  lemma ContainsEither(a: seq<Bits>, b: seq<Bits>, address: Bits)
    ensures AnyContains(a + b, address) <==> AnyContains(a, address) || AnyContains(b, address)
  {
    if k :| 0 <= k < |a| && a[k] <= address {
      assert (a + b)[k] <= address;
    }
    if k :| 0 <= k < |b| && b[k] <= address {
      assert (a + b)[|a| + k] <= address;
    }
  }

  /** A family is covered exactly when every peer of it, 32 or 128 bits wide, is in one of the ranges. */
  lemma FamilyCoveredExact(proxies: seq<Proxy>, v4: bool)
    requires AllWellFormed(proxies)
    ensures FamilyCovered(proxies, v4) <==>
            forall peer: Bits | |peer| == (if v4 then 32 else 128) ::
              exists k | 0 <= k < |proxies| :: Trusts(proxies[k], peer)
  {
    forall peer: Bits | |peer| == Width(v4)
      ensures AnyContains(Prefixes(proxies, v4), peer) <==>
              exists k | 0 <= k < |proxies| :: Trusts(proxies[k], peer)
    {
      PrefixesTrust(proxies, v4, peer);
    }
  }

  lemma {:induction false} PrefixesFit(proxies: seq<Proxy>, v4: bool)
    requires AllWellFormed(proxies)
    ensures forall k | 0 <= k < |Prefixes(proxies, v4)| :: |Prefixes(proxies, v4)[k]| <= Width(v4)
  {
    if proxies != [] {
      var (init, last) := (proxies[..|proxies| - 1], proxies[|proxies| - 1]);
      PrefixesFit(init, v4);
      if last.Range? {
        MappedPrefixIsLong(last.network);
      }
    }
  }

  lemma PrefixesNext(proxies: seq<Proxy>, i: nat, v4: bool)
    requires AllWellFormed(proxies) && i < |proxies|
    ensures AllWellFormed(proxies[..i]) && AllWellFormed(proxies[..i + 1])
    ensures Prefixes(proxies[..i + 1], v4) == Prefixes(proxies[..i], v4) + PrefixIn(proxies[i], v4)
  {
    var next := proxies[..i + 1];
    assert next[..i] == proxies[..i] && next[i] == proxies[i];
    assert forall k | 0 <= k < i + 1 :: next[k] == proxies[k];
  }

  /** Ranges only ever add trust. */
  lemma CoveredStays(prefixes: seq<Bits>, more: seq<Bits>, width: nat)
    requires CoverEvery(prefixes, width)
    ensures CoverEvery(prefixes + more, width)
  {
    forall address: Bits | |address| == width ensures AnyContains(prefixes + more, address) {
      assert AnyContains(prefixes, address);
      var k :| 0 <= k < |prefixes| && prefixes[k] <= address;
      assert (prefixes + more)[k] == prefixes[k];
    }
  }

  lemma {:induction false} FamilyStaysCovered(proxies: seq<Proxy>, n: nat, v4: bool)
    requires AllWellFormed(proxies) && n <= |proxies|
    requires AllWellFormed(proxies[..n]) && FamilyCovered(proxies[..n], v4)
    ensures FamilyCovered(proxies, v4)
    decreases |proxies| - n
  {
    if n == |proxies| {
      assert proxies[..n] == proxies;
    } else {
      PrefixesNext(proxies, n, v4);
      CoveredStays(Prefixes(proxies[..n], v4), PrefixIn(proxies[n], v4), Width(v4));
      FamilyStaysCovered(proxies, n + 1, v4);
    }
  }

  /** The two trees are disjoint and hold the ranges of `done`, each those of its family. */
  ghost predicate TreesHold(ipv4: RangeNode, ipv6: RangeNode, done: seq<Proxy>)
    reads ipv4, ipv4.repr, ipv6, ipv6.repr
  {
    && AllWellFormed(done)
    && ipv4.Valid() && ipv6.Valid() && ipv4.repr !! ipv6.repr
    && Holds(ipv4.view, Prefixes(done, true)) && Holds(ipv6.view, Prefixes(done, false))
  }

  lemma TreesExact(ipv4: RangeNode, ipv6: RangeNode, done: seq<Proxy>)
    requires TreesHold(ipv4, ipv6, done)
    ensures ipv4.covered <==> FamilyCovered(done, true)
    ensures ipv6.covered <==> FamilyCovered(done, false)
  {
    HoldsExact(ipv4.view, done, true);
    HoldsExact(ipv6.view, done, false);
  }

  /** One more proxy adds its prefix to the list of its family, and nothing to the other's. */
  lemma PrefixesAdd(done: seq<Proxy>, p: Proxy, v4: bool)
    requires AllWellFormed(done) && (p.Range? ==> WellFormed(p.network))
    ensures AllWellFormed(done + [p])
    ensures Prefixes(done + [p], v4) ==
            if PrefixIn(p, v4) == [] then Prefixes(done, v4) else Prefixes(done, v4) + PrefixIn(p, v4)
  {
    assert (done + [p])[..|done|] == done && (done + [p])[..|done| + 1] == done + [p];
    PrefixesNext(done + [p], |done|, v4);
  }

  method AddRange(node: RangeNode, address: Bits, bits: nat, ghost prefixes: seq<Bits>)
    requires node.Valid() && bits <= |address| && Holds(node.view, prefixes)
    modifies node.repr
    ensures node.Valid() && fresh(node.repr - old(node.repr))
    ensures Holds(node.view, prefixes + [address[..bits]])
  {
    HoldsInsert(node.view, prefixes, address[..bits]);
    assert address[0..bits] == address[..bits];
    node.InsertRange(address, bits, 0);
  }

  /** The loop's body: inserts a range into its family's tree. */
  method AddProxy(p: Proxy, ipv4: RangeNode, ipv6: RangeNode, ghost done: seq<Proxy>)
    requires p.Range? ==> WellFormed(p.network)
    requires TreesHold(ipv4, ipv6, done)
    modifies ipv4.repr, ipv6.repr
    ensures TreesHold(ipv4, ipv6, done + [p])
    ensures fresh(ipv4.repr - old(ipv4.repr)) && fresh(ipv6.repr - old(ipv6.repr))
  {
    PrefixesAdd(done, p, true);
    PrefixesAdd(done, p, false);
    if p.Range? {
      var network := p.network;
      MappedPrefixIsLong(network);
      var v4 := To4(network.ip);
      if v4.Some? {
        var bits := if |network.ip| == V6_BITS then network.ones - 96 else network.ones;
        AddRange(ipv4, v4.value, bits, Prefixes(done, true));
      } else {
        AddRange(ipv6, network.ip, network.ones, Prefixes(done, false));
      }
    }
  }

  /** `trustedProxyRangesCoverAll`: true exactly when the ranges of one family cover that family. */
  method RangesCoverAll(proxies: seq<Proxy>) returns (all: bool)
    requires AllWellFormed(proxies)
    ensures all <==> FamilyCovered(proxies, true) || FamilyCovered(proxies, false)
  {
    var ipv4 := new RangeNode();
    var ipv6 := new RangeNode();
    var i := 0;
    while i < |proxies|
      invariant 0 <= i <= |proxies|
      invariant TreesHold(ipv4, ipv6, proxies[..i])
      invariant fresh(ipv4.repr) && fresh(ipv6.repr)
      invariant !ipv4.covered && !ipv6.covered
    {
      AddProxy(proxies[i], ipv4, ipv6, proxies[..i]);
      assert proxies[..i] + [proxies[i]] == proxies[..i + 1];
      i := i + 1;
      if ipv4.covered || ipv6.covered {
        FoundCovered(ipv4, ipv6, proxies, i);
        return true;
      }
    }
    assert proxies[..i] == proxies;
    TreesExact(ipv4, ipv6, proxies);
    all := false;
  }

  lemma FoundCovered(ipv4: RangeNode, ipv6: RangeNode, proxies: seq<Proxy>, i: nat)
    requires AllWellFormed(proxies) && i <= |proxies| && TreesHold(ipv4, ipv6, proxies[..i])
    requires ipv4.covered || ipv6.covered
    ensures FamilyCovered(proxies, true) || FamilyCovered(proxies, false)
  {
    TreesExact(ipv4, ipv6, proxies[..i]);
    FamilyStaysCovered(proxies, i, ipv4.covered);
  }

  /** The tree a node holds after inserting the prefixes, an untouched root standing for the empty tree. */
  predicate Holds(t: Trie, prefixes: seq<Bits>) {
    t == InsertAll(prefixes) || (prefixes == [] && t == Node(false, Empty, Empty))
  }

  lemma HoldsExact(t: Trie, proxies: seq<Proxy>, v4: bool)
    requires AllWellFormed(proxies) && Holds(t, Prefixes(proxies, v4))
    ensures IsCovered(t) <==> FamilyCovered(proxies, v4)
  {
    PrefixesFit(proxies, v4);
    TrieExact(Prefixes(proxies, v4), Width(v4));
  }

  lemma HoldsInsert(t: Trie, prefixes: seq<Bits>, prefix: Bits)
    requires Holds(t, prefixes)
    ensures Holds(Insert(t, prefix), prefixes + [prefix])
  {
    assert (prefixes + [prefix])[..|prefixes|] == prefixes;
  }

  // The wildcard and the single-range check

  /** `isUnsafeTrustedProxy`: the wildcard, or a range that is a whole family. */
  predicate IsUnsafe(p: Proxy) {
    p.Wildcard? || (p.Range? && FamilyBits(p.network) == 0)
  }

  /** No ranges cover nothing. */
  lemma NothingCovers(width: nat)
    ensures !CoverEvery([], width)
  {
    assert !AnyContains([], seq(width, _ => false));
  }

  /** One prefix contains every address exactly when it is empty. */
  lemma OnePrefixCovers(prefix: Bits, width: nat)
    requires |prefix| <= width
    ensures CoverEvery([prefix], width) <==> prefix == []
  {
    if prefix == [] {
      forall address: Bits | |address| == width ensures AnyContains([prefix], address) {
        assert [prefix][0] <= address;
      }
    } else {
      var missed := [!prefix[0]] + seq(width - 1, _ => false);
      assert !AnyContains([prefix], missed);
    }
  }

  /** A single range covers its family exactly when it is unsafe by itself. */
  lemma SingleRange(p: Proxy)
    requires p.Range? && WellFormed(p.network)
    ensures IsUnsafe(p) <==> FamilyCovered([p], true) || FamilyCovered([p], false)
  {
    MappedPrefixIsLong(p.network);
    var v4 := To4(p.network.ip).Some?;
    PrefixesAdd([], p, v4);
    PrefixesAdd([], p, !v4);
    assert [] + [p] == [p];
    NothingCovers(Width(!v4));
    OnePrefixCovers(PrefixIn(p, v4)[0], Width(v4));
    assert Prefixes([p], v4) == [PrefixIn(p, v4)[0]] && Prefixes([p], !v4) == [];
  }

  /** The production check refuses the list exactly when it holds the wildcard or its ranges of one
      family trust every peer of that family. */
  method RefusesProxies(proxies: seq<Proxy>) returns (refused: bool)
    requires AllWellFormed(proxies)
    ensures refused <==> Wildcard in proxies || FamilyCovered(proxies, true) || FamilyCovered(proxies, false)
  {
    var unsafe := false;
    var i := 0;
    while i < |proxies|
      invariant 0 <= i <= |proxies|
      invariant unsafe <==> exists k | 0 <= k < i :: IsUnsafe(proxies[k])
    {
      if IsUnsafe(proxies[i]) {
        unsafe := true;
      }
      i := i + 1;
    }
    if unsafe {
      ghost var k :| 0 <= k < |proxies| && IsUnsafe(proxies[k]);
      if proxies[k].Range? {
        SingleRange(proxies[k]);
        OneRangeSuffices(proxies, k);
      }
      return true;
    }
    refused := RangesCoverAll(proxies);
  }

  /** A range that covers a family by itself covers it in any list. */
  lemma OneRangeSuffices(proxies: seq<Proxy>, k: nat)
    requires AllWellFormed(proxies) && k < |proxies| && proxies[k].Range? && IsUnsafe(proxies[k])
    ensures FamilyCovered(proxies, To4(proxies[k].network.ip).Some?)
  {
    var v4 := To4(proxies[k].network.ip).Some?;
    PrefixesNext(proxies, k, v4);
    MappedPrefixIsLong(proxies[k].network);
    var prefixes := Prefixes(proxies[..k + 1], v4);
    forall address: Bits | |address| == Width(v4) ensures AnyContains(prefixes, address) {
      assert prefixes[|prefixes| - 1] == [];
    }
    FamilyStaysCovered(proxies, k + 1, v4);
  }
}
