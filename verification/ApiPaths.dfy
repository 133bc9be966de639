/**
 Inference of the live API prefix from an OpenAPI document's paths and the
 rewrite to the prefix the typed client uses (`client/paths.go`).
 */
module ApiPaths {

  type Path = string

  /** `TypedAPIPrefix`. */
  const TYPED: Path := "/api/v1"

  // Prefixes

  /** Whether the path continues the prefix with a segment that is not empty and not a parameter. */
  predicate Mounts(prefix: string, path: Path) {
    && prefix + "/" <= path
    && |path| > |prefix| + 1
    && path[|prefix| + 1] != '/'
    && path[|prefix| + 1] != '{'
  }

  /** `isValidAPIPrefix`. */
  predicate Valid(prefix: string, paths: seq<Path>) {
    && prefix != ""
    && '{' !in prefix
    && forall k | 0 <= k < |paths| :: Mounts(prefix, paths[k])
  }

  /** The path is the prefix, a slash, a segment that is not empty and not a parameter, and what follows it. */
  ghost predicate Continues(prefix: string, path: Path, segment: string, rest: string) {
    && path == prefix + "/" + segment + rest
    && segment != "" && '/' !in segment && segment[0] != '{'
    && (rest == "" || rest[0] == '/')
  }

  ghost predicate GoesOn(prefix: string, path: Path) {
    exists segment, rest :: Continues(prefix, path, segment, rest)
  }

  /** A prefix is valid exactly when it is not empty, holds no parameter, and every path goes on from it, after
      a slash, with a literal segment. */
  lemma ValidExact(prefix: string, paths: seq<Path>)
    ensures Valid(prefix, paths) <==>
            && prefix != "" && '{' !in prefix
            && forall k | 0 <= k < |paths| :: GoesOn(prefix, paths[k])
  {
    forall k | 0 <= k < |paths|
      ensures Mounts(prefix, paths[k]) <==> GoesOn(prefix, paths[k])
    {
      MountsExact(prefix, paths[k]);
    }
  }

  lemma MountsExact(prefix: string, path: Path)
    ensures Mounts(prefix, path) <==> GoesOn(prefix, path)
  {
    if Mounts(prefix, path) {
      var after := path[|prefix| + 1..];
      var cut := FirstSlash(after);
      assert after == after[..cut] + after[cut..];
      assert Continues(prefix, path, after[..cut], after[cut..]);
    }
    if segment, rest :| Continues(prefix, path, segment, rest) {
      assert path == (prefix + "/") + (segment + rest);
      assert path[|prefix| + 1] == segment[0];
    }
  }

  /** The index of the first slash, or the length. */
  function FirstSlash(s: string): (k: nat)
    ensures k <= |s| && (k < |s| ==> s[k] == '/') && forall j | 0 <= j < k :: s[j] != '/'
  {
    if s == "" || s[0] == '/' then 0 else 1 + FirstSlash(s[1..])
  }

  predicate UnderTyped(path: Path) {
    path == TYPED || TYPED + "/" <= path
  }

  predicate AllTyped(paths: seq<Path>) {
    forall k | 0 <= k < |paths| :: UnderTyped(paths[k])
  }

  /** `commonStringPrefix`. */
  function Common(a: string, b: string): (c: string)
    ensures c <= a && c <= b
  {
    if a == "" || b == "" || a[0] != b[0] then "" else [a[0]] + Common(a[1..], b[1..])
  }

  lemma {:induction false} CommonIsLongest(a: string, b: string, d: string)
    requires d <= a && d <= b
    ensures d <= Common(a, b)
  {
    if d != "" {
      CommonIsLongest(a[1..], b[1..], d[1..]);
    }
  }

  function CommonAll(paths: seq<Path>): string
    requires paths != []
  {
    if |paths| == 1 then paths[0] else Common(CommonAll(paths[..|paths| - 1]), paths[|paths| - 1])
  }

  /** The common part of the paths is a prefix of each, and every prefix of all is a prefix of it. */
  lemma {:induction false} CommonAllIsLongest(paths: seq<Path>, d: string)
    requires paths != []
    ensures forall k | 0 <= k < |paths| :: CommonAll(paths) <= paths[k]
    ensures (forall k | 0 <= k < |paths| :: d <= paths[k]) ==> d <= CommonAll(paths)
  {
    if |paths| > 1 {
      var init := paths[..|paths| - 1];
      CommonAllIsLongest(init, d);
      assert forall k | 0 <= k < |init| :: init[k] == paths[k];
      if forall k | 0 <= k < |paths| :: d <= paths[k] {
        CommonIsLongest(CommonAll(init), paths[|paths| - 1], d);
      }
    }
  }

  function TrimSlash(s: string): string {
    if s != "" && s[|s| - 1] == '/' then s[..|s| - 1] else s
  }

  /** The index of the last slash, or -1. */
  function LastSlash(s: string): (k: int)
    ensures -1 <= k < |s|
    ensures k >= 0 ==> s[k] == '/'
    ensures forall j | k < j < |s| :: s[j] != '/'
  {
    if s == "" then -1 else if s[|s| - 1] == '/' then |s| - 1 else LastSlash(s[..|s| - 1])
  }

  /** The walk back from a candidate to a valid prefix. */
  function WalkBack(candidate: string, paths: seq<Path>): string
    decreases |candidate|
  {
    var c := TrimSlash(candidate);
    if c == "" || c == "/" then TYPED
    else if Valid(c, paths) then c
    else if LastSlash(c) <= 0 then TYPED
    else WalkBack(c[..LastSlash(c)], paths)
  }

  /** `inferLiveAPIPrefix`. */
  function Infer(paths: seq<Path>): string {
    if paths == [] || AllTyped(paths) then TYPED else WalkBack(CommonAll(paths), paths)
  }

  // The loops

  method CommonStringPrefix(a: string, b: string) returns (c: string)
    ensures c == Common(a, b)
  {
    var n := if |b| < |a| then |b| else |a|;
    var i := 0;
    while i < n && a[i] == b[i]
      invariant 0 <= i <= n
      invariant forall k | 0 <= k < i :: a[k] == b[k]
    {
      i := i + 1;
    }
    CommonIs(a, b, i);
    return a[..i];
  }

  /** The common prefix ends at the first difference or with the shorter string. */
  lemma {:induction false} CommonIs(a: string, b: string, i: nat)
    requires i <= |a| && i <= |b| && forall k | 0 <= k < i :: a[k] == b[k]
    requires i == |a| || i == |b| || a[i] != b[i]
    ensures Common(a, b) == a[..i]
  {
    if i > 0 {
      CommonIs(a[1..], b[1..], i - 1);
      assert a[..i] == [a[0]] + a[1..][..i - 1];
    }
  }

  method IsValidAPIPrefix(prefix: string, paths: seq<Path>) returns (ok: bool)
    ensures ok <==> Valid(prefix, paths)
  {
    if prefix == "" || '{' in prefix {
      return false;
    }
    var i := 0;
    while i < |paths|
      invariant 0 <= i <= |paths|
      invariant forall k | 0 <= k < i :: Mounts(prefix, paths[k])
    {
      var path := paths[i];
      if path == prefix || !(prefix + "/" <= path) {
        return false;
      }
      var rest := path[|prefix| + 1..];
      var cut := 0;
      while cut < |rest| && rest[cut] != '/'
        invariant 0 <= cut <= |rest|
        invariant forall k | 0 <= k < cut :: rest[k] != '/'
      {
        cut := cut + 1;
      }
      var segment := rest[..cut];
      if segment == "" || "{" <= segment {
        return false;
      }
      i := i + 1;
    }
    ok := true;
  }

  method InferLiveAPIPrefix(paths: seq<Path>) returns (prefix: string)
    ensures prefix == Infer(paths)
  {
    if paths == [] {
      return TYPED;
    }
    if AllTyped(paths) {
      return TYPED;
    }
    var candidate := paths[0];
    var i := 1;
    while i < |paths|
      invariant 1 <= i <= |paths|
      invariant candidate == CommonAll(paths[..i])
    {
      candidate := CommonStringPrefix(candidate, paths[i]);
      assert paths[..i + 1][..i] == paths[..i];
      i := i + 1;
    }
    assert paths[..i] == paths;
    while true
      invariant Infer(paths) == WalkBack(candidate, paths)
      decreases |candidate|
    {
      ghost var whole := candidate;
      if candidate != "" && candidate[|candidate| - 1] == '/' {
        candidate := candidate[..|candidate| - 1];
      }
      assert candidate == TrimSlash(whole);
      if candidate == "" || candidate == "/" {
        return TYPED;
      }
      var valid := IsValidAPIPrefix(candidate, paths);
      if valid {
        return candidate;
      }
      var slash := LastSlash(candidate);
      if slash <= 0 {
        return TYPED;
      }
      candidate := candidate[..slash];
    }
  }

  // What the walk finds

  predicate EndsInSlash(s: string) {
    s != "" && s[|s| - 1] == '/'
  }

  lemma {:induction false} WalkBackSound(candidate: string, paths: seq<Path>)
    ensures var r := WalkBack(candidate, paths);
            r == TYPED || (Valid(r, paths) && r <= candidate)
    decreases |candidate|
  {
    var c := TrimSlash(candidate);
    if c != "" && c != "/" && !Valid(c, paths) && LastSlash(c) > 0 {
      WalkBackSound(c[..LastSlash(c)], paths);
    }
  }

  /** A valid prefix that ends a segment of the candidate is found, unless a longer one is. */
  lemma {:induction false} WalkBackFinds(candidate: string, paths: seq<Path>, q: string)
    requires Valid(q, paths) && q != "/"
    requires (q + "/" <= candidate && !EndsInSlash(q)) || q == TrimSlash(candidate)
    ensures var r := WalkBack(candidate, paths); Valid(r, paths) && |q| <= |r|
    decreases |candidate|
  {
    var c := TrimSlash(candidate);
    if !Valid(c, paths) {
      assert q + "/" <= c;
      var k := LastSlash(c);
      assert c[|q|] == '/' && |q| <= k;
      var cut := c[..k];
      if |q| == k {
        assert q == cut;
      } else {
        assert q + "/" <= cut;
      }
      WalkBackFinds(cut, paths, q);
    }
  }

  /** A prefix that ends in a slash is passed over, unless it is the first candidate. */
  lemma {:induction false} WalkBackSkips(candidate: string, paths: seq<Path>, q: string)
    requires EndsInSlash(q) && |q| < |candidate| && q != TrimSlash(candidate) && q != TYPED
    requires q + "/" <= candidate && |candidate| > |q| + 1 && candidate[|q| + 1] != '/'
    ensures WalkBack(candidate, paths) != q
    decreases |candidate|
  {
    var c := TrimSlash(candidate);
    assert candidate[|q|] == (q + "/")[|q|] == '/';
    assert |c| > |q| && c[|q|] == '/' && c[..|q|] == q;
    if c != "" && c != "/" && !Valid(c, paths) && LastSlash(c) > 0 {
      var k := LastSlash(c);
      assert |q| <= k;
      WalkBackShrinks(c[..k], paths);
      if k > |q| {
        assert k > |q| + 1;
        WalkBackSkips(c[..k], paths, q);
      } else {
        assert c[..k] == q;
      }
    }
  }

  /** The walk returns a prefix of its trimmed candidate, or the default. */
  lemma {:induction false} WalkBackShrinks(candidate: string, paths: seq<Path>)
    ensures WalkBack(candidate, paths) == TYPED || |WalkBack(candidate, paths)| <= |TrimSlash(candidate)|
    decreases |candidate|
  {
    var c := TrimSlash(candidate);
    if c != "" && c != "/" && !Valid(c, paths) && LastSlash(c) > 0 {
      WalkBackShrinks(c[..LastSlash(c)], paths);
    }
  }

  /** Every valid prefix is a proper prefix of the paths' common part, followed by a slash. */
  lemma ValidInCommon(q: string, paths: seq<Path>)
    requires paths != [] && Valid(q, paths)
    ensures q + "/" <= CommonAll(paths)
    ensures q == CommonAll(paths)[..|q|]
    ensures |CommonAll(paths)| > |q| + 1 ==> CommonAll(paths)[|q| + 1] != '/'
  {
    CommonAllIsLongest(paths, q + "/");
    assert forall k | 0 <= k < |paths| :: Mounts(q, paths[k]);
    assert CommonAll(paths) <= paths[0] && Mounts(q, paths[0]);
    assert (q + "/")[..|q|] == q;
  }

  /** `q` is the longest valid prefix. */
  ghost predicate Longest(q: string, paths: seq<Path>) {
    Valid(q, paths) && forall other: string | Valid(other, paths) :: |other| <= |q|
  }

  /** The longest valid prefix, or the default when there is none. */
  ghost predicate Expected(r: string, paths: seq<Path>) {
    if exists q :: Valid(q, paths) then Longest(r, paths) else r == TYPED
  }

  /** A longest valid prefix that the walk passes over: it ends in a slash, as only paths with an empty
      segment allow, and the paths share more than the slash after it, or it is the slash alone. */
  ghost predicate PassedOver(q: string, paths: seq<Path>)
    requires paths != []
  {
    Longest(q, paths) && EndsInSlash(q) && (q == "/" || CommonAll(paths) != q + "/")
  }

  lemma {:induction false} LongestExists(paths: seq<Path>, q: string) returns (longest: string)
    requires paths != [] && Valid(q, paths)
    ensures Longest(longest, paths)
    decreases |CommonAll(paths)| - |q|
  {
    ValidInCommon(q, paths);
    if other: string :| Valid(other, paths) && |other| > |q| {
      ValidInCommon(other, paths);
      longest := LongestExists(paths, other);
    } else {
      longest := q;
    }
  }

  /** The inference returns the longest valid prefix, or the default when there is none, exactly unless
      that prefix is passed over. */
  lemma InferExact(paths: seq<Path>)
    requires paths != [] && !AllTyped(paths)
    ensures Expected(Infer(paths), paths) <==> !exists q :: PassedOver(q, paths)
  {
    var r := Infer(paths);
    WalkBackSound(CommonAll(paths), paths);
    TypedIsNotValid(paths);
    if q :| Valid(q, paths) {
      var longest := LongestExists(paths, q);
      ValidInCommon(longest, paths);
      assert longest != TYPED;
      forall other: string | Longest(other, paths) ensures other == longest {
        ValidInCommon(other, paths);
      }
      if PassedOver(longest, paths) {
        if CommonAll(paths) == longest + "/" {
          assert TrimSlash(CommonAll(paths)) == "/";
        } else {
          WalkBackSkips(CommonAll(paths), paths, longest);
        }
      } else {
        InferFinds(paths, longest);
      }
    }
  }

  lemma InferFinds(paths: seq<Path>, longest: string)
    requires paths != [] && !AllTyped(paths) && Longest(longest, paths) && !PassedOver(longest, paths)
    ensures Longest(Infer(paths), paths)
  {
    ValidInCommon(longest, paths);
    var common := CommonAll(paths);
    assert EndsInSlash(longest) ==> TrimSlash(common) == longest;
    WalkBackFinds(common, paths, longest);
  }

  lemma TypedIsNotValid(paths: seq<Path>)
    requires !AllTyped(paths)
    ensures !Valid(TYPED, paths)
  {
    var k :| 0 <= k < |paths| && !UnderTyped(paths[k]);
    assert !Mounts(TYPED, paths[k]);
  }

  predicate NoEmptySegment(path: Path) {
    forall k | 0 <= k < |path| - 1 :: !(path[k] == '/' && path[k + 1] == '/')
  }

  /** No paths, or paths that are all under the typed prefix, give the typed prefix. */
  lemma InferDefault(paths: seq<Path>)
    requires forall k | 0 <= k < |paths| :: paths[k] == "/api/v1" || "/api/v1/" <= paths[k]
    ensures Infer(paths) == "/api/v1"
  {
    assert TYPED + "/" == "/api/v1/";
  }

  /** Without empty segments the inference always returns the longest valid prefix or the default. */
  lemma InferLongest(paths: seq<Path>)
    requires paths != [] && !AllTyped(paths)
    requires forall k | 0 <= k < |paths| :: NoEmptySegment(paths[k])
    ensures Expected(Infer(paths), paths)
  {
    InferExact(paths);
    forall q: string | Longest(q, paths) ensures !EndsInSlash(q) {
      assert Mounts(q, paths[0]) && NoEmptySegment(paths[0]);
      assert paths[0][|q|] == (q + "/")[|q|] && paths[0][|q| - 1] == (q + "/")[|q| - 1];
    }
  }

  /** With an empty segment the valid prefix can be missed. */
  lemma EmptySegmentIsPassedOver()
    ensures Valid("/a/", ["/a//b"]) && Infer(["/a//b"]) == TYPED
  {
    var paths := ["/a//b"];
    assert !UnderTyped(paths[0]) by {
      assert paths[0][1] == 'a' && TYPED[2] == 'p';
    }
    assert !Mounts("/a//b", paths[0]) && !Mounts("/a", paths[0]);
    assert LastSlash("/a//b") == 3 && "/a//b"[..3] == "/a/" && TrimSlash("/a/") == "/a" && LastSlash("/a") == 0;
    assert WalkBack("/a/", paths) == TYPED;
  }

  // The order of the paths does not matter

  lemma CommonAllIgnoresOrder(a: seq<Path>, b: seq<Path>)
    requires a != [] && b != [] && forall p :: p in a <==> p in b
    ensures CommonAll(a) <= CommonAll(b)
  {
    CommonAllIsLongest(a, "");
    CommonAllIsLongest(b, CommonAll(a));
    forall k | 0 <= k < |b| ensures CommonAll(a) <= b[k] {
      assert b[k] in a;
    }
  }

  lemma ValidIgnoresOrder(q: string, a: seq<Path>, b: seq<Path>)
    requires forall p | p in b :: p in a
    ensures Valid(q, a) ==> Valid(q, b)
  {
    forall k | 0 <= k < |b| && Valid(q, a) ensures Mounts(q, b[k]) {
      assert b[k] in a;
    }
  }

  lemma {:induction false} WalkBackIgnoresOrder(candidate: string, a: seq<Path>, b: seq<Path>)
    requires forall p :: p in a <==> p in b
    ensures WalkBack(candidate, a) == WalkBack(candidate, b)
    decreases |candidate|
  {
    var c := TrimSlash(candidate);
    ValidIgnoresOrder(c, a, b);
    ValidIgnoresOrder(c, b, a);
    if c != "" && c != "/" && !Valid(c, a) && LastSlash(c) > 0 {
      WalkBackIgnoresOrder(c[..LastSlash(c)], a, b);
    }
  }

  lemma AllTypedIgnoresOrder(a: seq<Path>, b: seq<Path>)
    requires forall p | p in b :: p in a
    ensures AllTyped(a) ==> AllTyped(b)
  {
    forall k | 0 <= k < |b| && AllTyped(a) ensures UnderTyped(b[k]) {
      assert b[k] in a;
    }
  }

  lemma EmptyIgnoresOrder(a: seq<Path>, b: seq<Path>)
    requires forall p :: p in a <==> p in b
    ensures a == [] <==> b == []
  {
    assert |a| > 0 ==> a[0] in a && a[0] in b;
    assert |b| > 0 ==> b[0] in b && b[0] in a;
  }

  lemma SamePrefix(s: string, t: string)
    requires s <= t && t <= s
    ensures s == t
  {
  }

  /** The prefix depends on the set of the paths alone. */
  lemma InferIgnoresOrder(a: seq<Path>, b: seq<Path>)
    requires forall p :: p in a <==> p in b
    ensures Infer(a) == Infer(b)
  {
    EmptyIgnoresOrder(a, b);
    if a != [] {
      AllTypedIgnoresOrder(a, b);
      AllTypedIgnoresOrder(b, a);
      CommonAllIgnoresOrder(a, b);
      CommonAllIgnoresOrder(b, a);
      SamePrefix(CommonAll(a), CommonAll(b));
      WalkBackIgnoresOrder(CommonAll(a), a, b);
    }
  }

  // The rewrite

  function Renamed(path: Path, live: string): Path {
    if path == live || live + "/" <= path then TYPED + path[|live|..] else path
  }

  function Restored(path: Path, live: string): Path {
    if TYPED <= path then live + path[|TYPED|..] else path
  }

  /** `rewriteSpecPathsForTypedClient` on the paths object: the live prefix of all keys gives way to the
      typed one. The keys are renamed one to one, each keeps its value, and the renaming is undone by
      restoring the live prefix. */
  method RewritePaths<V>(paths: map<Path, V>) returns (rewritten: map<Path, V>, live: string)
    ensures forall order: seq<Path> | (forall p :: p in order <==> p in paths) :: live == Infer(order)
    ensures live == TYPED ==> rewritten == paths
    ensures (forall p | p in paths :: p == "/api/v1" || "/api/v1/" <= p) ==> rewritten == paths
    ensures live != TYPED ==>
              && |rewritten| == |paths|
              && (forall p | p in paths ::
                    && live + "/" <= p
                    && "/api/v1" + p[|live|..] in rewritten && rewritten["/api/v1" + p[|live|..]] == paths[p])
              && (forall p | p in paths :: Renamed(p, live) in rewritten && rewritten[Renamed(p, live)] == paths[p])
              && (forall p | p in paths :: UnderTyped(Renamed(p, live)) && Restored(Renamed(p, live), live) == p)
              && (forall q | q in rewritten :: Restored(q, live) in paths && Renamed(Restored(q, live), live) == q)
  {
    var keys := ListPaths(paths);
    live := InferLiveAPIPrefix(keys);
    forall order: seq<Path> | (forall p :: p in order <==> p in paths) ensures live == Infer(order) {
      InferIgnoresOrder(order, keys);
    }
    if forall p | p in paths :: p == "/api/v1" || "/api/v1/" <= p {
      assert forall k | 0 <= k < |keys| :: keys[k] in keys;
      InferDefault(keys);
    }
    if live == "" || live == TYPED {
      WalkBackNotEmpty(keys);
      return paths, live;
    }
    forall p | p in paths ensures live + "/" <= p {
      assert p in keys;
      InferMounts(keys, p);
    }
    rewritten := map[];
    var rest := paths.Keys;
    while rest != {}
      invariant rest <= paths.Keys
      invariant forall p | p in paths && p !in rest ::
        Renamed(p, live) in rewritten && rewritten[Renamed(p, live)] == paths[p]
      invariant forall q | q in rewritten ::
        Restored(q, live) in paths.Keys - rest && Renamed(Restored(q, live), live) == q
      invariant |rewritten| + |rest| == |paths|
      decreases |rest|
    {
      var p :| p in rest;
      forall other | other in paths ensures Restored(Renamed(other, live), live) == other {
        RenameRoundTrip(other, live);
      }
      rewritten := rewritten[Renamed(p, live) := paths[p]];
      rest := rest - {p};
    }
    forall p | p in paths ensures UnderTyped(Renamed(p, live)) && Restored(Renamed(p, live), live) == p {
      RenameRoundTrip(p, live);
    }
  }

  method ListPaths<V>(paths: map<Path, V>) returns (keys: seq<Path>)
    ensures forall p :: p in keys <==> p in paths
  {
    keys := [];
    var rest := paths.Keys;
    while rest != {}
      invariant rest <= paths.Keys
      invariant forall p :: p in keys <==> p in paths && p !in rest
      decreases |rest|
    {
      var p :| p in rest;
      keys, rest := keys + [p], rest - {p};
    }
  }

  lemma WalkBackNotEmpty(paths: seq<Path>)
    ensures Infer(paths) != ""
  {
    if paths != [] && !AllTyped(paths) {
      WalkBackSound(CommonAll(paths), paths);
    }
  }

  lemma InferMounts(paths: seq<Path>, path: Path)
    requires path in paths && Infer(paths) != TYPED
    ensures Infer(paths) + "/" <= path
  {
    WalkBackSound(CommonAll(paths), paths);
    var k :| 0 <= k < |paths| && paths[k] == path;
    assert Mounts(Infer(paths), paths[k]);
  }

  lemma RenameRoundTrip(path: Path, live: string)
    requires live + "/" <= path
    ensures UnderTyped(Renamed(path, live)) && Restored(Renamed(path, live), live) == path
  {
    var renamed := Renamed(path, live);
    assert path == live + path[|live|..];
    assert path[|live|] == (live + "/")[|live|];
    assert renamed[..|TYPED|] == TYPED && renamed[|TYPED|..] == path[|live|..];
    assert TYPED + "/" <= renamed;
  }
}
