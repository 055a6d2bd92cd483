/** Preparing a contract: a depth-first walk of its imports that fills a cache and
    rejects cycles. */
module ImportGraph {

  /** A stored contract artifact: its hash, its imports, whether the runtime features it
      uses are enabled, and whether the native validator accepts it. */
  datatype Artifact<N, A> = Artifact(hash: A, imports: seq<N>, enabled: bool, valid: bool)

  type Graph<N(==), A> = map<N, Artifact<N, A>>

  type Prepared<N(==), A(==)> = set<(N, A)>

  function Elements<N(==)>(s: seq<N>): set<N> {
    set n | n in s
  }

  predicate Loads<N(==), A>(g: Graph<N, A>, name: N) {
    name in g && g[name].enabled
  }

  /** The walk, with the cache threaded through; `false` when it raises. */
  function Walk<N(==), A(==)>(g: Graph<N, A>, cache: Prepared<N, A>, name: N, stack: seq<N>): (Prepared<N, A>, bool)
    decreases g.Keys - Elements(stack), 0
  {
    if name in stack || !Loads(g, name) then (cache, false)
    else if (name, g[name].hash) in cache then (cache, true)
    else if !g[name].valid then (cache, false)
    else
      assert name in Elements(stack + [name]) && name !in Elements(stack);
      WalkAll(g, cache + {(name, g[name].hash)}, g[name].imports, stack + [name])
  }

  function WalkAll<N(==), A(==)>(
      g: Graph<N, A>, cache: Prepared<N, A>, names: seq<N>, stack: seq<N>): (Prepared<N, A>, bool)
    decreases g.Keys - Elements(stack), |names| + 1
  {
    if names == [] then (cache, true) else
      var (after, ok) := Walk(g, cache, names[0], stack);
      if !ok then (after, false) else WalkAll(g, after, names[1..], stack)
  }

  class ContractCache<!N(==), !A(==)> {
    var prepared: Prepared<N, A>

    method PrepareBundle(g: Graph<N, A>, name: N, stack: seq<N>) returns (ok: bool)
      modifies this
      ensures (prepared, ok) == Walk(g, old(prepared), name, stack)
      decreases g.Keys - Elements(stack)
    {
      if name in stack || !Loads(g, name) {
        return false;
      }
      if (name, g[name].hash) in prepared {
        return true;
      }
      if !g[name].valid {
        return false;
      }
      prepared := prepared + {(name, g[name].hash)};
      var imports, next := g[name].imports, stack + [name];
      assert name in Elements(next) && name !in Elements(stack);
      ghost var outcome := WalkAll(g, prepared, imports, next);
      var i := 0;
      while i < |imports|
        invariant 0 <= i <= |imports|
        invariant WalkAll(g, prepared, imports[i..], next) == outcome
      {
        var loaded := PrepareBundle(g, imports[i], next);
        assert imports[i..][1..] == imports[i + 1..];
        if !loaded {
          return false;
        }
        i := i + 1;
      }
      return true;
    }
  }

  // ---------------------------------------------------------------------- the import graph

  /** An import the walk follows: cached contracts are not looked into. */
  ghost predicate Imports<N, A>(g: Graph<N, A>, cached: Prepared<N, A>, a: N, b: N) {
    a in g && (a, g[a].hash) !in cached && b in g[a].imports
  }

  ghost predicate IsPath<N, A>(g: Graph<N, A>, cached: Prepared<N, A>, path: seq<N>) {
    path != [] && forall i :: 0 <= i < |path| - 1 ==> Imports(g, cached, path[i], path[i + 1])
  }

  /** The contract can be loaded, and passes validation unless it is cached. */
  ghost predicate Sound<N, A>(g: Graph<N, A>, cached: Prepared<N, A>, name: N) {
    name in g && g[name].enabled && ((name, g[name].hash) in cached || g[name].valid)
  }

  /** A chain of imports that ends in an unloadable contract or comes back to where it was. */
  ghost predicate Defect<N, A>(g: Graph<N, A>, cached: Prepared<N, A>, path: seq<N>) {
    && IsPath(g, cached, path)
    && (!Sound(g, cached, path[|path| - 1]) || path[|path| - 1] in path[..|path| - 1])
  }

  ghost predicate Defective<N(!new), A>(g: Graph<N, A>, cached: Prepared<N, A>, name: N) {
    exists path :: Defect(g, cached, path) && path[0] == name
  }

  // ------------------------------------------------------------------- a walk that succeeds

  /** Finished contracts, each after everything it imports. */
  ghost predicate Layered<N, A>(g: Graph<N, A>, cached: Prepared<N, A>, order: seq<N>) {
    forall i :: 0 <= i < |order| ==>
      && Sound(g, cached, order[i]) && (order[i], g[order[i]].hash) !in cached
      && forall b :: b in g[order[i]].imports ==> Settled(g, cached, order[..i], b)
  }

  ghost predicate Settled<N, A>(g: Graph<N, A>, cached: Prepared<N, A>, order: seq<N>, name: N) {
    Loads(g, name) && ((name, g[name].hash) in cached || name in order)
  }

  ghost function Keys<N, A>(g: Graph<N, A>, names: seq<N>): Prepared<N, A> {
    set n | n in names && n in g :: (n, g[n].hash)
  }

  lemma {:induction false} SettledGrows<N, A>(
      g: Graph<N, A>, cached: Prepared<N, A>, order: seq<N>, longer: seq<N>, name: N)
    requires order <= longer && Settled(g, cached, order, name)
    ensures Settled(g, cached, longer, name)
  {
    if name in order {
      var i :| 0 <= i < |order| && order[i] == name;
      assert longer[i] == name;
    }
  }

  lemma {:induction false} LayeredExtends<N, A>(g: Graph<N, A>, cached: Prepared<N, A>, order: seq<N>, name: N)
    requires Layered(g, cached, order) && Sound(g, cached, name) && (name, g[name].hash) !in cached
    requires forall b :: b in g[name].imports ==> Settled(g, cached, order, b)
    ensures Layered(g, cached, order + [name])
  {
    var longer := order + [name];
    forall i | 0 <= i < |longer|
      ensures Sound(g, cached, longer[i]) && (longer[i], g[longer[i]].hash) !in cached
      ensures forall b :: b in g[longer[i]].imports ==> Settled(g, cached, longer[..i], b)
    {
      assert i < |order| ==> longer[..i] == order[..i];
      assert i == |order| ==> longer[..i] == order;
    }
  }

  /** While nothing has raised, the cache is what it was, plus the stack, plus a layered
      sequence of finished contracts. */
  ghost predicate Consistent<N, A>(
      g: Graph<N, A>, cached: Prepared<N, A>, cache: Prepared<N, A>, order: seq<N>, stack: seq<N>) {
    && Layered(g, cached, order)
    && cache == cached + Keys(g, order) + Keys(g, stack)
    && forall n :: n in stack ==> n in g && (n, g[n].hash) !in cached
  }

  lemma {:induction false} WalkSucceeds<N, A>(
      g: Graph<N, A>, cached: Prepared<N, A>, cache: Prepared<N, A>, order: seq<N>, name: N, stack: seq<N>)
      returns (longer: seq<N>)
    requires Consistent(g, cached, cache, order, stack) && Walk(g, cache, name, stack).1
    ensures Consistent(g, cached, Walk(g, cache, name, stack).0, longer, stack)
    ensures order <= longer && Settled(g, cached, longer, name)
    decreases g.Keys - Elements(stack), 0
  {
    var key := (name, g[name].hash);
    if key in cache {
      longer := order;
    } else {
      assert name in Elements(stack + [name]) && name !in Elements(stack);
      assert Keys(g, stack + [name]) == Keys(g, stack) + {key};
      var middle := WalkAllSucceeds(g, cached, cache + {key}, order, g[name].imports, stack + [name]);
      longer := middle + [name];
      LayeredExtends(g, cached, middle, name);
      assert Keys(g, longer) == Keys(g, middle) + {key};
    }
  }

  lemma {:induction false} WalkAllSucceeds<N, A>(
      g: Graph<N, A>, cached: Prepared<N, A>, cache: Prepared<N, A>, order: seq<N>, names: seq<N>, stack: seq<N>)
      returns (longer: seq<N>)
    requires Consistent(g, cached, cache, order, stack) && WalkAll(g, cache, names, stack).1
    ensures Consistent(g, cached, WalkAll(g, cache, names, stack).0, longer, stack)
    ensures order <= longer && forall b :: b in names ==> Settled(g, cached, longer, b)
    decreases g.Keys - Elements(stack), |names| + 1
  {
    if names == [] {
      longer := order;
    } else {
      var after := Walk(g, cache, names[0], stack).0;
      var middle := WalkSucceeds(g, cached, cache, order, names[0], stack);
      longer := WalkAllSucceeds(g, cached, after, middle, names[1..], stack);
      SettledGrows(g, cached, middle, longer, names[0]);
      assert forall b :: b in names ==> b == names[0] || b in names[1..];
    }
  }

  lemma {:induction false} LayeredPrefix<N, A>(g: Graph<N, A>, cached: Prepared<N, A>, order: seq<N>, i: nat)
    requires Layered(g, cached, order) && i <= |order|
    ensures Layered(g, cached, order[..i])
  {
    forall j | 0 <= j < i ensures order[..i][..j] == order[..j] {
    }
  }

  /** Imports of settled contracts are settled. */
  lemma {:induction false} PathStaysSettled<N, A>(g: Graph<N, A>, cached: Prepared<N, A>, order: seq<N>, path: seq<N>)
    requires Layered(g, cached, order) && IsPath(g, cached, path) && Settled(g, cached, order, path[0])
    ensures Settled(g, cached, order, path[|path| - 1])
    ensures Sound(g, cached, path[|path| - 1])
    decreases |path|
  {
    if |path| > 1 {
      assert Imports(g, cached, path[0], path[1]);
      var i :| 0 <= i < |order| && order[i] == path[0];
      assert Settled(g, cached, order[..i], path[1]);
      SettledGrows(g, cached, order[..i], order, path[1]);
      PathStaysSettled(g, cached, order, path[1..]);
    } else if path[0] in order {
      var i :| 0 <= i < |order| && order[i] == path[0];
      assert Sound(g, cached, order[i]);
    }
  }

  /** No chain of imports leads from a settled contract back to itself. */
  lemma {:induction false} SettledNeverReturns<N, A>(
      g: Graph<N, A>, cached: Prepared<N, A>, order: seq<N>, path: seq<N>)
    requires Layered(g, cached, order) && IsPath(g, cached, path) && |path| > 1
    requires Settled(g, cached, order, path[0])
    ensures path[|path| - 1] != path[0]
    decreases |order|
  {
    assert Imports(g, cached, path[0], path[1]);
    var i :| 0 <= i < |order| && order[i] == path[0];
    LayeredPrefix(g, cached, order, i);
    if path[0] in order[..i] {
      SettledNeverReturns(g, cached, order[..i], path);
    } else {
      assert Settled(g, cached, order[..i], path[1]);
      PathStaysSettled(g, cached, order[..i], path[1..]);
    }
  }

  lemma {:induction false} SettledHasNoDefect<N, A>(g: Graph<N, A>, cached: Prepared<N, A>, order: seq<N>, path: seq<N>)
    requires Layered(g, cached, order) && IsPath(g, cached, path) && Settled(g, cached, order, path[0])
    ensures !Defect(g, cached, path)
  {
    PathStaysSettled(g, cached, order, path);
    var last := |path| - 1;
    if path[last] in path[..last] {
      var j :| 0 <= j < last && path[j] == path[last];
      assert IsPath(g, cached, path[..j + 1]) && IsPath(g, cached, path[j..]);
      PathStaysSettled(g, cached, order, path[..j + 1]);
      SettledNeverReturns(g, cached, order, path[j..]);
    }
  }

  // ----------------------------------------------------------------------- a walk that raises

  lemma {:induction false} WalkRaises<N, A>(
      g: Graph<N, A>, cached: Prepared<N, A>, cache: Prepared<N, A>, order: seq<N>, name: N, stack: seq<N>)
      returns (path: seq<N>)
    requires Consistent(g, cached, cache, order, stack) && !Walk(g, cache, name, stack).1
    requires IsPath(g, cached, stack + [name])
    ensures Defect(g, cached, path) && path[0] == (stack + [name])[0]
    decreases g.Keys - Elements(stack), 0
  {
    path := stack + [name];
    assert path[..|path| - 1] == stack;
    if name !in stack && Sound(g, cached, name) {
      var key := (name, g[name].hash);
      assert name in Elements(stack + [name]) && name !in Elements(stack);
      assert Keys(g, stack + [name]) == Keys(g, stack) + {key};
      path := WalkAllRaises(g, cached, cache + {key}, order, g[name].imports, stack + [name]);
    }
  }

  lemma {:induction false} WalkAllRaises<N, A>(
      g: Graph<N, A>, cached: Prepared<N, A>, cache: Prepared<N, A>, order: seq<N>, names: seq<N>, stack: seq<N>)
      returns (path: seq<N>)
    requires Consistent(g, cached, cache, order, stack) && !WalkAll(g, cache, names, stack).1
    requires IsPath(g, cached, stack)
    requires forall b :: b in names ==> Imports(g, cached, stack[|stack| - 1], b)
    ensures Defect(g, cached, path) && path[0] == stack[0]
    decreases g.Keys - Elements(stack), |names| + 1
  {
    assert names[0] in names && forall b :: b in names[1..] ==> b in names;
    if Walk(g, cache, names[0], stack).1 {
      var middle := WalkSucceeds(g, cached, cache, order, names[0], stack);
      path := WalkAllRaises(g, cached, Walk(g, cache, names[0], stack).0, middle, names[1..], stack);
    } else {
      var longer := stack + [names[0]];
      assert forall i :: 0 <= i < |longer| - 1 ==> Imports(g, cached, longer[i], longer[i + 1]);
      path := WalkRaises(g, cached, cache, order, names[0], stack);
    }
  }

  // ----------------------------------------------------------------------------- the theorems

  /** Whatever is cached beforehand, preparation returns normally exactly when no chain
      of imports through uncached contracts is cyclic or reaches an unloadable one. */
  lemma {:induction false} PreparationExact<N(!new), A>(g: Graph<N, A>, cached: Prepared<N, A>, name: N)
    ensures Walk(g, cached, name, []).1 <==> !Defective(g, cached, name)
  {
    assert Keys(g, []) == {};
    assert Consistent(g, cached, cached, [], []);
    if Walk(g, cached, name, []).1 {
      var order := WalkSucceeds(g, cached, cached, [], name, []);
      forall path | IsPath(g, cached, path) && path[0] == name ensures !Defect(g, cached, path) {
        SettledHasNoDefect(g, cached, order, path);
      }
    } else {
      assert [] + [name] == [name];
      var path := WalkRaises(g, cached, cached, [], name, []);
    }
  }

  /** Once it returns, everything reachable is in the cache. */
  lemma {:induction false} PreparationCachesAll<N(!new), A>(
      g: Graph<N, A>, cached: Prepared<N, A>, name: N, path: seq<N>)
    requires Walk(g, cached, name, []).1 && IsPath(g, cached, path) && path[0] == name
    ensures Loads(g, path[|path| - 1])
    ensures (path[|path| - 1], g[path[|path| - 1]].hash) in Walk(g, cached, name, []).0
  {
    assert Keys(g, []) == {};
    assert Consistent(g, cached, cached, [], []);
    var order := WalkSucceeds(g, cached, cached, [], name, []);
    PathStaysSettled(g, cached, order, path);
  }

  lemma {:induction false} WalkGrows<N, A>(g: Graph<N, A>, cache: Prepared<N, A>, name: N, stack: seq<N>)
    ensures cache <= Walk(g, cache, name, stack).0
    decreases g.Keys - Elements(stack), 0
  {
    if name !in stack && Loads(g, name) && (name, g[name].hash) !in cache && g[name].valid {
      assert name in Elements(stack + [name]) && name !in Elements(stack);
      WalkAllGrows(g, cache + {(name, g[name].hash)}, g[name].imports, stack + [name]);
    }
  }

  lemma {:induction false} WalkAllGrows<N, A>(g: Graph<N, A>, cache: Prepared<N, A>, names: seq<N>, stack: seq<N>)
    ensures cache <= WalkAll(g, cache, names, stack).0
    decreases g.Keys - Elements(stack), |names| + 1
  {
    if names != [] {
      WalkGrows(g, cache, names[0], stack);
      WalkAllGrows(g, Walk(g, cache, names[0], stack).0, names[1..], stack);
    }
  }

  /** A rejection is not remembered: the second of two calls returns normally exactly when the
      contract itself can be prepared, whatever its imports, because it was cached before they
      were walked. */
  lemma {:induction false} RejectionForgotten<N(!new), A>(g: Graph<N, A>, cached: Prepared<N, A>, name: N)
    ensures Walk(g, Walk(g, cached, name, []).0, name, []).1 <==> Sound(g, cached, name)
  {
    if Sound(g, cached, name) && (name, g[name].hash) !in cached {
      CachedFirst(g, cached, name);
    }
  }

  lemma {:induction false} CachedFirst<N, A>(g: Graph<N, A>, cached: Prepared<N, A>, name: N)
    requires Sound(g, cached, name) && (name, g[name].hash) !in cached
    ensures (name, g[name].hash) in Walk(g, cached, name, []).0
  {
    assert name in Elements([name]) && name !in Elements<N>([]);
    assert [] + [name] == [name];
    WalkAllGrows(g, cached + {(name, g[name].hash)}, g[name].imports, [name]);
  }

  /** The smallest such contract: it imports itself. */
  lemma {:induction false} SelfImport()
    ensures
      var g := map["c" := Artifact(0, ["c"], true, true)];
      !Walk(g, {}, "c", []).1 && Walk(g, Walk(g, {}, "c", []).0, "c", []).1
  {
    var g := map["c" := Artifact(0, ["c"], true, true)];
    assert IsPath(g, {}, ["c", "c"]) && ["c", "c"][..1] == ["c"];
    assert Defect(g, {}, ["c", "c"]);
    PreparationExact(g, {}, "c");
    RejectionForgotten(g, {}, "c");
  }

  // ------------------------------------------------- when the verdict is the whole graph's

  /** Nothing cached has a defect anywhere among its imports. */
  ghost predicate TrueCache<N(!new), A>(g: Graph<N, A>, cached: Prepared<N, A>) {
    forall c :: Loads(g, c) && (c, g[c].hash) in cached ==> !Defective(g, {}, c)
  }

  /** A defect met by looking past the cache is one of the graph. */
  lemma {:induction false} DefectOfGraph<N(!new), A>(g: Graph<N, A>, cached: Prepared<N, A>, path: seq<N>)
    requires Defect(g, cached, path)
    ensures Defect(g, {}, path)
  {
    forall i | 0 <= i < |path| - 1 ensures Imports(g, {}, path[i], path[i + 1]) {
      assert Imports(g, cached, path[i], path[i + 1]);
    }
  }

  /** From any contract on a defective chain a defective chain starts: its rest, or, if the
      rest ends on a contract before it, once round the cycle. */
  lemma {:induction false} DefectFrom<N(!new), A>(g: Graph<N, A>, path: seq<N>, i: nat)
    requires Defect(g, {}, path) && i < |path| - 1
    ensures Defective(g, {}, path[i])
  {
    var last := |path| - 1;
    var tail := path[i..];
    assert IsPath(g, {}, tail) by {
      forall k | 0 <= k < |tail| - 1 ensures Imports(g, {}, tail[k], tail[k + 1]) {
        assert Imports(g, {}, path[i + k], path[i + k + 1]);
      }
    }
    if !Sound(g, {}, path[last]) {
      assert Defect(g, {}, tail);
    } else {
      var j :| 0 <= j < last && path[j] == path[last];
      if i <= j {
        assert tail[..|tail| - 1][j - i] == tail[|tail| - 1];
        assert Defect(g, {}, tail);
      } else {
        DefectRound(g, path, i, j);
      }
    }
  }

  lemma {:induction false} DefectRound<N(!new), A>(g: Graph<N, A>, path: seq<N>, i: nat, j: nat)
    requires IsPath(g, {}, path) && j < i < |path| - 1 && path[j] == path[|path| - 1]
    ensures Defective(g, {}, path[i])
  {
    var last := |path| - 1;
    var round := path[i..] + path[j + 1..i + 1];
    forall k | 0 <= k < |round| - 1 ensures Imports(g, {}, round[k], round[k + 1]) {
      if k < last - i {
        assert Imports(g, {}, path[i + k], path[i + k + 1]);
      } else {
        var m := j + (k - (last - i));
        assert round[k] == path[m] && round[k + 1] == path[m + 1];
        assert Imports(g, {}, path[m], path[m + 1]);
      }
    }
    assert round[|round| - 1] == path[i] == round[..|round| - 1][0];
    assert Defect(g, {}, round);
  }

  /** A chain is followed until its first contract that is cached or cannot be loaded. */
  lemma {:induction false} FollowDefect<N(!new), A>(g: Graph<N, A>, cached: Prepared<N, A>, path: seq<N>, i: nat)
    requires TrueCache(g, cached) && Defect(g, {}, path) && i < |path|
    requires forall k :: 0 <= k < i ==> path[k] in g && (path[k], g[path[k]].hash) !in cached
    ensures Defective(g, cached, path[0])
    decreases |path| - i
  {
    var head := path[..i + 1];
    assert IsPath(g, cached, head) by {
      forall k | 0 <= k < i ensures Imports(g, cached, head[k], head[k + 1]) {
        assert Imports(g, {}, path[k], path[k + 1]);
      }
    }
    if i == |path| - 1 {
      assert head == path;
      if !Sound(g, {}, path[i]) {
        assert Defect(g, {}, [path[i]]);
      }
      assert Defect(g, cached, path);
    } else if !Loads(g, path[i]) {
      assert Defect(g, cached, head);
    } else {
      DefectFrom(g, path, i);
      FollowDefect(g, cached, path, i + 1);
    }
  }

  lemma {:induction false} TrueCacheVerdict<N(!new), A>(g: Graph<N, A>, cached: Prepared<N, A>, name: N)
    requires TrueCache(g, cached)
    ensures Walk(g, cached, name, []).1 <==> !Defective(g, {}, name)
  {
    PreparationExact(g, cached, name);
    if path :| Defect(g, cached, path) && path[0] == name {
      DefectOfGraph(g, cached, path);
    }
    if path :| Defect(g, {}, path) && path[0] == name {
      FollowDefect(g, cached, path, 0);
    }
  }

  /** Preparation accepts exactly the contracts whose whole reachable import graph is sound
      and acyclic, if and only if nothing cached is itself defective. */
  lemma {:induction false} VerdictsExact<N(!new), A>(g: Graph<N, A>, cached: Prepared<N, A>)
    ensures (forall name :: Walk(g, cached, name, []).1 <==> !Defective(g, {}, name)) <==> TrueCache(g, cached)
  {
    if TrueCache(g, cached) {
      forall name ensures Walk(g, cached, name, []).1 <==> !Defective(g, {}, name) {
        TrueCacheVerdict(g, cached, name);
      }
    }
    if c :| Loads(g, c) && (c, g[c].hash) in cached && Defective(g, {}, c) {
      assert Walk(g, cached, c, []).1;
    }
  }

  /** Such a cache stays so exactly as long as no contract that loads and validates is
      refused for its imports. */
  lemma {:induction false} TrueCacheKept<N(!new), A>(g: Graph<N, A>, cached: Prepared<N, A>, name: N)
    requires TrueCache(g, cached)
    ensures TrueCache(g, Walk(g, cached, name, []).0) <==> Walk(g, cached, name, []).1 || !Sound(g, cached, name)
  {
    var (after, ok) := Walk(g, cached, name, []);
    if ok {
      assert Keys(g, []) == {};
      assert Consistent(g, cached, cached, [], []);
      var order := WalkSucceeds(g, cached, cached, [], name, []);
      forall c | Loads(g, c) && (c, g[c].hash) in after ensures !Defective(g, {}, c) {
        if (c, g[c].hash) !in cached {
          forall path | IsPath(g, cached, path) && path[0] == c ensures !Defect(g, cached, path) {
            SettledHasNoDefect(g, cached, order, path);
          }
          PreparationExact(g, cached, c);
          TrueCacheVerdict(g, cached, c);
        }
      }
    } else if Sound(g, cached, name) {
      TrueCacheVerdict(g, cached, name);
      CachedFirst(g, cached, name);
    }
  }
}
