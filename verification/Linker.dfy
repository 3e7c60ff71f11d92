/** Load groups: which modules a root brings in, the order they are initialised in, and relocating them together. */
module Linker {
  import opened Base
  import R = Relocation

  type Name = seq<byte>

  // ---- the dependency graph ----

  /** The module of that name, or the number of modules. */
  function Find(names: seq<Name>, name: Name, i: nat := 0): (k: nat)
    requires i <= |names|
    ensures i <= k <= |names|
    ensures k < |names| ==> names[k] == name
    ensures forall j :: i <= j < k ==> names[j] != name
    decreases |names| - i
  {
    if i == |names| || names[i] == name then i else Find(names, name, i + 1)
  }

  /** Module names and the names each module needs. */
  datatype Bundle = Bundle(names: seq<Name>, needed: seq<seq<Name>>)

  ghost predicate Shaped(b: Bundle) {
    |b.needed| == |b.names|
  }

  ghost predicate Needs(b: Bundle, i: nat, j: nat)
    requires Shaped(b)
  {
    i < |b.names| && j < |b.names| && exists n :: 0 <= n < |b.needed[i]| && Find(b.names, b.needed[i][n]) == j
  }

  ghost predicate Satisfied(b: Bundle, i: nat)
    requires Shaped(b)
  {
    i < |b.names| && forall n {:trigger b.needed[i][n]} :: 0 <= n < |b.needed[i]| ==>
          Find(b.names, b.needed[i][n]) < |b.names|
  }

  ghost predicate IsPath(b: Bundle, p: seq<nat>)
    requires Shaped(b)
  {
    |p| > 0 && (forall i {:trigger p[i]} :: 0 <= i < |p| ==> p[i] < |b.names|) && forall i :: 0 < i < |p| ==>
          Needs(b, p[i - 1], p[i])
  }

  /** `i` needs `j`, directly or through others, or is it. */
  ghost predicate Reaches(b: Bundle, i: nat, j: nat)
    requires Shaped(b)
  {
    exists p :: IsPath(b, p) && p[0] == i && p[|p| - 1] == j
  }

  lemma ReachesSelf(b: Bundle, i: nat)
    requires Shaped(b) && i < |b.names|
    ensures Reaches(b, i, i)
  {
    assert IsPath(b, [i]);
  }

  lemma ReachesNext(b: Bundle, i: nat, j: nat, k: nat)
    requires Shaped(b) && Reaches(b, i, j) && Needs(b, j, k)
    ensures Reaches(b, i, k)
  {
    var p :| IsPath(b, p) && p[0] == i && p[|p| - 1] == j;
    hide Needs;
    assert k < |b.names| by { NeedsBounded(b, j, k); }
    assert IsPath(b, p + [k]);
  }

  lemma NeedsBounded(b: Bundle, i: nat, j: nat)
    requires Shaped(b) && Needs(b, i, j)
    ensures i < |b.names| && j < |b.names|
  {
  }

  /** A set closed under needing contains everything its members reach. */
  lemma {:induction false} ClosedContains(b: Bundle, closed: set<nat>, p: seq<nat>)
    requires Shaped(b) && IsPath(b, p) && p[0] in closed
    requires forall i, j :: i in closed && Needs(b, i, j) ==> j in closed
    ensures p[|p| - 1] in closed
    decreases |p|
  {
    hide Needs;
    if |p| > 1 {
      var q := p[..|p| - 1];
      assert IsPath(b, q);
      ClosedContains(b, closed, q);
      assert Needs(b, p[|p| - 2], p[|p| - 1]);
    }
  }

  ghost predicate Enumerates(b: Bundle, root: nat, s: seq<nat>)
    requires Shaped(b)
  {
    NoRepeats(s) && forall x :: x in s <==> Reaches(b, root, x)
  }

  lemma ClosedEnumerates(b: Bundle, root: nat, s: seq<nat>)
    requires Shaped(b) && NoRepeats(s) && root in s
    requires forall x :: x in s ==> Reaches(b, root, x)
    requires forall i, j :: i in s && Needs(b, i, j) ==> j in s
    ensures Enumerates(b, root, s)
  {
    hide Needs;
    var closed := set x | x in s;
    forall x | Reaches(b, root, x) ensures x in s {
      var p :| IsPath(b, p) && p[0] == root && p[|p| - 1] == x;
      ClosedContains(b, closed, p);
    }
  }

  datatype Outcome<T> = Ok(value: T) | NotFound | Invalid

  lemma ResolvedList(b: Bundle, i: nat, deps: seq<nat>)
    requires Shaped(b) && i < |b.names| && |deps| == |b.needed[i]|
    requires forall n {:trigger deps[n]} :: 0 <= n < |deps| ==> deps[n] == Find(b.names, b.needed[i][n]) < |b.names|
    ensures Satisfied(b, i) && IsNeeds(b, i, deps)
  {
    forall n | 0 <= n < |b.needed[i]| ensures Find(b.names, b.needed[i][n]) < |b.names| { assert deps[n] < |b.names|; }
    forall j: nat ensures j in deps <==> Needs(b, i, j) {
      if j in deps {
        var n :| 0 <= n < |deps| && deps[n] == j;
        assert Find(b.names, b.needed[i][n]) == j;
      }
      if Needs(b, i, j) {
        var n :| 0 <= n < |b.needed[i]| && Find(b.names, b.needed[i][n]) == j;
        assert deps[n] == j;
      }
    }
  }

  /** The list holds exactly what module `i` needs. */
  ghost predicate IsNeeds(b: Bundle, i: nat, deps: seq<nat>)
    requires Shaped(b)
  {
    forall j: nat :: j in deps <==> Needs(b, i, j)
  }

  /** The dependencies of one module, resolved by name in order. */
  method Resolve(b: Bundle, i: nat) returns (r: Outcome<seq<nat>>)
    requires Shaped(b) && i < |b.names|
    ensures r.Ok? <==> Satisfied(b, i)
    ensures r.Ok? ==> IsNeeds(b, i, r.value)
    ensures !r.Ok? ==> r.NotFound?
  {
    var deps: seq<nat> := [];
    for n := 0 to |b.needed[i]|
      invariant |deps| == n
      invariant forall k {:trigger deps[k]} :: 0 <= k < n ==> deps[k] == Find(b.names, b.needed[i][k]) < |b.names|
    {
      var k := Find(b.names, b.needed[i][n]);
      if k == |b.names| { return NotFound; }
      deps := deps + [k];
    }
    ResolvedList(b, i, deps);
    r := Ok(deps);
  }

  // ---- breadth first: the scope ----

  /** A chain of `n` needs leads from `first` to `x`. */
  ghost predicate Leads(b: Bundle, first: nat, x: nat, n: nat)
    requires Shaped(b)
  {
    exists p :: IsPath(b, p) && |p| == n + 1 && p[0] == first && p[n] == x
  }

  /** What comes earlier is no farther from the root. */
  ghost predicate NearestFirst(b: Bundle, first: nat, scope: seq<nat>)
    requires Shaped(b)
  {
    forall i, j, n: nat {:trigger scope[i], Leads(b, first, scope[j], n)} ::
      0 <= i <= j < |scope| && Leads(b, first, scope[j], n) ==> LeadsWithin(b, first, scope[i], n)
  }

  ghost predicate LeadsWithin(b: Bundle, first: nat, x: nat, n: nat)
    requires Shaped(b)
  {
    exists m: nat :: m <= n && Leads(b, first, x, m)
  }

  /** How far from the root each module in scope was found: never farther than `top`, and never nearer than before. */
  ghost predicate Layered(b: Bundle, first: nat, scope: seq<nat>, levels: seq<nat>, top: nat)
    requires Shaped(b)
  {
    && |levels| == |scope| > 0 && scope[0] == first && levels[0] == 0
    && (forall i, j :: 0 <= i <= j < |levels| ==> levels[i] <= levels[j])
    && (forall k {:trigger levels[k]} :: 0 <= k < |levels| ==> levels[k] <= top && Leads(b, first, scope[k], levels[k]))
  }

  ghost predicate FoundWithin(scope: seq<nat>, levels: seq<nat>, x: nat, n: nat) {
    exists j :: 0 <= j < |scope| && j < |levels| && scope[j] == x && levels[j] <= n
  }

  /** What the first `n` modules in scope need was found one level below them at most. */
  ghost predicate Spread(b: Bundle, scope: seq<nat>, levels: seq<nat>, n: nat)
    requires Shaped(b) && n <= |scope| == |levels|
  {
    forall k, x: nat {:trigger Needs(b, scope[k], x)} :: 0 <= k < n && Needs(b, scope[k], x) ==>
          FoundWithin(scope, levels, x, levels[k] + 1)
  }

  lemma LeadsNext(b: Bundle, first: nat, x: nat, y: nat, n: nat)
    requires Shaped(b) && Leads(b, first, x, n) && Needs(b, x, y)
    ensures Leads(b, first, y, n + 1)
  {
    var p :| IsPath(b, p) && |p| == n + 1 && p[0] == first && p[n] == x;
    NeedsBounded(b, x, y);
    hide Needs;
    assert IsPath(b, p + [y]);
  }

  lemma RootLeads(b: Bundle, first: nat)
    requires Shaped(b) && first < |b.names|
    ensures Layered(b, first, [first], [0], 1) && Spread(b, [first], [0], 0)
  {
    hide Needs;
    assert IsPath(b, [first]);
    assert Leads(b, first, first, 0);
  }

  /** One more module, found from `scope[cursor]`. */
  lemma LayerNext(b: Bundle, first: nat, scope: seq<nat>, levels: seq<nat>, cursor: nat, d: nat)
    requires Shaped(b) && cursor < |scope| && |levels| == |scope|
             && Layered(b, first, scope, levels, levels[cursor] + 1) && Needs(b, scope[cursor], d)
    ensures Layered(b, first, scope + [d], levels + [levels[cursor] + 1], levels[cursor] + 1)
  {
    LeadsNext(b, first, scope[cursor], d, levels[cursor]);
    hide Leads, Needs;
  }

  lemma FoundAmong(scope: seq<nat>, levels: seq<nat>, x: nat, n: nat)
    requires |levels| == |scope| && x in scope && forall k :: 0 <= k < |levels| ==> levels[k] <= n
    ensures FoundWithin(scope, levels, x, n)
  {
    var j :| 0 <= j < |scope| && scope[j] == x;
    assert levels[j] <= n;
  }

  lemma SpreadNext(b: Bundle, scope: seq<nat>, levels: seq<nat>, scope': seq<nat>, levels': seq<nat>, deps: seq<nat>,
      cursor: nat)
    requires Shaped(b) && cursor < |scope| == |levels| && |scope'| == |levels'| && scope <= scope' && levels <= levels'
    requires Spread(b, scope, levels, cursor) && IsNeeds(b, scope[cursor], deps)
             && (forall j :: j in deps ==> j in scope')
    requires forall k :: 0 <= k < |levels'| ==> levels'[k] <= levels[cursor] + 1
    ensures Spread(b, scope', levels', cursor + 1)
  {
    hide Needs;
    forall k, x: nat | 0 <= k < cursor + 1 && Needs(b, scope'[k], x)
      ensures FoundWithin(scope', levels', x, levels'[k] + 1)
    {
      if k < cursor {
        assert Needs(b, scope[k], x);
        var j :| 0 <= j < |scope| && scope[j] == x && levels[j] <= levels[k] + 1;
        assert scope'[j] == x;
      } else {
        assert x in deps;
        FoundAmong(scope', levels', x, levels[cursor] + 1);
      }
    }
  }

  lemma LayersBounded(b: Bundle, first: nat, scope: seq<nat>, levels: seq<nat>, top: nat)
    requires Shaped(b) && Layered(b, first, scope, levels, top)
    ensures |levels| == |scope| && forall k :: 0 <= k < |levels| ==> levels[k] <= top
  {
    hide Leads;
  }

  lemma NextLayer(b: Bundle, first: nat, scope: seq<nat>, levels: seq<nat>, cursor: nat)
    requires Shaped(b) && cursor < |scope| == |levels| && Layered(b, first, scope, levels, levels[cursor] + 1)
    ensures cursor + 1 < |scope| ==> Layered(b, first, scope, levels, levels[cursor + 1] + 1)
  {
    hide Leads;
  }

  /** No path is shorter than the level. */
  lemma {:induction false} PathLevel(b: Bundle, first: nat, scope: seq<nat>, levels: seq<nat>, p: seq<nat>)
    requires Shaped(b) && |levels| == |scope| > 0 && scope[0] == first && levels[0] == 0
             && Spread(b, scope, levels, |scope|)
    requires IsPath(b, p) && p[0] == first
    ensures FoundWithin(scope, levels, p[|p| - 1], |p| - 1)
    decreases |p|
  {
    hide Needs;
    var n := |p| - 1;
    if n > 0 {
      assert IsPath(b, p[..n]);
      PathLevel(b, first, scope, levels, p[..n]);
      var k :| 0 <= k < |scope| && scope[k] == p[..n][n - 1] && levels[k] <= n - 1;
      assert Needs(b, scope[k], p[n]);
      var j :| 0 <= j < |scope| && scope[j] == p[n] && levels[j] <= levels[k] + 1;
    }
  }

  lemma LevelOrder(b: Bundle, first: nat, scope: seq<nat>, levels: seq<nat>, top: nat, i: nat, j: nat, n: nat)
        returns (m: nat)
    requires Shaped(b) && NoRepeats(scope) && Layered(b, first, scope, levels, top) && Spread(b, scope, levels, |scope|)
    requires i <= j < |scope| && Leads(b, first, scope[j], n)
    ensures m <= n && Leads(b, first, scope[i], m)
  {
    hide Needs, Spread;
    var p :| IsPath(b, p) && |p| == n + 1 && p[0] == first && p[n] == scope[j];
    hide IsPath, Leads;
    PathLevel(b, first, scope, levels, p);
    var k :| 0 <= k < |scope| && scope[k] == scope[j] && levels[k] <= n;
    m := levels[i];
  }

  lemma LevelsOrder(b: Bundle, first: nat, scope: seq<nat>, levels: seq<nat>, top: nat)
    requires Shaped(b) && NoRepeats(scope) && Layered(b, first, scope, levels, top) && Spread(b, scope, levels, |scope|)
    ensures NearestFirst(b, first, scope)
  {
    hide Leads, Spread, Layered, NoRepeats;
    forall i, j, n: nat | 0 <= i <= j < |scope| && Leads(b, first, scope[j], n)
      ensures LeadsWithin(b, first, scope[i], n)
    {
      var m := LevelOrder(b, first, scope, levels, top, i, j, n);
    }
  }

  /** Discovered modules: no repeats, marked exactly, and all reachable. */
  ghost predicate Discovered(b: Bundle, first: nat, scope: seq<nat>, reachable: seq<bool>)
    requires Shaped(b)
  {
    && |reachable| == |b.names| && |scope| <= |b.names| && NoRepeats(scope)
    && (forall x {:trigger reachable[x]} :: 0 <= x < |b.names| ==> (reachable[x] <==> x in scope))
    && (forall x :: x in scope ==> x < |b.names| && Reaches(b, first, x))
  }

  lemma DiscoverOne(b: Bundle, first: nat, scope: seq<nat>, reachable: seq<bool>, index: nat, d: nat)
    requires Shaped(b) && Discovered(b, first, scope, reachable) && index in scope && Needs(b, index, d)
             && d < |b.names| && !reachable[d]
    ensures Discovered(b, first, scope + [d], reachable[d := true])
  {
    hide Needs, Reaches;
    ReachesNext(b, first, index, d);
    RoomFor(scope, d, |b.names|);
  }

  /** Appends the modules in `deps` not seen yet. */
  method Extend(b: Bundle, ghost first: nat, ghost cursor: nat, deps: seq<nat>, scope: seq<nat>, reachable: seq<bool>,
      ghost levels: seq<nat>)
      returns (scope': seq<nat>, reachable': seq<bool>, ghost levels': seq<nat>)
    requires Shaped(b) && Discovered(b, first, scope, reachable) && cursor < |scope| == |levels|
             && IsNeeds(b, scope[cursor], deps)
    requires Layered(b, first, scope, levels, levels[cursor] + 1)
    ensures Discovered(b, first, scope', reachable') && scope <= scope' && forall j :: j in deps ==> j in scope'
    ensures levels <= levels' && Layered(b, first, scope', levels', levels[cursor] + 1)
  {
    scope', reachable', levels' := scope, reachable, levels;
    ghost var index := scope[cursor];
    hide Needs, IsPath, Reaches, Layered;
    for n := 0 to |deps|
      invariant Discovered(b, first, scope', reachable') && scope <= scope'
      invariant levels <= levels' && |levels'| == |scope'| && Layered(b, first, scope', levels', levels[cursor] + 1)
      invariant forall k :: 0 <= k < n ==> deps[k] in scope'
    {
      var d := deps[n];
      assert d in deps && Needs(b, index, d);
      NeedsBounded(b, index, d);
      if !reachable'[d] {
        DiscoverOne(b, first, scope', reachable', index, d);
        LayerNext(b, first, scope', levels', cursor, d);
        scope', reachable', levels' := scope' + [d], reachable'[d := true], levels' + [levels[cursor] + 1];
      }
    }
  }

  /** The first `n` modules in scope have their dependencies resolved and in scope. */
  ghost predicate Explored(b: Bundle, scope: seq<nat>, deps: seq<seq<nat>>, n: nat)
    requires Shaped(b) && n <= |scope|
  {
    |deps| == |b.names|
    && forall k {:trigger scope[k]} :: 0 <= k < n ==>
         scope[k] < |b.names| && Satisfied(b, scope[k]) && IsNeeds(b, scope[k], deps[scope[k]]) && forall j ::
               j in deps[scope[k]] ==> j in scope
  }

  lemma ExploreOne(b: Bundle, scope: seq<nat>, scope': seq<nat>, deps: seq<seq<nat>>, mine: seq<nat>, n: nat)
    requires Shaped(b) && n < |scope| && Explored(b, scope, deps, n) && scope <= scope' && NoRepeats(scope')
    requires scope[n] < |b.names| && Satisfied(b, scope[n]) && IsNeeds(b, scope[n], mine) && forall j :: j in mine ==>
               j in scope'
    ensures Explored(b, scope', deps[scope[n] := mine], n + 1)
  {
    hide Needs, Satisfied, IsNeeds;
    forall k | 0 <= k < n ensures scope'[k] == scope[k] && scope'[k] != scope[n] { assert scope'[n] == scope[n]; }
  }

  method Scope(b: Bundle, root: Name) returns (r: Outcome<(seq<nat>, seq<seq<nat>>)>)
    requires Shaped(b)
    ensures r.Ok? ==> var first := Find(b.names, root);
              && first < |b.names| && Enumerates(b, first, r.value.0) && NearestFirst(b, first, r.value.0)
              && Explored(b, r.value.0, r.value.1, |r.value.0|)
    ensures r.NotFound? ==>
              Find(b.names, root) == |b.names| || exists x :: Reaches(b, Find(b.names, root), x) && !Satisfied(b, x)
    ensures !r.Invalid?
  {
    hide Needs, IsPath, Satisfied, IsNeeds, Reaches, Layered, Spread, NearestFirst;
    var first := Find(b.names, root);
    if first == |b.names| { return NotFound; }
    var deps: seq<seq<nat>> := seq(|b.names|, _ => []);
    var reachable := seq(|b.names|, i => i == first);
    var scope: seq<nat> := [first];
    ReachesSelf(b, first);
    RootLeads(b, first);
    ghost var levels: seq<nat>, top := [0], 1;
    var cursor := 0;
    while cursor < |scope|
      invariant cursor <= |scope| && Discovered(b, first, scope, reachable) && first in scope
                && Explored(b, scope, deps, cursor)
      invariant |levels| == |scope| && Layered(b, first, scope, levels, top) && Spread(b, scope, levels, cursor)
      invariant cursor < |scope| ==> top == levels[cursor] + 1
      decreases |b.names| - cursor
    {
      var index := scope[cursor];
      assert index in scope;
      var mine := Resolve(b, index);
      if mine.NotFound? { return NotFound; }
      ghost var farther;
      var longer, marked;
      longer, marked, farther := Extend(b, first, cursor, mine.value, scope, reachable, levels);
      ExploreOne(b, scope, longer, deps, mine.value, cursor);
      LayersBounded(b, first, longer, farther, top);
      SpreadNext(b, scope, levels, longer, farther, mine.value, cursor);
      NextLayer(b, first, longer, farther, cursor);
      scope, reachable, deps, levels := longer, marked, deps[index := mine.value], farther;
      top := if cursor + 1 < |scope| then levels[cursor + 1] + 1 else top;
      cursor := cursor + 1;
    }
    ExploredCloses(b, first, scope, deps);
    LevelsOrder(b, first, scope, levels, top);
    r := Ok((scope, deps));
  }

  lemma ExploredCloses(b: Bundle, first: nat, scope: seq<nat>, deps: seq<seq<nat>>)
    requires Shaped(b) && NoRepeats(scope) && first in scope && Explored(b, scope, deps, |scope|)
    requires forall x :: x in scope ==> x < |b.names| && Reaches(b, first, x)
    ensures Enumerates(b, first, scope)
  {
    hide Needs, Reaches, Satisfied;
    forall i, j | i in scope && Needs(b, i, j) ensures j in scope {
      var k :| 0 <= k < |scope| && scope[k] == i;
      assert j in deps[i];
    }
    ClosedEnumerates(b, first, scope);
  }

  // ---- depth first: the initialisation order ----

  ghost function Unvisited(v: seq<bool>): nat {
    if v == [] then 0 else Unvisited(v[..|v| - 1]) + if v[|v| - 1] then 0 else 1
  }

  lemma {:induction false} UnvisitedLess(v: seq<bool>, w: seq<bool>)
    requires |v| == |w| && forall i :: 0 <= i < |v| && v[i] ==> w[i]
    ensures Unvisited(w) <= Unvisited(v)
    ensures (exists i :: 0 <= i < |v| && w[i] && !v[i]) ==> Unvisited(w) < Unvisited(v)
  {
    if v != [] {
      var n := |v| - 1;
      UnvisitedLess(v[..n], w[..n]);
      if i :| 0 <= i < |v| && w[i] && !v[i] {
        if i < n { assert w[..n][i] && !v[..n][i]; }
      }
    }
  }

  /** Each module follows everything it needs, except what in turn needs it. */
  ghost predicate DependenciesFirst(b: Bundle, order: seq<nat>)
    requires Shaped(b)
  {
    forall p, y: nat {:trigger order[p], Needs(b, order[p], y)} ::
      0 <= p < |order| && Needs(b, order[p], y) ==> y in order[..p] || Reaches(b, y, order[p])
  }

  /** Finished modules: no repeats, all visited with all they need, in order. */
  ghost predicate Finished(b: Bundle, order: seq<nat>, visited: seq<bool>)
    requires Shaped(b)
  {
    && |visited| == |b.names| && NoRepeats(order) && (forall x :: x in order ==> x < |visited| && visited[x])
    && (forall x, y: nat :: x in order && Needs(b, x, y) ==> y < |visited| && visited[y])
    && DependenciesFirst(b, order)
  }

  /** Modules entered but not finished are on the way to `index`. */
  ghost predicate OnTheWay(b: Bundle, order: seq<nat>, visited: seq<bool>, index: nat)
    requires Shaped(b)
  {
    forall y: nat {:trigger visited[y]} :: y < |visited| && visited[y] && y !in order ==> Reaches(b, y, index)
  }

  /** What a visit adds is reached from where it started and finished when it returns. */
  ghost predicate Grown(b: Bundle, order: seq<nat>, visited: seq<bool>, order': seq<nat>, visited': seq<bool>,
      index: nat)
    requires Shaped(b)
  {
    && |visited'| == |visited| && order <= order'
    && (forall x {:trigger visited'[x]} :: 0 <= x < |visited| && visited[x] ==> visited'[x])
    && (forall x: nat {:trigger visited'[x]} :: x < |visited| && visited'[x] && !visited[x] ==>
         x in order' && Reaches(b, index, x))
    && (forall x :: x in order' ==> x in order || (x < |visited| && !visited[x]))
  }

  /** The graph as the group stores it. */
  ghost predicate Stored(b: Bundle, scope: seq<nat>, deps: seq<seq<nat>>)
    requires Shaped(b)
  {
    Explored(b, scope, deps, |scope|)
  }

  lemma StoredAt(b: Bundle, scope: seq<nat>, deps: seq<seq<nat>>, x: nat)
    requires Shaped(b) && Stored(b, scope, deps) && x in scope
    ensures |deps| == |b.names| && x < |b.names| && IsNeeds(b, x, deps[x]) && forall j :: j in deps[x] ==> j in scope
  {
    var k :| 0 <= k < |scope| && scope[k] == x;
    hide Satisfied, IsNeeds;
    assert scope[k] == x;
  }

  lemma {:induction false} PathThrough(b: Bundle, i: nat, d: nat, p: seq<nat>)
    requires Shaped(b) && Needs(b, i, d) && IsPath(b, p) && p[0] == d
    ensures IsPath(b, [i] + p)
  {
    NeedsBounded(b, i, d);
    hide Needs;
    var q := [i] + p;
    forall k | 0 < k < |q| ensures Needs(b, q[k - 1], q[k]) {
      if k > 1 { assert Needs(b, p[k - 2], p[k - 1]); }
    }
  }

  lemma ReachesThrough(b: Bundle, i: nat, d: nat, x: nat)
    requires Shaped(b) && Needs(b, i, d) && Reaches(b, d, x)
    ensures Reaches(b, i, x)
  {
    var p :| IsPath(b, p) && p[0] == d && p[|p| - 1] == x;
    PathThrough(b, i, d, p);
    var q := [i] + p;
    assert q[0] == i && q[|q| - 1] == x;
  }

  /** Entering a module makes it one more on the way to each of its dependencies. */
  lemma WayToDependency(b: Bundle, order: seq<nat>, visited: seq<bool>, index: nat, d: nat)
    requires Shaped(b) && OnTheWay(b, order, visited, index) && Needs(b, index, d)
    ensures OnTheWay(b, order, visited, d)
  {
    hide Needs, Reaches;
    forall y: nat | y < |visited| && visited[y] && y !in order ensures Reaches(b, y, d) {
      ReachesNext(b, y, index, d);
    }
  }

  lemma FinishOne(b: Bundle, order: seq<nat>, visited: seq<bool>, index: nat, deps: seq<nat>)
    requires Shaped(b) && Finished(b, order, visited) && OnTheWay(b, order, visited, index) && IsNeeds(b, index, deps)
    requires index < |visited| && visited[index] && index !in order && forall d :: d in deps ==>
               d < |visited| && visited[d]
    ensures Finished(b, order + [index], visited)
  {
    hide Needs, Reaches;
    var after := order + [index];
    forall p, y: nat | 0 <= p < |after| && Needs(b, after[p], y) ensures y in after[..p] || Reaches(b, y, after[p]) {
      if p < |order| {
        assert after[p] == order[p] && after[..p] == order[..p];
      } else {
        assert after[..p] == order && y in deps;
      }
    }
    forall x, y: nat | x in after && Needs(b, x, y) ensures y < |visited| && visited[y] {
      if x == index { assert y in deps; }
    }
  }

  datatype GroupState = Created | Relocating | Relocated | Initializing | Ready | Failed

  /** What relocating one module takes besides its memory. */
  datatype Image = Image(segments: seq<R.Segment>, regions: seq<R.Region>, data: nat, size: nat, symbolCount: nat,
      tables: R.Tables, bindings: R.Bindings)

  /** `after` is `before` relocated. */
  ghost predicate RelocatedTo(m: Image, before: seq<byte>, after: seq<byte>) {
    R.RelocatedTo(m.segments, m.regions, m.tables, m.bindings, before, after)
  }

  lemma RelocatedSize(m: Image, before: seq<byte>, after: seq<byte>)
    requires RelocatedTo(m, before, after)
    ensures |after| == |before|
  {
  }

  class LoadGroup {
    const bundle: Bundle
    const images: seq<Image>
    const memory: seq<array<byte>>
    var deps: seq<seq<nat>>
    var scope: seq<nat>
    var initialization: seq<nat>
    var state: GroupState

    constructor (bundle: Bundle, images: seq<Image>, memory: seq<array<byte>>, deps: seq<seq<nat>>, scope: seq<nat>)
      ensures this.bundle == bundle && this.images == images && this.memory == memory && this.deps == deps
              && this.scope == scope
      ensures initialization == [] && state == Created
    {
      this.bundle, this.images, this.memory, this.deps, this.scope, this.initialization, this.state :=
        bundle, images, memory, deps, scope, [], Created;
    }

    /** Modules do not share memory, and the scope names some of them, each once. */
    ghost predicate Valid()
      reads this
    {
      && |images| == |memory| && NoRepeats(memory) && NoRepeats(scope)
      && forall k {:trigger scope[k]} :: 0 <= k < |scope| ==> scope[k] < |memory|
    }

    /** Relocates staged copies of every module in scope, then copies all of them back or none. */
    method Relocate() returns (r: R.Result<bool>)
      requires Valid()
      modifies this`state, set m | m in memory
      ensures old(state) == Created ==>
                (r.Ok? <==> forall k {:trigger scope[k]} :: 0 <= k < |scope| ==>
                      Relocatable(images[scope[k]], old(memory[scope[k]][..])))
      ensures old(state) != Created ==> (r.Ok? <==> old(state) != Failed && old(state) != Relocating)
      ensures r.Err? ==> forall i {:trigger memory[i]} :: 0 <= i < |memory| ==> memory[i][..] == old(memory[i][..])
      ensures r.Err? ==> state == old(state)
      ensures r.Ok? && old(state) == Created ==>
                && state == Relocated
                && (forall k {:trigger scope[k]} :: 0 <= k < |scope| ==>
                      RelocatedTo(images[scope[k]], old(memory[scope[k]][..]), memory[scope[k]][..]))
                && (forall i {:trigger memory[i]} :: 0 <= i < |memory| && i !in scope ==>
                     memory[i][..] == old(memory[i][..]))
      ensures r.Ok? && old(state) != Created ==>
                state == old(state) && forall i {:trigger memory[i]} :: 0 <= i < |memory| ==>
                  memory[i][..] == old(memory[i][..])
    {
      if state == Failed || state == Relocating { return R.Err(R.InvalidImage); }
      if state != Created { return R.Ok(true); }
      state := Relocating;
      var staging := Stage();
      if staging.Err? {
        state := Created;
        return R.Err(staging.error);
      }
      CopyBack(staging.value);
      state := Relocated;
      r := R.Ok(true);
    }

    method Stage() returns (r: R.Result<seq<seq<byte>>>)
      requires Valid()
      ensures r.Ok? <==> forall k {:trigger scope[k]} :: 0 <= k < |scope| ==>
                Relocatable(images[scope[k]], memory[scope[k]][..])
      ensures r.Ok? ==> |r.value| == |scope|
      ensures r.Ok? ==> forall k {:trigger scope[k]} :: 0 <= k < |scope| ==>
                RelocatedTo(images[scope[k]], memory[scope[k]][..], r.value[k])
    {
      hide RelocatedTo, Relocatable;
      var staging: seq<seq<byte>> := [];
      for k := 0 to |scope|
        invariant |staging| == k
        invariant forall j {:trigger scope[j]} :: 0 <= j < k ==> Relocatable(images[scope[j]], memory[scope[j]][..])
        invariant forall j {:trigger scope[j]} :: 0 <= j < k ==>
                    RelocatedTo(images[scope[j]], memory[scope[j]][..], staging[j])
      {
        var one := RelocateCopy(images[scope[k]], memory[scope[k]][..]);
        if one.Err? { return R.Err(one.error); }
        staging := staging + [one.value];
      }
      r := R.Ok(staging);
    }

    method CopyBack(staging: seq<seq<byte>>)
      requires Valid() && |staging| == |scope|
      requires forall k {:trigger scope[k]} :: 0 <= k < |scope| ==>
                 RelocatedTo(images[scope[k]], memory[scope[k]][..], staging[k])
      modifies set m | m in memory
      ensures forall k {:trigger scope[k]} :: 0 <= k < |scope| ==> memory[scope[k]][..] == staging[k]
      ensures forall i {:trigger memory[i]} :: 0 <= i < |memory| && i !in scope ==> memory[i][..] == old(memory[i][..])
    {
      hide RelocatedTo;
      forall k | 0 <= k < |scope|
        ensures |staging[k]| == memory[scope[k]].Length
      {
        RelocatedSize(images[scope[k]], memory[scope[k]][..], staging[k]);
      }
      for k := 0 to |scope|
        invariant forall j {:trigger scope[j]} :: 0 <= j < k ==> memory[scope[j]][..] == staging[j]
        invariant forall i {:trigger memory[i]} :: 0 <= i < |memory| && i !in scope[..k] ==>
                    memory[i][..] == old(memory[i][..])
      {
        assert forall i {:trigger memory[i]} :: 0 <= i < |memory| && i != scope[k] ==> memory[i] != memory[scope[k]];
        assert forall j {:trigger scope[j]} :: 0 <= j < k ==> scope[j] != scope[k];
        CopyInto(memory[scope[k]], staging[k]);
        assert scope[..k + 1] == scope[..k] + [scope[k]];
      }
      assert scope[..|scope|] == scope;
    }

    /** Runs every initialiser once, module by module in initialisation order, stopping at the first that fails. */
    method Initialize(inits: seq<seq<nat>>, executable: nat -> bool, works: nat -> bool)
          returns (ok: bool, called: seq<nat>)
      requires forall k {:trigger initialization[k]} :: 0 <= k < |initialization| ==> initialization[k] < |inits|
      modifies this`state
      ensures old(state) != Relocated ==>
                called == [] && state == old(state) && (ok <==> old(state) == Ready || old(state) == Initializing)
      ensures old(state) == Relocated ==>
                var calls := Calls(inits, initialization);
                && (ok <==> forall a :: a in calls ==> executable(a) && works(a))
                && (ok ==> state == Ready && called == calls)
                && ((exists a :: a in calls && !executable(a)) ==> called == [] && state == Relocated)
                && ((forall a :: a in calls ==> executable(a)) ==> UpToFailure(calls, works, called))
                && (state == Failed <==>
                     (forall a :: a in calls ==> executable(a)) && exists a :: a in calls && !works(a))
    {
      called := [];
      if state == Ready || state == Initializing { return true, []; }
      if state != Relocated { return false, []; }
      var calls := CollectCalls(inits, initialization);
      for i := 0 to |calls|
        invariant forall j :: 0 <= j < i ==> executable(calls[j])
      {
        if !executable(calls[i]) {
          assert calls[i] in calls;
          return false, [];
        }
      }
      state := Initializing;
      for i := 0 to |calls|
        invariant called == calls[..i] && state == Initializing
        invariant forall j {:trigger calls[j]} :: 0 <= j < i ==> works(calls[j])
      {
        called := called + [calls[i]];
        assert calls[..i + 1] == calls[..i] + [calls[i]];
        if !works(calls[i]) {
          assert calls[i] in calls;
          state := Failed;
          return false, called;
        }
      }
      assert calls[..|calls|] == calls;
      state := Ready;
      ok := true;
    }

    /** The recursive visit; it ends on cyclic graphs because each module is entered once. */
    method Visit(index: nat, visited: array<bool>)
      requires Shaped(bundle) && Stored(bundle, scope, deps) && index in scope
      requires Finished(bundle, initialization, visited[..]) && OnTheWay(bundle, initialization, visited[..], index)
      modifies this`initialization, visited
      ensures Finished(bundle, initialization, visited[..])
              && Grown(bundle, old(initialization), old(visited[..]), initialization, visited[..], index)
      ensures index < visited.Length && visited[index]
      decreases Unvisited(visited[..])
    {
      hide Needs, Reaches, IsNeeds, Stored, DependenciesFirst;
      StoredAt(bundle, scope, deps, index);
      if visited[index] { return; }
      ghost var order0, visited0 := initialization, visited[..];
      visited[index] := true;
      EnterOne(bundle, order0, visited0, visited[..], index);
      for n := 0 to |deps[index]|
        invariant Finished(bundle, initialization, visited[..]) && OnTheWay(bundle, initialization, visited[..], index)
        invariant Entered(bundle, order0, visited0, initialization, visited[..], index)
        invariant forall k {:trigger deps[index][k]} :: 0 <= k < n ==>
                    deps[index][k] < visited.Length && visited[deps[index][k]]
      {
        var d := deps[index][n];
        ListedNeed(bundle, index, deps[index], n);
        WayToDependency(bundle, initialization, visited[..], index, d);
        UnvisitedLess(visited0, visited[..]);
        ghost var order1, visited1 := initialization, visited[..];
        Visit(d, visited);
        EnteredThen(bundle, order0, visited0, order1, visited1, initialization, visited[..], index, d);
      }
      FinishOne(bundle, initialization, visited[..], index, deps[index]);
      initialization := initialization + [index];
    }
  }

  /** What is called when initialisers run in order and the first failure ends it: that one is called, nothing after it.
      */
  ghost predicate UpToFailure(calls: seq<nat>, works: nat -> bool, called: seq<nat>) {
    && called <= calls && (forall i {:trigger called[i]} :: 0 <= i < |called| - 1 ==> works(called[i]))
    && (called == calls || (called != [] && !works(called[|called| - 1])))
  }

  /** The initialisers of the modules in `order`, in order. */
  function Calls(inits: seq<seq<nat>>, order: seq<nat>): seq<nat>
    requires forall k {:trigger order[k]} :: 0 <= k < |order| ==> order[k] < |inits|
  {
    if order == [] then [] else Calls(inits, order[..|order| - 1]) + inits[order[|order| - 1]]
  }

  lemma CallsStep(inits: seq<seq<nat>>, order: seq<nat>, m: nat)
    requires (forall k {:trigger order[k]} :: 0 <= k < |order| ==> order[k] < |inits|) && m < |inits|
    ensures forall k {:trigger (order + [m])[k]} :: 0 <= k < |order + [m]| ==> (order + [m])[k] < |inits|
    ensures Calls(inits, order + [m]) == Calls(inits, order) + inits[m]
  {
    var all := order + [m];
    assert all[..|order|] == order && all[|order|] == m;
    assert forall k {:trigger all[k]} :: 0 <= k < |order| ==> all[k] == order[k];
  }

  /** What is called: each module's initialisers in its order, module after module. */
  lemma {:induction false} CallsAre(inits: seq<seq<nat>>, first: nat, rest: seq<nat>)
    requires first < |inits| && forall k {:trigger rest[k]} :: 0 <= k < |rest| ==> rest[k] < |inits|
    ensures forall k {:trigger ([first] + rest)[k]} :: 0 <= k < |[first] + rest| ==> ([first] + rest)[k] < |inits|
    ensures Calls(inits, []) == [] && Calls(inits, [first] + rest) == inits[first] + Calls(inits, rest)
    decreases |rest|
  {
    assert forall k {:trigger ([first] + rest)[k]} :: 1 <= k < |[first] + rest| ==> ([first] + rest)[k] == rest[k - 1];
    if rest == [] {
      CallsStep(inits, [], first);
      assert [first] + rest == [] + [first];
    } else {
      var n := |rest| - 1;
      var some, last := rest[..n], rest[n];
      assert rest == some + [last] && [first] + rest == ([first] + some) + [last];
      hide Calls;
      CallsAre(inits, first, some);
      CallsStep(inits, some, last);
      CallsStep(inits, [first] + some, last);
      var a, b, c := inits[first], Calls(inits, some), inits[last];
      assert (a + b) + c == a + (b + c);
    }
  }

  method CollectCalls(inits: seq<seq<nat>>, order: seq<nat>) returns (calls: seq<nat>)
    requires forall k {:trigger order[k]} :: 0 <= k < |order| ==> order[k] < |inits|
    ensures calls == Calls(inits, order)
  {
    calls := [];
    for k := 0 to |order|
      invariant calls == Calls(inits, order[..k])
    {
      assert order[..k + 1][..k] == order[..k];
      calls := calls + inits[order[k]];
    }
    assert order[..|order|] == order;
  }

  /** The module's relocations are all well formed, in range and resolved. */
  ghost predicate Relocatable(m: Image, bytes: seq<byte>) {
    R.Acceptable(m.segments, m.regions, |bytes|, m.data, m.size, m.symbolCount, m.tables, m.bindings)
  }

  /** Relocation of a private copy. */
  method RelocateCopy(m: Image, bytes: seq<byte>) returns (r: R.Result<seq<byte>>)
    ensures r.Ok? <==> Relocatable(m, bytes)
    ensures r.Ok? ==> RelocatedTo(m, bytes, r.value)
  {
    hide R.Acceptable;
    var stage := new byte[|bytes|](i requires 0 <= i < |bytes| => bytes[i]);
    assert stage[..] == bytes;
    var done := R.Relocate(stage, m.segments, m.regions, m.data, m.size, m.symbolCount, m.tables, m.bindings);
    if done.Err? { return R.Err(done.error); }
    r := R.Ok(stage[..]);
  }

  method CopyInto(target: array<byte>, bytes: seq<byte>)
    requires target.Length == |bytes|
    modifies target
    ensures target[..] == bytes
  {
    for i := 0 to |bytes|
      invariant target[..i] == bytes[..i]
    {
      target[i] := bytes[i];
    }
  }

  /** Like Grown, while `index` itself is entered and not yet finished. */
  ghost predicate Entered(b: Bundle, order: seq<nat>, visited: seq<bool>, order': seq<nat>, visited': seq<bool>,
      index: nat)
    requires Shaped(b)
  {
    && |visited'| == |visited| && order <= order' && index < |visited| && !visited[index] && visited'[index]
    && index !in order'
    && (forall x {:trigger visited'[x]} :: 0 <= x < |visited| && visited[x] ==> visited'[x])
    && (forall x: nat {:trigger visited'[x]} :: x < |visited| && visited'[x] && !visited[x] && x != index ==>
         x in order' && Reaches(b, index, x))
    && (forall x :: x in order' ==> x in order || (x < |visited| && !visited[x])) && Reaches(b, index, index)
  }

  lemma EnterOne(b: Bundle, order: seq<nat>, visited: seq<bool>, visited': seq<bool>, index: nat)
    requires Shaped(b) && index < |b.names| && Finished(b, order, visited) && OnTheWay(b, order, visited, index)
    requires !visited[index] && visited' == visited[index := true]
    ensures Finished(b, order, visited') && OnTheWay(b, order, visited', index)
            && Entered(b, order, visited, order, visited', index)
  {
    ReachesSelf(b, index);
    hide Needs, Reaches;
  }

  lemma ListedNeed(b: Bundle, index: nat, deps: seq<nat>, n: nat)
    requires Shaped(b) && IsNeeds(b, index, deps) && n < |deps|
    ensures Needs(b, index, deps[n])
  {
    assert deps[n] in deps;
  }

  lemma EnteredThen(b: Bundle, o0: seq<nat>, v0: seq<bool>, o1: seq<nat>, v1: seq<bool>, o2: seq<nat>, v2: seq<bool>,
      index: nat, d: nat)
    requires Shaped(b) && Entered(b, o0, v0, o1, v1, index) && Grown(b, o1, v1, o2, v2, d) && Needs(b, index, d)
    requires OnTheWay(b, o1, v1, index)
    ensures Entered(b, o0, v0, o2, v2, index) && OnTheWay(b, o2, v2, index)
  {
    hide Needs, Reaches;
    forall x: nat | x < |v0| && v2[x] && !v0[x] && x != index ensures x in o2 && Reaches(b, index, x) {
      if v1[x] { assert x in o1; } else {
        ReachesThrough(b, index, d, x);
      }
    }
    forall y: nat | y < |v2| && v2[y] && y !in o2 ensures Reaches(b, y, index) {
      assert y !in o1;
      assert v1[y];
    }
  }

  // ---- creating a group ----

  lemma VisitedAll(b: Bundle, first: nat, order: seq<nat>, visited: seq<bool>, order0: seq<nat>, visited0: seq<bool>)
    requires Shaped(b) && Finished(b, order, visited) && Grown(b, order0, visited0, order, visited, first)
    requires order0 == [] && (forall i :: 0 <= i < |visited0| ==> !visited0[i]) && first < |visited| && visited[first]
    ensures Enumerates(b, first, order)
  {
    hide Needs, Reaches;
    ClosedEnumerates(b, first, order);
  }

  /** On an acyclic graph everything a module needs is initialised before it. */
  lemma AcyclicOrder(b: Bundle, order: seq<nat>, p: nat, y: nat)
    requires Shaped(b) && DependenciesFirst(b, order) && p < |order| && Needs(b, order[p], y)
    requires forall x: nat, z: nat :: Needs(b, x, z) ==> !Reaches(b, z, x)
    ensures y in order[..p]
  {
    hide Needs, Reaches;
  }

  method Create(b: Bundle, images: seq<Image>, memory: seq<array<byte>>, root: Name) returns (r: Outcome<LoadGroup>)
    requires Shaped(b) && |images| == |memory| == |b.names| && NoRepeats(memory)
    ensures r.Ok? ==>
              var g := r.value;
              var first := Find(b.names, root);
              && fresh(g) && g.bundle == b && g.memory == memory && g.images == images && g.state == Created
              && g.Valid()
              && first < |b.names| && Enumerates(b, first, g.scope) && Enumerates(b, first, g.initialization)
              && NearestFirst(b, first, g.scope) && DependenciesFirst(b, g.initialization)
    ensures r.NotFound? ==>
              Find(b.names, root) == |b.names| || exists x :: Reaches(b, Find(b.names, root), x) && !Satisfied(b, x)
    ensures r.Invalid? <==> |b.names| == 0 || |b.names| > 64 || !NoRepeats(b.names)
  {
    if |b.names| == 0 || |b.names| > 64 { return Invalid; }
    for i := 0 to |b.names|
      invariant forall x, y {:trigger b.names[x], b.names[y]} :: 0 <= x < y < i ==> b.names[x] != b.names[y]
    {
      for j := 0 to i
        invariant forall x {:trigger b.names[x]} :: 0 <= x < j ==> b.names[x] != b.names[i]
      {
        if b.names[i] == b.names[j] { return Invalid; }
      }
    }
    hide Needs, Reaches, Satisfied, IsNeeds, DependenciesFirst, NearestFirst;
    var found := Scope(b, root);
    if found.NotFound? { return NotFound; }
    var first := Find(b.names, root);
    var group := new LoadGroup(b, images, memory, found.value.1, found.value.0);
    var visited := new bool[|b.names|](_ => false);
    ghost var visited0 := visited[..];
    EmptyOrder(b, visited0, first);
    RootInScope(b, first, group.scope);
    group.Visit(first, visited);
    VisitedAll(b, first, group.initialization, visited[..], [], visited0);
    ScopeBounded(b, group.scope, group.deps);
    r := Ok(group);
  }

  lemma EmptyOrder(b: Bundle, visited: seq<bool>, first: nat)
    requires Shaped(b) && |visited| == |b.names| && forall i :: 0 <= i < |visited| ==> !visited[i]
    ensures Finished(b, [], visited) && OnTheWay(b, [], visited, first)
  {
  }

  lemma RootInScope(b: Bundle, first: nat, scope: seq<nat>)
    requires Shaped(b) && first < |b.names| && Enumerates(b, first, scope)
    ensures first in scope
  {
    ReachesSelf(b, first);
  }

  lemma ScopeBounded(b: Bundle, scope: seq<nat>, deps: seq<seq<nat>>)
    requires Shaped(b) && Explored(b, scope, deps, |scope|)
    ensures forall k {:trigger scope[k]} :: 0 <= k < |scope| ==> scope[k] < |b.names|
  {
  }
}
