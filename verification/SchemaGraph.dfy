/** The two walks over schema references (`_ordered` and `_reach` in `scripts/sync_spec.py`). A graph maps each
  * schema to the names it refers to, each once and sorted; every name referred to is a schema. */
module SchemaGraph {
  import opened Basics

  type Name = string
  type Graph = map<Name, seq<Name>>

  ghost predicate Closed(g: Graph) {
    forall n, i :: n in g && 0 <= i < |g[n]| ==> g[n][i] in g
  }

  /** Each name of the walk refers to the next. */
  predicate IsWalk(g: Graph, walk: seq<Name>) {
    && walk != []
    && (forall i :: 0 <= i < |walk| ==> walk[i] in g)
    && (forall i :: 0 <= i < |walk| - 1 ==> walk[i + 1] in g[walk[i]])
  }

  /** No walk comes back to where it began. */
  ghost predicate Acyclic(g: Graph) {
    forall walk :: IsWalk(g, walk) && |walk| >= 2 ==> walk[0] != walk[|walk| - 1]
  }

  predicate Within(s: seq<Name>, g: Graph) { forall i :: 0 <= i < |s| ==> s[i] in g }

  /** Each name comes after all it refers to. */
  predicate AfterItsRefs(g: Graph, done: seq<Name>)
    requires Within(done, g)
  {
    forall i, j :: 0 <= i < |done| && 0 <= j < |g[done[i]]| ==> g[done[i]][j] in done[..i]
  }

  lemma {:induction false} DistinctIsShort(s: seq<Name>, names: set<Name>)
    requires Distinct(s) && forall i :: 0 <= i < |s| ==> s[i] in names
    ensures |s| <= |names|
  {
    if s != [] {
      DistinctIsShort(s[1..], names - {s[0]});
    }
  }

  /** The walk to a name already on it closes a cycle. */
  lemma CycleFound(g: Graph, path: seq<Name>, name: Name)
    requires IsWalk(g, path + [name]) && name in path
    ensures !Acyclic(g)
  {
    var walk := path + [name];
    var i :| 0 <= i < |path| && path[i] == name;
    var cycle := walk[i..];
    assert IsWalk(g, cycle) by {
      forall k | 0 <= k < |cycle| - 1
        ensures cycle[k + 1] in g[cycle[k]]
      {
        assert walk[i + k + 1] in g[walk[i + k]];
      }
    }
    assert cycle[0] == cycle[|cycle| - 1];
  }

  lemma ExtendWalk(g: Graph, path: seq<Name>, name: Name, ref: Name)
    requires IsWalk(g, path + [name]) && name in g && ref in g && ref in g[name]
    ensures IsWalk(g, (path + [name]) + [ref])
  {
    var walk := (path + [name]) + [ref];
    forall k | 0 <= k < |walk| - 1
      ensures walk[k + 1] in g[walk[k]]
    {
      if k < |path| {
        assert (path + [name])[k + 1] in g[(path + [name])[k]];
      }
    }
  }

  /** The order as it grows: no name twice, all of them schemas, and in an acyclic graph each after its refs. */
  ghost predicate Good(g: Graph, done: seq<Name>) {
    Distinct(done) && Within(done, g) && (Acyclic(g) ==> AfterItsRefs(g, done))
  }

  class Ordering {
    const g: Graph
    var done: seq<Name>

    constructor (g: Graph)
      ensures this.g == g && done == []
    {
      this.g, done := g, [];
    }

    /** One `visit`: `path` holds the names whose visit is still running, none of which is done by it. */
    method Visit(name: Name, path: seq<Name>)
      requires Closed(g) && Good(g, done)
      requires IsWalk(g, path + [name]) && Distinct(path)
      modifies this
      ensures Good(g, done) && old(done) <= done
      ensures name in done || name in path
      ensures forall n :: n in path && n !in old(done) ==> n !in done
      decreases |g| - |path|
    {
      if name in done || name in path {
        return;
      }
      DistinctIsShort(path + [name], g.Keys);
      assert (path + [name])[|path|] in g;
      var refs := g[name];
      for k := 0 to |refs|
        invariant Good(g, done) && old(done) <= done
        invariant forall n :: n in path + [name] && n !in old(done) ==> n !in done
        invariant forall j :: 0 <= j < k ==> refs[j] in done || refs[j] in path + [name]
      {
        assert refs[k] in g[name];
        ExtendWalk(g, path, name, refs[k]);
        Visit(refs[k], path + [name]);
      }
      assert name in path + [name];
      if Acyclic(g) {
        forall j | 0 <= j < |refs|
          ensures refs[j] in done
        {
          ExtendWalk(g, path, name, refs[j]);
          if refs[j] in path + [name] {
            CycleFound(g, path + [name], refs[j]);
          }
        }
        AppendAfterRefs(g, done, name);
      }
      done := done + [name];
    }
  }

  lemma AppendAfterRefs(g: Graph, done: seq<Name>, name: Name)
    requires Within(done, g) && AfterItsRefs(g, done) && name in g
    requires forall j :: 0 <= j < |g[name]| ==> g[name][j] in done
    ensures AfterItsRefs(g, done + [name])
  {
    var more := done + [name];
    forall i, j | 0 <= i < |more| && 0 <= j < |g[more[i]]|
      ensures g[more[i]][j] in more[..i]
    {
      if i < |done| {
        assert more[..i] == done[..i];
      } else {
        assert more[..i] == done;
      }
    }
  }

  /** Every schema exactly once; when no reference comes back to where it began, each after all it refers to.
    * `names` are the schemas in the order they are visited. */
  method Ordered(g: Graph, names: seq<Name>) returns (done: seq<Name>)
    requires Closed(g) && Distinct(names) && forall n :: n in names <==> n in g
    ensures Distinct(done) && forall n :: n in done <==> n in g
    ensures |done| == |g|
    ensures Acyclic(g) ==> AfterItsRefs(g, done)
  {
    var ordering := new Ordering(g);
    for k := 0 to |names|
      invariant fresh(ordering) && ordering.g == g && Good(g, ordering.done)
      invariant forall j :: 0 <= j < k ==> names[j] in ordering.done
    {
      assert names[k] in names;
      assert IsWalk(g, [] + [names[k]]);
      ordering.Visit(names[k], []);
    }
    done := ordering.done;
    OrderSize(done, g.Keys);
  }

  // ---- What the roots reach ----

  ghost predicate Reachable(g: Graph, roots: seq<Name>, name: Name) {
    exists walk :: IsWalk(g, walk) && walk[0] in roots && walk[|walk| - 1] == name
  }

  lemma ReachesRefs(g: Graph, roots: seq<Name>, name: Name, ref: Name)
    requires Closed(g) && Reachable(g, roots, name) && name in g && ref in g[name]
    ensures Reachable(g, roots, ref)
  {
    var walk :| IsWalk(g, walk) && walk[0] in roots && walk[|walk| - 1] == name;
    assert walk[..|walk| - 1] + [name] == walk;
    ExtendWalk(g, walk[..|walk| - 1], name, ref);
    assert IsWalk(g, walk + [ref]) && (walk + [ref])[0] == walk[0];
  }

  /** A set that holds the roots and what each of its names refers to holds every walk from a root. */
  lemma {:induction false} HoldsWalks(g: Graph, seen: set<Name>, walk: seq<Name>)
    requires IsWalk(g, walk) && walk[0] in seen
    requires forall n :: n in seen && n in g ==> forall ref :: ref in g[n] ==> ref in seen
    ensures walk[|walk| - 1] in seen
  {
    if |walk| > 1 {
      var init := walk[..|walk| - 1];
      assert IsWalk(g, init) by {
        forall i | 0 <= i < |init| - 1
          ensures init[i + 1] in g[init[i]]
        {
          assert walk[i + 1] in g[walk[i]];
        }
      }
      HoldsWalks(g, seen, init);
      assert walk[|walk| - 2 + 1] in g[walk[|walk| - 2]];
    }
  }

  /** What the worklist keeps: everything found is reachable, and what it leads to is found. */
  ghost predicate Explored(g: Graph, roots: seq<Name>, seen: set<Name>, pending: seq<Name>) {
    && seen <= g.Keys
    && (forall n :: n in pending ==> n in g && Reachable(g, roots, n))
    && (forall n :: n in seen ==> Reachable(g, roots, n))
    && (forall n :: n in roots ==> n in seen || n in pending)
    && (forall n :: n in seen ==> forall ref :: ref in g[n] ==> ref in seen || ref in pending)
  }

  lemma RootsExplored(g: Graph, roots: seq<Name>)
    requires Closed(g) && Within(roots, g)
    ensures Explored(g, roots, {}, roots)
  {
    forall n | n in roots
      ensures n in g && Reachable(g, roots, n)
    {
      assert IsWalk(g, [n]) && [n][0] in roots;
    }
  }

  lemma PopExplored(g: Graph, roots: seq<Name>, seen: set<Name>, rest: seq<Name>, name: Name)
    requires Explored(g, roots, seen, rest + [name]) && name in seen
    ensures Explored(g, roots, seen, rest)
  {
    assert forall n :: n in rest + [name] <==> n in rest || n == name;
  }

  lemma ExpandExplored(g: Graph, roots: seq<Name>, seen: set<Name>, rest: seq<Name>, name: Name)
    requires Closed(g) && Explored(g, roots, seen, rest + [name])
    ensures name in g && Explored(g, roots, seen + {name}, rest + g[name])
  {
    assert name in rest + [name];
    assert forall n :: n in rest + [name] <==> n in rest || n == name;
    forall ref | ref in g[name]
      ensures ref in g && Reachable(g, roots, ref)
    {
      ReachesRefs(g, roots, name, ref);
    }
  }

  lemma AllExplored(g: Graph, roots: seq<Name>, seen: set<Name>, n: Name)
    requires Explored(g, roots, seen, [])
    ensures n in seen <==> Reachable(g, roots, n)
  {
    if Reachable(g, roots, n) {
      var walk :| IsWalk(g, walk) && walk[0] in roots && walk[|walk| - 1] == n;
      HoldsWalks(g, seen, walk);
    }
  }

  lemma FewerLeft(all: set<Name>, seen: set<Name>, name: Name)
    requires name in all && name !in seen
    ensures |all - (seen + {name})| < |all - seen|
  {
    assert all - (seen + {name}) == (all - seen) - {name};
  }

  lemma ReachesExactly(g: Graph, roots: seq<Name>, seen: set<Name>)
    requires Explored(g, roots, seen, [])
    ensures forall n :: n in seen <==> Reachable(g, roots, n)
  {
    forall n
      ensures n in seen <==> Reachable(g, roots, n)
    {
      AllExplored(g, roots, seen, n);
    }
  }

  /** Exactly the names reachable from the roots. */
  method Reach(g: Graph, roots: seq<Name>) returns (seen: set<Name>)
    requires Closed(g) && Within(roots, g)
    ensures forall n :: n in seen <==> Reachable(g, roots, n)
  {
    seen := {};
    var pending := roots;
    RootsExplored(g, roots);
    while pending != []
      invariant Explored(g, roots, seen, pending)
      decreases |g.Keys - seen|, |pending|
    {
      var name, rest := pending[|pending| - 1], pending[..|pending| - 1];
      assert pending == rest + [name];
      ExpandExplored(g, roots, seen, rest, name);
      if name !in seen {
        FewerLeft(g.Keys, seen, name);
        seen := seen + {name};
        pending := rest + g[name];
      } else {
        PopExplored(g, roots, seen, rest, name);
        pending := rest;
      }
    }
    ReachesExactly(g, roots, seen);
  }
}
