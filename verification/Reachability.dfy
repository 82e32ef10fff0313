/**
 The orphan-module detector: the intra-repository import graph is built by resolving every
 imported name to its longest prefix that is a module, walked from the entrypoints with a
 stack, and the modules never reached are reported.
 */
module Reachability {
  import opened Common

  // A dotted name, as its parts.
  type Name = seq<string>

  // `inits`: the modules that are a package's __init__.py.  `imports`: every name a file imports.
  datatype Repo = Repo(modules: set<Name>, inits: set<Name>, imports: map<Name, set<Name>>)

  type Graph = map<Name, set<Name>>

  predicate WellFormed(repo: Repo) {
    repo.imports.Keys == repo.modules && repo.inits <= repo.modules
  }

  // Packages above `m` that are modules themselves.
  function Ancestors(m: Name, modules: set<Name>): set<Name> {
    set i | 1 <= i < |m| && m[..i] in modules :: m[..i]
  }

  function EdgesOf(graph: Graph, m: Name): set<Name> {
    if m in graph then graph[m] else {}
  }

  /******* Resolving an import *******/

  /** `p` is the longest non-empty prefix of `name` that is a module. */
  predicate IsLongest(name: Name, modules: set<Name>, p: Name) {
    && p in Prefixes(name, modules)
    && forall q :: q in Prefixes(name, modules) ==> |q| <= |p|
  }

  function Prefixes(name: Name, modules: set<Name>): set<Name> {
    set i | 1 <= i <= |name| && name[..i] in modules :: name[..i]
  }

  method Resolve(name: Name, modules: set<Name>) returns (found: Option<Name>)
    ensures found.None? ==> Prefixes(name, modules) == {}
    ensures found.Some? ==> IsLongest(name, modules, found.value)
  {
    var i := |name|;
    while i > 0
      invariant 0 <= i <= |name|
      invariant forall j :: i < j <= |name| ==> name[..j] !in modules
    {
      if name[..i] in modules {
        found := Some(name[..i]);
        return;
      }
      i := i - 1;
    }
    found := None;
  }

  /** The edges `build_graph` records for one file. */
  ghost predicate LongestEdges(modules: set<Name>, imported: set<Name>, edges: set<Name>) {
    && (forall e :: e in edges ==> exists n :: n in imported && IsLongest(n, modules, e))
    && (forall n, p :: n in imported && IsLongest(n, modules, p) ==> p in edges)
  }

  ghost predicate LongestGraph(repo: Repo, graph: Graph) {
    && graph.Keys == repo.modules
    && forall m :: m in graph && m in repo.imports ==> LongestEdges(repo.modules, repo.imports[m], graph[m])
  }

  lemma LongestIsUnique(name: Name, modules: set<Name>, p: Name, q: Name)
    requires IsLongest(name, modules, p) && IsLongest(name, modules, q)
    ensures p == q
  {
  }

  method FileEdges(imported: set<Name>, modules: set<Name>) returns (edges: set<Name>)
    ensures LongestEdges(modules, imported, edges)
  {
    edges := {};
    var pending := imported;
    while pending != {}
      invariant pending <= imported
      invariant LongestEdges(modules, imported - pending, edges)
      decreases |pending|
    {
      var name :| name in pending;
      var found := Resolve(name, modules);
      ghost var done := imported - pending;
      if found.Some? {
        AddEdge(modules, done, edges, name, found.value);
        edges := edges + {found.value};
      }
      assert imported - (pending - {name}) == done + {name};
      pending := pending - {name};
    }
    assert imported - pending == imported;
  }

  lemma AddEdge(modules: set<Name>, done: set<Name>, edges: set<Name>, name: Name, p: Name)
    requires LongestEdges(modules, done, edges) && IsLongest(name, modules, p)
    ensures LongestEdges(modules, done + {name}, edges + {p})
  {
    forall n, q | n in done + {name} && IsLongest(n, modules, q) ensures q in edges + {p} {
      if n == name {
        LongestIsUnique(n, modules, p, q);
      }
    }
  }

  method BuildGraph(repo: Repo) returns (graph: Graph)
    requires WellFormed(repo)
    ensures LongestGraph(repo, graph)
  {
    graph := map[];
    var pending := repo.modules;
    while pending != {}
      invariant pending <= repo.modules && graph.Keys == repo.modules - pending
      invariant forall m :: m in graph ==> LongestEdges(repo.modules, repo.imports[m], graph[m])
      decreases |pending|
    {
      var m :| m in pending;
      var edges := FileEdges(repo.imports[m], repo.modules);
      graph := graph[m := edges];
      pending := pending - {m};
    }
  }

  /******* Reachability *******/

  /** Closed under imports and under ancestor packages. */
  ghost predicate Closed(modules: set<Name>, graph: Graph, s: set<Name>) {
    forall m :: m in s ==> Ancestors(m, modules) <= s && EdgesOf(graph, m) <= s
  }

  ghost predicate IsLeast(modules: set<Name>, graph: Graph, entry: set<Name>, reached: set<Name>) {
    && entry <= reached && Closed(modules, graph, reached)
    && forall s :: entry <= s && Closed(modules, graph, s) ==> reached <= s
  }

  method Listed(s: set<Name>) returns (out: seq<Name>)
    ensures forall x :: x in out <==> x in s
  {
    out := [];
    var pending := s;
    while pending != {}
      invariant pending <= s && forall x :: x in out <==> x in s - pending
      decreases |pending|
    {
      var x :| x in pending;
      out := out + [x];
      pending := pending - {x};
    }
  }

  function Elements(names: seq<Name>): set<Name> { set e | e in names }

  // Everything on the stack is bound to be reached, and nothing already seen leads elsewhere.
  ghost predicate Walking(modules: set<Name>, graph: Graph, entry: set<Name>, seen: set<Name>, stack: seq<Name>) {
    && (forall e :: e in entry ==> e in seen || e in stack)
    && (forall m, n :: m in seen && (n in Ancestors(m, modules) || n in EdgesOf(graph, m)) ==> n in seen || n in stack)
    && (forall s :: entry <= s && Closed(modules, graph, s) ==> seen <= s && forall m :: m in stack ==> m in s)
  }

  lemma WalkOn(
      modules: set<Name>, graph: Graph, entry: set<Name>, seen: set<Name>, stack: seq<Name>, m: Name, more: seq<Name>)
    requires Walking(modules, graph, entry, seen, stack + [m])
    requires forall n :: n in more <==> n in (Ancestors(m, modules) + EdgesOf(graph, m)) - (seen + {m})
    ensures Walking(modules, graph, entry, seen + {m}, stack + more)
  {
    forall s | entry <= s && Closed(modules, graph, s)
      ensures seen + {m} <= s && forall n :: n in stack + more ==> n in s
    {
      assert m in stack + [m];
      assert forall n :: n in stack ==> n in stack + [m];
    }
    forall k, n | k in seen + {m} && (n in Ancestors(k, modules) || n in EdgesOf(graph, k))
      ensures n in seen + {m} || n in stack + more
    {
      if k in seen {
        assert n in seen || n in stack + [m];
      }
    }
    forall e | e in entry ensures e in seen + {m} || e in stack + more {
      assert e in seen || e in stack + [m];
    }
  }

  lemma WalkSeen(modules: set<Name>, graph: Graph, entry: set<Name>, seen: set<Name>, stack: seq<Name>, m: Name)
    requires Walking(modules, graph, entry, seen, stack + [m]) && m in seen
    ensures Walking(modules, graph, entry, seen, stack)
  {
    assert forall n :: n in stack + [m] <==> n in stack || n == m;
  }

  /** `reachable` ends, with the least set that holds the entrypoints and is closed. */
  method Reachable(modules: set<Name>, graph: Graph, entrypoints: seq<Name>) returns (seen: set<Name>)
    requires forall m :: m in graph ==> graph[m] <= modules
    ensures IsLeast(modules, graph, Elements(entrypoints), seen)
    ensures seen <= modules + Elements(entrypoints)
  {
    seen := {};
    var stack := entrypoints;
    ghost var entry := Elements(entrypoints);
    ghost var all := modules + entry;
    while stack != []
      invariant Walking(modules, graph, entry, seen, stack)
      invariant seen <= all && forall m :: m in stack ==> m in all
      decreases all - seen, |stack|
    {
      var m := stack[|stack| - 1];
      ghost var before := stack;
      stack := stack[..|stack| - 1];
      assert before == stack + [m];
      if m in seen {
        WalkSeen(modules, graph, entry, seen, stack, m);
      } else {
        var more := Listed((Ancestors(m, modules) + EdgesOf(graph, m)) - (seen + {m}));
        WalkOn(modules, graph, entry, seen, stack, m, more);
        seen := seen + {m};
        stack := stack + more;
      }
    }
    assert entry <= seen;
    assert Closed(modules, graph, seen);
  }

  /******* What the least closed set is *******/

  // One hop: an import edge or a step up to an ancestor package.
  predicate Hop(modules: set<Name>, graph: Graph, m: Name, n: Name) {
    n in Ancestors(m, modules) || n in EdgesOf(graph, m)
  }

  ghost predicate Chain(modules: set<Name>, graph: Graph, entry: set<Name>, path: seq<Name>, m: Name) {
    && path != [] && path[0] in entry && path[|path| - 1] == m
    && forall i :: 0 < i < |path| ==> Hop(modules, graph, path[i - 1], path[i])
  }

  ghost predicate ReachedBy(modules: set<Name>, graph: Graph, entry: set<Name>, m: Name) {
    exists path :: Chain(modules, graph, entry, path, m)
  }

  lemma {:induction false} ChainStaysInside(
      modules: set<Name>, graph: Graph, entry: set<Name>, path: seq<Name>, m: Name, s: set<Name>)
    requires Chain(modules, graph, entry, path, m) && entry <= s && Closed(modules, graph, s)
    ensures m in s
    decreases |path|
  {
    if |path| > 1 {
      var n := |path| - 1;
      assert Hop(modules, graph, path[n - 1], path[n]);
      assert Chain(modules, graph, entry, path[..n], path[n - 1]);
      ChainStaysInside(modules, graph, entry, path[..n], path[n - 1], s);
    }
  }

  lemma HopOn(modules: set<Name>, graph: Graph, entry: set<Name>, m: Name, n: Name)
    requires ReachedBy(modules, graph, entry, m) && Hop(modules, graph, m, n)
    ensures ReachedBy(modules, graph, entry, n)
  {
    var path :| Chain(modules, graph, entry, path, m);
    assert Chain(modules, graph, entry, path + [n], n);
  }

  /** A module is in the least closed set iff a chain of imports and ancestor steps leads to it. */
  lemma LeastIsReached(modules: set<Name>, graph: Graph, entry: set<Name>, reached: set<Name>, m: Name)
    requires IsLeast(modules, graph, entry, reached)
    ensures m in reached <==> ReachedBy(modules, graph, entry, m)
  {
    if ReachedBy(modules, graph, entry, m) {
      var path :| Chain(modules, graph, entry, path, m);
      ChainStaysInside(modules, graph, entry, path, m, reached);
    }
    if m in reached {
      var s := set n | n in reached && ReachedBy(modules, graph, entry, n);
      forall n | n in entry ensures n in s {
        assert Chain(modules, graph, entry, [n], n);
      }
      forall n, k | n in s && Hop(modules, graph, n, k) ensures k in s {
        HopOn(modules, graph, entry, n, k);
      }
      assert Closed(modules, graph, s);
    }
  }

  /******* Longest-prefix edges against an edge to every prefix *******/

  /** The graph with an edge to every existing prefix of every imported name. */
  function EveryPrefix(repo: Repo): Graph {
    map m | m in repo.imports :: set n, p | n in repo.imports[m] && p in Prefixes(n, repo.modules) :: p
  }

  ghost predicate EdgeClosed(graph: Graph, s: set<Name>) {
    forall m :: m in s ==> EdgesOf(graph, m) <= s
  }

  // Least under the edges alone.
  ghost predicate IsLeastByEdges(graph: Graph, entry: set<Name>, reached: set<Name>) {
    && entry <= reached && EdgeClosed(graph, reached)
    && forall s :: entry <= s && EdgeClosed(graph, s) ==> reached <= s
  }

  function WithAncestors(modules: set<Name>, entry: set<Name>): set<Name> {
    entry + set e, a | e in entry && a in Ancestors(e, modules) :: a
  }

  lemma LongestExists(name: Name, modules: set<Name>, p: Name) returns (q: Name)
    requires p in Prefixes(name, modules)
    ensures IsLongest(name, modules, q) && (p == q || p in Ancestors(q, modules))
  {
    var k :| 1 <= k <= |name| && name[..k] in modules && p == name[..k];
    var j := LongestFrom(name, modules, k, |name|);
    q := name[..j];
    assert p == q[..k];
  }

  lemma {:induction false} LongestFrom(name: Name, modules: set<Name>, k: nat, i: nat) returns (j: nat)
    requires 1 <= k <= i <= |name| && name[..k] in modules
    requires forall l :: i < l <= |name| ==> name[..l] !in modules
    ensures k <= j <= |name| && IsLongest(name, modules, name[..j])
    decreases i
  {
    if name[..i] in modules {
      j := i;
    } else {
      j := LongestFrom(name, modules, k, i - 1);
    }
  }

  // A set closed under ancestors is closed under the longest edges iff under all of them.
  lemma ClosedEitherWay(repo: Repo, graph: Graph, s: set<Name>)
    requires WellFormed(repo) && LongestGraph(repo, graph)
    requires forall m :: m in s ==> Ancestors(m, repo.modules) <= s
    ensures EdgeClosed(graph, s) <==> EdgeClosed(EveryPrefix(repo), s)
  {
    var all := EveryPrefix(repo);
    if EdgeClosed(graph, s) {
      forall m, p | m in s && p in EdgesOf(all, m) ensures p in s {
        var n :| n in repo.imports[m] && p in Prefixes(n, repo.modules);
        var q := LongestExists(n, repo.modules, p);
        assert q in EdgesOf(graph, m);
      }
    }
    if EdgeClosed(all, s) {
      forall m, e | m in s && e in EdgesOf(graph, m) ensures e in s {
        var n :| n in repo.imports[m] && IsLongest(n, repo.modules, e);
        assert e in EdgesOf(all, m);
      }
    }
  }

  lemma AncestorOfPrefix(name: Name, modules: set<Name>, p: Name, a: Name)
    requires p in Prefixes(name, modules) && a in Ancestors(p, modules)
    ensures a in Prefixes(name, modules)
  {
    var i :| 1 <= i <= |name| && name[..i] in modules && p == name[..i];
    var j :| 1 <= j < |p| && p[..j] in modules && a == p[..j];
    assert a == name[..j];
  }

  lemma AncestorOfAncestor(modules: set<Name>, e: Name, a: Name, b: Name)
    requires a in Ancestors(e, modules) && b in Ancestors(a, modules)
    ensures b in Ancestors(e, modules)
  {
    var i :| 1 <= i < |e| && e[..i] in modules && a == e[..i];
    var j :| 1 <= j < |a| && a[..j] in modules && b == a[..j];
    assert b == e[..j];
  }

  // Edges to every prefix, from entrypoints taken with their packages, never miss a package.
  lemma PrefixReachHasAncestors(repo: Repo, entry: set<Name>, reached: set<Name>)
    requires WellFormed(repo) && IsLeastByEdges(EveryPrefix(repo), WithAncestors(repo.modules, entry), reached)
    ensures forall m :: m in reached ==> Ancestors(m, repo.modules) <= reached
  {
    var all, seeds := EveryPrefix(repo), WithAncestors(repo.modules, entry);
    var s := set m | m in reached && Ancestors(m, repo.modules) <= reached;
    forall m | m in seeds ensures m in s {
      if m !in entry {
        var e, a :| e in entry && a in Ancestors(e, repo.modules) && m == a;
        forall b | b in Ancestors(m, repo.modules) ensures b in reached {
          AncestorOfAncestor(repo.modules, e, m, b);
          assert b in seeds;
        }
      } else {
        forall b | b in Ancestors(m, repo.modules) ensures b in reached {
          assert b in seeds;
        }
      }
    }
    forall m, p | m in s && p in EdgesOf(all, m) ensures p in s {
      var n :| n in repo.imports[m] && p in Prefixes(n, repo.modules);
      forall b | b in Ancestors(p, repo.modules) ensures b in reached {
        AncestorOfPrefix(n, repo.modules, p, b);
        assert b in EdgesOf(all, m);
      }
    }
    assert EdgeClosed(all, s);
  }

  /**
   Resolving each import to its longest prefix only, and adding ancestor packages while
   walking, reaches exactly what an edge to every existing prefix would reach.
   */
  lemma LongestPrefixSuffices(repo: Repo, graph: Graph, entry: set<Name>, reached: set<Name>, other: set<Name>)
    requires WellFormed(repo) && LongestGraph(repo, graph)
    requires IsLeast(repo.modules, graph, entry, reached)
    requires IsLeastByEdges(EveryPrefix(repo), WithAncestors(repo.modules, entry), other)
    ensures reached == other
  {
    var seeds := WithAncestors(repo.modules, entry);
    ClosedEitherWay(repo, graph, reached);
    assert EdgeClosed(graph, reached);
    forall m | m in seeds ensures m in reached {
      if m !in entry {
        var e, a :| e in entry && a in Ancestors(e, repo.modules) && m == a;
        assert m in Ancestors(e, repo.modules);
      }
    }
    PrefixReachHasAncestors(repo, entry, other);
    ClosedEitherWay(repo, graph, other);
    assert Closed(repo.modules, graph, other);
    assert entry <= other;
  }

  /******* Orphans *******/

  datatype Report = MissingEntrypoints(missing: set<Name>) | Orphans(modules: set<Name>)

  // `m` is no package init and no chain from the entrypoints leads to it.
  ghost predicate IsOrphan(repo: Repo, graph: Graph, entry: set<Name>, m: Name) {
    m in repo.modules && m !in repo.inits && !ReachedBy(repo.modules, graph, entry, m)
  }

  /**
   `find_orphans` fails closed on a missing entrypoint; otherwise a module is reported iff it is
   not a package init and no chain of imports and ancestor steps from the entrypoints leads to it.
   */
  method FindOrphans(repo: Repo, entrypoints: seq<Name>) returns (report: Report, graph: Graph)
    requires WellFormed(repo)
    ensures report.MissingEntrypoints? <==> !(Elements(entrypoints) <= repo.modules)
    ensures LongestGraph(repo, graph)
    ensures report.Orphans? ==> forall m :: m in report.modules <==> IsOrphan(repo, graph, Elements(entrypoints), m)
  {
    graph := BuildGraph(repo);
    if !(Elements(entrypoints) <= repo.modules) {
      return MissingEntrypoints(Elements(entrypoints) - repo.modules), graph;
    }
    assert forall m :: m in graph ==> graph[m] <= repo.modules;
    var reached := Reachable(repo.modules, graph, entrypoints);
    report := Orphans(set m | m in repo.modules && m !in reached && m !in repo.inits);
    forall m ensures m in reached <==> ReachedBy(repo.modules, graph, Elements(entrypoints), m) {
      LeastIsReached(repo.modules, graph, Elements(entrypoints), reached, m);
    }
  }

  /** `--check` exits 0 exactly when the allowlist is today's orphans, no more and no fewer. */
  function CheckExit(orphans: set<Name>, allowed: set<Name>): (code: int)
    ensures code == 0 <==> orphans == allowed
  {
    if orphans - allowed != {} then 1 else if allowed - orphans != {} then 1 else 0
  }
}
