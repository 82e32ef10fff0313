/** Inputs on which the analyser's verdict and Python's differ. */
module ScopeExamples {
  import opened NameResolution
  import opened PythonScopes

  // Nothing in a set of nodes closed under same-scope steps binds the name.
  lemma {:induction false} ClosedBindsNothing(nodes: set<Node>, node: Node, path: seq<Node>, name: string)
    requires node in nodes
    requires forall n :: n in nodes ==> !PyOwns(n, name) && forall m :: m in PySameScope(n) ==> m in nodes
    ensures !PyBindsAt(node, path, name)
    decreases |path|
  {
    if path != [] && path[0] in PySameScope(node) {
      ClosedBindsNothing(nodes, path[0], path[1..], name);
    }
  }

  ghost predicate EdgesStayIn(nodes: set<Node>, scopes: set<Scope>) {
    forall n :: n in nodes ==> NodeStaysIn(n, nodes, scopes)
  }

  ghost predicate NodeStaysIn(node: Node, nodes: set<Node>, scopes: set<Scope>) {
    forall e :: e in PyEdges(node) ==> e.node in nodes && AllIn(e.scopes, scopes)
  }

  ghost predicate AllIn(at: seq<Scope>, scopes: set<Scope>) {
    forall s :: s in at ==> s in scopes
  }

  lemma JoinIn(a: seq<Scope>, b: seq<Scope>, scopes: set<Scope>)
    requires AllIn(a, scopes) && AllIn(b, scopes)
    ensures AllIn(a + b, scopes)
  {
  }

  // Only these scopes are entered from a set of nodes closed under edges.
  lemma {:induction false} ClosedEnters(
      nodes: set<Node>, scopes: set<Scope>, node: Node, path: seq<Edge>, end: Node, at: seq<Scope>)
    requires node in nodes && PyReachAt(node, path, end, at)
    requires EdgesStayIn(nodes, scopes)
    ensures AllIn(at, scopes)
    decreases |path|
  {
    if path != [] {
      var rest := ReachStep(node, path, end, at);
      StayStep(nodes, scopes, node, path[0]);
      ClosedEnters(nodes, scopes, path[0].node, path[1..], end, rest);
      JoinIn(path[0].scopes, rest, scopes);
    }
  }

  lemma StayStep(nodes: set<Node>, scopes: set<Scope>, node: Node, e: Edge)
    requires NodeStaysIn(node, nodes, scopes) && e in PyEdges(node)
    ensures e.node in nodes && AllIn(e.scopes, scopes)
  {
  }

  lemma NotBoundInModule(body: seq<Node>, nodes: set<Node>, scopes: set<Scope>, name: string)
    requires forall n :: n in body ==> n in nodes
    requires EdgesStayIn(nodes, scopes)
    requires !PyBodyBinds(body, name) && forall s :: s in scopes ==> !BindsGlobally(s, name)
    ensures !ModuleBinds(body, name)
  {
    if BoundUnderGlobal(body, name) {
      var chain, i :| StandsIn(body, chain) && 1 <= i < |chain| && BindsGlobally(chain[i], name);
      var node, path, end :| node in body && chain[0] == ModuleScope(body) && PyReachAt(node, path, end, chain[1..]);
      ClosedEnters(nodes, scopes, node, path, end, chain[1..]);
    }
  }

  // def f(): global q; return q
  const LOAD := Name("q", 1, Load)
  const USE := Other([LOAD])
  const STRAY := [Global({"q"}), USE]
  const STRAY_DEF := FunctionDef("f", [], {}, STRAY)
  const STRAY_SCOPE := FunctionScope({}, STRAY)

  lemma StrayLoad(body: seq<Node>)
    requires STRAY_DEF in body
    ensures exists path :: Reads(body, STRAY_DEF, path, 1, "q", [ModuleScope(body), STRAY_SCOPE])
  {
    var last := [Edge(LOAD, [])];
    var path, at := [Edge(USE, [STRAY_SCOPE])] + last, [STRAY_SCOPE];
    assert PyEdges(USE)[0] == last[0] && last[1..] == [];
    assert PyReachAt(USE, last, LOAD, []);
    assert PyEdges(STRAY_DEF)[1] == path[0] && path[1..] == last && at[1..] == [];
    assert PyReachAt(STRAY_DEF, path, LOAD, at);
    assert [ModuleScope(body), STRAY_SCOPE][1..] == at;
    assert Reads(body, STRAY_DEF, path, 1, "q", [ModuleScope(body), STRAY_SCOPE]);
  }

  lemma StrayBindsNothing()
    ensures !Binds(STRAY_SCOPE, "q")
  {
    var nodes: set<Node> := {STRAY[0], USE, LOAD};
    forall n, path | n in STRAY ensures !PyBindsAt(n, path, "q") {
      ClosedBindsNothing(nodes, n, path, "q");
    }
  }

  lemma StrayIsCollected()
    ensures OddScope(STRAY_SCOPE, "q")
  {
    assert OddAt(STRAY[0], [], "q", GlobalName) && STRAY[0] in STRAY;
  }

  /** `def f(): global q; return q` is a miss in every module that does not bind `q`. */
  lemma GlobalMissed(body: seq<Node>)
    requires STRAY_DEF in body && !ModuleBinds(body, "q")
    ensures var chain := [ModuleScope(body), STRAY_SCOPE];
            && (exists path :: Reads(body, STRAY_DEF, path, 1, "q", chain))
            && !PyResolves(chain, "q") && Missed(chain, "q")
  {
    var chain := [ModuleScope(body), STRAY_SCOPE];
    StrayLoad(body);
    StrayBindsNothing();
    NothingBinds(chain, "q", true, false);
    StrayIsCollected();
    OddIsSeen(chain, "q", STRAY_SCOPE);
  }

  lemma StrayStaysIn()
    ensures EdgesStayIn({STRAY[0], USE, LOAD, STRAY_DEF}, {STRAY_SCOPE})
  {
    var nodes: set<Node>, scopes: set<Scope> := {STRAY[0], USE, LOAD, STRAY_DEF}, {STRAY_SCOPE};
    assert PyEdges(STRAY_DEF) == Under(STRAY, [STRAY_SCOPE]);
    assert NodeStaysIn(STRAY_DEF, nodes, scopes);
    assert PyEdges(USE) == Under([LOAD], []);
    assert NodeStaysIn(USE, nodes, scopes);
    assert PyEdges(LOAD) == [] && PyEdges(STRAY[0]) == [];
  }

  lemma StrayIsUnbound()
    ensures !ModuleBinds([STRAY_DEF], "q")
  {
    var nodes: set<Node> := {STRAY[0], USE, LOAD, STRAY_DEF};
    StrayStaysIn();
    StrayBindsNothing();
    assert !BindsGlobally(STRAY_SCOPE, "q");
    forall path ensures !PyBindsAt(STRAY_DEF, path, "q") {
      ClosedBindsNothing({STRAY_DEF}, STRAY_DEF, path, "q");
    }
    NotBoundInModule([STRAY_DEF], nodes, {STRAY_SCOPE}, "q");
  }

  /** Alone in its module it gives no finding at all. */
  lemma StrayGoesUnreported()
    ensures PyClassFreeAll([STRAY_DEF]) && !ModuleBinds([STRAY_DEF], "q") && ModuleReports([STRAY_DEF], {}) == []
  {
    StrayIsUnbound();
    ClassFreeNode(LOAD);
    ClassFreeNode(USE);
    ClassFreeNode(STRAY[0]);
    ClassFreeNode(STRAY_DEF);
    StrayIsQuiet(BoundHere([STRAY_DEF]));
    AloneIsQuiet(STRAY_DEF, {});
  }

  lemma StrayIsQuiet(visible: set<string>)
    ensures Reports(visible, {}, STRAY_DEF) == []
  {
    assert "q" in BoundHere(STRAY);
    var inner := visible + {} + BoundHere(STRAY);
    assert Reports(inner, {}, LOAD) == [];
    assert [LOAD][1..] == [] && ReportsAll(inner, {}, [LOAD]) == [];
    assert Reports(inner, {}, USE) == [];
    assert [USE][1..] == [] && ReportsAll(inner, {}, [USE]) == [];
    assert STRAY[1..] == [USE] && Reports(inner, {}, STRAY[0]) == [];
    assert ReportsAll(inner, {}, STRAY) == [];
    assert Reports(visible, {}, STRAY_DEF) == ReportsAll(visible, {}, []) + ReportsAll(inner, {}, STRAY);
  }

  // match v: case 1: def g(): q = 1
  const TARGET := Name("q", 2, Store)
  const STORE := Binder([], [TARGET], [])
  const NESTED := FunctionDef("g", [], {}, [STORE])
  const CASE := Match([NESTED])

  lemma CaseStaysIn()
    ensures EdgesStayIn({CASE, NESTED, STORE, TARGET}, {FunctionScope({}, [STORE])})
  {
    assert PyEdges(CASE) == Under([NESTED], []);
    assert PyEdges(NESTED) == Under([STORE], [FunctionScope({}, [STORE])]);
    assert PyEdges(STORE) == Under([TARGET], []) && PyEdges(TARGET) == [];
  }

  lemma CaseIsUnbound()
    ensures !ModuleBinds([CASE], "q")
  {
    var scope := FunctionScope({}, [STORE]);
    forall path ensures !PyBindsAt(CASE, path, "q") {
      ClosedBindsNothing({CASE, NESTED}, CASE, path, "q");
    }
    forall path ensures !OddAt(STORE, path, "q", GlobalName) {
      assert path != [] && path[0] == TARGET ==> !OddAt(TARGET, path[1..], "q", GlobalName);
    }
    assert !HasOdd([STORE], "q", GlobalName);
    CaseStaysIn();
    NotBoundInModule([CASE], {CASE, NESTED, STORE, TARGET}, {scope}, "q");
  }

  /** `match v: case 1: def g(): q = 1` makes the module's loads of `q` misses. */
  lemma MatchIsMissed()
    ensures Missed([ModuleScope([CASE])], "q")
  {
    CaseIsUnbound();
    assert StoreAt(TARGET, [], "q");
    assert Kids(STORE)[0] == TARGET && [TARGET][1..] == [] && StoreAt(STORE, [TARGET], "q");
    assert Kids(NESTED)[0] == STORE && [STORE, TARGET][1..] == [TARGET] && StoreAt(NESTED, [STORE, TARGET], "q");
    assert Stores(NESTED, "q") && NESTED in [NESTED];
    MatchMissed([CASE], [NESTED], "q");
  }

  /** `[(y := 1) for x in z]` followed by `y` reports `y`, which Python binds in the module. */
  lemma WalrusFalsePositive()
    ensures exists body, node, path, chain ::
              && PyClassFreeAll(body) && Reads(body, node, path, 2, "y", chain)
              && PyResolves(chain, "y") && Finding(2, "y") in ModuleReports(body, {})
  {
    var unit, iter, use := Other([]), Name("z", 1, Load), Name("y", 2, Load);
    var walrus, bound := NamedExpr("y", unit), Name("x", 1, Store);
    var comp := Comprehension([Generator(bound, iter, [])], [walrus]);
    var body := [comp, use];
    var chain := [ModuleScope(body)];
    assert PyClassFreeAll(body) by {
      ClassFreeNode(unit);
      ClassFreeNode(iter);
      ClassFreeNode(bound);
      ClassFreeNode(use);
      ClassFreeNode(walrus);
      ClassFreeComprehension(comp);
    }
    assert Reads(body, use, [], 2, "y", chain);
    assert ModuleBinds(body, "y") by {
      assert PySameScope(comp)[0] == walrus && PyBindsAt(walrus, [], "y");
      assert [walrus][1..] == [] && PyBindsAt(comp, [walrus], "y") && comp in body;
    }
    BoundHereUnion(body, "y");
    LastNames(chain);
    UnseenInModule(body, {}, use, [], 2, "y", chain);
  }

  // [0 for q.x in z]
  const ATTRIBUTE := Other([LOAD])
  const ITER := Name("z", 1, Load)
  const ZERO := Other([])
  const COMP := Comprehension([Generator(ATTRIBUTE, ITER, [])], [ZERO])
  const CLAUSE := ClauseScope(COMP.generators, 0)

  lemma CompEdges()
    ensures Edges(COMP) == [Edge(ITER, []), Edge(ZERO, [CLAUSE])]
    ensures TargetEdges(COMP.generators) == [Edge(ATTRIBUTE, [CLAUSE])]
  {
    var clauses := Clauses(COMP.generators);
    assert clauses == [CLAUSE] && clauses[..0] == [] && clauses[..1] == [CLAUSE];
    assert ClauseEdges(COMP.generators, 1) == [] && Under([], clauses[..1]) == [];
    assert ClauseEdges(COMP.generators, 0) == [Edge(ITER, [])] + Under([], clauses[..1]) + [];
    assert Under([ZERO], clauses) == [Edge(ZERO, [CLAUSE])];
    assert TargetEdges(COMP.generators)[0] == Edge(ATTRIBUTE, clauses[..1]);
  }

  lemma TargetIsEvaluated()
    ensures exists path ::
              Reads([COMP], COMP, path, 1, "q", [ModuleScope([COMP]), CLAUSE]) && InTarget(COMP, path)
  {
    var first, last := Edge(ATTRIBUTE, [CLAUSE]), [Edge(LOAD, [])];
    var path, at := [first] + last, [CLAUSE];
    assert PyEdges(ATTRIBUTE)[0] == last[0] && last[1..] == [];
    assert PyReachAt(ATTRIBUTE, last, LOAD, []);
    CompEdges();
    assert TargetEdges(COMP.generators)[0] == first && first in PyEdges(COMP);
    assert path[0] == first && path[1..] == last && at[1..] == [];
    assert PyReachAt(COMP, path, LOAD, at);
    assert [ModuleScope([COMP]), CLAUSE][1..] == at;
    assert Reads([COMP], COMP, path, 1, "q", [ModuleScope([COMP]), CLAUSE]);
    assert first !in Edges(COMP);
  }

  lemma TargetStaysIn()
    ensures EdgesStayIn({COMP, ATTRIBUTE, LOAD, ITER, ZERO}, {CLAUSE})
  {
    CompEdges();
    assert PyEdges(COMP) == [Edge(ITER, []), Edge(ZERO, [CLAUSE]), Edge(ATTRIBUTE, [CLAUSE])];
    assert PyEdges(ATTRIBUTE) == Under([LOAD], []);
    assert PyEdges(LOAD) == [] && PyEdges(ITER) == [] && PyEdges(ZERO) == [];
  }

  lemma TargetIsUnbound()
    ensures !ModuleBinds([COMP], "q") && !Binds(CLAUSE, "q")
  {
    var nodes: set<Node> := {COMP, ATTRIBUTE, LOAD, ITER, ZERO};
    assert GeneratorNodes(COMP.generators[1..]) == [];
    forall path ensures !TargetAt(ATTRIBUTE, path, "q") {
      assert TargetParts(ATTRIBUTE) == [];
    }
    forall path ensures !PyBindsAt(COMP, path, "q") {
      ClosedBindsNothing(nodes, COMP, path, "q");
    }
    TargetStaysIn();
    NotBoundInModule([COMP], nodes, {CLAUSE}, "q");
  }

  lemma TargetIsClassFree()
    ensures PyClassFree(COMP)
  {
    ClassFreeNode(LOAD);
    ClassFreeNode(ATTRIBUTE);
    ClassFreeNode(ZERO);
    ClassFreeNode(ITER);
    ClassFreeComprehension(COMP);
  }

  /** `[0 for q.x in z]` with `q` unbound: Python cannot resolve the load, and there is no finding. */
  lemma TargetGoesUnreported()
    ensures PyClassFreeAll([COMP]) && ModuleReports([COMP], {"z"}) == []
    ensures exists path, chain ::
              Reads([COMP], COMP, path, 1, "q", chain) && InTarget(COMP, path) && !PyResolves(chain, "q")
  {
    var chain := [ModuleScope([COMP]), CLAUSE];
    TargetIsEvaluated();
    TargetIsUnbound();
    NothingBinds(chain, "q", true, false);
    TargetIsClassFree();
    TargetIsQuiet(BoundHere([COMP]));
    AloneIsQuiet(COMP, {"z"});
  }

  lemma TargetIsQuiet(visible: set<string>)
    ensures Reports(visible, {"z"}, COMP) == []
  {
    var inner := visible + TargetNames(ATTRIBUTE);
    assert COMP.generators[1..] == [] && ReportsGenerators(inner, {"z"}, []) == [];
    assert Reports(visible, {"z"}, ITER) == [] && ReportsAll(inner, {"z"}, []) == [];
    assert ReportsGenerators(visible, {"z"}, COMP.generators) == [];
    var rest := visible + GeneratorTargets(COMP.generators);
    assert Reports(rest, {"z"}, ZERO) == ReportsAll(rest, {"z"}, []) == [];
    assert [ZERO][1..] == [] && ReportsAll(rest, {"z"}, [ZERO]) == [];
  }

  lemma AloneIsQuiet(node: Node, builtins: set<string>)
    requires Reports(BoundHere([node]), builtins, node) == []
    ensures ModuleReports([node], builtins) == []
  {
    var visible := BoundHere([node]);
    assert [node][1..] == [] && ReportsAll(visible, builtins, []) == [];
    assert ReportsAll(visible, builtins, [node]) == Reports(visible, builtins, node) + [];
  }

  lemma ClassFreeNode(node: Node)
    requires !node.ClassDef? && forall e :: e in PyEdges(node) ==> PyClassFree(e.node)
    ensures PyClassFree(node)
  {
    forall path: seq<Edge>, end: Node | PyBelow(node, path, end)
      ensures !end.ClassDef?
    {
      if path != [] {
        assert PyBelow(path[0].node, path[1..], end);
      }
    }
  }

  lemma ClassFreeComprehension(comp: Node)
    requires comp.Comprehension? && PyClassFreeAll(comp.parts)
    requires forall g :: g in comp.generators ==>
               PyClassFree(g.target) && PyClassFree(g.iter) && PyClassFreeAll(g.conditions)
    ensures PyClassFree(comp)
  {
    forall e | e in PyEdges(comp) ensures PyClassFree(e.node) {
      if e in ClauseEdges(comp.generators, 0) {
        var j := ClauseEdge(comp.generators, 0, e);
      }
    }
    ClassFreeNode(comp);
  }
}
