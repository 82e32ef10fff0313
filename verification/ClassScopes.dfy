/**
 What the analyser makes of classes: a class body's names are denied to its direct defs, headers
 included, and with them outer names the body rebinds.
 */
module ClassScopes {
  import opened NameResolution
  import opened PythonScopes

  lemma {:induction false} ReportsDefsUnion(visible: set<string>, known: set<string>, nodes: seq<Node>, f: Finding)
    ensures f in ReportsDefs(visible, known, nodes)
        <==> exists n :: n in nodes && IsDef(n) && f in Reports(visible, known, n)
    ensures f in ReportsRest(visible, known, nodes)
        <==> exists n :: n in nodes && !IsDef(n) && f in Reports(visible, known, n)
  {
    if nodes != [] {
      ReportsDefsUnion(visible, known, nodes[1..], f);
      assert forall n :: n in nodes <==> n == nodes[0] || n in nodes[1..];
    }
  }

  // A free load of `name` below one of the nodes chosen by `defs`.
  ghost predicate FreeIn(nodes: seq<Node>, defs: bool, line: int, name: string) {
    exists n :: n in nodes && IsDef(n) == defs && FreeLoad(n, line, name)
  }

  /**
   What a class reports, exactly: its direct defs are denied every name the class body binds,
   even one that is also bound outside; its other statements are granted them all.
   */
  lemma ClassReportsExactly(visible: set<string>, known: set<string>, cls: Node, line: int, name: string)
    requires cls.ClassDef? && ClassFreeAll(cls.header) && ClassFreeAll(cls.body)
    ensures Finding(line, name) in Reports(visible, known, cls) <==>
            && name !in known
            && (|| (name !in visible && (FreeIn(cls.header, true, line, name) || FreeIn(cls.header, false, line, name)))
                || ((name !in visible || name in BoundHere(cls.body)) && FreeIn(cls.body, true, line, name))
                || (name !in visible && name !in BoundHere(cls.body) && FreeIn(cls.body, false, line, name)))
  {
    var f, bound := Finding(line, name), BoundHere(cls.body);
    ReportsAllUnion(visible, known, cls.header, f);
    ReportsDefsUnion(visible + bound - bound, known, cls.body, f);
    ReportsDefsUnion(visible + bound, known, cls.body, f);
    forall n | n in cls.header
      ensures f in Reports(visible, known, n) <==> name !in visible && name !in known && FreeLoad(n, line, name)
    {
      ReportedExactly(visible, known, n, line, name);
    }
    forall n, seen | n in cls.body && seen in {visible + bound - bound, visible + bound}
      ensures f in Reports(seen, known, n) <==> name !in seen && name !in known && FreeLoad(n, line, name)
    {
      ReportedExactly(seen, known, n, line, name);
    }
    assert f in Reports(visible, known, cls) <==>
      || f in ReportsAll(visible, known, cls.header)
      || f in ReportsDefs(visible + bound - bound, known, cls.body)
      || f in ReportsRest(visible + bound, known, cls.body);
  }

  /******* A load below a direct method *******/

  lemma {:induction false} OnePlace(node: Node, path: seq<Edge>, end: Node, at: seq<Scope>, other: seq<Scope>)
    requires ReachAt(node, path, end, at) && ReachAt(node, path, end, other)
    ensures at == other
    decreases |path|
  {
    if path != [] {
      var e := path[0];
      OnePlace(e.node, path[1..], end, at[|e.scopes|..], other[|e.scopes|..]);
      assert at == e.scopes + at[|e.scopes|..] && other == e.scopes + other[|e.scopes|..];
    }
  }

  lemma LoadStep(node: Node, e: Edge, path: seq<Edge>, line: int, name: string, at: seq<Scope>)
    requires e in Edges(node) && LoadAt(e.node, path, line, name, at)
    ensures LoadAt(node, [e] + path, line, name, e.scopes + at)
  {
    assert ([e] + path)[1..] == path && (e.scopes + at)[|e.scopes|..] == at;
  }

  lemma FindingEdge(visible: set<string>, known: set<string>, node: Node, f: Finding) returns (e: Edge)
    requires !node.Name? && !node.ClassDef? && f in Reports(visible, known, node)
    ensures e in Edges(node) && f in Reports(visible + AllNames(e.scopes), known, e.node)
  {
    ReportsUnfold(visible, known, node, f);
    e :| e in Edges(node) && f in Reports(visible + AllNames(e.scopes), known, e.node);
  }

  /** Every finding, inside classes too, comes from a load. */
  lemma {:induction false} FindingHasLoad(visible: set<string>, known: set<string>, node: Node, f: Finding)
      returns (path: seq<Edge>, at: seq<Scope>)
    requires f in Reports(visible, known, node)
    ensures LoadAt(node, path, f.line, f.name, at)
    decreases node
  {
    if node.Name? {
      path, at := [], [];
    } else if node.ClassDef? {
      path, at := ClassFindingHasLoad(visible, known, node, f);
    } else {
      var e := FindingEdge(visible, known, node, f);
      if node.Comprehension? && e in ClauseEdges(node.generators, 0) {
        var j := ClauseEdge(node.generators, 0, e);
      }
      path, at := FindingHasLoad(visible + AllNames(e.scopes), known, e.node, f);
      LoadStep(node, e, path, f.line, f.name, at);
      path, at := [e] + path, e.scopes + at;
    }
  }

  lemma {:induction false} ClassFindingHasLoad(visible: set<string>, known: set<string>, cls: Node, f: Finding)
      returns (path: seq<Edge>, at: seq<Scope>)
    requires cls.ClassDef? && f in Reports(visible, known, cls)
    ensures LoadAt(cls, path, f.line, f.name, at)
    decreases cls, 0
  {
    var seen, n, e := ClassPart(visible, known, cls, f);
    path, at := FindingHasLoad(seen, known, n, f);
    LoadStep(cls, e, path, f.line, f.name, at);
    path, at := [e] + path, e.scopes + at;
  }

  // The statement or header part of a class that makes a finding, and what it is granted.
  lemma ClassPart(visible: set<string>, known: set<string>, cls: Node, f: Finding)
      returns (seen: set<string>, n: Node, e: Edge)
    requires cls.ClassDef? && f in Reports(visible, known, cls)
    ensures n in cls.header || n in cls.body
    ensures e in Edges(cls) && e.node == n && f in Reports(seen, known, n)
    ensures || (n in cls.header && e.scopes == [] && seen == visible)
            || (n in cls.body && e.scopes == [ClassScope(cls.body)]
                && seen == if IsDef(n) then visible - BoundHere(cls.body) else visible + BoundHere(cls.body))
  {
    var bound := BoundHere(cls.body);
    assert visible + bound - bound == visible - bound;
    if f in ReportsAll(visible, known, cls.header) {
      ReportsAllUnion(visible, known, cls.header, f);
      n :| n in cls.header && f in Reports(visible, known, n);
      seen := visible;
      e := HeaderEdge(cls, n);
    } else {
      ReportsDefsUnion(visible - bound, known, cls.body, f);
      ReportsDefsUnion(visible + bound, known, cls.body, f);
      if f in ReportsDefs(visible - bound, known, cls.body) {
        n :| n in cls.body && IsDef(n) && f in Reports(visible - bound, known, n);
        seen := visible - bound;
      } else {
        n :| n in cls.body && !IsDef(n) && f in Reports(visible + bound, known, n);
        seen := visible + bound;
      }
      e := BodyEdge(cls, n);
    }
  }

  lemma HeaderEdge(cls: Node, n: Node) returns (e: Edge)
    requires cls.ClassDef? && n in cls.header
    ensures e == Edge(n, []) && e in Edges(cls)
  {
    var i :| 0 <= i < |cls.header| && cls.header[i] == n;
    e := Edges(cls)[i];
  }

  lemma BodyEdge(cls: Node, n: Node) returns (e: Edge)
    requires cls.ClassDef? && n in cls.body
    ensures e == Edge(n, [ClassScope(cls.body)]) && e in Edges(cls)
  {
    var i :| 0 <= i < |cls.body| && cls.body[i] == n;
    e := Edges(cls)[|cls.header| + i];
  }

  // Below direct def `f` of class `cls`, at `path`, stands the module's only load of `name` on `line`.
  ghost predicate OnlyLoad(
      outer: seq<Node>, cls: Node, f: Node, path: seq<Edge>, line: int, name: string, at: seq<Scope>)
    requires cls.ClassDef?
  {
    && cls in outer && f in cls.body && IsDef(f) && LoadAt(f, path, line, name, at)
    && forall n, p, a :: n in outer && LoadAt(n, p, line, name, a) ==>
         n == cls && p == [Edge(f, [ClassScope(cls.body)])] + path
  }

  lemma ReportedByMethod(
      outer: seq<Node>, builtins: set<string>, cls: Node, f: Node, path: seq<Edge>, line: int, name: string,
      at: seq<Scope>)
    requires cls.ClassDef? && OnlyLoad(outer, cls, f, path, line, name, at)
    requires Finding(line, name) in ModuleReports(outer, builtins)
    ensures Finding(line, name) in Reports(BoundHere(outer) - BoundHere(cls.body), builtins, f)
  {
    var finding, visible := Finding(line, name), BoundHere(outer);
    ReportsAllUnion(visible, builtins, outer, finding);
    var n :| n in outer && finding in Reports(visible, builtins, n);
    var p, a := FindingHasLoad(visible, builtins, n, finding);
    var seen, part, e := ClassPart(visible, builtins, cls, finding);
    p, a := FindingHasLoad(seen, builtins, part, finding);
    LoadStep(cls, e, p, line, name, a);
    assert ([e] + p)[0] == e && ([Edge(f, [ClassScope(cls.body)])] + path)[0] == e;
  }

  /** The analyser's verdict on it, whatever else the module holds. */
  lemma MethodReported(
      outer: seq<Node>, builtins: set<string>, cls: Node, f: Node, path: seq<Edge>, line: int, name: string,
      at: seq<Scope>)
    requires cls.ClassDef? && OnlyLoad(outer, cls, f, path, line, name, at) && ClassFree(f)
    ensures Finding(line, name) in ModuleReports(outer, builtins) <==>
            && name !in builtins && name !in AllNames(at)
            && (name !in BoundHere(outer) || name in BoundHere(cls.body))
  {
    var finding, visible, bound := Finding(line, name), BoundHere(outer), BoundHere(cls.body);
    ReportsAllUnion(visible, builtins, outer, finding);
    ReportedExactly(visible - bound, builtins, f, line, name);
    AllNamesExact(at, name);
    if finding in ModuleReports(outer, builtins) {
      ReportedByMethod(outer, builtins, cls, f, path, line, name, at);
      FreeOnce(outer, cls, f, path, line, name, at);
    }
    if name !in builtins && name !in AllNames(at) && (name !in visible || name in bound) {
      assert finding in Reports(visible - bound, builtins, f);
      assert visible + bound - bound == visible - bound;
      ReportsDefsUnion(visible - bound, builtins, cls.body, finding);
      assert finding in Reports(visible, builtins, cls);
    }
  }

  lemma FreeOnce(outer: seq<Node>, cls: Node, f: Node, path: seq<Edge>, line: int, name: string, at: seq<Scope>)
    requires cls.ClassDef? && OnlyLoad(outer, cls, f, path, line, name, at) && FreeLoad(f, line, name)
    ensures name !in AllNames(at)
  {
    var p, a :| LoadAt(f, p, line, name, a) && !SeenAt(a, name);
    var e := BodyEdge(cls, f);
    LoadStep(cls, e, p, line, name, a);
    assert ([e] + p)[1..] == p && ([e] + path)[1..] == path;
    OnePlace(f, path, Name(name, line, Load), at, a);
    AllNamesExact(at, name);
  }

  lemma {:induction false} ClassIsSkipped(top: Scope, cls: Scope, at: seq<Scope>, name: string, functions: bool)
    requires top.ModuleScope? && cls.ClassScope? && Inner(at)
    ensures LookUp([top, cls] + at, name, false, functions) == LookUp([top] + at, name, false, functions)
    decreases |at|
  {
    var chain, flat := [top, cls] + at, [top] + at;
    if at == [] {
      assert chain == [top, cls] && flat == [top] && Outer(chain) == flat;
    } else {
      assert Last(chain) == Last(flat) == Last(at) && Last(at) in at;
      assert Outer(chain) == [top, cls] + Outer(at) && Outer(flat) == [top] + Outer(at);
      ClassIsSkipped(top, cls, Outer(at), name, functions);
      ClassIsSkipped(top, cls, Outer(at), name, true);
    }
  }

  /**
   Where the class rule leaves Python's: on the only load of a name on its line, inside a direct
   method, what `check_file` reports differs from what it would report without the class exactly
   on an outer name that the class body rebinds, while Python resolves both alike.
   */
  lemma MethodVerdict(
      outer: seq<Node>, builtins: set<string>, cls: Node, f: Node, path: seq<Edge>, line: int, name: string,
      at: seq<Scope>)
    requires cls.ClassDef? && OnlyLoad(outer, cls, f, path, line, name, at) && ClassFree(f)
    requires at != [] && name !in builtins
    ensures var flat, chain := [ModuleScope(outer)] + at, [ModuleScope(outer), ClassScope(cls.body)] + at;
            var reported := Finding(line, name) in ModuleReports(outer, builtins);
            var rebound := name in BoundHere(outer) && name in BoundHere(cls.body) && name !in AllNames(at);
            && (reported <==> name !in AllNames(flat) || rebound)
            && (PyResolves(chain, name) <==> PyResolves(flat, name))
            // so where the flat verdict is Python's, the method's is too but for a rebound name
            && (!Missed(flat, name) && !FalseAlarm(flat, name) ==>
                  (!PyResolves(chain, name) ==> reported) && (reported && PyResolves(chain, name) <==> rebound))
  {
    var m, c := ModuleScope(outer), ClassScope(cls.body);
    MethodReported(outer, builtins, cls, f, path, line, name, at);
    ChainNames(outer, at);
    ClassFreeScopes(f, path, Name(name, line, Load), at);
    ClassIsSkipped(m, c, at, name, false);
    assert Last([m] + at) == Last([m, c] + at) == Last(at) && Last(at) in at;
    DirectOrNot([m] + at, name, false);
    DirectOrNot([m, c] + at, name, false);
  }

  /**
   In the header of a direct def Python sees the class body and the analyser does not: a name the
   body binds, such as the property in `@x.setter`, is reported there exactly unless it is a builtin.
   */
  lemma HeaderFalsePositive(
      outer: seq<Node>, builtins: set<string>, cls: Node, f: Node, path: seq<Edge>, line: int, name: string)
    requires cls.ClassDef? && OnlyLoad(outer, cls, f, path, line, name, []) && ClassFree(f)
    requires name in BoundHere(cls.body)
    ensures Finding(line, name) in ModuleReports(outer, builtins) <==> name !in builtins
    ensures !AnyOdd(cls.body, name) ==> PyResolves([ModuleScope(outer), ClassScope(cls.body)], name)
  {
    MethodReported(outer, builtins, cls, f, path, line, name, []);
    BodiesCompared(cls.body, name);
  }
}
