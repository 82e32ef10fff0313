/** The analyser as it runs: a growing set of names and a growing list of findings. */
module NameAnalyser {
  import opened NameResolution
  import opened PythonScopes

  lemma {:induction false} BoundHereConcat(a: seq<Node>, b: seq<Node>)
    ensures BoundHere(a + b) == BoundHere(a) + BoundHere(b)
  {
    if a == [] {
      assert a + b == b;
    } else {
      assert (a + b)[1..] == a[1..] + b;
      BoundHereConcat(a[1..], b);
    }
  }

  method CollectBound(nodes: seq<Node>) returns (bound: set<string>)
    ensures forall name :: name in bound <==> BodyBinds(nodes, name)
    ensures bound == BoundHere(nodes)
    decreases nodes, 0
  {
    bound := {};
    for i := 0 to |nodes|
      invariant bound == BoundHere(nodes[..i])
    {
      var more := CollectFrom(nodes[i]);
      BoundHereConcat(nodes[..i], [nodes[i]]);
      assert nodes[..i + 1] == nodes[..i] + [nodes[i]];
      bound := bound + more;
    }
    assert nodes[..|nodes|] == nodes;
    forall name ensures name in bound <==> BodyBinds(nodes, name) {
      BoundHereExact(nodes, name);
    }
  }

  method CollectFrom(node: Node) returns (bound: set<string>)
    ensures bound == BoundBy(node)
    decreases node, 1
  {
    bound := {};
    match node
    case FunctionDef(name, _, _, _) => bound := {name};
    case ClassDef(name, _, _, _) => bound := {name};
    case Import(aliases) => bound := ImportedNames(aliases);
    case NamedExpr(target, value) =>
      bound := CollectFrom(value);
      bound := bound + {target};
    case Binder(before, targets, after) =>
      var b := CollectBound(before);
      var t := CollectBound(targets);
      var a := CollectBound(after);
      bound := TargetNamesAll(targets) + b + t + a;
    case ExceptHandler(caught, children) =>
      bound := CollectBound(children);
      bound := bound + OptionSet(caught);
    case Global(names) => bound := names;
    case Nonlocal(names) => bound := names;
    case Match(children) =>
      bound := CollectBound(children);
      bound := bound + StoredAll(children);
    case Unseen(_, children) => bound := CollectBound(children);
    case Tuple(elts) => bound := CollectBound(elts);
    case Starred(value) => bound := CollectFrom(value);
    case Other(children) => bound := CollectBound(children);
    case _ =>
  }

  lemma {:induction false} ReportsAllSnoc(visible: set<string>, known: set<string>, nodes: seq<Node>, i: nat)
    requires i < |nodes|
    ensures ReportsAll(visible, known, nodes[..i + 1])
            == ReportsAll(visible, known, nodes[..i]) + Reports(visible, known, nodes[i])
  {
    ReportsAllConcat(visible, known, nodes[..i], [nodes[i]]);
    assert nodes[..i + 1] == nodes[..i] + [nodes[i]];
    assert ReportsAll(visible, known, [nodes[i]]) == Reports(visible, known, nodes[i]);
  }

  lemma {:induction false} DefsSnoc(visible: set<string>, known: set<string>, nodes: seq<Node>, i: nat)
    requires i < |nodes|
    ensures ReportsDefs(visible, known, nodes[..i + 1]) == ReportsDefs(visible, known, nodes[..i])
            + (if IsDef(nodes[i]) then Reports(visible, known, nodes[i]) else [])
  {
    if i == 0 {
      assert nodes[..1] == [nodes[0]] && nodes[..0] == [];
    } else {
      DefsSnoc(visible, known, nodes[1..], i - 1);
      assert nodes[..i + 1][1..] == nodes[1..][..i] && nodes[..i][1..] == nodes[1..][..i - 1];
    }
  }

  lemma {:induction false} RestSnoc(visible: set<string>, known: set<string>, nodes: seq<Node>, i: nat)
    requires i < |nodes|
    ensures ReportsRest(visible, known, nodes[..i + 1]) == ReportsRest(visible, known, nodes[..i])
            + (if IsDef(nodes[i]) then [] else Reports(visible, known, nodes[i]))
  {
    if i == 0 {
      assert nodes[..1] == [nodes[0]] && nodes[..0] == [];
    } else {
      RestSnoc(visible, known, nodes[1..], i - 1);
      assert nodes[..i + 1][1..] == nodes[1..][..i] && nodes[..i][1..] == nodes[1..][..i - 1];
    }
  }

  lemma {:induction false} TargetsSnoc(gens: seq<Generator>, i: nat)
    requires i < |gens|
    ensures GeneratorTargets(gens[..i + 1]) == GeneratorTargets(gens[..i]) + TargetNames(gens[i].target)
    decreases i
  {
    if i == 0 {
      assert gens[..1] == [gens[0]] && gens[..1][1..] == [];
    } else {
      TargetsSnoc(gens[1..], i - 1);
      assert gens[..i + 1][1..] == gens[1..][..i] && gens[..i][1..] == gens[1..][..i - 1];
    }
  }

  // What the clause at `i` adds to the findings.
  ghost function ClauseReports(visible: set<string>, known: set<string>, gens: seq<Generator>, i: nat): seq<Finding>
    requires i < |gens|
  {
    var inner := visible + GeneratorTargets(gens[..i]);
    Reports(inner, known, gens[i].iter)
    + ReportsAll(inner + TargetNames(gens[i].target), known, gens[i].conditions)
  }

  lemma {:induction false} GeneratorsSnoc(visible: set<string>, known: set<string>, gens: seq<Generator>, i: nat)
    requires i < |gens|
    ensures ReportsGenerators(visible, known, gens[..i + 1])
            == ReportsGenerators(visible, known, gens[..i]) + ClauseReports(visible, known, gens, i)
    decreases i
  {
    if i == 0 {
      assert gens[..1] == [gens[0]] && gens[..1][1..] == [];
      assert visible + GeneratorTargets(gens[..0]) == visible;
    } else {
      var inner, tail := visible + TargetNames(gens[0].target), gens[1..];
      assert gens[..i + 1][1..] == tail[..i] && gens[..i][1..] == tail[..i - 1];
      GeneratorsSnoc(inner, known, tail, i - 1);
      assert inner + GeneratorTargets(tail[..i - 1]) == visible + GeneratorTargets(gens[..i]);
      assert ClauseReports(inner, known, tail, i - 1) == ClauseReports(visible, known, gens, i);
    }
  }

  class Analyser {
    const builtins: set<string>
    var findings: seq<Finding>

    constructor (builtins: set<string>)
      ensures this.builtins == builtins && findings == []
    {
      this.builtins := builtins;
      findings := [];
    }

    method CheckScope(nodes: seq<Node>, visible: set<string>)
      modifies this
      ensures findings == old(findings) + ReportsAll(visible, builtins, nodes)
      decreases nodes, 0
    {
      for i := 0 to |nodes|
        invariant findings == old(findings) + ReportsAll(visible, builtins, nodes[..i])
      {
        CheckNode(nodes[i], visible);
        ReportsAllSnoc(visible, builtins, nodes, i);
      }
      assert nodes[..|nodes|] == nodes;
    }

    method CheckNode(node: Node, visible: set<string>)
      modifies this
      ensures findings == old(findings) + Reports(visible, builtins, node)
      decreases node, 1
    {
      match node
      case Name(id, line, ctx) =>
        if ctx.Load? && id !in visible && id !in builtins {
          findings := findings + [Finding(line, id)];
        }
      case Tuple(elts) => CheckScope(elts, visible);
      case Starred(value) => CheckNode(value, visible);
      case FunctionDef(_, _, _, _) => CheckFunction(node, visible);
      case Lambda(_, _, _) => CheckLambda(node, visible);
      case ClassDef(_, _, _, _) => CheckClass(node, visible);
      case Comprehension(_, _) => CheckComprehension(node, visible);
      case NamedExpr(_, value) => CheckNode(value, visible);
      case Binder(_, _, _) => CheckBinder(node, visible);
      case ExceptHandler(_, children) => CheckScope(children, visible);
      case Other(children) => CheckScope(children, visible);
      case Match(children) => CheckScope(children, visible);
      case Unseen(_, children) => CheckScope(children, visible);
      case Import(_) =>
      case Global(_) =>
      case Nonlocal(_) =>
    }

    method CheckBinder(node: Node, visible: set<string>)
      requires node.Binder?
      modifies this
      ensures findings == old(findings) + Reports(visible, builtins, node)
      decreases node, 0
    {
      CheckScope(node.before, visible);
      CheckScope(node.targets, visible);
      CheckScope(node.after, visible);
    }

    method CheckComprehension(node: Node, visible: set<string>)
      requires node.Comprehension?
      modifies this
      ensures findings == old(findings) + Reports(visible, builtins, node)
      decreases node, 0
    {
      var inner := CheckGenerators(node.generators, visible);
      CheckScope(node.parts, inner);
    }

    method CheckFunction(node: Node, visible: set<string>)
      requires node.FunctionDef?
      modifies this
      ensures findings == old(findings) + Reports(visible, builtins, node)
      decreases node, 0
    {
      CheckScope(node.header, visible);
      var local := CollectBound(node.body);
      CheckScope(node.body, visible + node.params + local);
    }

    method CheckLambda(node: Node, visible: set<string>)
      requires node.Lambda?
      modifies this
      ensures findings == old(findings) + Reports(visible, builtins, node)
      decreases node, 0
    {
      CheckScope(node.defaults, visible);
      var local := CollectFrom(node.result);
      CheckNode(node.result, visible + node.params + local);
    }

    method CheckClass(node: Node, visible: set<string>)
      requires node.ClassDef?
      modifies this
      ensures findings == old(findings) + Reports(visible, builtins, node)
      decreases node, 0
    {
      CheckScope(node.header, visible);
      var bodyNames := CollectBound(node.body);
      CheckClassBody(node.body, visible + bodyNames, bodyNames);
    }

    method CheckClassBody(body: seq<Node>, visible: set<string>, hidden: set<string>)
      modifies this
      ensures findings == old(findings) + ReportsDefs(visible - hidden, builtins, body)
                          + ReportsRest(visible, builtins, body)
      decreases body, 1
    {
      CheckDefs(body, visible - hidden);
      CheckRest(body, visible);
    }

    method CheckDefs(body: seq<Node>, visible: set<string>)
      modifies this
      ensures findings == old(findings) + ReportsDefs(visible, builtins, body)
      decreases body, 0
    {
      for i := 0 to |body|
        invariant findings == old(findings) + ReportsDefs(visible, builtins, body[..i])
      {
        DefsSnoc(visible, builtins, body, i);
        if IsDef(body[i]) {
          CheckNode(body[i], visible);
        }
      }
      assert body[..|body|] == body;
    }

    method CheckRest(body: seq<Node>, visible: set<string>)
      modifies this
      ensures findings == old(findings) + ReportsRest(visible, builtins, body)
      decreases body, 0
    {
      for i := 0 to |body|
        invariant findings == old(findings) + ReportsRest(visible, builtins, body[..i])
      {
        RestSnoc(visible, builtins, body, i);
        if !IsDef(body[i]) {
          CheckNode(body[i], visible);
        }
      }
      assert body[..|body|] == body;
    }

    method CheckGenerators(generators: seq<Generator>, visible: set<string>) returns (inner: set<string>)
      modifies this
      ensures inner == visible + GeneratorTargets(generators)
      ensures findings == old(findings) + ReportsGenerators(visible, builtins, generators)
      decreases generators, 0
    {
      inner := visible;
      for i := 0 to |generators|
        invariant inner == visible + GeneratorTargets(generators[..i])
        invariant findings == old(findings) + ReportsGenerators(visible, builtins, generators[..i])
      {
        CheckNode(generators[i].iter, inner);
        inner := inner + TargetNames(generators[i].target);
        CheckScope(generators[i].conditions, inner);
        TargetsSnoc(generators, i);
        GeneratorsSnoc(visible, builtins, generators, i);
      }
      assert generators[..|generators|] == generators;
    }
  }

  // `starred`: some `from m import *` occurs anywhere in the tree.
  datatype SourceFile = Unparsable | Parsed(body: seq<Node>, starred: bool)

  // The loop at the end of `check_file`, which keeps the first finding of each (line, name).
  method WithoutDuplicates(findings: seq<Finding>) returns (out: seq<Finding>)
    ensures forall f :: f in out <==> f in findings
    ensures forall i, j :: 0 <= i < j < |out| ==> out[i] != out[j]
  {
    out := [];
    for i := 0 to |findings|
      invariant forall f :: f in out <==> f in findings[..i]
      invariant forall i, j :: 0 <= i < j < |out| ==> out[i] != out[j]
    {
      if findings[i] !in out {
        out := out + [findings[i]];
      }
    }
  }

  /** `check_file`: an unparsable or star-importing file is skipped, the rest reported once per (line, name). */
  method CheckFile(file: SourceFile, builtins: set<string>) returns (out: seq<Finding>)
    ensures file.Unparsable? || file.starred ==> out == []
    ensures file.Parsed? && !file.starred && PyClassFreeAll(file.body) ==>
              forall line, name | NoMissCause(file.body, name) && NoAlarmCause(file.body, name) ::
                Finding(line, name) in out <==>
                name !in builtins && exists node, path, chain ::
                  && Reads(file.body, node, path, line, name, chain) && !InTarget(node, path)
                  && !PyResolves(chain, name)
    ensures file.Parsed? && !file.starred ==> forall f :: f in out <==> f in ModuleReports(file.body, builtins)
    ensures forall i, j :: 0 <= i < j < |out| ==> out[i] != out[j]
  {
    if file.Unparsable? || file.starred {
      return [];
    }
    var moduleNames := CollectBound(file.body);
    var analyser := new Analyser(builtins);
    analyser.CheckScope(file.body, moduleNames);
    assert analyser.findings == ModuleReports(file.body, builtins);
    out := WithoutDuplicates(analyser.findings);
    if PyClassFreeAll(file.body) {
      forall line, name | NoMissCause(file.body, name) && NoAlarmCause(file.body, name)
        ensures Finding(line, name) in out <==>
                name !in builtins && exists node, path, chain ::
                  && Reads(file.body, node, path, line, name, chain) && !InTarget(node, path)
                  && !PyResolves(chain, name)
      {
        ModuleExact(file.body, builtins, line, name);
      }
    }
  }
}
