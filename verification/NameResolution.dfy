/**
 The undefined-name analyser: `_bound_here` flattens one scope into the set of names it
 collects, `_check_scope` carries a single flat `visible` set down the tree and reports every
 load that is in neither `visible` nor the builtins.

 What it amounts to is said without building a set.  A load is found by a path of `Edge`s from
 the root, the path collects the scopes it enters, and a scope collects a name when another
 path, one that does not leave that scope, ends at a node with that name.
 */
module NameResolution {
  import opened Common

  datatype Node =
    | Name(id: string, line: int, ctx: Ctx)
    | Tuple(elts: seq<Node>)
    | Starred(value: Node)
      // header: decorators, defaults and annotations, all evaluated in the enclosing scope
    | FunctionDef(name: string, header: seq<Node>, params: set<string>, body: seq<Node>)
    | Lambda(defaults: seq<Node>, params: set<string>, result: Node)
      // keywords (`metaclass=...`) are never looked at by the analyser
    | ClassDef(name: string, header: seq<Node>, keywords: seq<Node>, body: seq<Node>)
    | Comprehension(generators: seq<Generator>, parts: seq<Node>)
    | Import(aliases: seq<Alias>)
    | NamedExpr(target: string, value: Node)
      // assignments, `for` and `with`: sub-nodes in child order around the binding targets
    | Binder(before: seq<Node>, targets: seq<Node>, after: seq<Node>)
    | ExceptHandler(caught: Option<string>, children: seq<Node>)
    | Global(names: set<string>)
    | Nonlocal(names: set<string>)
    | Match(children: seq<Node>)
      // binds `names` in Python, but the analyser looks for no such construct: a capture in a
      // `match` pattern, the targets of `del`, a `type` alias
    | Unseen(names: set<string>, children: seq<Node>)
    | Other(children: seq<Node>)

  datatype Ctx = Load | Store | Del

  datatype Generator = Generator(target: Node, iter: Node, conditions: seq<Node>)

  // `name as asname`; the name may be dotted, or "*".
  datatype Alias = Alias(name: string, asname: Option<string>)

  datatype Finding = Finding(line: int, name: string)

  /******* The analyser as functions *******/

  function TargetNames(node: Node): set<string> {
    match node
    case Name(id, _, _) => {id}
    case Tuple(elts) => TargetNamesAll(elts)
    case Starred(value) => TargetNames(value)
    case _ => {}
  }

  function TargetNamesAll(nodes: seq<Node>): set<string> {
    if nodes == [] then {} else TargetNames(nodes[0]) + TargetNamesAll(nodes[1..])
  }

  function BoundBy(node: Node): set<string> {
    match node
    case Name(_, _, _) => {}
    case Tuple(elts) => BoundHere(elts)
    case Starred(value) => BoundBy(value)
    case FunctionDef(name, _, _, _) => {name}
    case Lambda(_, _, _) => {}
    case ClassDef(name, _, _, _) => {name}
    case Comprehension(_, _) => {}
    case Import(aliases) => ImportedNames(aliases)
    case NamedExpr(target, value) => {target} + BoundBy(value)
    case Binder(before, targets, after) =>
      TargetNamesAll(targets) + BoundHere(before) + BoundHere(targets) + BoundHere(after)
    case ExceptHandler(caught, children) => OptionSet(caught) + BoundHere(children)
    case Global(names) => names
    case Nonlocal(names) => names
    case Match(children) => StoredAll(children) + BoundHere(children)
    case Unseen(_, children) => BoundHere(children)
    case Other(children) => BoundHere(children)
  }

  // Every name stored to anywhere below, nested functions and comprehensions included, as
  // `ast.walk` finds them below a `match`.
  function Stored(node: Node): set<string> {
    match node
    case Name(id, _, ctx) => if ctx.Store? then {id} else {}
    case Tuple(elts) => StoredAll(elts)
    case Starred(value) => Stored(value)
    case FunctionDef(_, header, _, body) => StoredAll(header) + StoredAll(body)
    case Lambda(defaults, _, result) => StoredAll(defaults) + Stored(result)
    case ClassDef(_, header, keywords, body) => StoredAll(header) + StoredAll(keywords) + StoredAll(body)
    case Comprehension(generators, parts) => StoredClauses(generators) + StoredAll(parts)
    case Import(_) => {}
    case NamedExpr(target, value) => {target} + Stored(value)
    case Binder(before, targets, after) => StoredAll(before) + StoredAll(targets) + StoredAll(after)
    case ExceptHandler(_, children) => StoredAll(children)
    case Global(_) => {}
    case Nonlocal(_) => {}
    case Match(children) => StoredAll(children)
    case Unseen(_, children) => StoredAll(children)
    case Other(children) => StoredAll(children)
  }

  function StoredAll(nodes: seq<Node>): set<string> {
    if nodes == [] then {} else Stored(nodes[0]) + StoredAll(nodes[1..])
  }

  function StoredClauses(generators: seq<Generator>): set<string> {
    if generators == [] then {}
    else
      Stored(generators[0].target) + Stored(generators[0].iter) + StoredAll(generators[0].conditions)
      + StoredClauses(generators[1..])
  }

  function BoundHere(nodes: seq<Node>): set<string> {
    if nodes == [] then {} else BoundBy(nodes[0]) + BoundHere(nodes[1..])
  }

  function ImportedNames(aliases: seq<Alias>): set<string> {
    set a <- aliases | a.name != "*" :: if a.asname.Some? then a.asname.value else FirstPart(a.name)
  }

  // name.split(".")[0]
  function FirstPart(name: string): string {
    if name == "" || name[0] == '.' then "" else [name[0]] + FirstPart(name[1..])
  }

  function OptionSet(o: Option<string>): set<string> {
    if o.Some? then {o.value} else {}
  }

  /** What `_check_scope` appends for one child.  The analyser also asks the builtins, here `known`. */
  function Reports(visible: set<string>, known: set<string>, node: Node): seq<Finding>
    decreases node, 1
  {
    match node
    case Name(id, line, ctx) =>
      if ctx.Load? && id !in visible && id !in known then [Finding(line, id)] else []
    case Tuple(elts) => ReportsAll(visible, known, elts)
    case Starred(value) => Reports(visible, known, value)
    case FunctionDef(_, header, params, body) =>
      ReportsAll(visible, known, header)
      + ReportsAll(visible + params + BoundHere(body), known, body)
    case Lambda(defaults, params, result) =>
      ReportsAll(visible, known, defaults)
      + Reports(visible + params + BoundBy(result), known, result)
    case ClassDef(_, header, _, body) =>
      var inClass := visible + BoundHere(body);
      ReportsAll(visible, known, header)
      + ReportsDefs(inClass - BoundHere(body), known, body)
      + ReportsRest(inClass, known, body)
    case Comprehension(generators, parts) =>
      ReportsGenerators(visible, known, generators)
      + ReportsAll(visible + GeneratorTargets(generators), known, parts)
    case Import(_) => []
    case NamedExpr(_, value) => Reports(visible, known, value)
    case Binder(before, targets, after) =>
      ReportsAll(visible, known, before) + ReportsAll(visible, known, targets)
      + ReportsAll(visible, known, after)
    case ExceptHandler(_, children) => ReportsAll(visible, known, children)
    case Global(_) => []
    case Nonlocal(_) => []
    case Match(children) => ReportsAll(visible, known, children)
    case Unseen(_, children) => ReportsAll(visible, known, children)
    case Other(children) => ReportsAll(visible, known, children)
  }

  function ReportsAll(visible: set<string>, known: set<string>, nodes: seq<Node>): seq<Finding>
    decreases nodes, 0
  {
    if nodes == [] then []
    else Reports(visible, known, nodes[0]) + ReportsAll(visible, known, nodes[1..])
  }

  predicate IsDef(node: Node) { node.FunctionDef? || node.ClassDef? }

  // The two passes of `_check_scope_body` over a class body: direct defs first, then the rest.
  function ReportsDefs(visible: set<string>, known: set<string>, nodes: seq<Node>): seq<Finding>
    decreases nodes, 0
  {
    if nodes == [] then []
    else (if IsDef(nodes[0]) then Reports(visible, known, nodes[0]) else [])
         + ReportsDefs(visible, known, nodes[1..])
  }

  function ReportsRest(visible: set<string>, known: set<string>, nodes: seq<Node>): seq<Finding>
    decreases nodes, 0
  {
    if nodes == [] then []
    else (if IsDef(nodes[0]) then [] else Reports(visible, known, nodes[0]))
         + ReportsRest(visible, known, nodes[1..])
  }

  // `inner` grows clause by clause: a clause sees the targets of the clauses to its left.
  function ReportsGenerators(visible: set<string>, known: set<string>, generators: seq<Generator>): seq<Finding>
    decreases generators, 0
  {
    if generators == [] then []
    else
      var inner := visible + TargetNames(generators[0].target);
      Reports(visible, known, generators[0].iter)
      + ReportsAll(inner, known, generators[0].conditions)
      + ReportsGenerators(inner, known, generators[1..])
  }

  function GeneratorTargets(generators: seq<Generator>): set<string> {
    if generators == [] then {} else TargetNames(generators[0].target) + GeneratorTargets(generators[1..])
  }

  /******* Scopes, edges and paths *******/

  datatype Scope =
    | ModuleScope(body: seq<Node>)
    | FunctionScope(params: set<string>, body: seq<Node>)
    | ClassScope(body: seq<Node>)
      // the `i`th `for` clause of a comprehension
    | ClauseScope(generators: seq<Generator>, i: nat)

  // A sub-node that is evaluated, and the scopes entered on the way to it.
  datatype Edge = Edge(node: Node, scopes: seq<Scope>)

  ghost function Under(nodes: seq<Node>, scopes: seq<Scope>): seq<Edge> {
    seq(|nodes|, i requires 0 <= i < |nodes| => Edge(nodes[i], scopes))
  }

  ghost function Edges(node: Node): seq<Edge> {
    match node
    case Name(_, _, _) => []
    case Tuple(elts) => Under(elts, [])
    case Starred(value) => Under([value], [])
    case FunctionDef(_, header, params, body) =>
      Under(header, []) + Under(body, [FunctionScope(params, body)])
    case Lambda(defaults, params, result) =>
      Under(defaults, []) + Under([result], [FunctionScope(params, [result])])
    case ClassDef(_, header, _, body) => Under(header, []) + Under(body, [ClassScope(body)])
    case Comprehension(generators, parts) =>
      ClauseEdges(generators, 0) + Under(parts, Clauses(generators))
    case Import(_) => []
    case NamedExpr(_, value) => Under([value], [])
    case Binder(before, targets, after) => Under(before + targets + after, [])
    case ExceptHandler(_, children) => Under(children, [])
    case Global(_) => []
    case Nonlocal(_) => []
    case Match(children) => Under(children, [])
    case Unseen(_, children) => Under(children, [])
    case Other(children) => Under(children, [])
  }

  ghost function Clauses(generators: seq<Generator>): seq<Scope> {
    seq(|generators|, i requires 0 <= i < |generators| => ClauseScope(generators, i))
  }

  // Each clause is evaluated inside the clauses to its left, its conditions inside itself too.
  ghost function ClauseEdges(generators: seq<Generator>, i: nat): seq<Edge>
    requires i <= |generators|
    decreases |generators| - i
  {
    if i == |generators| then []
    else
      [Edge(generators[i].iter, Clauses(generators)[..i])]
      + Under(generators[i].conditions, Clauses(generators)[..i + 1])
      + ClauseEdges(generators, i + 1)
  }

  /** Following `path` from `node` ends at `end`, having entered `at`. */
  ghost predicate ReachAt(node: Node, path: seq<Edge>, end: Node, at: seq<Scope>)
    decreases |path|
  {
    if path == [] then node == end && at == []
    else
      && path[0] in Edges(node)
      && path[0].scopes <= at
      && ReachAt(path[0].node, path[1..], end, at[|path[0].scopes|..])
  }

  /** It ends at a load of `name` on `line`. */
  ghost predicate LoadAt(node: Node, path: seq<Edge>, line: int, name: string, at: seq<Scope>) {
    ReachAt(node, path, Name(name, line, Load), at)
  }

  /** An import of this alias binds `name`: its `as` name, or all of its own up to the first dot. */
  predicate Imports(a: Alias, name: string) {
    && a.name != "*"
    && match a.asname
       case Some(asname) => name == asname
       case None => '.' !in name && (a.name == name || name + "." <= a.name)
  }

  /** Following `path` through tuples, lists and stars of an assignment target ends at `name`. */
  ghost predicate TargetAt(node: Node, path: seq<Node>, name: string)
    decreases |path|
  {
    if path == [] then node.Name? && node.id == name
    else path[0] in TargetParts(node) && TargetAt(path[0], path[1..], name)
  }

  ghost function TargetParts(node: Node): seq<Node> {
    match node
    case Tuple(elts) => elts
    case Starred(value) => [value]
    case _ => []
  }

  ghost predicate Targets(node: Node, name: string) { exists path :: TargetAt(node, path, name) }

  /** Following `path` through any child nodes ends at a store to `name`. */
  ghost predicate StoreAt(node: Node, path: seq<Node>, name: string)
    decreases |path|
  {
    if path == [] then (node.Name? && node.ctx.Store? && node.id == name) || (node.NamedExpr? && node.target == name)
    else path[0] in Kids(node) && StoreAt(path[0], path[1..], name)
  }

  ghost function Kids(node: Node): seq<Node> {
    match node
    case Tuple(elts) => elts
    case Starred(value) => [value]
    case FunctionDef(_, header, _, body) => header + body
    case Lambda(defaults, _, result) => defaults + [result]
    case ClassDef(_, header, keywords, body) => header + keywords + body
    case Comprehension(generators, parts) => GeneratorNodes(generators) + parts
    case NamedExpr(_, value) => [value]
    case Binder(before, targets, after) => before + targets + after
    case ExceptHandler(_, children) => children
    case Match(children) => children
    case Unseen(_, children) => children
    case Other(children) => children
    case _ => []
  }

  ghost function GeneratorNodes(generators: seq<Generator>): seq<Node> {
    if generators == [] then []
    else
      [generators[0].target, generators[0].iter] + generators[0].conditions + GeneratorNodes(generators[1..])
  }

  ghost predicate Stores(node: Node, name: string) { exists path :: StoreAt(node, path, name) }

  /** The analyser collects `name` at the node itself. */
  ghost predicate Owns(node: Node, name: string) {
    match node
    case FunctionDef(n, _, _, _) => n == name
    case ClassDef(n, _, _, _) => n == name
    case Import(aliases) => exists a :: a in aliases && Imports(a, name)
    case NamedExpr(target, _) => target == name
    case Binder(_, targets, _) => exists t :: t in targets && Targets(t, name)
    case ExceptHandler(caught, _) => caught == Some(name)
    case Global(names) => name in names
    case Nonlocal(names) => name in names
    case Match(children) => exists c :: c in children && Stores(c, name)
    case _ => false
  }

  // Sub-nodes the analyser collects into the same scope.
  ghost function SameScope(node: Node): seq<Node> {
    match node
    case Tuple(elts) => elts
    case Starred(value) => [value]
    case NamedExpr(_, value) => [value]
    case Binder(before, targets, after) => before + targets + after
    case ExceptHandler(_, children) => children
    case Match(children) => children
    case Unseen(_, children) => children
    case Other(children) => children
    case _ => []
  }

  /** Following `path` from `node` without leaving the scope ends at a node where `name` is collected. */
  ghost predicate BindsAt(node: Node, path: seq<Node>, name: string)
    decreases |path|
  {
    if path == [] then Owns(node, name)
    else path[0] in SameScope(node) && BindsAt(path[0], path[1..], name)
  }

  ghost predicate BodyBinds(body: seq<Node>, name: string) {
    exists node, path :: node in body && BindsAt(node, path, name)
  }

  ghost predicate ScopeBinds(scope: Scope, name: string) {
    match scope
    case FunctionScope(params, body) => name in params || BodyBinds(body, name)
    case ModuleScope(body) => BodyBinds(body, name)
    case ClassScope(body) => BodyBinds(body, name)
    case ClauseScope(generators, i) => i < |generators| && Targets(generators[i].target, name)
  }

  /** `name` is collected in one of the scopes entered. */
  ghost predicate SeenAt(at: seq<Scope>, name: string) {
    exists s :: s in at && ScopeBinds(s, name)
  }

  /** A load of `name` on `line` somewhere below `node` that no scope entered on the way collects. */
  ghost predicate FreeLoad(node: Node, line: int, name: string) {
    exists path, at :: LoadAt(node, path, line, name, at) && !SeenAt(at, name)
  }

  ghost predicate ClassFree(node: Node) {
    forall path: seq<Edge>, end: Node :: Below(node, path, end) ==> !end.ClassDef?
  }

  ghost predicate Below(node: Node, path: seq<Edge>, end: Node)
    decreases |path|
  {
    if path == [] then end == node
    else path[0] in Edges(node) && Below(path[0].node, path[1..], end)
  }

  /******* The flat binding set is the set of names bound along same-scope paths *******/

  lemma {:induction false} BoundHereUnion(nodes: seq<Node>, name: string)
    ensures name in BoundHere(nodes) <==> exists n :: n in nodes && name in BoundBy(n)
  {
    if nodes != [] {
      BoundHereUnion(nodes[1..], name);
      assert nodes[0] in nodes && forall n :: n in nodes[1..] ==> n in nodes;
      if n :| n in nodes && name in BoundBy(n) {
        assert n == nodes[0] || n in nodes[1..];
      }
    }
  }

  /******* The collectors *******/

  lemma {:induction false} FirstPartExact(whole: string, name: string)
    ensures FirstPart(whole) == name <==> '.' !in name && (whole == name || name + "." <= whole)
  {
    if whole != "" && whole[0] != '.' {
      assert whole == [whole[0]] + whole[1..];
      if name != "" {
        FirstPartExact(whole[1..], name[1..]);
        assert name == [name[0]] + name[1..];
        assert (name + ".")[1..] == name[1..] + ".";
        assert name + "." <= whole <==> name[0] == whole[0] && name[1..] + "." <= whole[1..] by {
          if name + "." <= whole {
            assert whole[..|name| + 1] == name + ".";
            assert whole[1..][..|name|] == whole[..|name| + 1][1..];
          }
          if name[0] == whole[0] && name[1..] + "." <= whole[1..] {
            assert whole[..|name| + 1] == [whole[0]] + whole[1..][..|name|];
          }
        }
      }
    } else if whole != "" {
      assert name + "." <= whole ==> (name + ".")[0] == whole[0];
      assert whole == "." + whole[1..];
    }
  }

  lemma ImportedExactly(aliases: seq<Alias>, name: string)
    ensures name in ImportedNames(aliases) <==> exists a :: a in aliases && Imports(a, name)
  {
    forall a | a in aliases
      ensures Imports(a, name) <==>
              a.name != "*" && name == if a.asname.Some? then a.asname.value else FirstPart(a.name)
    {
      FirstPartExact(a.name, name);
    }
  }

  lemma {:induction false} TargetNamesUnion(nodes: seq<Node>, name: string)
    ensures name in TargetNamesAll(nodes) <==> exists n :: n in nodes && name in TargetNames(n)
  {
    if nodes != [] {
      TargetNamesUnion(nodes[1..], name);
      assert nodes[0] in nodes && forall n :: n in nodes[1..] ==> n in nodes;
      if n :| n in nodes && name in TargetNames(n) {
        assert n == nodes[0] || n in nodes[1..];
      }
    }
  }

  lemma TargetNamesUnfold(node: Node, name: string)
    ensures name in TargetNames(node) <==>
            (node.Name? && node.id == name) || exists n :: n in TargetParts(node) && name in TargetNames(n)
  {
    TargetNamesUnion(TargetParts(node), name);
    if node.Starred? {
      assert TargetParts(node)[0] == node.value;
    }
  }

  lemma {:induction false} TargetPath(node: Node, name: string) returns (path: seq<Node>)
    requires name in TargetNames(node)
    ensures TargetAt(node, path, name)
    decreases node
  {
    TargetNamesUnfold(node, name);
    if node.Name? {
      path := [];
    } else {
      var next :| next in TargetParts(node) && name in TargetNames(next);
      var rest := TargetPath(next, name);
      path := [next] + rest;
    }
  }

  lemma {:induction false} PathTargets(node: Node, path: seq<Node>, name: string)
    requires TargetAt(node, path, name)
    ensures name in TargetNames(node)
    decreases |path|
  {
    TargetNamesUnfold(node, name);
    if path != [] {
      PathTargets(path[0], path[1..], name);
    }
  }

  /** `_target_names` finds exactly the names at the ends of those paths. */
  lemma TargetNamesExact(node: Node, name: string)
    ensures name in TargetNames(node) <==> Targets(node, name)
  {
    if name in TargetNames(node) {
      var path := TargetPath(node, name);
    }
    if path :| TargetAt(node, path, name) {
      PathTargets(node, path, name);
    }
  }

  lemma {:induction false} StoredUnion(nodes: seq<Node>, name: string)
    ensures name in StoredAll(nodes) <==> exists n :: n in nodes && name in Stored(n)
  {
    if nodes != [] {
      StoredUnion(nodes[1..], name);
      assert nodes[0] in nodes && forall n :: n in nodes[1..] ==> n in nodes;
      if n :| n in nodes && name in Stored(n) {
        assert n == nodes[0] || n in nodes[1..];
      }
    }
  }

  lemma {:induction false} StoredConcat(a: seq<Node>, b: seq<Node>)
    ensures StoredAll(a + b) == StoredAll(a) + StoredAll(b)
  {
    if a == [] {
      assert a + b == b;
    } else {
      assert (a + b)[1..] == a[1..] + b;
      StoredConcat(a[1..], b);
    }
  }

  lemma StoredOne(node: Node)
    ensures StoredAll([node]) == Stored(node)
  {
    assert [node][1..] == [];
  }

  lemma {:induction false} StoredInClauses(generators: seq<Generator>)
    ensures StoredClauses(generators) == StoredAll(GeneratorNodes(generators))
  {
    if generators != [] {
      var g, rest := generators[0], GeneratorNodes(generators[1..]);
      StoredInClauses(generators[1..]);
      StoredOne(g.target);
      StoredOne(g.iter);
      StoredConcat([g.target], [g.iter]);
      StoredConcat([g.target, g.iter], g.conditions);
      StoredConcat([g.target, g.iter] + g.conditions, rest);
      assert [g.target, g.iter] == [g.target] + [g.iter];
    }
  }

  lemma StoredUnfold(node: Node, name: string)
    ensures name in Stored(node) <==>
            StoreAt(node, [], name) || exists n :: n in Kids(node) && name in Stored(n)
  {
    StoredUnion(Kids(node), name);
    match node
    case Starred(value) => StoredOne(value);
    case NamedExpr(_, value) => StoredOne(value);
    case FunctionDef(_, header, _, body) => StoredConcat(header, body);
    case Lambda(defaults, _, result) =>
      StoredConcat(defaults, [result]);
      StoredOne(result);
    case ClassDef(_, header, keywords, body) =>
      StoredConcat(header, keywords);
      StoredConcat(header + keywords, body);
    case Comprehension(generators, parts) =>
      StoredInClauses(generators);
      StoredConcat(GeneratorNodes(generators), parts);
    case Binder(before, targets, after) =>
      StoredConcat(before, targets);
      StoredConcat(before + targets, after);
    case _ =>
  }

  lemma {:induction false} ClausePart(generators: seq<Generator>, n: Node)
    requires n in GeneratorNodes(generators)
    ensures exists g :: g in generators && (n == g.target || n == g.iter || n in g.conditions)
  {
    var g := generators[0];
    assert g in generators;
    if n !in [g.target, g.iter] + g.conditions {
      ClausePart(generators[1..], n);
    }
  }

  lemma {:induction false} StorePath(node: Node, name: string) returns (path: seq<Node>)
    requires name in Stored(node)
    ensures StoreAt(node, path, name)
    decreases node
  {
    StoredUnfold(node, name);
    if StoreAt(node, [], name) {
      path := [];
    } else {
      var next :| next in Kids(node) && name in Stored(next);
      if node.Comprehension? && next in GeneratorNodes(node.generators) {
        ClausePart(node.generators, next);
      }
      var rest := StorePath(next, name);
      path := [next] + rest;
    }
  }

  lemma {:induction false} PathStores(node: Node, path: seq<Node>, name: string)
    requires StoreAt(node, path, name)
    ensures name in Stored(node)
    decreases |path|
  {
    StoredUnfold(node, name);
    if path != [] {
      PathStores(path[0], path[1..], name);
    }
  }

  /** What is collected below a `match` is exactly what some child path stores to. */
  lemma StoredExact(node: Node, name: string)
    ensures name in Stored(node) <==> Stores(node, name)
  {
    if name in Stored(node) {
      var path := StorePath(node, name);
    }
    if path :| StoreAt(node, path, name) {
      PathStores(node, path, name);
    }
  }

  // What `_bound_here` adds for the node itself.
  function Added(node: Node): set<string> {
    match node
    case FunctionDef(name, _, _, _) => {name}
    case ClassDef(name, _, _, _) => {name}
    case Import(aliases) => ImportedNames(aliases)
    case NamedExpr(target, _) => {target}
    case Binder(_, targets, _) => TargetNamesAll(targets)
    case ExceptHandler(caught, _) => OptionSet(caught)
    case Global(names) => names
    case Nonlocal(names) => names
    case Match(children) => StoredAll(children)
    case _ => {}
  }

  lemma OwnsExact(node: Node, name: string)
    ensures name in Added(node) <==> Owns(node, name)
  {
    match node
    case Import(aliases) => ImportedExactly(aliases, name);
    case Binder(_, targets, _) =>
      TargetNamesUnion(targets, name);
      forall t | t in targets ensures name in TargetNames(t) <==> Targets(t, name) {
        TargetNamesExact(t, name);
      }
    case Match(children) =>
      StoredUnion(children, name);
      forall c | c in children ensures name in Stored(c) <==> Stores(c, name) {
        StoredExact(c, name);
      }
    case _ =>
  }

  lemma BoundByUnfold(node: Node, name: string)
    ensures name in BoundBy(node) <==>
            Owns(node, name) || exists n :: n in SameScope(node) && name in BoundBy(n)
  {
    BoundHereUnion(SameScope(node), name);
    OwnsExact(node, name);
    match node
    case Binder(before, targets, after) =>
      BoundHereUnion(before, name);
      BoundHereUnion(targets, name);
      BoundHereUnion(after, name);
    case Starred(value) => assert SameScope(node)[0] == value;
    case NamedExpr(_, value) => assert SameScope(node)[0] == value;
    case _ =>
  }

  lemma {:induction false} BindingPath(node: Node, name: string) returns (path: seq<Node>)
    requires name in BoundBy(node)
    ensures BindsAt(node, path, name)
    decreases node
  {
    BoundByUnfold(node, name);
    if Owns(node, name) {
      path := [];
    } else {
      var next :| next in SameScope(node) && name in BoundBy(next);
      var rest := BindingPath(next, name);
      path := [next] + rest;
    }
  }

  lemma {:induction false} PathBinds(node: Node, path: seq<Node>, name: string)
    requires BindsAt(node, path, name)
    ensures name in BoundBy(node)
    decreases |path|
  {
    BoundByUnfold(node, name);
    if path != [] {
      PathBinds(path[0], path[1..], name);
    }
  }

  /** `_bound_here` collects exactly the names bound at the end of some same-scope path. */
  lemma BoundHereExact(body: seq<Node>, name: string)
    ensures name in BoundHere(body) <==> BodyBinds(body, name)
  {
    BoundHereUnion(body, name);
    if name in BoundHere(body) {
      var node :| node in body && name in BoundBy(node);
      var path := BindingPath(node, name);
    }
    if BodyBinds(body, name) {
      var node, path :| node in body && BindsAt(node, path, name);
      PathBinds(node, path, name);
    }
  }

  /******* The flat report is the report along edges *******/

  // The names one scope adds to `visible`.
  ghost function ScopeNames(scope: Scope): set<string> {
    match scope
    case FunctionScope(params, body) => params + BoundHere(body)
    case ModuleScope(body) => BoundHere(body)
    case ClassScope(body) => BoundHere(body)
    case ClauseScope(generators, i) => if i < |generators| then TargetNames(generators[i].target) else {}
  }

  ghost function AllNames(scopes: seq<Scope>): set<string> {
    if scopes == [] then {} else ScopeNames(scopes[0]) + AllNames(scopes[1..])
  }

  lemma ScopeNamesExact(scope: Scope, name: string)
    ensures name in ScopeNames(scope) <==> ScopeBinds(scope, name)
  {
    if !scope.ClauseScope? {
      BoundHereExact(scope.body, name);
    } else if scope.i < |scope.generators| {
      TargetNamesExact(scope.generators[scope.i].target, name);
    }
  }

  lemma {:induction false} AllNamesExact(scopes: seq<Scope>, name: string)
    ensures name in AllNames(scopes) <==> SeenAt(scopes, name)
  {
    if scopes != [] {
      ScopeNamesExact(scopes[0], name);
      AllNamesExact(scopes[1..], name);
      assert forall s :: s in scopes <==> s == scopes[0] || s in scopes[1..];
    }
  }

  // A finding reached through one of these edges.
  ghost predicate Through(visible: set<string>, known: set<string>, edges: seq<Edge>, f: Finding) {
    exists e :: e in edges && f in Reports(visible + AllNames(e.scopes), known, e.node)
  }

  lemma ThroughConcat(visible: set<string>, known: set<string>, a: seq<Edge>, b: seq<Edge>, f: Finding)
    ensures Through(visible, known, a + b, f) <==> Through(visible, known, a, f) || Through(visible, known, b, f)
  {
  }

  lemma {:induction false} ThroughUnder(
      visible: set<string>, known: set<string>, nodes: seq<Node>, scopes: seq<Scope>, f: Finding)
    ensures f in ReportsAll(visible + AllNames(scopes), known, nodes)
            <==> Through(visible, known, Under(nodes, scopes), f)
  {
    if nodes != [] {
      var first := Under([nodes[0]], scopes);
      ThroughUnder(visible, known, nodes[1..], scopes, f);
      assert Under(nodes, scopes) == first + Under(nodes[1..], scopes);
      ThroughConcat(visible, known, first, Under(nodes[1..], scopes), f);
      assert first[0] == Edge(nodes[0], scopes);
    }
  }

  lemma {:induction false} AllNamesConcat(a: seq<Scope>, b: seq<Scope>)
    ensures AllNames(a + b) == AllNames(a) + AllNames(b)
  {
    if a == [] {
      assert a + b == b;
    } else {
      assert (a + b)[1..] == a[1..] + b;
      AllNamesConcat(a[1..], b);
    }
  }

  lemma {:induction false} ClauseNames(generators: seq<Generator>, i: nat)
    requires i <= |generators|
    ensures AllNames(Clauses(generators)[i..]) == GeneratorTargets(generators[i..])
    decreases |generators| - i
  {
    if i < |generators| {
      ClauseNames(generators, i + 1);
      assert Clauses(generators)[i..] == [ClauseScope(generators, i)] + Clauses(generators)[i + 1..];
      assert generators[i..][1..] == generators[i + 1..];
    }
  }

  lemma ClauseNamesSnoc(generators: seq<Generator>, i: nat)
    requires i < |generators|
    ensures AllNames(Clauses(generators)[..i + 1])
            == AllNames(Clauses(generators)[..i]) + TargetNames(generators[i].target)
  {
    var clause := ClauseScope(generators, i);
    assert Clauses(generators)[..i + 1] == Clauses(generators)[..i] + [clause];
    AllNamesConcat(Clauses(generators)[..i], [clause]);
    assert AllNames([clause]) == ScopeNames(clause) + AllNames([]);
  }

  lemma {:induction false} ThroughClauses(
      visible: set<string>, known: set<string>, generators: seq<Generator>, i: nat, f: Finding)
    requires i <= |generators|
    ensures f in ReportsGenerators(visible + AllNames(Clauses(generators)[..i]), known, generators[i..])
            <==> Through(visible, known, ClauseEdges(generators, i), f)
    decreases |generators| - i
  {
    if i < |generators| {
      var entered, within := Clauses(generators)[..i], Clauses(generators)[..i + 1];
      var first, conditions := [Edge(generators[i].iter, entered)], Under(generators[i].conditions, within);
      ClauseNamesSnoc(generators, i);
      assert visible + AllNames(entered) + TargetNames(generators[i].target) == visible + AllNames(within);
      assert generators[i..][1..] == generators[i + 1..];
      ThroughUnder(visible, known, generators[i].conditions, within, f);
      ThroughClauses(visible, known, generators, i + 1, f);
      assert first[0] == Edge(generators[i].iter, entered);
      ThroughConcat(visible, known, first, conditions, f);
      ThroughConcat(visible, known, first + conditions, ClauseEdges(generators, i + 1), f);
    }
  }

  lemma {:induction false} ReportsAllConcat(visible: set<string>, known: set<string>, a: seq<Node>, b: seq<Node>)
    ensures ReportsAll(visible, known, a + b) == ReportsAll(visible, known, a) + ReportsAll(visible, known, b)
  {
    if a == [] {
      assert a + b == b;
    } else {
      assert (a + b)[1..] == a[1..] + b;
      ReportsAllConcat(visible, known, a[1..], b);
    }
  }

  /** Every construct but a class reports exactly what its edges report. */
  lemma ReportsUnfold(visible: set<string>, known: set<string>, node: Node, f: Finding)
    requires !node.Name? && !node.ClassDef?
    ensures f in Reports(visible, known, node) <==> Through(visible, known, Edges(node), f)
  {
    assert visible + AllNames([]) == visible;
    match node
    case Tuple(elts) => ThroughUnder(visible, known, elts, [], f);
    case Starred(value) => ThroughUnder(visible, known, [value], [], f);
    case FunctionDef(_, header, params, body) =>
      var scope := [FunctionScope(params, body)];
      ThroughUnder(visible, known, header, [], f);
      assert visible + AllNames(scope) == visible + params + BoundHere(body);
      ThroughUnder(visible, known, body, scope, f);
      ThroughConcat(visible, known, Under(header, []), Under(body, scope), f);
    case Lambda(defaults, params, result) =>
      var scope := [FunctionScope(params, [result])];
      ThroughUnder(visible, known, defaults, [], f);
      assert BoundHere([result]) == BoundBy(result);
      assert visible + AllNames(scope) == visible + params + BoundBy(result);
      ThroughUnder(visible, known, [result], scope, f);
      ThroughConcat(visible, known, Under(defaults, []), Under([result], scope), f);
    case Comprehension(generators, parts) =>
      ThroughClauses(visible, known, generators, 0, f);
      ClauseNames(generators, 0);
      assert Clauses(generators)[0..] == Clauses(generators) && Clauses(generators)[..0] == [];
      assert generators[0..] == generators;
      ThroughUnder(visible, known, parts, Clauses(generators), f);
      ThroughConcat(visible, known, ClauseEdges(generators, 0), Under(parts, Clauses(generators)), f);
    case Import(_) =>
    case NamedExpr(_, value) => ThroughUnder(visible, known, [value], [], f);
    case Binder(before, targets, after) =>
      ThroughUnder(visible, known, before + targets + after, [], f);
      ReportsAllConcat(visible, known, before, targets);
      ReportsAllConcat(visible, known, before + targets, after);
    case ExceptHandler(_, children) => ThroughUnder(visible, known, children, [], f);
    case Global(_) =>
    case Nonlocal(_) =>
    case Match(children) => ThroughUnder(visible, known, children, [], f);
    case Unseen(_, children) => ThroughUnder(visible, known, children, [], f);
    case Other(children) => ThroughUnder(visible, known, children, [], f);
  }

  /******* Exactness *******/

  ghost predicate Inner(at: seq<Scope>) {
    forall s :: s in at ==> s.FunctionScope? || s.ClauseScope?
  }

  lemma ClassFreeEdge(node: Node, e: Edge)
    requires ClassFree(node) && e in Edges(node)
    ensures ClassFree(e.node) && !node.ClassDef?
    ensures Inner(e.scopes)
  {
    assert Below(node, [], node);
    forall path: seq<Edge>, end: Node | Below(e.node, path, end)
      ensures !end.ClassDef?
    {
      assert ([e] + path)[1..] == path;
      assert Below(node, [e] + path, end);
    }
    if node.Comprehension? && e in ClauseEdges(node.generators, 0) {
      var j := ClauseEdge(node.generators, 0, e);
    }
  }

  // Every clause edge enters the first few clauses, and leads to a smaller node.
  lemma {:induction false} ClauseEdge(generators: seq<Generator>, i: nat, e: Edge) returns (j: nat)
    requires i <= |generators| && e in ClauseEdges(generators, i)
    ensures i <= j <= |generators| && e.scopes == Clauses(generators)[..j]
    ensures exists g :: g in generators && (e.node == g.iter || e.node in g.conditions)
    decreases |generators| - i
  {
    assert generators[i] in generators;
    if e in ClauseEdges(generators, i + 1) {
      j := ClauseEdge(generators, i + 1, e);
    } else if e == Edge(generators[i].iter, Clauses(generators)[..i]) {
      j := i;
    } else {
      j := i + 1;
    }
  }

  lemma JoinInner(a: seq<Scope>, b: seq<Scope>)
    requires Inner(a) && Inner(b)
    ensures Inner(a + b)
  {
  }

  lemma {:induction false} ClassFreeScopes(node: Node, path: seq<Edge>, end: Node, at: seq<Scope>)
    requires ClassFree(node) && ReachAt(node, path, end, at)
    ensures Inner(at)
    decreases |path|
  {
    if path != [] {
      var e, rest := path[0], at[|path[0].scopes|..];
      ClassFreeEdge(node, e);
      ClassFreeScopes(e.node, path[1..], end, rest);
      JoinInner(e.scopes, rest);
      assert at == e.scopes + rest;
    }
  }

  /**
   The flat algorithm agrees with what the scopes entered collect, in both directions, for
   every class-free construct under any set of outer names.
   */
  lemma {:induction false} ReportedExactly(
      visible: set<string>, known: set<string>, node: Node, line: int, name: string)
    requires ClassFree(node)
    ensures Finding(line, name) in Reports(visible, known, node)
            <==> name !in visible && name !in known && FreeLoad(node, line, name)
    decreases node
  {
    var f := Finding(line, name);
    assert Below(node, [], node);
    if node.Name? {
      NameLoads(node, line, name);
    } else {
      ReportsUnfold(visible, known, node, f);
      forall e | e in Edges(node)
        ensures f in Reports(visible + AllNames(e.scopes), known, e.node)
                <==> name !in visible + AllNames(e.scopes) && name !in known && FreeLoad(e.node, line, name)
      {
        ClassFreeEdge(node, e);
        if node.Comprehension? && e in ClauseEdges(node.generators, 0) {
          var j := ClauseEdge(node.generators, 0, e);
        }
        ReportedExactly(visible + AllNames(e.scopes), known, e.node, line, name);
      }
      FreeLoadUnfold(node, line, name);
    }
  }

  lemma NameLoads(node: Node, line: int, name: string)
    requires node.Name?
    ensures FreeLoad(node, line, name) <==> node == Name(name, line, Load)
  {
    if node == Name(name, line, Load) {
      assert LoadAt(node, [], line, name, []);
    }
  }

  lemma FreeLoadUnfold(node: Node, line: int, name: string)
    requires !node.Name?
    ensures FreeLoad(node, line, name) <==>
            exists e :: e in Edges(node) && name !in AllNames(e.scopes) && FreeLoad(e.node, line, name)
  {
    if FreeLoad(node, line, name) {
      var path, at :| LoadAt(node, path, line, name, at) && !SeenAt(at, name);
      FreeLoadDown(node, path, line, name, at);
    }
    if e :| e in Edges(node) && name !in AllNames(e.scopes) && FreeLoad(e.node, line, name) {
      FreeLoadUp(node, e, line, name);
    }
  }

  lemma FreeLoadDown(node: Node, path: seq<Edge>, line: int, name: string, at: seq<Scope>)
    requires !node.Name? && LoadAt(node, path, line, name, at) && !SeenAt(at, name)
    ensures path != [] && path[0] in Edges(node)
    ensures name !in AllNames(path[0].scopes) && FreeLoad(path[0].node, line, name)
  {
    var e, rest := path[0], at[|path[0].scopes|..];
    assert at == e.scopes + rest;
    AllNamesExact(at, name);
    AllNamesExact(rest, name);
    AllNamesConcat(e.scopes, rest);
    assert LoadAt(e.node, path[1..], line, name, rest);
  }

  lemma FreeLoadUp(node: Node, e: Edge, line: int, name: string)
    requires e in Edges(node)
    requires name !in AllNames(e.scopes) && FreeLoad(e.node, line, name)
    ensures FreeLoad(node, line, name)
  {
    var path, at :| LoadAt(e.node, path, line, name, at) && !SeenAt(at, name);
    assert (e.scopes + at)[|e.scopes|..] == at && ([e] + path)[1..] == path;
    assert LoadAt(node, [e] + path, line, name, e.scopes + at);
    AllNamesExact(at, name);
    AllNamesExact(e.scopes + at, name);
    AllNamesConcat(e.scopes, at);
  }

  /******* Whole modules *******/

  ghost predicate ClassFreeAll(nodes: seq<Node>) {
    forall n :: n in nodes ==> ClassFree(n)
  }

  /** A load in module `body` and the static chain of scopes around it, module first. */
  ghost predicate ModuleLoad(body: seq<Node>, path: seq<Edge>, line: int, name: string, chain: seq<Scope>) {
    exists node :: node in body && chain != [] && chain[0] == ModuleScope(body)
       && LoadAt(node, path, line, name, chain[1..])
  }

  // What `check_file` collects before removing duplicates.
  function ModuleReports(body: seq<Node>, builtins: set<string>): seq<Finding> {
    ReportsAll(BoundHere(body), builtins, body)
  }

  lemma {:induction false} ReportsAllUnion(visible: set<string>, known: set<string>, nodes: seq<Node>, f: Finding)
    ensures f in ReportsAll(visible, known, nodes) <==> exists n :: n in nodes && f in Reports(visible, known, n)
  {
    if nodes != [] {
      ReportsAllUnion(visible, known, nodes[1..], f);
      assert f in ReportsAll(visible, known, nodes)
        <==> f in Reports(visible, known, nodes[0]) || f in ReportsAll(visible, known, nodes[1..]);
      assert nodes[0] in nodes && forall n :: n in nodes <==> n == nodes[0] || n in nodes[1..];
      if n :| n in nodes && f in Reports(visible, known, n) {
        assert n == nodes[0] || n in nodes[1..];
      }
    }
  }

  lemma ChainNames(body: seq<Node>, at: seq<Scope>)
    ensures AllNames([ModuleScope(body)] + at) == BoundHere(body) + AllNames(at)
  {
    AllNamesConcat([ModuleScope(body)], at);
    assert AllNames([ModuleScope(body)]) == BoundHere(body) + AllNames([]);
  }

  /**
   For every class-free module a name is reported on a line iff it is no builtin and some load of
   it there stands where no scope of its static chain collects it.
   */
  lemma FlatExact(body: seq<Node>, builtins: set<string>, line: int, name: string)
    requires ClassFreeAll(body)
    ensures Finding(line, name) in ModuleReports(body, builtins) <==>
            name !in builtins
            && exists path, chain :: ModuleLoad(body, path, line, name, chain) && name !in AllNames(chain)
  {
    var visible := BoundHere(body);
    ReportsAllUnion(visible, builtins, body, Finding(line, name));
    if Finding(line, name) in ModuleReports(body, builtins) {
      var node :| node in body && Finding(line, name) in Reports(visible, builtins, node);
      ReportedExactly(visible, builtins, node, line, name);
      var path, at :| LoadAt(node, path, line, name, at) && !SeenAt(at, name);
      AllNamesExact(at, name);
      ChainNames(body, at);
      assert ([ModuleScope(body)] + at)[1..] == at;
      assert ModuleLoad(body, path, line, name, [ModuleScope(body)] + at);
    }
    if path, chain :| name !in builtins && ModuleLoad(body, path, line, name, chain) && name !in AllNames(chain) {
      LoadReported(body, builtins, path, line, name, chain);
    }
  }

  lemma LoadReported(
      body: seq<Node>, builtins: set<string>, path: seq<Edge>, line: int, name: string, chain: seq<Scope>)
    requires ClassFreeAll(body) && ModuleLoad(body, path, line, name, chain)
    requires name !in builtins && name !in AllNames(chain)
    ensures Finding(line, name) in ModuleReports(body, builtins)
  {
    var node :| node in body && chain[0] == ModuleScope(body) && LoadAt(node, path, line, name, chain[1..]);
    assert chain == [ModuleScope(body)] + chain[1..];
    ChainNames(body, chain[1..]);
    AllNamesExact(chain[1..], name);
    ReportedExactly(BoundHere(body), builtins, node, line, name);
    ReportsAllUnion(BoundHere(body), builtins, body, Finding(line, name));
  }
}
