/**
 Python's own rule, sections 4.2.1 and 4.2.2 of the Python Language Reference, and where the
 analyser leaves it.  A `global` name belongs to the module and a `nonlocal` one to an enclosing
 function, an assignment expression inside a comprehension or a def header binds in the scope
 around it, a comprehension is one scope, and a `match` binds what its patterns capture.
 */
module PythonScopes {
  import opened Common
  import opened NameResolution

  /******* What binds in a scope *******/

  /** Section 4.2.1: what binds `name` by itself, in the scope it is evaluated in. */
  ghost predicate PyOwns(node: Node, name: string) {
    match node
    case FunctionDef(n, _, _, _) => n == name
    case ClassDef(n, _, _, _) => n == name
    case Import(aliases) => exists a :: a in aliases && Imports(a, name)
    case NamedExpr(target, _) => target == name
    case Binder(_, targets, _) => exists t :: t in targets && Targets(t, name)
    case ExceptHandler(caught, _) => caught == Some(name)
    case Unseen(names, _) => name in names
    case _ => false
  }

  // Sub-nodes whose bindings land in the same scope.  Of a nested def, lambda, class or
  // comprehension that is what Python evaluates outside it, and assignment expressions.
  ghost function PySameScope(node: Node): seq<Node> {
    match node
    case FunctionDef(_, header, _, _) => header
    case Lambda(defaults, _, _) => defaults
    case ClassDef(_, header, keywords, _) => header + keywords
    case Comprehension(generators, parts) => parts + GeneratorNodes(generators)
    case _ => SameScope(node)
  }

  ghost predicate PyBindsAt(node: Node, path: seq<Node>, name: string)
    decreases |path|
  {
    if path == [] then PyOwns(node, name)
    else path[0] in PySameScope(node) && PyBindsAt(path[0], path[1..], name)
  }

  ghost predicate PyBodyBinds(body: seq<Node>, name: string) {
    exists node, path :: node in body && PyBindsAt(node, path, name)
  }

  // What the analyser collects although it binds nothing there.
  datatype Odd = GlobalName | NonlocalName | StoredInMatch

  ghost predicate IsOdd(node: Node, name: string, odd: Odd) {
    match node
    case Global(names) => odd == GlobalName && name in names
    case Nonlocal(names) => odd == NonlocalName && name in names
    case Match(children) => odd == StoredInMatch && exists c :: c in children && Stores(c, name)
    case _ => false
  }

  ghost predicate OddAt(node: Node, path: seq<Node>, name: string, odd: Odd)
    decreases |path|
  {
    if path == [] then IsOdd(node, name, odd)
    else path[0] in SameScope(node) && OddAt(path[0], path[1..], name, odd)
  }

  /** The scope of `body` declares `name` global or nonlocal, or a `match` in it stores to `name`. */
  ghost predicate HasOdd(body: seq<Node>, name: string, odd: Odd) {
    exists node, path :: node in body && OddAt(node, path, name, odd)
  }

  ghost predicate AnyOdd(body: seq<Node>, name: string) {
    HasOdd(body, name, GlobalName) || HasOdd(body, name, NonlocalName) || HasOdd(body, name, StoredInMatch)
  }

  // What the analyser does not collect although it binds there: the path passes through a
  // comprehension or the header of a def, or ends at a construct it does not look for.
  ghost predicate HiddenAt(node: Node, path: seq<Node>, name: string)
    decreases |path|
  {
    if path == [] then node.Unseen? && name in node.names
    else
      && path[0] in PySameScope(node)
      && if path[0] in SameScope(node) then HiddenAt(path[0], path[1..], name) else PyBindsAt(path[0], path[1..], name)
  }

  ghost predicate HasHidden(body: seq<Node>, name: string) {
    exists node, path :: node in body && HiddenAt(node, path, name)
  }

  /******* What is evaluated *******/

  /**
   The sub-nodes Python evaluates, and the scopes entered on the way.  Besides those the analyser
   checks these are the targets of comprehension clauses, for what an attribute or a subscript in
   them reads, and the keywords of classes.
   */
  ghost function PyEdges(node: Node): seq<Edge> {
    match node
    case Comprehension(generators, _) => Edges(node) + TargetEdges(generators)
    case ClassDef(_, _, keywords, _) => Edges(node) + Under(keywords, [])
    case _ => Edges(node)
  }

  ghost function TargetEdges(generators: seq<Generator>): seq<Edge> {
    seq(|generators|, i requires 0 <= i < |generators| =>
      Edge(generators[i].target, Clauses(generators)[..i + 1]))
  }

  /** Following `path` from `node` Python comes to `end`, having entered `at`. */
  ghost predicate PyReachAt(node: Node, path: seq<Edge>, end: Node, at: seq<Scope>)
    decreases |path|
  {
    if path == [] then node == end && at == []
    else
      && path[0] in PyEdges(node)
      && path[0].scopes <= at
      && PyReachAt(path[0].node, path[1..], end, at[|path[0].scopes|..])
  }

  /** The path goes by way of a clause's target. */
  ghost predicate InTarget(node: Node, path: seq<Edge>)
    decreases |path|
  {
    path != [] && ((node.Comprehension? && path[0] !in Edges(node)) || InTarget(path[0].node, path[1..]))
  }

  ghost predicate PyBelow(node: Node, path: seq<Edge>, end: Node)
    decreases |path|
  {
    if path == [] then end == node
    else path[0] in PyEdges(node) && PyBelow(path[0].node, path[1..], end)
  }

  ghost predicate PyClassFree(node: Node) {
    forall path: seq<Edge>, end: Node :: PyBelow(node, path, end) ==> !end.ClassDef?
  }

  ghost predicate PyClassFreeAll(nodes: seq<Node>) {
    forall n :: n in nodes ==> PyClassFree(n)
  }

  lemma PyClassFreeEdge(node: Node, e: Edge)
    requires PyClassFree(node) && e in PyEdges(node)
    ensures PyClassFree(e.node) && !node.ClassDef?
    ensures Inner(e.scopes)
  {
    assert PyBelow(node, [], node);
    forall path: seq<Edge>, end: Node | PyBelow(e.node, path, end)
      ensures !end.ClassDef?
    {
      assert ([e] + path)[1..] == path;
      assert PyBelow(node, [e] + path, end);
    }
    if node.Comprehension? && e in ClauseEdges(node.generators, 0) {
      var j := ClauseEdge(node.generators, 0, e);
    }
  }

  lemma {:induction false} PyClassFreeScopes(node: Node, path: seq<Edge>, end: Node, at: seq<Scope>)
    requires PyClassFree(node) && PyReachAt(node, path, end, at)
    ensures Inner(at)
    decreases |path|
  {
    if path != [] {
      var rest := FirstStep(node, path, end, at);
      PyClassFreeScopes(path[0].node, path[1..], end, rest);
      JoinInner(path[0].scopes, rest);
    }
  }

  lemma ReachStep(node: Node, path: seq<Edge>, end: Node, at: seq<Scope>) returns (rest: seq<Scope>)
    requires path != [] && PyReachAt(node, path, end, at)
    ensures path[0] in PyEdges(node)
    ensures at == path[0].scopes + rest && PyReachAt(path[0].node, path[1..], end, rest)
  {
    rest := ScopesLeft(path[0].scopes, at);
  }

  lemma ScopesLeft(scopes: seq<Scope>, at: seq<Scope>) returns (rest: seq<Scope>)
    requires scopes <= at
    ensures at == scopes + rest && rest == at[|scopes|..]
  {
    rest := at[|scopes|..];
  }

  lemma FirstStep(node: Node, path: seq<Edge>, end: Node, at: seq<Scope>) returns (rest: seq<Scope>)
    requires PyClassFree(node) && path != [] && PyReachAt(node, path, end, at)
    ensures PyClassFree(path[0].node) && Inner(path[0].scopes)
    ensures at == path[0].scopes + rest && PyReachAt(path[0].node, path[1..], end, rest)
  {
    rest := ReachStep(node, path, end, at);
    PyClassFreeEdge(node, path[0]);
  }

  lemma {:induction false} BelowIsPyBelow(node: Node, path: seq<Edge>, end: Node)
    requires Below(node, path, end)
    ensures PyBelow(node, path, end)
    decreases |path|
  {
    if path != [] {
      BelowIsPyBelow(path[0].node, path[1..], end);
    }
  }

  lemma PyClassFreeIsClassFree(body: seq<Node>)
    requires PyClassFreeAll(body)
    ensures ClassFreeAll(body)
  {
    forall n, path: seq<Edge>, end: Node | n in body && Below(n, path, end)
      ensures !end.ClassDef?
    {
      BelowIsPyBelow(n, path, end);
    }
  }

  lemma EdgesCompared(node: Node, e: Edge)
    ensures e in Edges(node) ==> e in PyEdges(node)
    ensures e in PyEdges(node) && !node.Comprehension? && !node.ClassDef? ==> e in Edges(node)
  {
  }

  lemma {:induction false} CheckedIsEvaluated(node: Node, path: seq<Edge>, end: Node, at: seq<Scope>)
    requires ReachAt(node, path, end, at)
    ensures PyReachAt(node, path, end, at) && !InTarget(node, path)
    decreases |path|
  {
    if path != [] {
      EdgesCompared(node, path[0]);
      CheckedIsEvaluated(path[0].node, path[1..], end, at[|path[0].scopes|..]);
    }
  }

  lemma {:induction false} EvaluatedIsChecked(node: Node, path: seq<Edge>, end: Node, at: seq<Scope>)
    requires PyClassFree(node) && PyReachAt(node, path, end, at) && !InTarget(node, path)
    ensures ReachAt(node, path, end, at)
    decreases |path|
  {
    if path != [] {
      EdgesCompared(node, path[0]);
      PyClassFreeEdge(node, path[0]);
      EvaluatedIsChecked(path[0].node, path[1..], end, at[|path[0].scopes|..]);
    }
  }

  /** What the analyser checks of class-free code is what Python evaluates, clause targets aside. */
  lemma CheckedUnlessInTarget(node: Node, path: seq<Edge>, end: Node, at: seq<Scope>)
    requires PyClassFree(node)
    ensures ReachAt(node, path, end, at) <==> PyReachAt(node, path, end, at) && !InTarget(node, path)
  {
    if ReachAt(node, path, end, at) {
      CheckedIsEvaluated(node, path, end, at);
    }
    if PyReachAt(node, path, end, at) && !InTarget(node, path) {
      EvaluatedIsChecked(node, path, end, at);
    }
  }

  lemma {:induction false} OneWay(node: Node, path: seq<Edge>, end: Node, at: seq<Scope>, other: seq<Scope>)
    requires PyReachAt(node, path, end, at) && PyReachAt(node, path, end, other)
    ensures at == other
    decreases |path|
  {
    if path != [] {
      var rest := ReachStep(node, path, end, at);
      var more := ReachStep(node, path, end, other);
      OneWay(path[0].node, path[1..], end, rest, more);
    }
  }

  /** A load of `name` in module `body`, below `node` at `path`, and the scopes around it, module first. */
  ghost predicate Reads(
      body: seq<Node>, node: Node, path: seq<Edge>, line: int, name: string, chain: seq<Scope>)
  {
    && node in body && chain != [] && chain[0] == ModuleScope(body)
    && PyReachAt(node, path, Name(name, line, Load), chain[1..])
  }

  // It is the only load of `name` on `line`.
  ghost predicate OnlyRead(body: seq<Node>, node: Node, path: seq<Edge>, line: int, name: string) {
    forall n, p, chain :: Reads(body, n, p, line, name, chain) ==> n == node && p == path
  }

  /******* Looking a name up *******/

  // Somewhere in module `body` code stands in exactly these scopes, module first.
  ghost predicate StandsIn(body: seq<Node>, chain: seq<Scope>) {
    exists node, path, end :: node in body && chain != [] && chain[0] == ModuleScope(body)
                              && PyReachAt(node, path, end, chain[1..])
  }

  // Some function or class of the module declares `name` global and binds it.
  ghost predicate BoundUnderGlobal(body: seq<Node>, name: string) {
    exists chain, i :: StandsIn(body, chain) && 1 <= i < |chain| && BindsGlobally(chain[i], name)
  }

  ghost predicate BindsGlobally(scope: Scope, name: string) {
    !scope.ClauseScope? && HasOdd(scope.body, name, GlobalName) && PyBodyBinds(scope.body, name)
  }

  ghost predicate ModuleBinds(body: seq<Node>, name: string) {
    PyBodyBinds(body, name) || BoundUnderGlobal(body, name)
  }

  ghost predicate Binds(scope: Scope, name: string) {
    match scope
    case FunctionScope(params, body) => name in params || PyBodyBinds(body, name)
    case ModuleScope(body) => ModuleBinds(body, name)
    case ClassScope(body) => PyBodyBinds(body, name)
    case ClauseScope(generators, _) => exists g :: g in generators && Targets(g.target, name)
  }

  function Outer(chain: seq<Scope>): seq<Scope>
    requires chain != []
  {
    chain[..|chain| - 1]
  }

  function Last(chain: seq<Scope>): Scope
    requires chain != []
  {
    chain[|chain| - 1]
  }

  ghost predicate LookUpGlobal(chain: seq<Scope>, name: string) {
    chain != [] && chain[0].ModuleScope? && ModuleBinds(chain[0].body, name)
  }

  /**
   Is `name` found from the last scope of `chain` outwards?  A class scope counts only for code
   directly in it (`direct`); a `nonlocal` name is looked for in functions only (`functions`).
   */
  ghost predicate LookUp(chain: seq<Scope>, name: string, direct: bool, functions: bool)
    decreases |chain|
  {
    if chain == [] then false
    else
      var s := Last(chain);
      match s
      case ModuleScope(_) => !functions && Binds(s, name)
      case ClauseScope(_, _) => Binds(s, name) || LookUp(Outer(chain), name, false, functions)
      case FunctionScope(_, body) =>
        if HasOdd(body, name, GlobalName) then !functions && LookUpGlobal(chain, name)
        else if HasOdd(body, name, NonlocalName) then LookUp(Outer(chain), name, false, true)
        else Binds(s, name) || LookUp(Outer(chain), name, false, functions)
      case ClassScope(body) =>
        if !direct then LookUp(Outer(chain), name, false, functions)
        else if HasOdd(body, name, GlobalName) then !functions && LookUpGlobal(chain, name)
        else if HasOdd(body, name, NonlocalName) then LookUp(Outer(chain), name, false, true)
        else Binds(s, name) || LookUp(Outer(chain), name, false, functions)
  }

  /** Python's verdict on a load standing in the last scope of `chain`. */
  ghost predicate PyResolves(chain: seq<Scope>, name: string) { LookUp(chain, name, true, false) }

  /******* The two binding sets compared *******/

  lemma {:induction false} OddIsCollected(node: Node, path: seq<Node>, name: string, odd: Odd)
    requires OddAt(node, path, name, odd)
    ensures BindsAt(node, path, name)
    decreases |path|
  {
    if path != [] {
      OddIsCollected(path[0], path[1..], name, odd);
    }
  }

  lemma {:induction false} CollectedIsBoundOrOdd(node: Node, path: seq<Node>, name: string)
    requires BindsAt(node, path, name)
    ensures || PyBindsAt(node, path, name) || OddAt(node, path, name, GlobalName)
            || OddAt(node, path, name, NonlocalName) || OddAt(node, path, name, StoredInMatch)
    decreases |path|
  {
    if path != [] {
      CollectedIsBoundOrOdd(path[0], path[1..], name);
    }
  }

  lemma {:induction false} BoundIsCollectedOrHidden(node: Node, path: seq<Node>, name: string)
    requires PyBindsAt(node, path, name)
    ensures BindsAt(node, path, name) || HiddenAt(node, path, name)
    decreases |path|
  {
    if path != [] {
      BoundIsCollectedOrHidden(path[0], path[1..], name);
    }
  }

  lemma {:induction false} HiddenIsBound(node: Node, path: seq<Node>, name: string)
    requires HiddenAt(node, path, name)
    ensures PyBindsAt(node, path, name)
    decreases |path|
  {
    if path != [] && path[0] in SameScope(node) {
      HiddenIsBound(path[0], path[1..], name);
    }
  }

  /** Body by body: what is collected is bound or odd, what is bound is collected or hidden. */
  lemma BodiesCompared(body: seq<Node>, name: string)
    ensures name in BoundHere(body) ==> PyBodyBinds(body, name) || AnyOdd(body, name)
    ensures forall odd :: HasOdd(body, name, odd) ==> name in BoundHere(body)
    ensures PyBodyBinds(body, name) ==> name in BoundHere(body) || HasHidden(body, name)
    ensures HasHidden(body, name) ==> PyBodyBinds(body, name)
  {
    BoundHereExact(body, name);
    if BodyBinds(body, name) {
      var node, path :| node in body && BindsAt(node, path, name);
      CollectedIsBoundOrOdd(node, path, name);
    }
    forall odd | HasOdd(body, name, odd) ensures BodyBinds(body, name) {
      var node, path :| node in body && OddAt(node, path, name, odd);
      OddIsCollected(node, path, name, odd);
    }
    if PyBodyBinds(body, name) {
      var node, path :| node in body && PyBindsAt(node, path, name);
      BoundIsCollectedOrHidden(node, path, name);
    }
    if HasHidden(body, name) {
      var node, path :| node in body && HiddenAt(node, path, name);
      HiddenIsBound(node, path, name);
    }
  }

  /******* Where a verdict leaves Python's *******/

  // A chain as code outside classes stands in.
  ghost predicate Plain(chain: seq<Scope>) {
    chain != [] && chain[0].ModuleScope? && Inner(chain[1..])
  }

  /** The analyser sees `name` there although Python finds no binding: a load of it goes unreported. */
  ghost predicate Missed(chain: seq<Scope>, name: string) {
    name in AllNames(chain) && !PyResolves(chain, name)
  }

  /** Python finds `name` there and the analyser does not see it: a load it checks is reported. */
  ghost predicate FalseAlarm(chain: seq<Scope>, name: string) {
    name !in AllNames(chain) && PyResolves(chain, name)
  }

  /**
   The last scope of `chain` declares `name` global and nothing binds it in the module, or
   nonlocal and no enclosing function binds it, or a `match` stores it in a nested scope only.
   */
  ghost predicate MissCause(chain: seq<Scope>, name: string)
    requires Plain(chain)
  {
    var s := Last(chain);
    match s
    case ModuleScope(body) => AnyOdd(body, name) && !ModuleBinds(body, name)
    case FunctionScope(_, body) =>
      if HasOdd(body, name, GlobalName) then !ModuleBinds(chain[0].body, name)
      else if HasOdd(body, name, NonlocalName) then !LookUp(Outer(chain), name, false, true)
      else HasOdd(body, name, StoredInMatch) && !Binds(s, name) && !PyResolves(Outer(chain), name)
    case _ => false
  }

  /**
   The last scope of `chain` binds `name` where the analyser does not look, the module gets it
   from a function that declares it global, or a later `for` clause of the comprehension binds
   it; and neither this scope nor an enclosing one collects it.
   */
  ghost predicate AlarmCause(chain: seq<Scope>, name: string)
    requires Plain(chain)
  {
    && name !in AllNames(chain)
    && match Last(chain)
       case ModuleScope(body) => BoundUnderGlobal(body, name) || HasHidden(body, name)
       case FunctionScope(_, body) => HasHidden(body, name)
       case ClauseScope(_, _) => Binds(Last(chain), name)
       case ClassScope(_) => false
  }

  lemma LastNames(chain: seq<Scope>)
    requires chain != []
    ensures AllNames(chain) == AllNames(Outer(chain)) + ScopeNames(Last(chain))
  {
    assert chain == Outer(chain) + [Last(chain)];
    AllNamesConcat(Outer(chain), [Last(chain)]);
    assert AllNames([Last(chain)]) == ScopeNames(Last(chain)) + AllNames([]);
  }

  lemma DirectOrNot(chain: seq<Scope>, name: string, functions: bool)
    requires chain != [] && !Last(chain).ClassScope?
    ensures LookUp(chain, name, true, functions) == LookUp(chain, name, false, functions)
  {
  }

  lemma TargetOfClause(generators: seq<Generator>, i: nat, name: string)
    requires i < |generators| && name in TargetNames(generators[i].target)
    ensures Binds(ClauseScope(generators, i), name)
  {
    TargetNamesExact(generators[i].target, name);
    assert generators[i] in generators;
  }

  lemma OuterIsPlain(chain: seq<Scope>)
    requires Plain(chain) && |chain| > 1
    ensures Plain(Outer(chain)) && Outer(chain)[0] == chain[0] && !Last(Outer(chain)).ClassScope?
    ensures Last(chain).FunctionScope? || Last(chain).ClauseScope?
  {
    assert Last(chain) in chain[1..];
    assert forall s :: s in Outer(chain)[1..] ==> s in chain[1..];
    assert |chain| > 2 ==> Last(Outer(chain)) in chain[1..];
  }

  lemma MissHere(chain: seq<Scope>, name: string)
    requires Plain(chain)
    ensures MissCause(chain, name) ==> Missed(chain, name)
    ensures Missed(chain, name) ==> MissCause(chain, name) || (|chain| > 1 && Missed(Outer(chain), name))
  {
    LastNames(chain);
    var s := Last(chain);
    if |chain| > 1 {
      OuterIsPlain(chain);
      DirectOrNot(Outer(chain), name, false);
      match s
      case FunctionScope(_, body) => BodiesCompared(body, name);
      case ClauseScope(generators, i) =>
        if i < |generators| && name in TargetNames(generators[i].target) {
          TargetOfClause(generators, i, name);
        }
    } else {
      BodiesCompared(s.body, name);
    }
  }

  lemma AlarmHere(chain: seq<Scope>, name: string)
    requires Plain(chain)
    ensures AlarmCause(chain, name) ==> FalseAlarm(chain, name)
    ensures FalseAlarm(chain, name) ==> AlarmCause(chain, name) || (|chain| > 1 && FalseAlarm(Outer(chain), name))
  {
    LastNames(chain);
    var s := Last(chain);
    if |chain| > 1 {
      OuterIsPlain(chain);
      DirectOrNot(Outer(chain), name, false);
      if s.FunctionScope? {
        BodiesCompared(s.body, name);
      }
    } else {
      BodiesCompared(s.body, name);
    }
  }

  // Every miss along a chain goes back to a cause at one of its scopes.
  lemma {:induction false} MissTraced(chain: seq<Scope>, name: string) returns (k: nat)
    requires Plain(chain) && Missed(chain, name)
    ensures 1 <= k <= |chain| && Plain(chain[..k]) && MissCause(chain[..k], name)
    decreases |chain|
  {
    MissHere(chain, name);
    if MissCause(chain, name) {
      k := |chain|;
      assert chain[..k] == chain;
    } else {
      OuterIsPlain(chain);
      k := MissTraced(Outer(chain), name);
      assert Outer(chain)[..k] == chain[..k];
    }
  }

  lemma {:induction false} AlarmTraced(chain: seq<Scope>, name: string) returns (k: nat)
    requires Plain(chain) && FalseAlarm(chain, name)
    ensures 1 <= k <= |chain| && Plain(chain[..k]) && AlarmCause(chain[..k], name)
    decreases |chain|
  {
    AlarmHere(chain, name);
    if AlarmCause(chain, name) {
      k := |chain|;
      assert chain[..k] == chain;
    } else {
      OuterIsPlain(chain);
      k := AlarmTraced(Outer(chain), name);
      assert Outer(chain)[..k] == chain[..k];
    }
  }

  /******* Whole modules *******/

  /** `chain` leads to a scope of the module: code stands in it or in one within it. */
  ghost predicate IsScopeOf(body: seq<Node>, chain: seq<Scope>) {
    chain != [] && exists whole :: StandsIn(body, whole) && chain <= whole
  }

  lemma ScopesArePlain(body: seq<Node>, chain: seq<Scope>)
    requires PyClassFreeAll(body) && IsScopeOf(body, chain)
    ensures Plain(chain) && chain[0] == ModuleScope(body)
    ensures forall k :: 1 <= k <= |chain| ==> IsScopeOf(body, chain[..k])
  {
    var whole :| StandsIn(body, whole) && chain <= whole;
    var node, path, end :| node in body && whole[0] == ModuleScope(body) && PyReachAt(node, path, end, whole[1..]);
    PyClassFreeScopes(node, path, end, whole[1..]);
    assert forall s :: s in chain[1..] ==> s in whole[1..];
    assert forall k :: 1 <= k <= |chain| ==> chain[..k] <= whole;
  }

  ghost predicate NoMissCause(body: seq<Node>, name: string) {
    forall chain :: IsScopeOf(body, chain) && Plain(chain) ==> !MissCause(chain, name)
  }

  ghost predicate NoAlarmCause(body: seq<Node>, name: string) {
    forall chain :: IsScopeOf(body, chain) && Plain(chain) ==> !AlarmCause(chain, name)
  }

  /** In no scope of a class-free module is `name` visible that Python does not find iff no scope has a cause. */
  lemma NothingMissedExactly(body: seq<Node>, name: string)
    requires PyClassFreeAll(body)
    ensures (forall chain :: IsScopeOf(body, chain) ==> !Missed(chain, name)) <==> NoMissCause(body, name)
  {
    forall chain | IsScopeOf(body, chain)
      ensures NoMissCause(body, name) ==> !Missed(chain, name)
      ensures Plain(chain) && MissCause(chain, name) ==> Missed(chain, name)
    {
      ScopesArePlain(body, chain);
      MissHere(chain, name);
      if Missed(chain, name) {
        var k := MissTraced(chain, name);
        assert IsScopeOf(body, chain[..k]);
      }
    }
  }

  /** Nor is it found and not visible iff no scope has a cause for that. */
  lemma NoFalseAlarmExactly(body: seq<Node>, name: string)
    requires PyClassFreeAll(body)
    ensures (forall chain :: IsScopeOf(body, chain) ==> !FalseAlarm(chain, name)) <==> NoAlarmCause(body, name)
  {
    forall chain | IsScopeOf(body, chain)
      ensures NoAlarmCause(body, name) ==> !FalseAlarm(chain, name)
      ensures Plain(chain) && AlarmCause(chain, name) ==> FalseAlarm(chain, name)
    {
      ScopesArePlain(body, chain);
      AlarmHere(chain, name);
      if FalseAlarm(chain, name) {
        var k := AlarmTraced(chain, name);
        assert IsScopeOf(body, chain[..k]);
      }
    }
  }

  /** In every scope of the module the analyser sees `name` iff Python finds it. */
  ghost predicate JudgedAlike(body: seq<Node>, name: string) {
    forall chain :: IsScopeOf(body, chain) ==> (name in AllNames(chain) <==> PyResolves(chain, name))
  }

  /** A class-free module is judged as Python judges it, name by name, iff no scope has a cause. */
  lemma JudgedExactly(body: seq<Node>, name: string)
    requires PyClassFreeAll(body)
    ensures JudgedAlike(body, name) <==> NoMissCause(body, name) && NoAlarmCause(body, name)
  {
    NothingMissedExactly(body, name);
    NoFalseAlarmExactly(body, name);
    assert forall chain :: (name in AllNames(chain) <==> PyResolves(chain, name))
                           <==> !Missed(chain, name) && !FalseAlarm(chain, name);
  }

  lemma LoadScopes(
      body: seq<Node>, node: Node, path: seq<Edge>, line: int, name: string, chain: seq<Scope>)
    requires Reads(body, node, path, line, name, chain)
    ensures IsScopeOf(body, chain)
  {
    assert StandsIn(body, chain);
  }

  /**
   A finding stands for a load outside the targets of comprehension clauses that no scope around
   it collects, and the other way round.
   */
  lemma ReportsReads(body: seq<Node>, builtins: set<string>, line: int, name: string)
    requires PyClassFreeAll(body)
    ensures Finding(line, name) in ModuleReports(body, builtins) <==>
            name !in builtins
            && exists node, path, chain ::
                 Reads(body, node, path, line, name, chain) && !InTarget(node, path) && name !in AllNames(chain)
  {
    PyClassFreeIsClassFree(body);
    FlatExact(body, builtins, line, name);
    if path, chain :| ModuleLoad(body, path, line, name, chain) && name !in AllNames(chain) {
      var node :| node in body && chain[0] == ModuleScope(body) && LoadAt(node, path, line, name, chain[1..]);
      CheckedUnlessInTarget(node, path, Name(name, line, Load), chain[1..]);
      assert Reads(body, node, path, line, name, chain);
    }
    if node, path, chain :|
      Reads(body, node, path, line, name, chain) && !InTarget(node, path) && name !in AllNames(chain)
    {
      CheckedUnlessInTarget(node, path, Name(name, line, Load), chain[1..]);
      assert ModuleLoad(body, path, line, name, chain);
    }
  }

  /**
   A class-free module is judged as Python judges it for every name without a cause: reported on
   a line iff it is no builtin and some load of it there, outside the targets of comprehension
   clauses, resolves nowhere.
   */
  lemma ModuleExact(body: seq<Node>, builtins: set<string>, line: int, name: string)
    requires PyClassFreeAll(body) && NoMissCause(body, name) && NoAlarmCause(body, name)
    ensures Finding(line, name) in ModuleReports(body, builtins) <==>
            name !in builtins
            && exists node, path, chain ::
                 Reads(body, node, path, line, name, chain) && !InTarget(node, path) && !PyResolves(chain, name)
  {
    ReportsReads(body, builtins, line, name);
    JudgedExactly(body, name);
    forall node, path, chain | Reads(body, node, path, line, name, chain)
      ensures name !in AllNames(chain) <==> !PyResolves(chain, name)
    {
      LoadScopes(body, node, path, line, name, chain);
    }
  }

  // The scope declares `name`, or a `match` in it stores to it.
  ghost predicate OddScope(scope: Scope, name: string) {
    !scope.ClauseScope? && AnyOdd(scope.body, name)
  }

  lemma {:induction false} OddIsSeen(chain: seq<Scope>, name: string, s: Scope)
    requires s in chain && OddScope(s, name)
    ensures name in AllNames(chain)
  {
    if s == chain[0] {
      BodiesCompared(s.body, name);
    } else {
      OddIsSeen(chain[1..], name, s);
    }
  }

  /** Why the analyser passes over a load: where it stands, or what a scope around it declares or stores. */
  ghost predicate PassedOver(node: Node, path: seq<Edge>, name: string, chain: seq<Scope>) {
    InTarget(node, path) || exists s :: s in chain && OddScope(s, name)
  }

  /**
   A load Python cannot resolve goes unreported iff it stands in the target of a comprehension
   clause, or some scope around it declares the name global or nonlocal or stores to it in a
   `match`.  (Were it not the only load of the name on its line, another might be reported there.)
   */
  lemma UnresolvedExactly(
      body: seq<Node>, builtins: set<string>, node: Node, path: seq<Edge>, line: int, name: string, chain: seq<Scope>)
    requires PyClassFreeAll(body) && name !in builtins
    requires Reads(body, node, path, line, name, chain) && !PyResolves(chain, name)
    ensures !PassedOver(node, path, name, chain) ==> Finding(line, name) in ModuleReports(body, builtins)
    ensures OnlyRead(body, node, path, line, name) ==>
              (Finding(line, name) in ModuleReports(body, builtins) <==> !PassedOver(node, path, name, chain))
  {
    SeenIfOdd(body, node, path, line, name, chain);
    ReportsReads(body, builtins, line, name);
    if OnlyRead(body, node, path, line, name) && Finding(line, name) in ModuleReports(body, builtins) {
      var n, p, c :| Reads(body, n, p, line, name, c) && !InTarget(n, p) && name !in AllNames(c);
      OneWay(node, path, Name(name, line, Load), chain[1..], c[1..]);
      assert chain == [chain[0]] + chain[1..] && c == [c[0]] + c[1..];
    }
  }

  // An unresolved name is visible iff a scope declares it or a `match` stores to it.
  lemma SeenIfOdd(
      body: seq<Node>, node: Node, path: seq<Edge>, line: int, name: string, chain: seq<Scope>)
    requires PyClassFreeAll(body) && Reads(body, node, path, line, name, chain) && !PyResolves(chain, name)
    ensures name in AllNames(chain) <==> exists s :: s in chain && OddScope(s, name)
  {
    LoadScopes(body, node, path, line, name, chain);
    ScopesArePlain(body, chain);
    if Missed(chain, name) {
      var k := MissTraced(chain, name);
      assert Last(chain[..k]) in chain && OddScope(Last(chain[..k]), name);
    }
    if s :| s in chain && OddScope(s, name) {
      OddIsSeen(chain, name, s);
    }
  }

  /** So in a module without causes no load outside clause targets that Python cannot resolve is missed. */
  lemma NeverMissed(
      body: seq<Node>, builtins: set<string>, node: Node, path: seq<Edge>, line: int, name: string, chain: seq<Scope>)
    requires PyClassFreeAll(body) && name !in builtins && NoMissCause(body, name)
    requires Reads(body, node, path, line, name, chain) && !PyResolves(chain, name)
    ensures !InTarget(node, path) ==> Finding(line, name) in ModuleReports(body, builtins)
    ensures OnlyRead(body, node, path, line, name) ==>
              (Finding(line, name) in ModuleReports(body, builtins) <==> !InTarget(node, path))
  {
    UnresolvedExactly(body, builtins, node, path, line, name, chain);
    SeenIfOdd(body, node, path, line, name, chain);
    LoadScopes(body, node, path, line, name, chain);
    NothingMissedExactly(body, name);
  }

  lemma {:induction false} NothingBinds(chain: seq<Scope>, name: string, direct: bool, functions: bool)
    requires forall s :: s in chain ==> !Binds(s, name)
    ensures !LookUp(chain, name, direct, functions)
    decreases |chain|
  {
    if chain != [] {
      assert Last(chain) in chain && chain[0] in chain;
      forall d, f ensures !LookUp(Outer(chain), name, d, f) {
        NothingBinds(Outer(chain), name, d, f);
      }
    }
  }

  /**
   A function moved to a module: a name it reads that neither its own scopes nor the module bind
   is reported, unless the load stands in the target of a comprehension clause or a scope around
   it declares the name or stores to it in a `match`.
   */
  lemma MovedDefReported(
      f: Node, body: seq<Node>, builtins: set<string>, path: seq<Edge>, line: int, name: string, at: seq<Scope>)
    requires PyClassFreeAll(body) && f in body && name !in builtins
    requires PyReachAt(f, path, Name(name, line, Load), at)
    requires !ModuleBinds(body, name) && forall s :: s in at ==> !Binds(s, name)
    ensures var chain := [ModuleScope(body)] + at;
            var reported := Finding(line, name) in ModuleReports(body, builtins);
            && !PyResolves(chain, name)
            && (!PassedOver(f, path, name, chain) ==> reported)
            && (OnlyRead(body, f, path, line, name) ==> (reported <==> !PassedOver(f, path, name, chain)))
  {
    var chain := [ModuleScope(body)] + at;
    assert chain[1..] == at;
    NothingBinds(chain, name, true, false);
    UnresolvedExactly(body, builtins, f, path, line, name, chain);
  }

  lemma {:induction false} UnseenIsLookedUpInModule(chain: seq<Scope>, name: string)
    requires Plain(chain) && name !in AllNames(chain) && ModuleBinds(chain[0].body, name)
    ensures PyResolves(chain, name)
    decreases |chain|
  {
    LastNames(chain);
    if |chain| > 1 {
      OuterIsPlain(chain);
      UnseenIsLookedUpInModule(Outer(chain), name);
      DirectOrNot(Outer(chain), name, false);
      if Last(chain).FunctionScope? {
        BodiesCompared(Last(chain).body, name);
      }
    }
  }

  /**
   A name the module has only out of the analyser's sight, from a function that declares it
   global or from an assignment expression in a comprehension, is reported wherever it is read
   outside clause targets.
   */
  lemma UnseenInModule(
      body: seq<Node>, builtins: set<string>, node: Node, path: seq<Edge>, line: int, name: string, chain: seq<Scope>)
    requires PyClassFreeAll(body) && Reads(body, node, path, line, name, chain) && name !in builtins
    requires ModuleBinds(body, name) && name !in AllNames(chain)
    ensures !InTarget(node, path) ==> Finding(line, name) in ModuleReports(body, builtins)
    ensures PyResolves(chain, name)
  {
    LoadScopes(body, node, path, line, name, chain);
    ScopesArePlain(body, chain);
    UnseenIsLookedUpInModule(chain, name);
    ReportsReads(body, builtins, line, name);
  }

  /** A `match` whose nested scopes alone store to a name makes every module-level load of it a miss. */
  lemma MatchMissed(body: seq<Node>, children: seq<Node>, name: string)
    requires Match(children) in body && !ModuleBinds(body, name)
    requires exists c :: c in children && Stores(c, name)
    ensures Missed([ModuleScope(body)], name)
  {
    assert OddAt(Match(children), [], name, StoredInMatch);
    assert HasOdd(body, name, StoredInMatch);
    MissHere([ModuleScope(body)], name);
  }
}
