/**
 AST normalisation for comparing an extracted function with the method it came from: receivers
 and private prefixes are dropped, string whitespace is collapsed, signatures are erased, and
 the sequence of statement types is compared.
 */
module Normaliser {
  import opened Common

  datatype Tree =
    | Name(id: string, store: bool)
    | Attribute(value: Tree, attr: string, store: bool)
    | Text(text: string)
    | Arguments(parts: seq<Tree>)
      // `tag`: whatever the node holds besides child nodes
    | Statement(kind: string, tag: string, parts: seq<Tree>)
      // every other node: expressions, exception handlers, match cases, ...
    | Other(kind: string, tag: string, parts: seq<Tree>)

  const TRANSPARENT: set<string> := {"self", "ctx", "context"}

  /******* Names and strings *******/

  function Stripped(name: string): string {
    if name != "" && name[0] == '_' then Stripped(name[1..]) else name
  }

  // `_public`: dunders are left alone, otherwise leading underscores go.
  function Public(name: string): string {
    if |name| >= 2 && name[..2] == "__" then name
    else if Stripped(name) == "" then name else Stripped(name)
  }

  lemma {:induction false} StrippedIsBare(name: string)
    ensures Stripped(name) != "" ==> Stripped(name)[0] != '_'
    ensures Stripped(Stripped(name)) == Stripped(name)
  {
    if name != "" && name[0] == '_' {
      StrippedIsBare(name[1..]);
    }
  }

  /** lstrip("_"): what follows the leading underscores. */
  lemma {:induction false} StrippedExactly(name: string)
    ensures exists k :: 0 <= k <= |name| && Stripped(name) == name[k..]
                        && (forall i :: 0 <= i < k ==> name[i] == '_') && (k < |name| ==> name[k] != '_')
  {
    if name != "" && name[0] == '_' {
      StrippedExactly(name[1..]);
      var k :| 0 <= k <= |name| - 1 && Stripped(name[1..]) == name[1..][k..]
               && (forall i :: 0 <= i < k ==> name[1..][i] == '_') && (k < |name| - 1 ==> name[1..][k] != '_');
      assert name[1..][k..] == name[k + 1..];
      assert forall i :: 1 <= i < k + 1 ==> name[i] == name[1..][i - 1];
      assert k + 1 < |name| ==> name[k + 1] == name[1..][k];
    } else {
      assert name[0..] == name;
    }
  }

  /** `_public`: a dunder and a name of underscores alone stay, any other name loses its leading ones. */
  lemma PublicExactly(name: string)
    ensures "__" <= name ==> Public(name) == name
    ensures (forall i :: 0 <= i < |name| ==> name[i] == '_') ==> Public(name) == name
    ensures !("__" <= name) && name != "" ==>
              Public(name) == if name[0] == '_' && |name| > 1 then name[1..] else name
  {
    StrippedExactly(name);
    assert "__" <= name <==> |name| >= 2 && name[..2] == "__";
    assert |name| >= 2 && name[0] == '_' && name[1] == '_' ==> name[..2] == "__";
  }

  lemma PublicIdempotent(name: string)
    ensures Public(Public(name)) == Public(name)
  {
    StrippedIsBare(name);
    var p := Public(name);
    if p == Stripped(name) && p != "" {
      assert |p| >= 2 ==> p[..2][0] == p[0];
    }
  }

  /**
   Which attributes become their parameter: `self._x` and `x` read the same unless the attribute
   starts with two underscores.
   */
  lemma ParameterMatches(attr: string)
    requires Stripped(attr) != ""
    ensures Public(attr) == Public(Stripped(attr)) <==> !(|attr| >= 2 && attr[..2] == "__")
  {
    StrippedIsBare(attr);
    var x := Stripped(attr);
    assert |x| >= 2 ==> x[..2][0] == x[0];
    if |attr| >= 2 && attr[..2] == "__" {
      assert attr[..2][0] == attr[0];
    }
  }

  // str.isspace
  predicate IsSpace(c: char) {
    var n := c as int;
    || 9 <= n <= 13 || 28 <= n <= 32 || n in {0x85, 0xA0, 0x1680, 0x2028, 0x2029, 0x202F, 0x205F, 0x3000}
    || 0x2000 <= n <= 0x200A
  }

  function WordEnd(s: string): nat
    ensures WordEnd(s) <= |s|
    ensures s != "" && !IsSpace(s[0]) ==> WordEnd(s) >= 1
  {
    if s == "" || IsSpace(s[0]) then 0 else 1 + WordEnd(s[1..])
  }

  // s.split()
  function Split(s: string): seq<string>
    decreases |s|
  {
    if s == "" then []
    else if IsSpace(s[0]) then Split(s[1..])
    else [s[..WordEnd(s)]] + Split(s[WordEnd(s)..])
  }

  // " ".join(words)
  function Join(words: seq<string>): string {
    if words == [] then "" else if |words| == 1 then words[0] else words[0] + " " + Join(words[1..])
  }

  predicate Doubled(s: string) { exists i :: 0 < i < |s| && s[i - 1] == ' ' && s[i] == ' ' }

  predicate Ragged(s: string) { '\n' in s || Doubled(s) }

  function Collapsed(s: string): string {
    if Ragged(s) then Join(Split(s)) else s
  }

  predicate Words(words: seq<string>) {
    forall i :: 0 <= i < |words| ==> words[i] != "" && forall j :: 0 <= j < |words[i]| ==> !IsSpace(words[i][j])
  }

  lemma {:induction false} WordIsSolid(s: string)
    ensures forall j :: 0 <= j < WordEnd(s) ==> !IsSpace(s[j])
  {
    if s != "" && !IsSpace(s[0]) {
      WordIsSolid(s[1..]);
      forall j | 0 <= j < WordEnd(s) ensures !IsSpace(s[j]) {
        if j > 0 {
          assert s[j] == s[1..][j - 1];
        }
      }
    }
  }

  lemma {:induction false} SplitGivesWords(s: string)
    ensures Words(Split(s))
    decreases |s|
  {
    if s != "" {
      if IsSpace(s[0]) {
        SplitGivesWords(s[1..]);
      } else {
        WordIsSolid(s);
        SplitGivesWords(s[WordEnd(s)..]);
      }
    }
  }

  lemma {:induction false} JoinIsTidy(words: seq<string>)
    requires Words(words)
    ensures !Ragged(Join(words))
    ensures words != [] ==> Join(words) != "" && Join(words)[0] != ' '
  {
    if |words| == 1 {
      assert !IsSpace(words[0][0]);
    } else if words != [] {
      var w, rest := words[0], Join(words[1..]);
      JoinIsTidy(words[1..]);
      var s := w + " " + rest;
      assert !IsSpace(w[0]) && s[0] == w[0];
      forall i | 0 <= i < |s| ensures s[i] != '\n' && (i > 0 ==> !(s[i - 1] == ' ' && s[i] == ' ')) {
        if i < |w| {
          assert s[i] == w[i];
        } else if i > |w| {
          assert s[i] == rest[i - |w| - 1];
          assert i > |w| + 1 ==> s[i - 1] == rest[i - |w| - 2];
        } else {
          assert s[i - 1] == w[i - 1];
        }
      }
    }
  }

  predicate AllSpace(s: string) { forall i :: 0 <= i < |s| ==> IsSpace(s[i]) }

  /** `words` are what the white space in `s` separates: each follows a gap and ends only at white space. */
  ghost predicate Separates(s: string, words: seq<string>)
    decreases |words|
  {
    if words == [] then AllSpace(s)
    else exists i, j :: WordAt(s, words[0], i, j) && Separates(s[j..], words[1..])
  }

  predicate WordAt(s: string, word: string, i: int, j: int) {
    0 <= i <= j <= |s| && AllSpace(s[..i]) && s[i..j] == word && (j == |s| || IsSpace(s[j]))
  }

  lemma {:induction false} WordEndsAtSpace(s: string)
    ensures WordEnd(s) < |s| ==> IsSpace(s[WordEnd(s)])
  {
    if s != "" && !IsSpace(s[0]) {
      WordEndsAtSpace(s[1..]);
      assert WordEnd(s) < |s| ==> s[WordEnd(s)] == s[1..][WordEnd(s) - 1];
    }
  }

  /** str.split() */
  lemma {:induction false} SplitExactly(s: string)
    ensures Words(Split(s)) && Separates(s, Split(s))
    decreases |s|
  {
    SplitGivesWords(s);
    if s != "" && IsSpace(s[0]) {
      SplitExactly(s[1..]);
      WiderGap(s, Split(s));
    } else if s != "" {
      var k := WordEnd(s);
      SplitExactly(s[k..]);
      WordEndsAtSpace(s);
      assert s[..0] == "" && s[0..k] == s[..k];
      assert WordAt(s, s[..k], 0, k);
      assert Split(s)[0] == s[..k] && Split(s)[1..] == Split(s[k..]);
    }
  }

  lemma WiderGap(s: string, words: seq<string>)
    requires s != "" && IsSpace(s[0]) && Separates(s[1..], words)
    ensures Separates(s, words)
  {
    if words == [] {
      assert s == [s[0]] + s[1..];
    } else {
      var i, j :| WordAt(s[1..], words[0], i, j) && Separates(s[1..][j..], words[1..]);
      WordFurtherOn(s, words[0], i, j);
    }
  }

  lemma WordFurtherOn(s: string, word: string, i: int, j: int)
    requires s != "" && IsSpace(s[0]) && WordAt(s[1..], word, i, j)
    ensures WordAt(s, word, i + 1, j + 1) && s[1..][j..] == s[j + 1..]
  {
    assert s[..i + 1] == [s[0]] + s[1..][..i];
    assert s[i + 1..j + 1] == s[1..][i..j];
  }

  lemma {:induction false} WordThenSpace(w: string, tail: string)
    requires (forall j :: 0 <= j < |w| ==> !IsSpace(w[j])) && (tail == "" || IsSpace(tail[0]))
    ensures WordEnd(w + tail) == |w|
  {
    if w == "" {
      assert w + tail == tail;
    } else {
      assert (w + tail)[1..] == w[1..] + tail;
      WordThenSpace(w[1..], tail);
    }
  }

  lemma SplitFirst(w: string, tail: string)
    requires w != "" && (forall j :: 0 <= j < |w| ==> !IsSpace(w[j])) && (tail == "" || IsSpace(tail[0]))
    ensures Split(w + tail) == [w] + Split(tail)
  {
    WordThenSpace(w, tail);
    assert (w + tail)[0] == w[0] && (w + tail)[..|w|] == w && (w + tail)[|w|..] == tail;
  }

  lemma {:induction false} SplitUndoesJoin(words: seq<string>)
    requires Words(words)
    ensures Split(Join(words)) == words
  {
    if words != [] {
      var w := words[0];
      var tail := if |words| == 1 then "" else " " + Join(words[1..]);
      assert Join(words) == w + tail;
      SplitFirst(w, tail);
      if |words| > 1 {
        SplitUndoesJoin(words[1..]);
        assert tail[1..] == Join(words[1..]) && Split(tail) == words[1..];
      }
      assert words == [w] + words[1..];
    }
  }

  /** Collapsing keeps every word, in order, one space apart; a text that is not ragged stays as it is. */
  lemma CollapsedKeepsWords(s: string)
    ensures Split(Collapsed(s)) == Split(s) && !Ragged(Collapsed(s))
    ensures !Ragged(s) ==> Collapsed(s) == s
  {
    SplitGivesWords(s);
    JoinIsTidy(Split(s));
    SplitUndoesJoin(Split(s));
  }

  lemma CollapsedIdempotent(s: string)
    ensures Collapsed(Collapsed(s)) == Collapsed(s)
  {
    SplitGivesWords(s);
    JoinIsTidy(Split(s));
  }

  /******* The visitor *******/

  function Normal(t: Tree): Tree {
    match t
    case Name(id, store) => Name(Public(id), store)
    case Attribute(value, attr, store) =>
      var v := Normal(value);
      if v.Name? && v.id in TRANSPARENT then Name(Public(attr), store) else Attribute(v, attr, store)
    case Text(text) => Text(Collapsed(text))
    case Arguments(_) => Arguments([])
    case Statement(kind, tag, parts) => Statement(kind, tag, NormalAll(parts))
    case Other(kind, tag, parts) => Other(kind, tag, NormalAll(parts))
  }

  function NormalAll(ts: seq<Tree>): seq<Tree>
    ensures |NormalAll(ts)| == |ts|
    ensures forall i :: 0 <= i < |ts| ==> NormalAll(ts)[i] == Normal(ts[i])
  {
    if ts == [] then [] else [Normal(ts[0])] + NormalAll(ts[1..])
  }

  /** An attribute becomes a bare name iff it is read off `self`, `ctx` or `context`, and then it is the attribute's. */
  lemma ReceiverExactly(id: string, attr: string, loads: bool, store: bool)
    ensures var plain := Normal(Attribute(Name(id, loads), attr, store));
            if Public(id) == "self" || Public(id) == "ctx" || Public(id) == "context"
            then plain == Name(Public(attr), store) else plain == Attribute(Name(Public(id), loads), attr, store)
  {
  }

  /** Visiting twice is visiting once. */
  lemma {:induction false} NormalIdempotent(t: Tree)
    ensures Normal(Normal(t)) == Normal(t)
    decreases t
  {
    match t
    case Name(id, _) => PublicIdempotent(id);
    case Attribute(value, attr, _) =>
      NormalIdempotent(value);
      PublicIdempotent(attr);
    case Text(text) => CollapsedIdempotent(text);
    case Arguments(_) =>
    case Statement(_, _, parts) =>
      forall i | 0 <= i < |parts| ensures Normal(Normal(parts[i])) == Normal(parts[i]) {
        NormalIdempotent(parts[i]);
      }
      assert NormalAll(NormalAll(parts)) == NormalAll(parts);
    case Other(_, _, parts) =>
      forall i | 0 <= i < |parts| ensures Normal(Normal(parts[i])) == Normal(parts[i]) {
        NormalIdempotent(parts[i]);
      }
      assert NormalAll(NormalAll(parts)) == NormalAll(parts);
  }

  /**
   `e` is `m` after extraction: some `self._x` has become a bare name that reads the same, some
   names have lost or gained a private prefix, signatures are whatever they are.
   */
  ghost predicate Extracted(m: Tree, e: Tree) {
    || (m.Attribute? && m.value.Name? && Public(m.value.id) in TRANSPARENT
        && e.Name? && Public(e.id) == Public(m.attr) && e.store == m.store)
    || (m.Name? && e.Name? && Public(m.id) == Public(e.id) && m.store == e.store)
    || (m.Attribute? && e.Attribute? && m.attr == e.attr && m.store == e.store && Extracted(m.value, e.value))
    || (m.Text? && e.Text? && Collapsed(m.text) == Collapsed(e.text))
    || (m.Arguments? && e.Arguments?)
    || (m.Statement? && e.Statement? && m.kind == e.kind && m.tag == e.tag && |m.parts| == |e.parts|
        && forall i :: 0 <= i < |m.parts| ==> Extracted(m.parts[i], e.parts[i]))
    || (m.Other? && e.Other? && m.kind == e.kind && m.tag == e.tag && |m.parts| == |e.parts|
        && forall i :: 0 <= i < |m.parts| ==> Extracted(m.parts[i], e.parts[i]))
  }

  /** A method body and its extraction normalise to the same tree. */
  lemma {:induction false} ExtractionIsInvisible(m: Tree, e: Tree)
    requires Extracted(m, e)
    ensures Normal(m) == Normal(e)
    decreases m
  {
    if m.Attribute? && e.Attribute? {
      ExtractionIsInvisible(m.value, e.value);
    } else if (m.Statement? && e.Statement?) || (m.Other? && e.Other?) {
      forall i | 0 <= i < |m.parts| ensures Normal(m.parts[i]) == Normal(e.parts[i]) {
        ExtractionIsInvisible(m.parts[i], e.parts[i]);
      }
      assert NormalAll(m.parts) == NormalAll(e.parts);
    }
  }

  /******* What the comparison cannot see *******/

  // The bare name a node reads as once receivers are dropped, and whether it is stored to.
  function BareName(t: Tree): Option<(string, bool)> {
    match t
    case Name(id, store) => Some((Public(id), store))
    case Attribute(value, attr, store) =>
      var receiver := BareName(value);
      if receiver.Some? && (receiver.value.0 == "self" || receiver.value.0 == "ctx" || receiver.value.0 == "context")
      then Some((Public(attr), store)) else None
    case _ => None
  }

  // The same words one space apart, where either text has a line break or a double space; else the same text.
  predicate SameText(a: string, b: string) {
    if Ragged(a) && Ragged(b) then Split(a) == Split(b)
    else if Ragged(a) then b == Join(Split(a))
    else if Ragged(b) then a == Join(Split(b))
    else a == b
  }

  /** Two trees that differ only in receivers, private prefixes, ragged white space in texts and signatures. */
  ghost predicate ReadAlike(m: Tree, e: Tree)
    decreases m
  {
    if BareName(m).Some? || BareName(e).Some? then BareName(m) == BareName(e)
    else
      match m
      case Name(_, _) => false
      case Attribute(value, attr, store) =>
        e.Attribute? && attr == e.attr && store == e.store && ReadAlike(value, e.value)
      case Text(text) => e.Text? && SameText(text, e.text)
      case Arguments(_) => e.Arguments?
      case Statement(kind, tag, parts) =>
        && e.Statement? && kind == e.kind && tag == e.tag && |parts| == |e.parts|
        && forall i :: 0 <= i < |parts| ==> ReadAlike(parts[i], e.parts[i])
      case Other(kind, tag, parts) =>
        && e.Other? && kind == e.kind && tag == e.tag && |parts| == |e.parts|
        && forall i :: 0 <= i < |parts| ==> ReadAlike(parts[i], e.parts[i])
  }

  lemma {:induction false} BareNormal(t: Tree)
    ensures Normal(t).Name? <==> BareName(t).Some?
    ensures BareName(t).Some? ==> Normal(t) == Name(BareName(t).value.0, BareName(t).value.1)
    decreases t
  {
    if t.Attribute? {
      BareNormal(t.value);
    }
  }

  lemma SameTextExactly(a: string, b: string)
    ensures Collapsed(a) == Collapsed(b) <==> SameText(a, b)
  {
    SplitGivesWords(a);
    SplitGivesWords(b);
    SplitUndoesJoin(Split(a));
    SplitUndoesJoin(Split(b));
  }

  /** The normalised trees are equal exactly when the two read alike: nothing else is hidden. */
  lemma {:induction false} NormalExactly(m: Tree, e: Tree)
    ensures Normal(m) == Normal(e) <==> ReadAlike(m, e)
    decreases m
  {
    BareNormal(m);
    BareNormal(e);
    if BareName(m).None? && BareName(e).None? {
      match m
      case Attribute(value, _, _) =>
        if e.Attribute? {
          NormalExactly(value, e.value);
        }
      case Text(text) =>
        if e.Text? {
          SameTextExactly(text, e.text);
        }
      case Statement(_, _, parts) =>
        if e.Statement? && |parts| == |e.parts| {
          PartsExactly(m, parts, e.parts);
        }
      case Other(_, _, parts) =>
        if e.Other? && |parts| == |e.parts| {
          PartsExactly(m, parts, e.parts);
        }
      case _ =>
    }
  }

  lemma {:induction false} PartsExactly(m: Tree, parts: seq<Tree>, others: seq<Tree>)
    requires (m.Statement? && parts == m.parts) || (m.Other? && parts == m.parts)
    requires |parts| == |others|
    ensures NormalAll(parts) == NormalAll(others) <==> forall i :: 0 <= i < |parts| ==> ReadAlike(parts[i], others[i])
    decreases m, 0
  {
    forall i | 0 <= i < |parts| ensures Normal(parts[i]) == Normal(others[i]) <==> ReadAlike(parts[i], others[i]) {
      NormalExactly(parts[i], others[i]);
    }
    if forall i :: 0 <= i < |parts| ==> ReadAlike(parts[i], others[i]) {
      assert NormalAll(parts) == NormalAll(others);
    }
    if NormalAll(parts) == NormalAll(others) {
      forall i | 0 <= i < |parts| ensures Normal(parts[i]) == Normal(others[i]) {
        assert NormalAll(parts)[i] == NormalAll(others)[i];
      }
    }
  }

  /******* The statement shape *******/

  function Children(t: Tree): seq<Tree> {
    match t
    case Name(_, _) => []
    case Attribute(value, _, _) => [value]
    case Text(_) => []
    case Arguments(parts) => parts
    case Statement(_, _, parts) => parts
    case Other(_, _, parts) => parts
  }

  function Size(t: Tree): nat
    decreases t, 1
  {
    match t
    case Name(_, _) => 1
    case Attribute(value, _, _) => 1 + Size(value)
    case Text(_) => 1
    case Arguments(parts) => 1 + Sizes(parts)
    case Statement(_, _, parts) => 1 + Sizes(parts)
    case Other(_, _, parts) => 1 + Sizes(parts)
  }

  function Sizes(ts: seq<Tree>): nat
    decreases ts, 0
  {
    if ts == [] then 0 else Size(ts[0]) + Sizes(ts[1..])
  }

  lemma {:induction false} SizesConcat(a: seq<Tree>, b: seq<Tree>)
    ensures Sizes(a + b) == Sizes(a) + Sizes(b)
    decreases |a|
  {
    if a == [] {
      assert a + b == b;
    } else {
      assert (a + b)[1..] == a[1..] + b;
      SizesConcat(a[1..], b);
    }
  }

  lemma WalkShrinks(queue: seq<Tree>)
    requires queue != []
    ensures Sizes(queue[1..] + Children(queue[0])) < Sizes(queue)
  {
    SizesConcat(queue[1..], Children(queue[0]));
    if queue[0].Attribute? {
      assert Sizes([queue[0].value]) == Size(queue[0].value) + Sizes([]);
    }
  }

  /** `ast.walk` from a queue of nodes, breadth first, keeping the types of the statements. */
  function Shape(queue: seq<Tree>): seq<string>
    decreases Sizes(queue)
  {
    if queue == [] then []
    else
      WalkShrinks(queue);
      (if queue[0].Statement? then [queue[0].kind] else []) + Shape(queue[1..] + Children(queue[0]))
  }

  // The number of statements in a tree.
  function Count(t: Tree): nat
    decreases t, 1
  {
    match t
    case Name(_, _) => 0
    case Attribute(value, _, _) => Count(value)
    case Text(_) => 0
    case Arguments(parts) => Counts(parts)
    case Statement(_, _, parts) => 1 + Counts(parts)
    case Other(_, _, parts) => Counts(parts)
  }

  function Counts(ts: seq<Tree>): nat
    decreases ts, 0
  {
    if ts == [] then 0 else Count(ts[0]) + Counts(ts[1..])
  }

  lemma {:induction false} CountsConcat(a: seq<Tree>, b: seq<Tree>)
    ensures Counts(a + b) == Counts(a) + Counts(b)
    decreases |a|
  {
    if a == [] {
      assert a + b == b;
    } else {
      assert (a + b)[1..] == a[1..] + b;
      CountsConcat(a[1..], b);
    }
  }

  lemma CountUnfold(t: Tree)
    ensures Count(t) == Counts(Children(t)) + if t.Statement? then 1 else 0
  {
    if t.Attribute? {
      assert Counts([t.value]) == Count(t.value) + Counts([]);
    }
  }

  /** The walk meets every statement once. */
  lemma {:induction false} ShapeCounts(queue: seq<Tree>)
    ensures |Shape(queue)| == Counts(queue)
    decreases Sizes(queue)
  {
    if queue != [] {
      WalkShrinks(queue);
      ShapeCounts(queue[1..] + Children(queue[0]));
      CountsConcat(queue[1..], Children(queue[0]));
      CountUnfold(queue[0]);
    }
  }

  // The types of the statements in a tree, with multiplicity.
  function Kinds(t: Tree): multiset<string>
    decreases t, 1
  {
    (if t.Statement? then multiset{t.kind} else multiset{}) +
    match t
    case Name(_, _) => multiset{}
    case Attribute(value, _, _) => Kinds(value)
    case Text(_) => multiset{}
    case Arguments(parts) => KindsOf(parts)
    case Statement(_, _, parts) => KindsOf(parts)
    case Other(_, _, parts) => KindsOf(parts)
  }

  function KindsOf(ts: seq<Tree>): multiset<string>
    decreases ts, 0
  {
    if ts == [] then multiset{} else Kinds(ts[0]) + KindsOf(ts[1..])
  }

  lemma {:induction false} KindsConcat(a: seq<Tree>, b: seq<Tree>)
    ensures KindsOf(a + b) == KindsOf(a) + KindsOf(b)
    decreases |a|
  {
    if a == [] {
      assert a + b == b;
    } else {
      assert (a + b)[1..] == a[1..] + b;
      KindsConcat(a[1..], b);
    }
  }

  lemma KindsUnfold(t: Tree)
    ensures Kinds(t) == KindsOf(Children(t)) + if t.Statement? then multiset{t.kind} else multiset{}
  {
    if t.Attribute? {
      assert KindsOf([t.value]) == Kinds(t.value) + KindsOf([]);
    }
  }

  /** The walk reports the type of every statement, each as often as it occurs. */
  lemma {:induction false} ShapeIsEveryStatement(queue: seq<Tree>)
    ensures multiset(Shape(queue)) == KindsOf(queue)
    decreases Sizes(queue)
  {
    if queue != [] {
      WalkShrinks(queue);
      ShapeIsEveryStatement(queue[1..] + Children(queue[0]));
      KindsConcat(queue[1..], Children(queue[0]));
      KindsUnfold(queue[0]);
    }
  }

  /** Where statements may stand: never below a name's attribute access or in a signature. */
  predicate Placed(t: Tree) {
    match t
    case Name(_, _) => true
    case Attribute(value, _, _) => Count(value) == 0
    case Text(_) => true
    case Arguments(parts) => Counts(parts) == 0
    case Statement(_, _, parts) => PlacedAll(parts)
    case Other(_, _, parts) => PlacedAll(parts)
  }

  predicate PlacedAll(ts: seq<Tree>) {
    forall i :: 0 <= i < |ts| ==> Placed(ts[i])
  }

  lemma {:induction false} EmptyStaysEmpty(t: Tree)
    requires Count(t) == 0
    ensures Count(Normal(t)) == 0
    decreases t, 1
  {
    if t.Other? {
      EmptyAll(t.parts);
    } else if t.Attribute? {
      EmptyStaysEmpty(t.value);
    }
  }

  lemma {:induction false} EmptyAll(ts: seq<Tree>)
    requires Counts(ts) == 0
    ensures Counts(NormalAll(ts)) == 0
    decreases ts, 0
  {
    if ts != [] {
      EmptyStaysEmpty(ts[0]);
      EmptyAll(ts[1..]);
    }
  }

  // The trees of a queue that hold a statement; only they shape the walk.
  function Keep(ts: seq<Tree>): seq<Tree> {
    if ts == [] then [] else (if Count(ts[0]) > 0 then [ts[0]] else []) + Keep(ts[1..])
  }

  lemma {:induction false} KeepConcat(a: seq<Tree>, b: seq<Tree>)
    ensures Keep(a + b) == Keep(a) + Keep(b)
    decreases |a|
  {
    if a == [] {
      assert a + b == b;
    } else {
      assert (a + b)[1..] == a[1..] + b;
      KeepConcat(a[1..], b);
    }
  }

  lemma {:induction false} KeepNothing(ts: seq<Tree>)
    requires Counts(ts) == 0
    ensures Keep(ts) == []
  {
    if ts != [] {
      KeepNothing(ts[1..]);
    }
  }

  lemma {:induction false} NormalKeeps(t: Tree)
    requires Placed(t)
    ensures Count(Normal(t)) == Count(t)
    decreases t, 1
  {
    match t
    case Attribute(value, _, _) => EmptyStaysEmpty(t);
    case Statement(_, _, parts) => NormalKeepsAll(parts);
    case Other(_, _, parts) => NormalKeepsAll(parts);
    case _ =>
  }

  lemma {:induction false} NormalKeepsAll(ts: seq<Tree>)
    requires PlacedAll(ts)
    ensures Counts(NormalAll(ts)) == Counts(ts)
    ensures Keep(NormalAll(ts)) == NormalAll(Keep(ts))
    decreases ts, 0
  {
    if ts != [] {
      NormalKeeps(ts[0]);
      NormalKeepsAll(ts[1..]);
      assert NormalAll(ts)[1..] == NormalAll(ts[1..]);
      if Count(ts[0]) > 0 {
        assert Keep(ts)[1..] == Keep(ts[1..]);
      }
    }
  }

  // One step of the walk over a statement-free tree changes nothing that is kept.
  lemma SkipEmpty(queue: seq<Tree>)
    requires queue != [] && Count(queue[0]) == 0
    ensures Keep(queue[1..] + Children(queue[0])) == Keep(queue)
    ensures Shape(queue) == Shape(queue[1..] + Children(queue[0]))
  {
    KeepConcat(queue[1..], Children(queue[0]));
    CountUnfold(queue[0]);
    KeepNothing(Children(queue[0]));
  }

  lemma {:induction false} SameShape(q: seq<Tree>, r: seq<Tree>)
    requires PlacedAll(Keep(q)) && Keep(r) == NormalAll(Keep(q))
    ensures Shape(q) == Shape(r)
    decreases Sizes(q) + Sizes(r)
  {
    if q != [] && Count(q[0]) == 0 {
      SkipEmpty(q);
      WalkShrinks(q);
      SameShape(q[1..] + Children(q[0]), r);
    } else if r != [] && Count(r[0]) == 0 {
      SkipEmpty(r);
      WalkShrinks(r);
      SameShape(q, r[1..] + Children(r[0]));
    } else if q != [] && r != [] {
      SameHead(q, r);
      WalkShrinks(q);
      WalkShrinks(r);
      SameShape(q[1..] + Children(q[0]), r[1..] + Children(r[0]));
    }
  }

  lemma {:induction false} NormalAllConcat(a: seq<Tree>, b: seq<Tree>)
    ensures NormalAll(a + b) == NormalAll(a) + NormalAll(b)
  {
  }

  lemma SameHead(q: seq<Tree>, r: seq<Tree>)
    requires PlacedAll(Keep(q)) && Keep(r) == NormalAll(Keep(q))
    requires q != [] && r != [] && Count(q[0]) > 0 && Count(r[0]) > 0
    ensures r[0] == Normal(q[0]) && (q[0].Statement? || q[0].Other?)
    ensures var q', r' := q[1..] + Children(q[0]), r[1..] + Children(r[0]);
            PlacedAll(Keep(q')) && Keep(r') == NormalAll(Keep(q'))
  {
    assert Keep(q)[0] == q[0] && Keep(q)[1..] == Keep(q[1..]);
    assert Keep(r)[0] == r[0] && Keep(r)[1..] == Keep(r[1..]);
    assert Placed(Keep(q)[0]);
    var cq := Children(q[0]);
    assert Children(r[0]) == NormalAll(cq);
    NormalKeepsAll(cq);
    KeepConcat(q[1..], cq);
    KeepConcat(r[1..], NormalAll(cq));
    assert NormalAll(Keep(q))[1..] == NormalAll(Keep(q[1..]));
    NormalAllConcat(Keep(q[1..]), Keep(cq));
    KeepSome(cq);
    assert PlacedAll(Keep(q[1..])) by {
      forall i | 0 <= i < |Keep(q[1..])| ensures Placed(Keep(q[1..])[i]) {
        assert Keep(q[1..])[i] == Keep(q)[i + 1];
      }
    }
  }

  lemma {:induction false} KeepSome(ts: seq<Tree>)
    requires PlacedAll(ts)
    ensures PlacedAll(Keep(ts))
  {
    if ts != [] {
      KeepSome(ts[1..]);
    }
  }

  /** The visitor never adds, drops or reorders a statement. */
  lemma ShapeKept(t: Tree)
    requires Placed(t)
    ensures Shape([Normal(t)]) == Shape([t])
  {
    assert [t][1..] == [] && [Normal(t)][1..] == [];
    NormalKeeps(t);
    assert NormalAll([t]) == [Normal(t)];
    SameShape([t], [Normal(t)]);
  }

  /******* Dropping statements *******/

  // `u` is `t` with any number of statements left out, at any depth.
  ghost predicate Truncated(t: Tree, u: Tree)
    decreases t, 1
  {
    || t == u
    || (t.Statement? && u.Statement? && t.kind == u.kind && t.tag == u.tag && TruncatedAll(t.parts, u.parts))
    || (t.Other? && u.Other? && t.kind == u.kind && t.tag == u.tag && TruncatedAll(t.parts, u.parts))
  }

  ghost predicate TruncatedAll(ts: seq<Tree>, us: seq<Tree>)
    decreases ts, 0
  {
    if ts == [] then us == []
    else
      || (ts[0].Statement? && TruncatedAll(ts[1..], us))
      || (us != [] && Truncated(ts[0], us[0]) && TruncatedAll(ts[1..], us[1..]))
  }

  lemma {:induction false} TruncatedCounts(t: Tree, u: Tree)
    requires Truncated(t, u)
    ensures Count(u) <= Count(t)
    ensures Count(u) == Count(t) ==> u == t
    decreases t, 1
  {
    if t != u {
      TruncatedAllCounts(t.parts, u.parts);
    }
  }

  lemma {:induction false} TruncatedAllCounts(ts: seq<Tree>, us: seq<Tree>)
    requires TruncatedAll(ts, us)
    ensures Counts(us) <= Counts(ts)
    ensures Counts(us) == Counts(ts) ==> us == ts
    decreases ts, 0
  {
    if ts != [] {
      if ts[0].Statement? && TruncatedAll(ts[1..], us) {
        TruncatedAllCounts(ts[1..], us);
        CountUnfold(ts[0]);
      } else {
        TruncatedCounts(ts[0], us[0]);
        TruncatedAllCounts(ts[1..], us[1..]);
        assert us == [us[0]] + us[1..] && ts == [ts[0]] + ts[1..];
      }
    }
  }

  lemma {:induction false} TruncatedPlaced(t: Tree, u: Tree)
    requires Placed(t) && Truncated(t, u)
    ensures Placed(u)
    decreases t, 1
  {
    if t != u {
      TruncatedAllPlaced(t.parts, u.parts);
    }
  }

  lemma {:induction false} TruncatedAllPlaced(ts: seq<Tree>, us: seq<Tree>)
    requires PlacedAll(ts) && TruncatedAll(ts, us)
    ensures PlacedAll(us)
    decreases ts, 0
  {
    if ts != [] {
      if ts[0].Statement? && TruncatedAll(ts[1..], us) {
        TruncatedAllPlaced(ts[1..], us);
      } else {
        TruncatedPlaced(ts[0], us[0]);
        TruncatedAllPlaced(ts[1..], us[1..]);
        assert us == [us[0]] + us[1..];
      }
    }
  }

  /******* Whole functions *******/

  // The parts of a function are its signature, its body and then its decorators.
  predicate IsFunction(f: Tree) {
    && f.Statement? && f.kind in {"FunctionDef", "AsyncFunctionDef"}
    && f.parts != [] && f.parts[0].Arguments?
    && Placed(f)
  }

  predicate IsDocstring(t: Tree) {
    t.Statement? && t.kind == "Expr" && |t.parts| == 1 && t.parts[0].Text?
  }

  function StripDocstring(parts: seq<Tree>): seq<Tree> {
    if |parts| > 1 && IsDocstring(parts[1]) then parts[..1] + parts[2..] else parts
  }

  // The clone: docstring gone, name blanked.
  function Clone(f: Tree): Tree
    requires IsFunction(f)
  {
    Statement(f.kind, "_", StripDocstring(f.parts))
  }

  function Normalise(f: Tree): Tree
    requires IsFunction(f)
  {
    Other("Module", "", [Normal(Clone(f))])
  }

  /** The clone: no name, and without the statement of one text that may open the body; all else as it was. */
  lemma CloneExactly(f: Tree)
    requires IsFunction(f)
    ensures var clone := Clone(f);
            && clone.Statement? && clone.kind == f.kind && clone.tag == "_"
            && ((exists tag, text :: |f.parts| > 1 && f.parts[1] == Statement("Expr", tag, [Text(text)])) ==>
                  clone.parts == [f.parts[0]] + f.parts[2..])
            && (!(exists tag, text :: |f.parts| > 1 && f.parts[1] == Statement("Expr", tag, [Text(text)])) ==>
                  clone.parts == f.parts)
  {
    if |f.parts| > 1 && IsDocstring(f.parts[1]) {
      assert f.parts[1] == Statement("Expr", f.parts[1].tag, [Text(f.parts[1].parts[0].text)]);
      assert f.parts[..1] == [f.parts[0]];
    }
  }

  lemma CloneIsPlaced(f: Tree)
    requires IsFunction(f)
    ensures Placed(Clone(f))
  {
    var parts := StripDocstring(f.parts);
    assert Placed(f) && PlacedAll(f.parts);
    forall i | 0 <= i < |parts| ensures Placed(parts[i]) {
      var k := if parts == f.parts || i == 0 then i else i + 1;
      assert Placed(f.parts[k]) && parts[i] == f.parts[k];
    }
  }

  lemma NormaliseKinds(f: Tree)
    requires IsFunction(f)
    ensures multiset(Shape([Normalise(f)])) == Kinds(Clone(f))
  {
    CloneIsPlaced(f);
    ShapeKept(Clone(f));
    var root, n := Normalise(f), Normal(Clone(f));
    assert [root][1..] + Children(root) == [n];
    assert Shape([root]) == Shape([n]);
    ShapeIsEveryStatement([Clone(f)]);
    assert KindsOf([Clone(f)]) == Kinds(Clone(f)) + KindsOf([]);
  }

  lemma NormaliseCounts(f: Tree)
    requires IsFunction(f)
    ensures |Shape([Normalise(f)])| == Count(Clone(f))
  {
    var n := Normal(Clone(f));
    CloneIsPlaced(f);
    NormalKeeps(Clone(f));
    ShapeCounts([Normalise(f)]);
    assert Counts([n]) == Count(n) + Counts([]);
    assert Counts([Normalise(f)]) == Count(Normalise(f)) + Counts([]);
  }

  /** `ast.walk`: a deque popped at the left and extended at the right. */
  method Walk(root: Tree) returns (shape: seq<string>)
    ensures shape == Shape([root])
  {
    shape := [];
    var queue := [root];
    while queue != []
      invariant Shape([root]) == shape + Shape(queue)
      decreases Sizes(queue)
    {
      var node := queue[0];
      WalkShrinks(queue);
      assert Shape(queue) == (if node.Statement? then [node.kind] else []) + Shape(queue[1..] + Children(node));
      if node.Statement? {
        shape := shape + [node.kind];
      }
      queue := queue[1..] + Children(node);
    }
  }

  /** `statement_shape` */
  method StatementShape(f: Tree) returns (shape: seq<string>)
    requires IsFunction(f)
    ensures shape == Shape([Normalise(f)])
    ensures multiset(shape) == Kinds(Clone(f))
  {
    shape := Walk(Normalise(f));
    NormaliseKinds(f);
  }

  /**
   The audit's promise: extract a method, leaving out any statements anywhere along the way. The
   shapes agree exactly when none was left out, and then the normalised trees agree as well.
   */
  lemma DroppedStatementShows(m: Tree, cut: Tree, e: Tree)
    requires IsFunction(m) && IsFunction(e)
    requires Truncated(Clone(m), cut) && Extracted(cut, Clone(e))
    ensures Shape([Normalise(m)]) == Shape([Normalise(e)]) <==> cut == Clone(m)
    ensures Normalise(m) == Normalise(e) <==> cut == Clone(m)
  {
    NormaliseCounts(m);
    NormaliseCounts(e);
    TruncatedCounts(Clone(m), cut);
    CloneIsPlaced(m);
    CloneIsPlaced(e);
    TruncatedPlaced(Clone(m), cut);
    NormalKeeps(cut);
    NormalKeeps(Clone(e));
    ExtractionIsInvisible(cut, Clone(e));
  }
}
