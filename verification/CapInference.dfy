/** Capability inference over a plugin's syntax tree: which names stand for the SDK object or
    for one of its methods, and which capabilities the calls through those names need. */
module CapInference {
  import opened Wrappers

  /** `{ property as local }`, or `{ local }`. */
  datatype Specifier = Specifier(local: string, property: Option<string>)

  datatype Bindings = Namespace(name: string) | Named(elements: seq<Specifier>)

  /** What an import declaration binds: a default name, and a namespace or named exports. */
  datatype ImportClause = ImportClause(default: Option<string>, bindings: Option<Bindings>)

  /** The syntax that matters; every other node is `OtherKind`. */
  datatype Kind =
    | Ident(text: string)
    | Str(text: string)
    | ImportKeyword
    | PropertyAccess(name: string)          // first child: the object
    | ElementAccess                         // first child: the object; last: the key
    | CallExpr(argCount: nat)               // first child: the callee; last `argCount`: the arguments
    | VarDecl(hasInit: bool)                // first child: the name; last: the initializer, if any
    | ObjPattern                            // children: the elements
    | BindingElem(isRest: bool, hasProp: bool) // the rest token or the property name, if any, then the local name
    | ImportDecl(spec: Option<string>, clause: Option<ImportClause>)
    | OtherKind

  datatype Node = Node(kind: Kind, children: seq<Node>)

  const MISSING := Node(OtherKind, [])

  function Child(n: Node, i: int): Node {
    if 0 <= i < |n.children| then n.children[i] else MISSING
  }

  function LastChild(n: Node): Node {
    Child(n, |n.children| - 1)
  }

  /** A node and everything below it, parents first, in source order. */
  function Preorder(n: Node): seq<Node>
    decreases n, 0
  {
    [n] + PreorderAll(n.children)
  }

  function PreorderAll(ns: seq<Node>): seq<Node>
    decreases ns, 1
  {
    if ns == [] then [] else PreorderAll(ns[..|ns| - 1]) + Preorder(ns[|ns| - 1])
  }

  const SDK_SPECIFIERS := {"@maw-js/sdk", "maw", "maw-sdk", "maw/sdk"}

  const MODULE_CAPS: map<string, string> :=
    map["node:fs" := "fs:read", "node:fs/promises" := "fs:read", "node:child_process" := "proc:spawn",
        "bun:ffi" := "ffi:any"]

  // ----- what a program binds, as a list of events

  /** One way a local name can come to stand for the SDK or for one of its methods. */
  datatype Binding =
    | ImportedObject(local: string)
    | ImportedMethod(local: string, exported: string)
    | Alias(local: string, source: string)
    | Destructured(local: string, exported: string, source: string)

  /** The name under which a specifier's module exports it. */
  function ExportedName(el: Specifier): string {
    if el.property.Some? then el.property.value else el.local
  }

  function NamedImports(elements: seq<Specifier>): seq<Binding> {
    if elements == [] then []
    else
      var el := elements[|elements| - 1];
      NamedImports(elements[..|elements| - 1]) + [ImportedMethod(el.local, ExportedName(el))]
  }

  function BindingsOfClause(c: ImportClause): seq<Binding> {
    (if c.default.Some? then [ImportedObject(c.default.value)] else [])
    + match c.bindings
      case None => []
      case Some(Namespace(name)) => [ImportedObject(name)]
      case Some(Named(elements)) => NamedImports(elements)
  }

  predicate IsSdkImport(stmt: Node) {
    && stmt.kind.ImportDecl? && stmt.kind.spec.Some? && stmt.kind.spec.value !in MODULE_CAPS
    && stmt.kind.spec.value in SDK_SPECIFIERS
  }

  function BindingsOfImport(stmt: Node): seq<Binding> {
    if IsSdkImport(stmt) && stmt.kind.clause.Some? then BindingsOfClause(stmt.kind.clause.value) else []
  }

  function BindingsOfImports(stmts: seq<Node>): seq<Binding> {
    if stmts == [] then [] else BindingsOfImports(stmts[..|stmts| - 1]) + BindingsOfImport(stmts[|stmts| - 1])
  }

  /** The name an element of a pattern binds, if it is a plain identifier. */
  function ElementName(el: Node): Node {
    match el.kind
    case BindingElem(isRest, hasProp) => Child(el, (if isRest then 1 else 0) + (if hasProp then 1 else 0))
    case _ => MISSING
  }

  /** The property an element takes: the one it names, or the one it is called after. */
  function ElementProperty(el: Node): string
    requires ElementName(el).kind.Ident?
  {
    var prop := Child(el, if el.kind.isRest then 1 else 0);
    if el.kind.hasProp && prop.kind.Ident? then prop.kind.text else ElementName(el).kind.text
  }

  function DestructuredFrom(elements: seq<Node>, source: string): seq<Binding> {
    if elements == [] then []
    else
      var el := elements[|elements| - 1];
      DestructuredFrom(elements[..|elements| - 1], source) +
      (if ElementName(el).kind.Ident?
       then [Destructured(ElementName(el).kind.text, ElementProperty(el), source)] else [])
  }

  /** What a declaration with an identifier as initializer binds. */
  function BindingsOfDecl(n: Node): seq<Binding> {
    if n.kind == VarDecl(true) && LastChild(n).kind.Ident? then
      var source := LastChild(n).kind.text;
      match Child(n, 0).kind
      case Ident(local) => [Alias(local, source)]
      case ObjPattern => DestructuredFrom(Child(n, 0).children, source)
      case _ => []
    else []
  }

  function BindingsOfDecls(nodes: seq<Node>): seq<Binding> {
    if nodes == [] then [] else BindingsOfDecls(nodes[..|nodes| - 1]) + BindingsOfDecl(nodes[|nodes| - 1])
  }

  /** All bindings of a program: imports first, then declarations in traversal order. */
  function ProgramBindings(root: Node): seq<Binding> {
    BindingsOfImports(root.children) + BindingsOfDecls(Preorder(root))
  }

  // ----- the tables the passes fill

  datatype Tables = Tables(objects: set<string>, methods: map<string, string>)

  function Bind(t: Tables, b: Binding): Tables {
    match b
    case ImportedObject(local) => t.(objects := t.objects + {local})
    case ImportedMethod(local, exported) => t.(methods := t.methods[local := exported])
    case Alias(local, source) => if source in t.objects then t.(objects := t.objects + {local}) else t
    case Destructured(local, exported, source) =>
      if source in t.objects then t.(methods := t.methods[local := exported]) else t
  }

  function BindAll(t: Tables, bs: seq<Binding>): Tables {
    if bs == [] then t else Bind(BindAll(t, bs[..|bs| - 1]), bs[|bs| - 1])
  }

  const NO_TABLES := Tables({}, map[])

  // ----- what a name stands for

  /** `name` stands for the SDK object by the first `n` bindings: it is imported, or it copies a
      name that stood for the SDK object before. */
  ghost predicate ObjectInOrder(bs: seq<Binding>, name: string, n: nat)
    requires n <= |bs|
    decreases n
  {
    exists i :: 0 <= i < n && bs[i].local == name &&
      (bs[i].ImportedObject? || (bs[i].Alias? && ObjectInOrder(bs, bs[i].source, i)))
  }

  /** The binding gives `name` the meaning of a method of the SDK. */
  ghost predicate BindsMethod(bs: seq<Binding>, name: string, i: nat)
    requires i < |bs|
  {
    bs[i].local == name && (bs[i].ImportedMethod? || (bs[i].Destructured? && ObjectInOrder(bs, bs[i].source, i)))
  }

  /** `name` stands for the method `exported`: the last binding that gives it a method. */
  ghost predicate MethodInOrder(bs: seq<Binding>, name: string, exported: string, n: nat)
    requires n <= |bs|
  {
    exists i :: 0 <= i < n && BindsMethod(bs, name, i) && bs[i].exported == exported
                && forall j :: i < j < n ==> !BindsMethod(bs, name, j)
  }

  lemma {:induction false} InOrderOfPrefix(bs: seq<Binding>, name: string, n: nat, m: nat)
    requires n <= m <= |bs|
    ensures ObjectInOrder(bs[..m], name, n) <==> ObjectInOrder(bs, name, n)
    decreases n
  {
    forall i | 0 <= i < n && bs[i].Alias?
      ensures ObjectInOrder(bs[..m], bs[i].source, i) <==> ObjectInOrder(bs, bs[i].source, i)
    {
      InOrderOfPrefix(bs, bs[i].source, i, m);
    }
    assert forall i :: 0 <= i < n ==> bs[..m][i] == bs[i];
  }

  /** For every program: the tables hold exactly the names that stand for the SDK object, and for
      each other name exactly the method it stands for, through any chain of copies in order. */
  lemma {:induction false} TablesAreInOrder(bs: seq<Binding>, n: nat)
    requires n <= |bs|
    ensures forall name :: name in BindAll(NO_TABLES, bs[..n]).objects <==> ObjectInOrder(bs, name, n)
    ensures forall name, exported ::
              (name in BindAll(NO_TABLES, bs[..n]).methods && BindAll(NO_TABLES, bs[..n]).methods[name] == exported)
              <==> MethodInOrder(bs, name, exported, n)
    decreases n
  {
    if n > 0 {
      var last := bs[n - 1];
      TablesAreInOrder(bs, n - 1);
      assert bs[..n][..n - 1] == bs[..n - 1];
      ObjectsGrow(bs, n);
      MethodsGrow(bs, n);
    }
  }

  lemma ObjectsGrow(bs: seq<Binding>, n: nat)
    requires 0 < n <= |bs|
    ensures forall name :: ObjectInOrder(bs, name, n) <==>
              || ObjectInOrder(bs, name, n - 1)
              || (bs[n - 1].local == name &&
                  (bs[n - 1].ImportedObject? || (bs[n - 1].Alias? && ObjectInOrder(bs, bs[n - 1].source, n - 1))))
  {
  }

  lemma MethodsGrow(bs: seq<Binding>, n: nat)
    requires 0 < n <= |bs|
    ensures forall name, exported :: MethodInOrder(bs, name, exported, n) <==>
              if BindsMethod(bs, name, n - 1) then bs[n - 1].exported == exported
              else MethodInOrder(bs, name, exported, n - 1)
  {
    hide ObjectInOrder;
  }

  // ----- the same, without regard to order

  /** `name` stands for the SDK object through a chain of at most `steps` copies. */
  ghost predicate StandsForObject(bs: seq<Binding>, name: string, steps: nat)
    decreases steps
  {
    exists i :: 0 <= i < |bs| && bs[i].local == name &&
      (bs[i].ImportedObject? || (bs[i].Alias? && steps > 0 && StandsForObject(bs, bs[i].source, steps - 1)))
  }

  ghost predicate IsObject(bs: seq<Binding>, name: string) {
    exists steps: nat :: StandsForObject(bs, name, steps)
  }

  ghost predicate IsMethod(bs: seq<Binding>, name: string, exported: string) {
    exists i :: 0 <= i < |bs| && bs[i].local == name &&
      (bs[i].ImportedMethod? || (bs[i].Destructured? && IsObject(bs, bs[i].source))) && bs[i].exported == exported
  }

  predicate BoundOnce(bs: seq<Binding>) {
    forall i, j :: 0 <= i < j < |bs| ==> bs[i].local != bs[j].local
  }

  /** Every copy comes after whatever binds the name it copies. */
  predicate SourcesFirst(bs: seq<Binding>) {
    forall i, j ::
      0 <= i < |bs| && 0 <= j < |bs| && (bs[i].Alias? || bs[i].Destructured?) && bs[j].local == bs[i].source ==> j < i
  }

  lemma {:induction false} InOrderStands(bs: seq<Binding>, name: string, n: nat)
    requires n <= |bs| && ObjectInOrder(bs, name, n)
    ensures StandsForObject(bs, name, n)
    decreases n
  {
    var i :| 0 <= i < n && bs[i].local == name &&
      (bs[i].ImportedObject? || (bs[i].Alias? && ObjectInOrder(bs, bs[i].source, i)));
    if bs[i].Alias? {
      InOrderStands(bs, bs[i].source, i);
      MoreSteps(bs, bs[i].source, i, n - 1);
    }
  }

  lemma {:induction false} MoreSteps(bs: seq<Binding>, name: string, m: nat, n: nat)
    requires m <= n && StandsForObject(bs, name, m)
    ensures StandsForObject(bs, name, n)
    decreases m
  {
    var i :| 0 <= i < |bs| && bs[i].local == name &&
      (bs[i].ImportedObject? || (bs[i].Alias? && m > 0 && StandsForObject(bs, bs[i].source, m - 1)));
    if bs[i].Alias? { MoreSteps(bs, bs[i].source, m - 1, n - 1); }
  }

  lemma {:induction false} StandsInOrder(bs: seq<Binding>, name: string, steps: nat)
    requires SourcesFirst(bs) && StandsForObject(bs, name, steps)
    ensures ObjectInOrder(bs, name, |bs|)
    decreases steps
  {
    var i :| 0 <= i < |bs| && bs[i].local == name &&
      (bs[i].ImportedObject? || (bs[i].Alias? && steps > 0 && StandsForObject(bs, bs[i].source, steps - 1)));
    if bs[i].Alias? {
      StandsInOrder(bs, bs[i].source, steps - 1);
      SourceIsBoundBefore(bs, i);
    }
  }

  /** When sources come first, what a copied name stands for is settled before the copy. */
  lemma SourceIsBoundBefore(bs: seq<Binding>, i: nat)
    requires SourcesFirst(bs) && i < |bs| && (bs[i].Alias? || bs[i].Destructured?)
    ensures ObjectInOrder(bs, bs[i].source, |bs|) <==> ObjectInOrder(bs, bs[i].source, i)
  {
    var source := bs[i].source;
    if ObjectInOrder(bs, source, |bs|) {
      var j :| 0 <= j < |bs| && bs[j].local == source &&
        (bs[j].ImportedObject? || (bs[j].Alias? && ObjectInOrder(bs, bs[j].source, j)));
      assert j < i;
    }
    if ObjectInOrder(bs, source, i) {
      var j :| 0 <= j < i && bs[j].local == source &&
        (bs[j].ImportedObject? || (bs[j].Alias? && ObjectInOrder(bs, bs[j].source, j)));
      assert 0 <= j < |bs|;
    }
  }

  lemma ObjectsAreExact(bs: seq<Binding>, name: string)
    requires SourcesFirst(bs)
    ensures ObjectInOrder(bs, name, |bs|) <==> IsObject(bs, name)
  {
    if ObjectInOrder(bs, name, |bs|) { InOrderStands(bs, name, |bs|); }
    if IsObject(bs, name) {
      var steps: nat :| StandsForObject(bs, name, steps);
      StandsInOrder(bs, name, steps);
    }
  }

  /** When no name is bound twice and copies follow what they copy, the tables hold exactly the
      names that stand for the SDK through any chain of imports, aliases and destructurings. */
  lemma TablesAreExact(bs: seq<Binding>)
    requires BoundOnce(bs) && SourcesFirst(bs)
    ensures forall name :: name in BindAll(NO_TABLES, bs).objects <==> IsObject(bs, name)
    ensures forall name, exported ::
              (name in BindAll(NO_TABLES, bs).methods && BindAll(NO_TABLES, bs).methods[name] == exported)
              <==> IsMethod(bs, name, exported)
  {
    hide ObjectInOrder, IsObject;
    assert bs[..|bs|] == bs;
    TablesAreInOrder(bs, |bs|);
    forall name ensures ObjectInOrder(bs, name, |bs|) <==> IsObject(bs, name) { ObjectsAreExact(bs, name); }
    forall i | 0 <= i < |bs| && bs[i].Destructured?
      ensures ObjectInOrder(bs, bs[i].source, i) <==> IsObject(bs, bs[i].source)
    {
      SourceIsBoundBefore(bs, i);
    }
    forall name, exported
      ensures MethodInOrder(bs, name, exported, |bs|) <==> IsMethod(bs, name, exported)
    {
      if IsMethod(bs, name, exported) {
        var i :| 0 <= i < |bs| && bs[i].local == name &&
          (bs[i].ImportedMethod? || (bs[i].Destructured? && IsObject(bs, bs[i].source))) && bs[i].exported == exported;
        assert BindsMethod(bs, name, i);
      }
    }
  }

  // ----- exactly when order is no matter

  /** The tables hold exactly what the names stand for through any chain. */
  ghost predicate AreExact(bs: seq<Binding>, t: Tables) {
    && (forall name :: name in t.objects <==> IsObject(bs, name))
    && (forall name, exported ::
          (name in t.methods && t.methods[name] == exported) <==> IsMethod(bs, name, exported))
  }

  /** A second pass over the bindings would change nothing. */
  predicate Settled(bs: seq<Binding>) {
    forall i :: 0 <= i < |bs| ==> Bind(BindAll(NO_TABLES, bs), bs[i]) == BindAll(NO_TABLES, bs)
  }

  /** For every program, what the tables hold stands for the SDK through some chain. */
  lemma {:induction false} TablesAreSound(bs: seq<Binding>)
    ensures forall name :: name in BindAll(NO_TABLES, bs).objects ==> IsObject(bs, name)
    ensures forall name :: name in BindAll(NO_TABLES, bs).methods ==>
              IsMethod(bs, name, BindAll(NO_TABLES, bs).methods[name])
  {
    hide ObjectInOrder, IsObject, BindAll;
    var t := BindAll(NO_TABLES, bs);
    assert bs[..|bs|] == bs;
    TablesAreInOrder(bs, |bs|);
    forall name | name in t.objects ensures IsObject(bs, name) { InOrderIsObject(bs, name, |bs|); }
    forall name | name in t.methods
      ensures IsMethod(bs, name, t.methods[name])
    {
      assert MethodInOrder(bs, name, t.methods[name], |bs|);
      var i :| 0 <= i < |bs| && BindsMethod(bs, name, i) && bs[i].exported == t.methods[name];
      if bs[i].Destructured? { InOrderIsObject(bs, bs[i].source, i); }
    }
  }

  lemma {:induction false} InOrderIsObject(bs: seq<Binding>, name: string, n: nat)
    requires n <= |bs| && ObjectInOrder(bs, name, n)
    ensures IsObject(bs, name)
  {
    InOrderStands(bs, name, n);
  }

  lemma {:induction false} SettledHoldsObjects(bs: seq<Binding>, name: string, steps: nat)
    requires Settled(bs) && StandsForObject(bs, name, steps)
    ensures name in BindAll(NO_TABLES, bs).objects
    decreases steps
  {
    hide BindAll;
    var i :| 0 <= i < |bs| && bs[i].local == name &&
      (bs[i].ImportedObject? || (bs[i].Alias? && steps > 0 && StandsForObject(bs, bs[i].source, steps - 1)));
    if bs[i].Alias? { SettledHoldsObjects(bs, bs[i].source, steps - 1); }
    assert Bind(BindAll(NO_TABLES, bs), bs[i]) == BindAll(NO_TABLES, bs);
  }

  lemma {:induction false} SettledIsExact(bs: seq<Binding>)
    requires Settled(bs)
    ensures AreExact(bs, BindAll(NO_TABLES, bs))
  {
    hide BindAll;
    var t := BindAll(NO_TABLES, bs);
    TablesAreSound(bs);
    forall name | IsObject(bs, name)
      ensures name in t.objects
    {
      var steps: nat :| StandsForObject(bs, name, steps);
      SettledHoldsObjects(bs, name, steps);
    }
    hide IsObject;
    forall name, exported | IsMethod(bs, name, exported)
      ensures name in t.methods && t.methods[name] == exported
    {
      var i :| 0 <= i < |bs| && bs[i].local == name &&
        (bs[i].ImportedMethod? || (bs[i].Destructured? && IsObject(bs, bs[i].source))) && bs[i].exported == exported;
      assert Bind(t, bs[i]) == t;
    }
  }

  lemma {:induction false} CopyOfObject(bs: seq<Binding>, i: nat)
    requires i < |bs| && bs[i].Alias? && IsObject(bs, bs[i].source)
    ensures IsObject(bs, bs[i].local)
  {
    var steps: nat :| StandsForObject(bs, bs[i].source, steps);
    assert StandsForObject(bs, bs[i].local, steps + 1);
  }

  lemma {:induction false} ImportIsObject(bs: seq<Binding>, i: nat)
    requires i < |bs| && bs[i].ImportedObject?
    ensures IsObject(bs, bs[i].local)
  {
    assert StandsForObject(bs, bs[i].local, 0);
  }

  lemma {:induction false} ExactIsSettled(bs: seq<Binding>)
    requires AreExact(bs, BindAll(NO_TABLES, bs))
    ensures Settled(bs)
  {
    hide BindAll, IsObject;
    var t := BindAll(NO_TABLES, bs);
    forall i | 0 <= i < |bs|
      ensures Bind(t, bs[i]) == t
    {
      match bs[i] {
        case ImportedObject(local) => ImportIsObject(bs, i);
        case ImportedMethod(local, exported) => assert IsMethod(bs, local, exported);
        case Alias(local, source) => if source in t.objects { CopyOfObject(bs, i); }
        case Destructured(local, exported, source) =>
          if source in t.objects { assert IsMethod(bs, local, exported); }
      }
    }
  }

  /** For every program: one pass finds exactly the names that stand for the SDK through any chain
      if and only if a second pass would change nothing. */
  lemma {:induction false} ExactExactlyWhenSettled(bs: seq<Binding>)
    ensures AreExact(bs, BindAll(NO_TABLES, bs)) <==> Settled(bs)
  {
    hide AreExact, Settled;
    if Settled(bs) { SettledIsExact(bs); }
    if AreExact(bs, BindAll(NO_TABLES, bs)) { ExactIsSettled(bs); }
  }

  /** So it does when no local name is bound twice and each copy follows what it copies. */
  lemma {:induction false} UniqueInOrderIsSettled(bs: seq<Binding>)
    requires forall i, j :: 0 <= i < j < |bs| ==> bs[i].local != bs[j].local
    requires forall i, j :: 0 <= i <= j < |bs| && (bs[i].Alias? || bs[i].Destructured?) ==> bs[j].local != bs[i].source
    ensures Settled(bs)
  {
    assert BoundOnce(bs) && SourcesFirst(bs);
    hide BoundOnce, SourcesFirst, BindAll, IsObject, IsMethod, Settled;
    TablesAreExact(bs);
    ExactIsSettled(bs);
  }

  /** Out of order, a chain is missed: here `b` copies `a` before `a` copies the SDK object. */
  lemma LateSourceIsMissed()
    ensures var bs := [ImportedObject("maw"), Alias("b", "a"), Alias("a", "maw")];
            BoundOnce(bs) && IsObject(bs, "b") && "b" !in BindAll(NO_TABLES, bs).objects
  {
    var bs := [ImportedObject("maw"), Alias("b", "a"), Alias("a", "maw")];
    assert IsObject(bs, "b") by {
      hide BindAll;
      assert bs[0].local == "maw" && bs[2].local == "a" && bs[1].local == "b";
      assert StandsForObject(bs, "maw", 0);
      assert StandsForObject(bs, "a", 1);
      assert StandsForObject(bs, "b", 2);
    }
    hide IsObject, StandsForObject;
    assert bs[..2] == [ImportedObject("maw"), Alias("b", "a")];
    assert bs[..2][..1] == [ImportedObject("maw")];
    assert bs[..2][..1][..0] == [];
    assert BindAll(NO_TABLES, bs[..2][..1]).objects == {"maw"};
    assert BindAll(NO_TABLES, bs[..2]).objects == {"maw"};
  }

  // ----- capabilities

  /** The capabilities one node needs, given what the names stand for. */
  function CapsOf(t: Tables, n: Node): set<string> {
    if n.kind.CallExpr? then CalleeCaps(t, Child(n, 0)) + LoadCaps(n) else {}
  }

  predicate IsObjectName(t: Tables, n: Node) {
    n.kind.Ident? && n.kind.text in t.objects
  }

  function CalleeCaps(t: Tables, callee: Node): set<string> {
    match callee.kind
    case PropertyAccess(name) => if IsObjectName(t, Child(callee, 0)) then {"sdk:" + name} else {}
    case ElementAccess =>
      if !IsObjectName(t, Child(callee, 0)) then {}
      else if LastChild(callee).kind.Str? then {"sdk:" + LastChild(callee).kind.text}
      else {"sdk:*dynamic*"}
    case Ident(text) =>
      (if text in t.methods then {"sdk:" + t.methods[text]} else {}) + (if text == "fetch" then {"net:fetch"} else {})
    case _ => {}
  }

  predicate LoadsModules(callee: Node) {
    callee.kind == Ident("require") || callee.kind == ImportKeyword
  }

  function FirstArg(call: Node): Node
    requires call.kind.CallExpr?
  {
    if call.kind.argCount == 0 then MISSING else Child(call, |call.children| - call.kind.argCount)
  }

  function LoadCaps(call: Node): set<string>
    requires call.kind.CallExpr?
  {
    var arg := FirstArg(call);
    if arg.kind.Str? && LoadsModules(Child(call, 0)) && arg.kind.text in MODULE_CAPS
    then {MODULE_CAPS[arg.kind.text]} else {}
  }

  function CapsOfAll(t: Tables, ns: seq<Node>): set<string> {
    if ns == [] then {} else CapsOfAll(t, ns[..|ns| - 1]) + CapsOf(t, ns[|ns| - 1])
  }

  function ImportCaps(stmt: Node): set<string> {
    if stmt.kind.ImportDecl? && stmt.kind.spec.Some? && stmt.kind.spec.value in MODULE_CAPS
    then {MODULE_CAPS[stmt.kind.spec.value]} else {}
  }

  function ImportCapsOfAll(stmts: seq<Node>): set<string> {
    if stmts == [] then {} else ImportCapsOfAll(stmts[..|stmts| - 1]) + ImportCaps(stmts[|stmts| - 1])
  }

  /** A call whose callee resolves to the SDK, and the capability it needs, given which names stand
      for the SDK object and for its methods: `object.name()`, `object["name"]()`, `object[key]()`
      or `name()`. */
  ghost predicate CallNeeds(call: Node, cap: string, isObject: string -> bool, isMethod: (string, string) -> bool) {
    call.kind.CallExpr? && |call.children| > 0 &&
    var callee := call.children[0];
    var inside := callee.children;
    match callee.kind
    case PropertyAccess(name) =>
      |inside| > 0 && inside[0].kind.Ident? && isObject(inside[0].kind.text) && cap == "sdk:" + name
    case ElementAccess =>
      |inside| > 0 && inside[0].kind.Ident? && isObject(inside[0].kind.text) &&
      cap == if inside[|inside| - 1].kind.Str? then "sdk:" + inside[|inside| - 1].kind.text else "sdk:*dynamic*"
    case Ident(text) => exists exported :: isMethod(text, exported) && cap == "sdk:" + exported
    case _ => false
  }

  /** A call that needs `cap` by what the names stand for in traversal order. */
  ghost predicate CallNeedsInOrder(bs: seq<Binding>, call: Node, cap: string) {
    CallNeeds(call, cap, name => ObjectInOrder(bs, name, |bs|),
              (name, exported) => MethodInOrder(bs, name, exported, |bs|))
  }

  /** A call that needs `cap` by what the names stand for through any chain. */
  ghost predicate SdkCallNeeds(bs: seq<Binding>, call: Node, cap: string) {
    CallNeeds(call, cap, name => IsObject(bs, name), (name, exported) => IsMethod(bs, name, exported))
  }

  /** The capability that a module other than the SDK needs. */
  predicate ModuleNeeds(spec: string, cap: string) {
    || ((spec == "node:fs" || spec == "node:fs/promises") && cap == "fs:read")
    || (spec == "node:child_process" && cap == "proc:spawn")
    || (spec == "bun:ffi" && cap == "ffi:any")
  }

  /** The capabilities that do not come from the SDK: `fetch()`, and `require` or `import` called
      with the name of a module as first argument. */
  predicate OtherNeeds(call: Node, cap: string) {
    call.kind.CallExpr? && |call.children| > 0 &&
    var callee, n := call.children[0], |call.children| - call.kind.argCount;
    || (callee.kind == Ident("fetch") && cap == "net:fetch")
    || ((callee.kind == Ident("require") || callee.kind == ImportKeyword)
        && 0 <= n < |call.children| && call.children[n].kind.Str? && ModuleNeeds(call.children[n].kind.text, cap))
  }

  lemma LoadCapsAre(call: Node, cap: string)
    requires call.kind.CallExpr?
    ensures cap in LoadCaps(call) <==>
            var n := |call.children| - call.kind.argCount;
            && |call.children| > 0
            && (call.children[0].kind == Ident("require") || call.children[0].kind == ImportKeyword)
            && 0 <= n < |call.children| && call.children[n].kind.Str? && ModuleNeeds(call.children[n].kind.text, cap)
  {
  }

  /** An imported module other than the SDK needs its capability. */
  predicate ImportNeeds(stmt: Node, cap: string) {
    stmt.kind.ImportDecl? && stmt.kind.spec.Some? && ModuleNeeds(stmt.kind.spec.value, cap)
  }

  lemma {:induction false} ImportCapsAre(stmts: seq<Node>, cap: string)
    ensures cap in ImportCapsOfAll(stmts) <==> exists i :: 0 <= i < |stmts| && ImportNeeds(stmts[i], cap)
  {
    if stmts != [] {
      var init := stmts[..|stmts| - 1];
      ImportCapsAre(init, cap);
      assert forall i :: 0 <= i < |init| ==> init[i] == stmts[i];
    }
  }

  lemma {:induction false} CapsOfAllAre(t: Tables, ns: seq<Node>, cap: string)
    ensures cap in CapsOfAll(t, ns) <==> exists i :: 0 <= i < |ns| && cap in CapsOf(t, ns[i])
  {
    if ns != [] {
      var init := ns[..|ns| - 1];
      CapsOfAllAre(t, init, cap);
      assert forall i :: 0 <= i < |init| ==> init[i] == ns[i];
    }
  }

  function Inferred(root: Node): set<string> {
    ImportCapsOfAll(root.children) + CapsOfAll(BindAll(NO_TABLES, ProgramBindings(root)), Preorder(root))
  }

  /** For every program: a call's capabilities are exactly those it needs by what the names stand
      for in traversal order. */
  lemma {:induction false} NodeCapsAreInOrder(bs: seq<Binding>, n: Node, cap: string)
    ensures cap in CapsOf(BindAll(NO_TABLES, bs), n) <==> CallNeedsInOrder(bs, n, cap) || OtherNeeds(n, cap)
  {
    hide BindAll, ObjectInOrder, MethodInOrder, LoadCaps, ModuleNeeds;
    TablesAreInOrder(bs, |bs|);
    if n.kind.CallExpr? { LoadCapsAre(n, cap); }
    assert bs[..|bs|] == bs;
    var t := BindAll(NO_TABLES, bs);
    var callee := Child(n, 0);
    if n.kind.CallExpr? && callee.kind.Ident? {
      var text := callee.kind.text;
      if text in t.methods {
        assert MethodInOrder(bs, text, t.methods[text], |bs|);
      }
    }
  }

  /** When a second pass over the bindings would change nothing, order is no matter. */
  lemma {:induction false} OrderIsNoMatter(bs: seq<Binding>, n: Node, cap: string)
    requires Settled(bs)
    ensures CallNeedsInOrder(bs, n, cap) <==> SdkCallNeeds(bs, n, cap)
  {
    hide BindAll, ObjectInOrder, MethodInOrder, IsObject, IsMethod, Settled;
    TablesAreInOrder(bs, |bs|);
    SettledIsExact(bs);
    assert bs[..|bs|] == bs;
    assert forall name :: ObjectInOrder(bs, name, |bs|) <==> IsObject(bs, name);
    assert forall name, exported :: MethodInOrder(bs, name, exported, |bs|) <==> IsMethod(bs, name, exported);
  }

  lemma {:induction false} NodeCapsAreExact(bs: seq<Binding>, n: Node, cap: string)
    requires Settled(bs)
    ensures cap in CapsOf(BindAll(NO_TABLES, bs), n) <==> SdkCallNeeds(bs, n, cap) || OtherNeeds(n, cap)
  {
    hide BindAll, CallNeedsInOrder, SdkCallNeeds, OtherNeeds, CapsOf, Settled;
    NodeCapsAreInOrder(bs, n, cap);
    OrderIsNoMatter(bs, n, cap);
  }

  /** For every program, the inferred capabilities are exactly: those of imported modules, those of
      calls whose callee resolves to the SDK in traversal order, and those of fetch and
      module-loading calls. */
  lemma {:induction false} InferredIsInOrder(root: Node, cap: string)
    ensures cap in Inferred(root) <==>
            || cap in ImportCapsOfAll(root.children)
            || exists i :: 0 <= i < |Preorder(root)| &&
                 (CallNeedsInOrder(ProgramBindings(root), Preorder(root)[i], cap) || OtherNeeds(Preorder(root)[i], cap))
  {
    hide CallNeedsInOrder, OtherNeeds, CapsOf, Preorder, ProgramBindings, ImportCapsOfAll, BindAll;
    var bs := ProgramBindings(root);
    var ns := Preorder(root);
    CapsOfAllAre(BindAll(NO_TABLES, bs), ns, cap);
    forall i | 0 <= i < |ns|
      ensures cap in CapsOf(BindAll(NO_TABLES, bs), ns[i])
              <==> CallNeedsInOrder(bs, ns[i], cap) || OtherNeeds(ns[i], cap)
    {
      NodeCapsAreInOrder(bs, ns[i], cap);
    }
  }

  /** When a second pass over the bindings would change nothing, as when no local name is bound twice
      and each copy follows what it copies, the SDK capabilities are those of calls whose callee
      resolves to the SDK through any chain. */
  lemma {:induction false} InferredIsExact(root: Node, cap: string)
    requires Settled(ProgramBindings(root))
    ensures cap in Inferred(root) <==>
            || cap in ImportCapsOfAll(root.children)
            || exists i :: 0 <= i < |Preorder(root)| &&
                 (SdkCallNeeds(ProgramBindings(root), Preorder(root)[i], cap) || OtherNeeds(Preorder(root)[i], cap))
  {
    hide CallNeedsInOrder, SdkCallNeeds, OtherNeeds, Inferred, Preorder, ProgramBindings, Settled, ImportCapsOfAll;
    InferredIsInOrder(root, cap);
    var ns := Preorder(root);
    forall i | 0 <= i < |ns|
      ensures CallNeedsInOrder(ProgramBindings(root), ns[i], cap) <==> SdkCallNeeds(ProgramBindings(root), ns[i], cap)
    {
      OrderIsNoMatter(ProgramBindings(root), ns[i], cap);
    }
  }

  // ----- the same on the syntax alone

  predicate IsSdkSpecifier(spec: string) {
    spec == "@maw-js/sdk" || spec == "maw" || spec == "maw-sdk" || spec == "maw/sdk"
  }

  predicate ImportsFromSdk(stmt: Node) {
    && stmt.kind.ImportDecl? && stmt.kind.spec.Some? && IsSdkSpecifier(stmt.kind.spec.value) && stmt.kind.clause.Some?
  }

  /** `import name from "maw"` or `import * as name from "maw"` */
  predicate ImportsObject(stmt: Node, name: string) {
    ImportsFromSdk(stmt) &&
    (stmt.kind.clause.value.default == Some(name) || stmt.kind.clause.value.bindings == Some(Namespace(name)))
  }

  /** `import { exported as local } from "maw"` or `import { local } from "maw"` */
  predicate ImportsMethod(stmt: Node, local: string, exported: string) {
    ImportsFromSdk(stmt) && stmt.kind.clause.value.bindings.Some? && stmt.kind.clause.value.bindings.value.Named? &&
    var els := stmt.kind.clause.value.bindings.value.elements;
    Specifier(local, Some(exported)) in els || (local == exported && Specifier(local, None) in els)
  }

  /** `const target = source` */
  predicate Declares(n: Node, target: Node, source: string) {
    n.kind == VarDecl(true) && n.children != [] && n.children[0] == target
    && n.children[|n.children| - 1].kind == Ident(source)
  }

  /** `{ prop: local }`, `{ local }`, `{ [computed]: local }` or `{ ...local }` in a pattern; the last two
      count as taking what the local name says. */
  predicate Takes(el: Node, local: string, prop: string) {
    var c := el.children;
    match el.kind
    case BindingElem(false, false) => |c| > 0 && c[0].kind == Ident(local) && prop == local
    case BindingElem(false, true) =>
      |c| > 1 && c[1].kind == Ident(local) && (c[0].kind == Ident(prop) || (!c[0].kind.Ident? && prop == local))
    case BindingElem(true, false) => |c| > 1 && c[1].kind == Ident(local) && prop == local
    case BindingElem(true, true) =>
      |c| > 2 && c[2].kind == Ident(local) && (c[1].kind == Ident(prop) || (!c[1].kind.Ident? && prop == local))
    case _ => false
  }

  ghost predicate SomeImportsObject(stmts: seq<Node>, name: string) {
    exists i :: 0 <= i < |stmts| && ImportsObject(stmts[i], name)
  }

  ghost predicate SomeImportsMethod(stmts: seq<Node>, local: string, exported: string) {
    exists i :: 0 <= i < |stmts| && ImportsMethod(stmts[i], local, exported)
  }

  /** `const name = source`, a plain copy. */
  predicate CopiesAs(n: Node, name: string, source: string) {
    n.children != [] && n.children[0].kind == Ident(name) && Declares(n, n.children[0], source)
  }

  /** `const { ... } = source`, with an element that takes `prop` as `local`. */
  predicate TakesFrom(n: Node, local: string, prop: string, source: string) {
    && n.children != [] && n.children[0].kind.ObjPattern? && Declares(n, n.children[0], source)
    && exists k :: 0 <= k < |n.children[0].children| && Takes(n.children[0].children[k], local, prop)
  }

  ghost predicate SomeCopies(nodes: seq<Node>, name: string, source: string) {
    exists i :: 0 <= i < |nodes| && CopiesAs(nodes[i], name, source)
  }

  ghost predicate SomeTakes(nodes: seq<Node>, local: string, prop: string, source: string) {
    exists i :: 0 <= i < |nodes| && TakesFrom(nodes[i], local, prop, source)
  }

  /** The name stands for the SDK object in the program, through at most `steps` copies. */
  ghost predicate ObjectWithin(root: Node, name: string, steps: nat)
    decreases steps
  {
    || SomeImportsObject(root.children, name)
    || (steps > 0 && exists source :: SomeCopies(Preorder(root), name, source) && ObjectWithin(root, source, steps - 1))
  }

  ghost predicate IsSdkObject(root: Node, name: string) {
    exists steps: nat :: ObjectWithin(root, name, steps)
  }

  /** The name stands for a method of the SDK: imported, or taken from a name of the SDK object. */
  ghost predicate IsSdkMethod(root: Node, name: string, exported: string) {
    || SomeImportsMethod(root.children, name, exported)
    || exists source :: SomeTakes(Preorder(root), name, exported, source) && IsSdkObject(root, source)
  }

  /** Where in the program a binding comes from. */
  ghost predicate IsWritten(root: Node, b: Binding) {
    match b
    case ImportedObject(local) => SomeImportsObject(root.children, local)
    case ImportedMethod(local, exported) => SomeImportsMethod(root.children, local, exported)
    case Alias(local, source) => SomeCopies(Preorder(root), local, source)
    case Destructured(local, exported, source) => SomeTakes(Preorder(root), local, exported, source)
  }

  lemma {:induction false} NamedImportsAre(elements: seq<Specifier>, b: Binding)
    ensures b in NamedImports(elements) <==>
            b.ImportedMethod? && (|| Specifier(b.local, Some(b.exported)) in elements
                                  || (b.local == b.exported && Specifier(b.local, None) in elements))
  {
    if elements != [] {
      var init, last := elements[..|elements| - 1], elements[|elements| - 1];
      NamedImportsAre(init, b);
      assert elements == init + [last];
      assert last == Specifier(last.local, last.property);
    }
  }

  lemma {:induction false} BindingsOfImportAre(stmt: Node, b: Binding)
    ensures b in BindingsOfImport(stmt) <==>
            || (b.ImportedObject? && ImportsObject(stmt, b.local))
            || (b.ImportedMethod? && ImportsMethod(stmt, b.local, b.exported))
  {
    if ImportsFromSdk(stmt) {
      var c := stmt.kind.clause.value;
      if c.bindings.Some? && c.bindings.value.Named? { NamedImportsAre(c.bindings.value.elements, b); }
      hide NamedImports;
    }
  }

  lemma {:induction false} BindingsOfImportsAre(stmts: seq<Node>, b: Binding)
    ensures b in BindingsOfImports(stmts) <==>
            || (b.ImportedObject? && SomeImportsObject(stmts, b.local))
            || (b.ImportedMethod? && SomeImportsMethod(stmts, b.local, b.exported))
  {
    hide ImportsObject, ImportsMethod, BindingsOfImport;
    if stmts != [] {
      var init, last := stmts[..|stmts| - 1], stmts[|stmts| - 1];
      BindingsOfImportsAre(init, b);
      BindingsOfImportAre(last, b);
      assert forall i :: 0 <= i < |init| ==> init[i] == stmts[i];
    }
  }

  /** What an element of a pattern binds. */
  lemma ElementTakes(el: Node, local: string, prop: string)
    ensures Takes(el, local, prop) <==>
            ElementName(el).kind.Ident? && ElementName(el).kind.text == local && ElementProperty(el) == prop
  {
  }

  lemma {:induction false} DestructuredAre(elements: seq<Node>, source: string, b: Binding)
    ensures b in DestructuredFrom(elements, source) <==>
            && b.Destructured? && b.source == source
            && exists k :: 0 <= k < |elements| && Takes(elements[k], b.local, b.exported)
  {
    hide Takes, ElementName, ElementProperty;
    if elements != [] {
      var init, last := elements[..|elements| - 1], elements[|elements| - 1];
      DestructuredAre(init, source, b);
      if b.Destructured? { ElementTakes(last, b.local, b.exported); }
      assert forall k :: 0 <= k < |init| ==> init[k] == elements[k];
    }
  }

  lemma {:induction false} BindingsOfDeclAre(n: Node, b: Binding)
    ensures b in BindingsOfDecl(n) <==>
            || (b.Alias? && CopiesAs(n, b.local, b.source))
            || (b.Destructured? && TakesFrom(n, b.local, b.exported, b.source))
  {
    hide Takes, DestructuredFrom;
    if n.kind == VarDecl(true) && LastChild(n).kind.Ident? && Child(n, 0).kind.ObjPattern? {
      DestructuredAre(Child(n, 0).children, LastChild(n).kind.text, b);
    }
  }

  lemma {:induction false} BindingsOfDeclsAre(nodes: seq<Node>, b: Binding)
    ensures b in BindingsOfDecls(nodes) <==>
            || (b.Alias? && SomeCopies(nodes, b.local, b.source))
            || (b.Destructured? && SomeTakes(nodes, b.local, b.exported, b.source))
  {
    hide CopiesAs, TakesFrom, BindingsOfDecl;
    if nodes != [] {
      var init, last := nodes[..|nodes| - 1], nodes[|nodes| - 1];
      BindingsOfDeclsAre(init, b);
      BindingsOfDeclAre(last, b);
      assert forall i :: 0 <= i < |init| ==> init[i] == nodes[i];
    }
  }

  /** The bindings of a program are those that are written in it. */
  lemma {:induction false} BindingsAreWritten(root: Node, b: Binding)
    ensures b in ProgramBindings(root) <==> IsWritten(root, b)
  {
    hide BindingsOfImports, BindingsOfDecls, SomeImportsObject, SomeImportsMethod, SomeCopies, SomeTakes, Preorder;
    BindingsOfImportsAre(root.children, b);
    BindingsOfDeclsAre(Preorder(root), b);
  }

  lemma {:induction false} ObjectsAreWritten(root: Node, name: string, steps: nat)
    ensures StandsForObject(ProgramBindings(root), name, steps) <==> ObjectWithin(root, name, steps)
    decreases steps
  {
    hide ProgramBindings, SomeImportsObject, SomeImportsMethod, SomeCopies, SomeTakes, Preorder;
    var bs := ProgramBindings(root);
    BindingsAreWritten(root, ImportedObject(name));
    if StandsForObject(bs, name, steps) {
      var i :| 0 <= i < |bs| && bs[i].local == name &&
        (bs[i].ImportedObject? || (bs[i].Alias? && steps > 0 && StandsForObject(bs, bs[i].source, steps - 1)));
      BindingsAreWritten(root, bs[i]);
      assert bs[i] in bs;
      if bs[i].Alias? { ObjectsAreWritten(root, bs[i].source, steps - 1); }
    }
    if ObjectWithin(root, name, steps) && !SomeImportsObject(root.children, name) {
      var source :| SomeCopies(Preorder(root), name, source) && ObjectWithin(root, source, steps - 1);
      BindingsAreWritten(root, Alias(name, source));
      ObjectsAreWritten(root, source, steps - 1);
      var i :| 0 <= i < |bs| && bs[i] == Alias(name, source);
    }
  }

  lemma {:induction false} SdkNamesAreWritten(root: Node)
    ensures forall name :: IsObject(ProgramBindings(root), name) <==> IsSdkObject(root, name)
    ensures forall name, exported ::
              IsMethod(ProgramBindings(root), name, exported) <==> IsSdkMethod(root, name, exported)
  {
    hide ProgramBindings, SomeImportsObject, SomeImportsMethod, SomeCopies, SomeTakes, Preorder, ObjectWithin,
         StandsForObject;
    var bs := ProgramBindings(root);
    forall name, steps: nat
      ensures StandsForObject(bs, name, steps) <==> ObjectWithin(root, name, steps)
    {
      ObjectsAreWritten(root, name, steps);
    }
    assert forall name :: IsObject(bs, name) <==> IsSdkObject(root, name);
    hide IsObject, IsSdkObject;
    forall name, exported
      ensures IsMethod(bs, name, exported) <==> IsSdkMethod(root, name, exported)
    {
      MethodIsWritten(root, name, exported);
    }
  }

  lemma {:induction false} MethodIsWritten(root: Node, name: string, exported: string)
    requires forall source :: IsObject(ProgramBindings(root), source) <==> IsSdkObject(root, source)
    ensures IsMethod(ProgramBindings(root), name, exported) <==> IsSdkMethod(root, name, exported)
  {
    hide ProgramBindings, SomeImportsObject, SomeImportsMethod, SomeCopies, SomeTakes, Preorder, IsObject, IsSdkObject;
    var bs := ProgramBindings(root);
    BindingsAreWritten(root, ImportedMethod(name, exported));
    if IsMethod(bs, name, exported) {
      var i :| 0 <= i < |bs| && bs[i].local == name &&
        (bs[i].ImportedMethod? || (bs[i].Destructured? && IsObject(bs, bs[i].source))) && bs[i].exported == exported;
      BindingsAreWritten(root, bs[i]);
      assert bs[i] in bs;
    }
    if IsSdkMethod(root, name, exported) && !SomeImportsMethod(root.children, name, exported) {
      var source :| SomeTakes(Preorder(root), name, exported, source) && IsSdkObject(root, source);
      BindingsAreWritten(root, Destructured(name, exported, source));
      var i :| 0 <= i < |bs| && bs[i] == Destructured(name, exported, source);
    }
  }

  /** The inferred capabilities in terms of the syntax: when a second pass over the bindings would
      change nothing, they are exactly those of imported modules, of calls through names that
      stand for the SDK by imports, copies and patterns, and of fetch and loading calls. */
  lemma {:induction false} InferredBySyntax(root: Node, cap: string)
    requires Settled(ProgramBindings(root))
    ensures cap in Inferred(root) <==>
            || (exists i :: 0 <= i < |root.children| && ImportNeeds(root.children[i], cap))
            || exists i :: 0 <= i < |Preorder(root)| &&
                 (|| CallNeeds(Preorder(root)[i], cap, name => IsSdkObject(root, name),
                               (name, exported) => IsSdkMethod(root, name, exported))
                  || OtherNeeds(Preorder(root)[i], cap))
  {
    hide Inferred, Preorder, ProgramBindings, Settled, ImportCapsOfAll, OtherNeeds, IsObject, IsMethod, IsSdkObject,
         IsSdkMethod, ImportNeeds;
    InferredIsExact(root, cap);
    ImportCapsAre(root.children, cap);
    SdkNamesAreWritten(root);
    forall i | 0 <= i < |Preorder(root)|
      ensures SdkCallNeeds(ProgramBindings(root), Preorder(root)[i], cap)
              <==> CallNeeds(Preorder(root)[i], cap, name => IsSdkObject(root, name),
                             (name, exported) => IsSdkMethod(root, name, exported))
    {
    }
  }

  // ----- the passes, on mutable tables

  lemma {:induction false} BindAllAppend(t: Tables, a: seq<Binding>, b: seq<Binding>)
    ensures BindAll(t, a + b) == BindAll(BindAll(t, a), b)
  {
    if b == [] {
      assert a + b == a;
    } else {
      assert (a + b)[..|a + b| - 1] == a + b[..|b| - 1];
      BindAllAppend(t, a, b[..|b| - 1]);
    }
  }

  lemma {:induction false} DeclsAppend(a: seq<Node>, b: seq<Node>)
    ensures BindingsOfDecls(a + b) == BindingsOfDecls(a) + BindingsOfDecls(b)
  {
    hide BindingsOfDecl;
    if b == [] {
      assert a + b == a;
    } else {
      assert (a + b)[..|a + b| - 1] == a + b[..|b| - 1];
      DeclsAppend(a, b[..|b| - 1]);
    }
  }

  lemma {:induction false} CapsAppend(t: Tables, a: seq<Node>, b: seq<Node>)
    ensures CapsOfAll(t, a + b) == CapsOfAll(t, a) + CapsOfAll(t, b)
  {
    hide CapsOf;
    if b == [] {
      assert a + b == a;
    } else {
      assert (a + b)[..|a + b| - 1] == a + b[..|b| - 1];
      CapsAppend(t, a, b[..|b| - 1]);
    }
  }

  lemma {:induction false} ForeignSourceBindsNothing(t: Tables, elements: seq<Node>, source: string)
    requires source !in t.objects
    ensures BindAll(t, DestructuredFrom(elements, source)) == t
  {
    hide ElementName, ElementProperty;
    if elements != [] {
      var init, el := elements[..|elements| - 1], elements[|elements| - 1];
      var tail :=
        if ElementName(el).kind.Ident? then [Destructured(ElementName(el).kind.text, ElementProperty(el), source)]
        else [];
      ForeignSourceBindsNothing(t, init, source);
      assert tail != [] ==> tail[..0] == [];
      assert BindAll(t, tail) == t;
      hide BindAll;
      BindAllAppend(t, DestructuredFrom(init, source), tail);
    }
  }

  lemma BindNothing(t: Tables)
    ensures BindAll(t, []) == t
  {
  }

  lemma NoImports(stmts: seq<Node>)
    ensures BindingsOfImports(stmts[..0]) == [] && ImportCapsOfAll(stmts[..0]) == {}
  {
  }

  lemma {:induction false} ImportsGrow(stmts: seq<Node>, i: nat)
    requires i < |stmts|
    ensures BindingsOfImports(stmts[..i + 1]) == BindingsOfImports(stmts[..i]) + BindingsOfImport(stmts[i])
    ensures ImportCapsOfAll(stmts[..i + 1]) == ImportCapsOfAll(stmts[..i]) + ImportCaps(stmts[i])
  {
    hide BindingsOfImport, ImportCaps;
    assert stmts[..i + 1][..i] == stmts[..i];
  }

  lemma PreorderGrows(n: Node, seen: seq<Node>, i: nat)
    requires i < |n.children| && seen == [n] + PreorderAll(n.children[..i])
    ensures seen + Preorder(n.children[i]) == [n] + PreorderAll(n.children[..i + 1])
  {
    hide Preorder;
    assert n.children[..i + 1][..i] == n.children[..i];
  }

  lemma PreorderStarts(n: Node)
    ensures [n] + PreorderAll(n.children[..0]) == [n]
    ensures Preorder(n) == [n] + PreorderAll(n.children[..|n.children|])
  {
    assert n.children[..|n.children|] == n.children;
  }

  // ----- a program whose capability is missed

  function Leaf(text: string): Node {
    Node(Ident(text), [])
  }

  /** `const name = source` */
  function Copying(name: string, source: string): Node {
    Node(VarDecl(true), [Leaf(name), Leaf(source)])
  }

  const SDK_IMPORT := Node(ImportDecl(Some("maw"), Some(ImportClause(Some("maw"), None))), [])

  /** `b.wake()` */
  const WAKE_CALL := Node(CallExpr(0), [Node(PropertyAccess("wake"), [Leaf("b")])])

  /** The SDK is imported, `b` copies `a`, then `a` copies the SDK object, and `b.wake()` is called. */
  const LATE_COPY := Node(OtherKind, [SDK_IMPORT, Copying("b", "a"), Copying("a", "maw"), WAKE_CALL])

  const LATE_BINDINGS := [ImportedObject("maw"), Alias("b", "a"), Alias("a", "maw")]

  lemma {:induction false} PreorderAppend(ns: seq<Node>, n: Node)
    ensures PreorderAll(ns + [n]) == PreorderAll(ns) + Preorder(n)
  {
    assert (ns + [n])[..|ns|] == ns;
    hide Preorder;
  }

  lemma {:induction false} PreorderOfLeaf(n: Node)
    requires n.children == []
    ensures Preorder(n) == [n]
  {
  }

  lemma {:induction false} PreorderOfCopying(name: string, source: string)
    ensures Preorder(Copying(name, source)) == [Copying(name, source), Leaf(name), Leaf(source)]
  {
    PreorderOfLeaf(Leaf(name));
    PreorderOfLeaf(Leaf(source));
    PreorderAppend([], Leaf(name));
    PreorderAppend([Leaf(name)], Leaf(source));
    assert [] + [Leaf(name)] == [Leaf(name)] && [Leaf(name)] + [Leaf(source)] == [Leaf(name), Leaf(source)];
  }

  lemma {:induction false} PreorderOfWakeCall()
    ensures Preorder(WAKE_CALL) == [WAKE_CALL, WAKE_CALL.children[0], Leaf("b")]
  {
    var access := WAKE_CALL.children[0];
    PreorderOfLeaf(Leaf("b"));
    PreorderAppend([], Leaf("b"));
    assert [] + [Leaf("b")] == [Leaf("b")];
    assert Preorder(access) == [access, Leaf("b")];
    PreorderAppend([], access);
    assert [] + [access] == [access];
  }

  lemma {:induction false} PreorderOfFour(kind: Kind, a: Node, b: Node, c: Node, d: Node)
    ensures Preorder(Node(kind, [a, b, c, d])) ==
            [Node(kind, [a, b, c, d])] + Preorder(a) + Preorder(b) + Preorder(c) + Preorder(d)
  {
    PreorderOfNode(Node(kind, [a, b, c, d]));
    hide Preorder, PreorderAll;
    PreorderAllOfFour(a, b, c, d);
    Reassociated([Node(kind, [a, b, c, d])], Preorder(a), Preorder(b), Preorder(c), Preorder(d));
  }

  lemma {:induction false} PreorderOfNode(n: Node)
    ensures Preorder(n) == [n] + PreorderAll(n.children)
    ensures PreorderAll([]) == []
  {
  }

  lemma Reassociated(r: seq<Node>, a: seq<Node>, b: seq<Node>, c: seq<Node>, d: seq<Node>)
    ensures r + (a + b + c + d) == r + a + b + c + d
  {
  }

  lemma {:induction false} PreorderAllOfFour(a: Node, b: Node, c: Node, d: Node)
    ensures PreorderAll([a, b, c, d]) == Preorder(a) + Preorder(b) + Preorder(c) + Preorder(d)
  {
    PreorderOfNode(a);
    hide Preorder, PreorderAll;
    assert [] + [a] == [a] && [a] + [b] == [a, b] && [a, b] + [c] == [a, b, c] && [a, b, c] + [d] == [a, b, c, d];
    PreorderAppend([], a);
    PreorderAppend([a], b);
    PreorderAppend([a, b], c);
    PreorderAppend([a, b, c], d);
  }

  lemma {:induction false} NoDeclsNoBindings(ns: seq<Node>)
    requires forall i :: 0 <= i < |ns| ==> !ns[i].kind.VarDecl?
    ensures BindingsOfDecls(ns) == []
  {
    if ns != [] { NoDeclsNoBindings(ns[..|ns| - 1]); }
  }

  lemma {:induction false} BindingsOfCopying(name: string, source: string)
    ensures BindingsOfDecls(Preorder(Copying(name, source))) == [Alias(name, source)]
  {
    var decl, leaves := Copying(name, source), [Leaf(name), Leaf(source)];
    PreorderOfCopying(name, source);
    assert Preorder(decl) == [decl] + leaves;
    DeclsAppend([decl], leaves);
    NoDeclsNoBindings(leaves);
    assert [decl][..0] == [];
    assert BindingsOfDecls([decl]) == BindingsOfDecl(decl) == [Alias(name, source)];
  }

  lemma {:induction false} DeclsOfPieces(root: seq<Node>, a: seq<Node>, b: seq<Node>, c: seq<Node>, d: seq<Node>)
    requires BindingsOfDecls(root) == [] && BindingsOfDecls(a) == [] && BindingsOfDecls(d) == []
    ensures BindingsOfDecls(root + a + b + c + d) == BindingsOfDecls(b) + BindingsOfDecls(c)
  {
    hide BindingsOfDecls;
    DeclsAppend(root, a);
    DeclsAppend(root + a, b);
    DeclsAppend(root + a + b, c);
    DeclsAppend(root + a + b + c, d);
  }

  lemma {:induction false} OneImport(stmt: Node, rest: seq<Node>)
    requires forall i :: 0 <= i < |rest| ==> !rest[i].kind.ImportDecl?
    ensures BindingsOfImports([stmt] + rest) == BindingsOfImport(stmt)
  {
    hide IsSdkImport, BindingsOfClause;
    var all := [stmt] + rest;
    if rest == [] {
      assert all[..0] == [];
    } else {
      assert all[..|all| - 1] == [stmt] + rest[..|rest| - 1];
      OneImport(stmt, rest[..|rest| - 1]);
      assert BindingsOfImport(rest[|rest| - 1]) == [] by { NotAnImport(rest[|rest| - 1]); }
    }
  }

  lemma NotAnImport(stmt: Node)
    requires !stmt.kind.ImportDecl?
    ensures BindingsOfImport(stmt) == []
  {
  }

  lemma {:induction false} DeclsOfLateCopy()
    ensures BindingsOfDecls(Preorder(LATE_COPY)) == [Alias("b", "a")] + [Alias("a", "maw")]
  {
    PreorderOfLeaf(SDK_IMPORT);
    PreorderOfWakeCall();
    NoDeclsNoBindings([LATE_COPY]);
    NoDeclsNoBindings([SDK_IMPORT]);
    NoDeclsNoBindings(Preorder(WAKE_CALL));
    hide Preorder, BindingsOfDecls;
    BindingsOfCopying("b", "a");
    BindingsOfCopying("a", "maw");
    PreorderOfFour(OtherKind, SDK_IMPORT, Copying("b", "a"), Copying("a", "maw"), WAKE_CALL);
    DeclsOfPieces([LATE_COPY], [SDK_IMPORT], Preorder(Copying("b", "a")), Preorder(Copying("a", "maw")),
                  Preorder(WAKE_CALL));
  }

  lemma {:induction false} ImportsOfLateCopy()
    ensures BindingsOfImports(LATE_COPY.children) == [ImportedObject("maw")]
  {
    assert BindingsOfImport(SDK_IMPORT) == [ImportedObject("maw")];
    hide BindingsOfImports, BindingsOfImport;
    OneImport(SDK_IMPORT, [Copying("b", "a"), Copying("a", "maw"), WAKE_CALL]);
    assert [SDK_IMPORT] + [Copying("b", "a"), Copying("a", "maw"), WAKE_CALL] == LATE_COPY.children;
  }

  lemma {:induction false} BindingsOfLateCopy()
    ensures ProgramBindings(LATE_COPY) == LATE_BINDINGS
  {
    hide Preorder, BindingsOfDecls, BindingsOfImports;
    ImportsOfLateCopy();
    DeclsOfLateCopy();
  }

  lemma {:induction false} NoModuleNoCaps(stmts: seq<Node>)
    requires forall i :: 0 <= i < |stmts| ==> ImportCaps(stmts[i]) == {}
    ensures ImportCapsOfAll(stmts) == {}
  {
    if stmts != [] { NoModuleNoCaps(stmts[..|stmts| - 1]); }
  }

  lemma {:induction false} LateCopyHasOneCall()
    ensures WAKE_CALL in Preorder(LATE_COPY)
    ensures forall i :: 0 <= i < |Preorder(LATE_COPY)| && Preorder(LATE_COPY)[i].kind.CallExpr? ==>
              Preorder(LATE_COPY)[i] == WAKE_CALL
  {
    PreorderOfFour(OtherKind, SDK_IMPORT, Copying("b", "a"), Copying("a", "maw"), WAKE_CALL);
    PreorderOfLeaf(SDK_IMPORT);
    PreorderOfWakeCall();
    PreorderOfCopying("b", "a");
    PreorderOfCopying("a", "maw");
    hide Preorder;
    assert Preorder(WAKE_CALL)[0] == WAKE_CALL;
  }

  lemma {:induction false} OnlyCallCounts(t: Tables, ns: seq<Node>, call: Node, cap: string)
    requires forall i :: 0 <= i < |ns| && ns[i].kind.CallExpr? ==> ns[i] == call
    requires cap !in CapsOf(t, call)
    ensures cap !in CapsOfAll(t, ns)
  {
    hide CalleeCaps, LoadCaps;
    CapsOfAllAre(t, ns, cap);
  }

  /** No name is bound twice and the call resolves to the SDK, but through a copy made too early:
      the capability is not inferred. */
  lemma {:induction false} LateCopyIsMissed()
    ensures BoundOnce(ProgramBindings(LATE_COPY)) && WAKE_CALL in Preorder(LATE_COPY)
    ensures SdkCallNeeds(ProgramBindings(LATE_COPY), WAKE_CALL, "sdk:wake")
    ensures "sdk:wake" !in Inferred(LATE_COPY)
  {
    BindingsOfLateCopy();
    LateSourceIsMissed();
    LateCopyHasOneCall();
    hide Preorder, BindAll, ProgramBindings, IsObject, IsMethod, BoundOnce;
    NoModuleNoCaps(LATE_COPY.children);
    hide ImportCapsOfAll;
    var t := BindAll(NO_TABLES, LATE_BINDINGS);
    assert CapsOf(t, WAKE_CALL) == {};
    hide CapsOf;
    OnlyCallCounts(t, Preorder(LATE_COPY), WAKE_CALL, "sdk:wake");
  }

  class Inference {
    var objects: set<string>
    var methods: map<string, string>
    var caps: set<string>

    constructor ()
      ensures Names() == NO_TABLES && caps == {}
    {
      objects, methods, caps := {}, map[], {};
    }

    function Names(): Tables
      reads this
    {
      Tables(objects, methods)
    }

    method BindNamed(elements: seq<Specifier>)
      modifies this`methods
      ensures Names() == BindAll(old(Names()), NamedImports(elements))
    {
      for i := 0 to |elements|
        invariant Names() == BindAll(old(Names()), NamedImports(elements[..i]))
      {
        assert elements[..i + 1][..i] == elements[..i];
        var el := elements[i];
        methods := methods[el.local := ExportedName(el)];
        BindAllAppend(old(Names()), NamedImports(elements[..i]), [ImportedMethod(el.local, ExportedName(el))]);
      }
      assert elements[..|elements|] == elements;
    }

    method BindClause(c: ImportClause)
      modifies this`methods, this`objects
      ensures Names() == BindAll(old(Names()), BindingsOfClause(c))
    {
      ghost var first := if c.default.Some? then [ImportedObject(c.default.value)] else [];
      if c.default.Some? {
        objects := objects + {c.default.value};
      }
      assert first[..|first|] == first;
      assert Names() == BindAll(old(Names()), first);
      match c.bindings {
        case None => assert first + [] == first;
        case Some(Namespace(name)) =>
          BindAllAppend(old(Names()), first, [ImportedObject(name)]);
          objects := objects + {name};
        case Some(Named(elements)) =>
          BindAllAppend(old(Names()), first, NamedImports(elements));
          BindNamed(elements);
      }
    }

    /** Collects what the import declarations bind, and the capabilities of imported modules. */
    method CollectImportBindings(stmts: seq<Node>)
      modifies this
      ensures Names() == BindAll(old(Names()), BindingsOfImports(stmts))
      ensures caps == old(caps) + ImportCapsOfAll(stmts)
    {
      NoImports(stmts);
      BindNothing(Names());
      hide BindAll, BindingsOfImports, BindingsOfClause, ImportCapsOfAll;
      for i := 0 to |stmts|
        invariant Names() == BindAll(old(Names()), BindingsOfImports(stmts[..i]))
        invariant caps == old(caps) + ImportCapsOfAll(stmts[..i])
      {
        var stmt := stmts[i];
        ImportsGrow(stmts, i);
        BindAllAppend(old(Names()), BindingsOfImports(stmts[..i]), BindingsOfImport(stmt));
        BindNothing(Names());
        if !stmt.kind.ImportDecl? || stmt.kind.spec == None {
          continue;
        }
        var spec := stmt.kind.spec.value;
        if spec in MODULE_CAPS {
          caps := caps + {MODULE_CAPS[spec]};
          continue;
        }
        if spec !in SDK_SPECIFIERS || stmt.kind.clause == None {
          continue;
        }
        BindClause(stmt.kind.clause.value);
      }
      assert stmts[..|stmts|] == stmts;
    }

    method BindElements(elements: seq<Node>, source: string)
      requires source in objects
      modifies this`methods
      ensures Names() == BindAll(old(Names()), DestructuredFrom(elements, source))
    {
      hide ElementName, ElementProperty;
      for i := 0 to |elements|
        invariant Names() == BindAll(old(Names()), DestructuredFrom(elements[..i], source))
      {
        var el := elements[i];
        assert elements[..i + 1][..i] == elements[..i];
        if ElementName(el).kind.Ident? {
          var local := ElementName(el).kind.text;
          BindAllAppend(old(Names()), DestructuredFrom(elements[..i], source),
                        [Destructured(local, ElementProperty(el), source)]);
          methods := methods[local := ElementProperty(el)];
        } else {
          assert DestructuredFrom(elements[..i], source) + [] == DestructuredFrom(elements[..i], source);
        }
      }
      assert elements[..|elements|] == elements;
    }

    /** Applies one declaration. */
    method BindDecl(node: Node)
      modifies this`methods, this`objects
      ensures Names() == BindAll(old(Names()), BindingsOfDecl(node))
    {
      if node.kind == VarDecl(true) && LastChild(node).kind.Ident? {
        var source := LastChild(node).kind.text;
        var name := Child(node, 0);
        if source in objects {
          if name.kind.Ident? {
            objects := objects + {name.kind.text};
          } else if name.kind.ObjPattern? {
            BindElements(name.children, source);
          }
        } else if name.kind.ObjPattern? {
          ForeignSourceBindsNothing(Names(), name.children, source);
        }
      }
    }

    /** Visits a subtree in source order and applies every declaration in it. */
    method CollectVariableAliases(node: Node)
      modifies this`methods, this`objects
      ensures Names() == BindAll(old(Names()), BindingsOfDecls(Preorder(node)))
      decreases node
    {
      hide BindAll, BindingsOfDecl, Preorder, PreorderAll;
      BindDecl(node);
      DeclsAppend([], [node]);
      assert BindingsOfDecls([node]) == BindingsOfDecl(node);
      ghost var seen := [node];
      PreorderStarts(node);
      for i := 0 to |node.children|
        invariant seen == [node] + PreorderAll(node.children[..i])
        invariant Names() == BindAll(old(Names()), BindingsOfDecls(seen))
      {
        var child := node.children[i];
        PreorderGrows(node, seen, i);
        DeclsAppend(seen, Preorder(child));
        BindAllAppend(old(Names()), BindingsOfDecls(seen), BindingsOfDecls(Preorder(child)));
        CollectVariableAliases(child);
        seen := seen + Preorder(child);
      }
    }

    /** Visits a subtree in source order and records what its calls need. */
    method WalkNode(node: Node)
      modifies this`caps
      ensures caps == old(caps) + CapsOfAll(Names(), Preorder(node))
      decreases node
    {
      hide CalleeCaps, LoadCaps, Preorder, PreorderAll;
      if node.kind.CallExpr? {
        caps := caps + CalleeCaps(Names(), Child(node, 0)) + LoadCaps(node);
      }
      assert CapsOfAll(Names(), [node]) == CapsOf(Names(), node);
      ghost var seen := [node];
      PreorderStarts(node);
      hide CapsOf;
      for i := 0 to |node.children|
        invariant seen == [node] + PreorderAll(node.children[..i])
        invariant caps == old(caps) + CapsOfAll(Names(), seen)
      {
        var child := node.children[i];
        PreorderGrows(node, seen, i);
        CapsAppend(Names(), seen, Preorder(child));
        WalkNode(child);
        seen := seen + Preorder(child);
      }
    }
  }

  /** Infers the capabilities of a whole program. */
  method InferCapabilities(root: Node) returns (caps: set<string>)
    ensures caps == Inferred(root)
  {
    var inference := new Inference();
    inference.CollectImportBindings(root.children);
    BindAllAppend(NO_TABLES, BindingsOfImports(root.children), BindingsOfDecls(Preorder(root)));
    inference.CollectVariableAliases(root);
    inference.WalkNode(root);
    caps := inference.caps;
  }
}
