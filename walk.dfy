/** What one visit produces, as a function of the scope and the node: the ordered
    list of calls the visitor makes on its two sinks. */
module Walk {
  import opened Syntax
  import ScopePath

  /** One call into a sink: `addCreator(scope, target, value)` on the registry, or the
      base class's "Expression not allowed" report against a node. */
  datatype Event =
    | Creator(scope: seq<string>, target: Expr, value: Expr)
    | Disallowed(node: Node)

  /** The three declaration shapes visitBinaryExpression recognises. */
  predicate IsDeclaration(op: Op, left: Expr, right: Expr) {
    || (op == LeftShift && left.Var? && right.Closure?)
    || (op == Assign && left.Var?)
    || (op == Assign && left.Prop?)
  }

  /** A call that opens a nested scope: constant name and a single closure argument. */
  predicate IsScopeOpening(e: Expr) {
    e.MethodCall? && e.constName.Some? && e.closureCode.Some?
  }

  /** Visiting a statement with the visitor whose scope is `scope`. */
  function VisitStmt(scope: seq<string>, s: Stmt): seq<Event>
    decreases s
  {
    match s
    case Block(stmts) => VisitAll(scope, stmts)
    case ExprStmt(e) => VisitExpr(scope, e)
    case OtherStmt(_) => [Disallowed(StmtNode(s))]
  }

  /** The statements of a block, in source order, all with the same scope. */
  function VisitAll(scope: seq<string>, stmts: seq<Stmt>): seq<Event>
    decreases stmts
  {
    if stmts == [] then [] else VisitStmt(scope, stmts[0]) + VisitAll(scope, stmts[1..])
  }

  function VisitExpr(scope: seq<string>, e: Expr): seq<Event>
    decreases e
  {
    match e
    case MethodCall(name, code) =>
      if name.Some? && code.Some? then VisitStmt(ScopePath.Extend(scope, name.value), code.value)
      else [Disallowed(ExprNode(e))]
    case Binary(op, left, right) =>
      if op == LeftShift && left.Var? && right.Closure? then [Creator(scope, left, right)]
      else if op == Assign then
        if left.Var? then [Creator(scope, left, right)]
        else if left.Prop? then [Creator(scope, left, right)]
        else [Disallowed(ExprNode(e))]
      else [Disallowed(ExprNode(e))]
    case _ => [Disallowed(ExprNode(e))]
  }

  /** An event as seen from `prefix` further out: creators get `prefix` in front of their scope. */
  function Prefixed(prefix: seq<string>, ev: Event): Event {
    match ev
    case Creator(scope, target, value) => Creator(prefix + scope, target, value)
    case Disallowed(_) => ev
  }

  function Rescope(prefix: seq<string>, evs: seq<Event>): seq<Event> {
    seq(|evs|, i requires 0 <= i < |evs| => Prefixed(prefix, evs[i]))
  }

  /** Number of creator records in an event list. */
  function CreatorCount(evs: seq<Event>): nat {
    if evs == [] then 0 else (if evs[0].Creator? then 1 else 0) + CreatorCount(evs[1..])
  }

  /** Number of declarations reachable from `s` through blocks, expression statements
      and scope-opening calls: a count over the tree, independent of scopes. */
  function DeclarationCount(s: Stmt): nat
    decreases s
  {
    match s
    case Block(stmts) => DeclarationCountAll(stmts)
    case ExprStmt(e) => DeclarationCountExpr(e)
    case OtherStmt(_) => 0
  }

  function DeclarationCountAll(stmts: seq<Stmt>): nat
    decreases stmts
  {
    if stmts == [] then 0 else DeclarationCount(stmts[0]) + DeclarationCountAll(stmts[1..])
  }

  function DeclarationCountExpr(e: Expr): nat
    decreases e
  {
    match e
    case MethodCall(Some(_), Some(code)) => DeclarationCount(code)
    case Binary(op, left, right) => if IsDeclaration(op, left, right) then 1 else 0
    case _ => 0
  }

  // ---------------------------------------------------------------------------
  // Lemmas
  // ---------------------------------------------------------------------------

  lemma RescopeAppend(prefix: seq<string>, a: seq<Event>, b: seq<Event>)
    ensures Rescope(prefix, a + b) == Rescope(prefix, a) + Rescope(prefix, b)
  {
  }

  /** A block's output is the concatenation of its parts' outputs, in order. */
  lemma {:induction false} VisitAllAppend(scope: seq<string>, a: seq<Stmt>, b: seq<Stmt>)
    ensures VisitAll(scope, a + b) == VisitAll(scope, a) + VisitAll(scope, b)
    decreases a
  {
    if a == [] {
      assert a + b == b;
    } else {
      assert (a + b)[0] == a[0];
      assert (a + b)[1..] == a[1..] + b;
      VisitAllAppend(scope, a[1..], b);
    }
  }

  /** Statement i's events come after those of every earlier statement and before
      those of every later one: the output follows source order. */
  lemma VisitAllAt(scope: seq<string>, stmts: seq<Stmt>, i: nat)
    requires i < |stmts|
    ensures VisitAll(scope, stmts)
         == VisitAll(scope, stmts[..i]) + VisitStmt(scope, stmts[i]) + VisitAll(scope, stmts[i + 1..])
  {
    assert stmts == stmts[..i] + [stmts[i]] + stmts[i + 1..];
    VisitAllAppend(scope, stmts[..i] + [stmts[i]], stmts[i + 1..]);
    VisitAllAppend(scope, stmts[..i], [stmts[i]]);
    assert [stmts[i]][1..] == [];
  }

  /** A bare nested block opens no scope: its statements behave as if spliced in. */
  lemma BareBlockOpensNoScope(scope: seq<string>, before: seq<Stmt>, inner: seq<Stmt>, after: seq<Stmt>)
    ensures VisitStmt(scope, Block(before + [Block(inner)] + after))
         == VisitStmt(scope, Block(before + inner + after))
  {
    VisitAllAppend(scope, before + [Block(inner)], after);
    VisitAllAppend(scope, before, [Block(inner)]);
    assert [Block(inner)][1..] == [];
    VisitAllAppend(scope, before + inner, after);
    VisitAllAppend(scope, before, inner);
  }

  /** Visiting under `outer + scope` gives what visiting under `scope` gives, with `outer`
      put in front of every creator's scope: the scope is only ever extended, and
      nothing else in the output depends on it. */
  lemma {:induction false} ScopeShift(outer: seq<string>, scope: seq<string>, s: Stmt)
    ensures VisitStmt(outer + scope, s) == Rescope(outer, VisitStmt(scope, s))
    decreases s
  {
    match s
    case Block(stmts) => ScopeShiftAll(outer, scope, stmts);
    case ExprStmt(e) => ScopeShiftExpr(outer, scope, e);
    case OtherStmt(_) =>
  }

  lemma {:induction false} ScopeShiftAll(outer: seq<string>, scope: seq<string>, stmts: seq<Stmt>)
    ensures VisitAll(outer + scope, stmts) == Rescope(outer, VisitAll(scope, stmts))
    decreases stmts
  {
    if stmts != [] {
      ScopeShift(outer, scope, stmts[0]);
      ScopeShiftAll(outer, scope, stmts[1..]);
      RescopeAppend(outer, VisitStmt(scope, stmts[0]), VisitAll(scope, stmts[1..]));
    }
  }

  lemma {:induction false} ScopeShiftExpr(outer: seq<string>, scope: seq<string>, e: Expr)
    ensures VisitExpr(outer + scope, e) == Rescope(outer, VisitExpr(scope, e))
    decreases e
  {
    match e
    case MethodCall(name, code) =>
      if name.Some? && code.Some? {
        assert ScopePath.Extend(outer + scope, name.value) == outer + ScopePath.Extend(scope, name.value);
        ScopeShift(outer, ScopePath.Extend(scope, name.value), code.value);
      }
    case Binary(op, left, right) =>
      assert Prefixed(outer, Creator(scope, left, right)) == Creator(outer + scope, left, right);
    case _ =>
  }

  /** Everything a visitor with scope `scope` emits equals the root visitor's output
      with `scope` put in front of each creator's scope. */
  lemma RootedAt(scope: seq<string>, s: Stmt)
    ensures VisitStmt(scope, s) == Rescope(scope, VisitStmt(ScopePath.Root, s))
  {
    assert scope + ScopePath.Root == scope;
    ScopeShift(scope, ScopePath.Root, s);
  }

  /** Every creator emitted under `scope` carries a scope that extends `scope`. */
  lemma CreatorsExtendScope(scope: seq<string>, s: Stmt)
    ensures forall ev :: ev in VisitStmt(scope, s) && ev.Creator? ==> scope <= ev.scope
  {
    RootedAt(scope, s);
    var root := VisitStmt(ScopePath.Root, s);
    forall ev | ev in VisitStmt(scope, s) && ev.Creator? ensures scope <= ev.scope {
      var i :| 0 <= i < |root| && Rescope(scope, root)[i] == ev;
      assert ev.scope == scope + root[i].scope;
    }
  }

  /** A scope-opening call `name { body }` emits nothing itself: its output is the body's,
      and every creator in it carries a scope that extends `scope + [name]`. */
  lemma ScopeOpeningTagsItsBody(scope: seq<string>, name: string, body: Stmt)
    ensures VisitExpr(scope, MethodCall(Some(name), Some(body))) == VisitStmt(scope + [name], body)
    ensures forall ev :: (ev in VisitExpr(scope, MethodCall(Some(name), Some(body))) && ev.Creator?) ==>
      scope + [name] <= ev.scope
  {
    CreatorsExtendScope(scope + [name], body);
  }

  /** Every creator emitted inside the body of a call named `name` has `name` right
      after the enclosing scope. */
  lemma NameFollowsScope(scope: seq<string>, name: string, body: Stmt)
    ensures forall ev :: (ev in VisitStmt(scope + [name], body) && ev.Creator?) ==>
      |ev.scope| > |scope| && ev.scope[|scope|] == name
  {
    CreatorsExtendScope(scope + [name], body);
    forall ev | ev in VisitStmt(scope + [name], body) && ev.Creator?
      ensures |ev.scope| > |scope| && ev.scope[|scope|] == name
    {
      assert (scope + [name])[|scope|] == name;
    }
  }

  /** A block of two statements emits the first one's events, then the second one's. */
  lemma VisitPair(scope: seq<string>, first: Stmt, second: Stmt)
    ensures VisitStmt(scope, Block([first, second])) == VisitStmt(scope, first) + VisitStmt(scope, second)
  {
    VisitAllAppend(scope, [first], [second]);
    assert [first] + [second] == [first, second];
    assert [first][1..] == [] && [second][1..] == [];
    assert VisitAll(scope, [first]) == VisitStmt(scope, first) + [];
    assert VisitAll(scope, [second]) == VisitStmt(scope, second) + [];
  }

  /** `names[0] { names[1] { ... { body } } }`: `body` inside one scope-opening call per name. */
  function Nest(names: seq<string>, body: Stmt): Stmt
    decreases |names|
  {
    if names == [] then body else ExprStmt(MethodCall(Some(names[0]), Some(Nest(names[1..], body))))
  }

  /** Visiting `body` nested inside calls named `names` is visiting `body` with the scope
      extended by exactly those names, in order: a record's scope is the chain of the
      enclosing scope-opening call names. */
  lemma {:induction false} NestExact(scope: seq<string>, names: seq<string>, body: Stmt)
    ensures VisitStmt(scope, Nest(names, body)) == VisitStmt(scope + names, body)
    decreases |names|
  {
    if names == [] {
      assert scope + names == scope;
    } else {
      NestExact(scope + [names[0]], names[1..], body);
      assert scope + [names[0]] + names[1..] == scope + names;
    }
  }

  /** A declaration nested inside calls named `names` yields exactly one creator, whose
      scope is the enclosing scope followed by exactly those names. */
  lemma NestedDeclarationScope(scope: seq<string>, names: seq<string>, op: Op, left: Expr, right: Expr)
    requires IsDeclaration(op, left, right)
    ensures VisitStmt(scope, Nest(names, ExprStmt(Binary(op, left, right))))
         == [Creator(scope + names, left, right)]
  {
    NestExact(scope, names, ExprStmt(Binary(op, left, right)));
    BinaryOutcome(scope + names, op, left, right);
  }

  /** Two sibling scope-opening calls `a { ... }` and `b { ... }` in one block: the output
      is `a`'s body's followed by `b`'s body's, and every creator in the first part has `a`
      right after the enclosing scope while every creator in the second part has `b` there:
      at that depth each sibling's declarations carry their own call's name. */
  lemma SiblingIsolation(scope: seq<string>, a: string, bodyA: Stmt, b: string, bodyB: Stmt)
    ensures var out := VisitStmt(scope, Block([ExprStmt(MethodCall(Some(a), Some(bodyA))),
                                               ExprStmt(MethodCall(Some(b), Some(bodyB)))]));
      var split := |VisitStmt(scope + [a], bodyA)|;
      split <= |out| &&
      forall i :: 0 <= i < |out| && out[i].Creator? ==>
        |out[i].scope| > |scope| && out[i].scope[|scope|] == (if i < split then a else b)
  {
    var outA, outB := VisitStmt(scope + [a], bodyA), VisitStmt(scope + [b], bodyB);
    VisitPair(scope, ExprStmt(MethodCall(Some(a), Some(bodyA))), ExprStmt(MethodCall(Some(b), Some(bodyB))));
    NameFollowsScope(scope, a, bodyA);
    NameFollowsScope(scope, b, bodyB);
    var out := outA + outB;
    forall i | 0 <= i < |out| && out[i].Creator?
      ensures |out[i].scope| > |scope| && out[i].scope[|scope|] == (if i < |outA| then a else b)
    {
      if i < |outA| { assert out[i] == outA[i]; } else { assert out[i] == outB[i - |outA|]; }
    }
  }

  /** A binary expression yields exactly one event: the creator `(scope, left, right)` when
      it has one of the three declaration shapes, otherwise the diagnostic for it. */
  lemma BinaryOutcome(scope: seq<string>, op: Op, left: Expr, right: Expr)
    ensures |VisitExpr(scope, Binary(op, left, right))| == 1
    ensures VisitExpr(scope, Binary(op, left, right))[0].Creator? <==> IsDeclaration(op, left, right)
    ensures IsDeclaration(op, left, right)
            ==> VisitExpr(scope, Binary(op, left, right))[0] == Creator(scope, left, right)
    ensures !IsDeclaration(op, left, right)
            ==> VisitExpr(scope, Binary(op, left, right))[0] == Disallowed(ExprNode(Binary(op, left, right)))
    ensures op != LeftShift && op != Assign ==> !VisitExpr(scope, Binary(op, left, right))[0].Creator?
  {
  }

  lemma {:induction false} CreatorCountAppend(a: seq<Event>, b: seq<Event>)
    ensures CreatorCount(a + b) == CreatorCount(a) + CreatorCount(b)
    decreases a
  {
    if a == [] {
      assert a + b == b;
    } else {
      assert (a + b)[1..] == a[1..] + b;
      CreatorCountAppend(a[1..], b);
    }
  }

  /** The number of creator records emitted equals the number of declarations in the tree
      that the walk reaches. */
  lemma {:induction false} CreatorCountIsDeclarationCount(scope: seq<string>, s: Stmt)
    ensures CreatorCount(VisitStmt(scope, s)) == DeclarationCount(s)
    decreases s
  {
    match s
    case Block(stmts) => CreatorCountIsDeclarationCountAll(scope, stmts);
    case ExprStmt(e) => CreatorCountIsDeclarationCountExpr(scope, e);
    case OtherStmt(_) =>
  }

  lemma {:induction false} CreatorCountIsDeclarationCountAll(scope: seq<string>, stmts: seq<Stmt>)
    ensures CreatorCount(VisitAll(scope, stmts)) == DeclarationCountAll(stmts)
    decreases stmts
  {
    if stmts != [] {
      CreatorCountIsDeclarationCount(scope, stmts[0]);
      CreatorCountIsDeclarationCountAll(scope, stmts[1..]);
      CreatorCountAppend(VisitStmt(scope, stmts[0]), VisitAll(scope, stmts[1..]));
    }
  }

  lemma {:induction false} CreatorCountIsDeclarationCountExpr(scope: seq<string>, e: Expr)
    ensures CreatorCount(VisitExpr(scope, e)) == DeclarationCountExpr(e)
    decreases e
  {
    match e
    case MethodCall(name, code) =>
      if name.Some? && code.Some? {
        CreatorCountIsDeclarationCount(ScopePath.Extend(scope, name.value), code.value);
      }
    case _ =>
  }

  /** Every creator names a variable or a property as its target. */
  lemma {:induction false} CreatorsAreDeclarations(scope: seq<string>, s: Stmt)
    ensures forall ev :: ev in VisitStmt(scope, s) && ev.Creator? ==> ev.target.Var? || ev.target.Prop?
    decreases s
  {
    match s
    case Block(stmts) => CreatorsAreDeclarationsAll(scope, stmts);
    case ExprStmt(e) => CreatorsAreDeclarationsExpr(scope, e);
    case OtherStmt(_) =>
  }

  lemma {:induction false} CreatorsAreDeclarationsAll(scope: seq<string>, stmts: seq<Stmt>)
    ensures forall ev :: ev in VisitAll(scope, stmts) && ev.Creator? ==> ev.target.Var? || ev.target.Prop?
    decreases stmts
  {
    if stmts != [] {
      CreatorsAreDeclarations(scope, stmts[0]);
      CreatorsAreDeclarationsAll(scope, stmts[1..]);
    }
  }

  lemma {:induction false} CreatorsAreDeclarationsExpr(scope: seq<string>, e: Expr)
    ensures forall ev :: ev in VisitExpr(scope, e) && ev.Creator? ==> ev.target.Var? || ev.target.Prop?
    decreases e
  {
    match e
    case MethodCall(name, code) =>
      if name.Some? && code.Some? {
        CreatorsAreDeclarations(ScopePath.Extend(scope, name.value), code.value);
      }
    case _ =>
  }
}
