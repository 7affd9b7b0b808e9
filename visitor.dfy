/** The visitor as the source runs it: `void` visit methods that push records into a
    shared sink, and a fresh visitor object for every nested scope. */
module Visitor {
  import opened Syntax
  import opened Walk
  import ScopePath

  /** The two collaborators every visitor of one walk shares: the registry that
      receives `addCreator` calls and the error collector that receives the
      "Expression not allowed" reports, kept as one log so that their relative
      order is visible. */
  class Sink {
    var events: seq<Event>

    constructor ()
      ensures events == []
    {
      events := [];
    }

    /** The registry's `addCreator(scope, target, value)`. */
    method AddCreator(scope: seq<string>, target: Expr, value: Expr)
      modifies this
      ensures events == old(events) + [Creator(scope, target, value)]
    {
      events := events + [Creator(scope, target, value)];
    }

    /** The base class's report against a node it does not allow. */
    method Report(node: Node)
      modifies this
      ensures events == old(events) + [Disallowed(node)]
    {
      events := events + [Disallowed(node)];
    }
  }

  class ScopeVisitor {
    const sink: Sink
    const scope: seq<string>

    /** The public visitor: it starts at the root scope. */
    constructor (sink: Sink)
      ensures this.sink == sink && scope == ScopePath.Root
    {
      this.sink := sink;
      this.scope := ScopePath.Root;
    }

    /** The private constructor, used for nested scopes. */
    constructor Nested(sink: Sink, scope: seq<string>)
      ensures this.sink == sink && this.scope == scope
    {
      this.sink := sink;
      this.scope := scope;
    }

    /** A new visitor sharing this one's sink, whose scope is this one's plus `name`.
        This visitor's own scope is a constant and stays as it was. */
    method NestedScope(name: string) returns (v: ScopeVisitor)
      ensures fresh(v) && v.sink == sink
      ensures v.scope == ScopePath.Extend(scope, name)
    {
      v := new ScopeVisitor.Nested(sink, scope + [name]);
    }

    /** The restrictive base behaviour: one report against the node, no descent. */
    method Restrict(node: Node)
      modifies sink
      ensures sink.events == old(sink.events) + [Disallowed(node)]
    {
      sink.Report(node);
    }

    /** `statement.visit(this)`: double dispatch on the statement kind. */
    method VisitStatement(s: Stmt)
      modifies sink
      ensures sink.events == old(sink.events) + VisitStmt(scope, s)
      decreases s, 1
    {
      match s
      case Block(_) => VisitBlockStatement(s);
      case ExprStmt(_) => VisitExpressionStatement(s);
      case OtherStmt(_) => Restrict(StmtNode(s));
    }

    method VisitBlockStatement(block: Stmt)
      requires block.Block?
      modifies sink
      ensures sink.events == old(sink.events) + VisitAll(scope, block.stmts)
      decreases block, 0
    {
      var stmts := block.stmts;
      var i := 0;
      while i < |stmts|
        invariant 0 <= i <= |stmts|
        invariant sink.events == old(sink.events) + VisitAll(scope, stmts[..i])
      {
        VisitStatement(stmts[i]);
        VisitAllAppend(scope, stmts[..i], [stmts[i]]);
        assert stmts[..i + 1] == stmts[..i] + [stmts[i]];
        assert VisitAll(scope, [stmts[i]]) == VisitStmt(scope, stmts[i]) + VisitAll(scope, []);
        i := i + 1;
      }
      assert stmts[..i] == stmts;
    }

    method VisitExpressionStatement(statement: Stmt)
      requires statement.ExprStmt?
      modifies sink
      ensures sink.events == old(sink.events) + VisitExpr(scope, statement.expr)
      decreases statement, 0
    {
      VisitExpression(statement.expr);
    }

    /** `expression.visit(this)`: double dispatch on the expression kind; every kind the
        visitor does not override goes to the restrictive base behaviour. */
    method VisitExpression(e: Expr)
      modifies sink
      ensures sink.events == old(sink.events) + VisitExpr(scope, e)
      decreases e, 1
    {
      match e
      case MethodCall(_, _) => VisitMethodCallExpression(e);
      case Binary(_, _, _) => VisitBinaryExpression(e);
      case _ => Restrict(ExprNode(e));
    }

    method VisitMethodCallExpression(call: Expr)
      requires call.MethodCall?
      modifies sink
      ensures sink.events == old(sink.events) + VisitExpr(scope, call)
      ensures IsScopeOpening(call) ==>
        sink.events == old(sink.events) + VisitStmt(scope + [call.constName.value], call.closureCode.value)
      ensures !IsScopeOpening(call) ==> sink.events == old(sink.events) + [Disallowed(ExprNode(call))]
      decreases call, 0
    {
      var methodName := call.constName;
      if methodName.Some? {
        var nestedAction := call.closureCode;
        if nestedAction.Some? {
          var nested := NestedScope(methodName.value);
          nested.VisitStatement(nestedAction.value);
          return;
        }
      }
      Restrict(ExprNode(call));
    }

    method VisitBinaryExpression(expression: Expr)
      requires expression.Binary?
      modifies sink
      ensures sink.events == old(sink.events) + VisitExpr(scope, expression)
      ensures IsDeclaration(expression.op, expression.left, expression.right) ==>
        sink.events == old(sink.events) + [Creator(scope, expression.left, expression.right)]
      ensures !IsDeclaration(expression.op, expression.left, expression.right) ==>
        sink.events == old(sink.events) + [Disallowed(ExprNode(expression))]
      decreases expression, 0
    {
      var operation, left, right := expression.op, expression.left, expression.right;
      if operation == LeftShift && left.Var? && right.Closure? {
        sink.AddCreator(scope, left, right);
      } else if operation == Assign {
        if left.Var? {
          sink.AddCreator(scope, left, right);
        } else if left.Prop? {
          sink.AddCreator(scope, left, right);
        } else {
          Restrict(ExprNode(expression));
        }
      } else {
        Restrict(ExprNode(expression));
      }
    }
  }
}

/** The driver's use of the public visitor: one walk of a script's root block with a
    fresh sink, starting at the root scope. */
module Driver {
  import opened Syntax
  import opened Walk
  import Visitor
  import ScopePath

  method WalkScript(root: Stmt) returns (events: seq<Event>)
    ensures events == VisitStmt(ScopePath.Root, root)
    ensures CreatorCount(events) == DeclarationCount(root)
  {
    var sink := new Visitor.Sink();
    var visitor := new Visitor.ScopeVisitor(sink);
    visitor.VisitStatement(root);
    events := sink.events;
    CreatorCountIsDeclarationCount(ScopePath.Root, root);
  }
}
