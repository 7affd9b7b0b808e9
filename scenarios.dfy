/** Small scripts and what walking them from the root scope emits. */
module Scenarios {
  import opened Syntax
  import opened Walk

  function Call(name: string, body: seq<Stmt>): Stmt {
    ExprStmt(MethodCall(Some(name), Some(Block(body))))
  }

  lemma SingleStatementBlock(scope: seq<string>, s: Stmt)
    ensures VisitStmt(scope, Block([s])) == VisitStmt(scope, s)
  {
    assert [s][1..] == [];
    assert VisitAll(scope, []) == [];
  }

  /** `tasks { compile { options = 5 } }` declares `options` in scope tasks/compile. */
  lemma NestedDeclaration()
    ensures VisitStmt([], Block([Call("tasks", [Call("compile", [ExprStmt(Binary(Assign, Var("options"), OtherExpr("5")))])])]))
         == [Creator(["tasks", "compile"], Var("options"), OtherExpr("5"))]
  {
    var decl := ExprStmt(Binary(Assign, Var("options"), OtherExpr("5")));
    var inner := Call("compile", [decl]);
    assert VisitStmt(["tasks", "compile"], Block([decl])) == [Creator(["tasks", "compile"], Var("options"), OtherExpr("5"))];
    assert ["tasks"] + ["compile"] == ["tasks", "compile"];
    SingleStatementBlock(["tasks"], inner);
    assert VisitStmt(["tasks"], inner) == VisitStmt(["tasks", "compile"], Block([decl]));
  }

  /** `output << { "built" }` at the root declares `output`, built by the closure. */
  lemma ShiftIntoClosure()
    ensures VisitStmt([], Block([ExprStmt(Binary(LeftShift, Var("output"), Closure(Block([ExprStmt(OtherExpr("\"built\""))]))))]))
         == [Creator([], Var("output"), Closure(Block([ExprStmt(OtherExpr("\"built\""))])))]
  {
  }

  /** `a.b.c = x` declares the property path with `x`, unevaluated, as its value. */
  lemma QualifiedAssignment()
    ensures VisitStmt([], Block([ExprStmt(Binary(Assign, Prop(Prop(Var("a"), "b"), "c"), Var("x")))]))
         == [Creator([], Prop(Prop(Var("a"), "b"), "c"), Var("x"))]
  {
  }

  /** `1 + 2` on its own is reported and declares nothing. */
  lemma ArithmeticIsDisallowed()
    ensures VisitStmt([], Block([ExprStmt(Binary(OtherOp("+"), OtherExpr("1"), OtherExpr("2")))]))
         == [Disallowed(ExprNode(Binary(OtherOp("+"), OtherExpr("1"), OtherExpr("2"))))]
  {
  }

  /** `group(1, 2) { foo = 1 }` has no single closure argument: the call is reported. */
  lemma CallWithSeveralArgumentsIsDisallowed()
    ensures VisitStmt([], Block([ExprStmt(MethodCall(Some("group"), None))]))
         == [Disallowed(ExprNode(MethodCall(Some("group"), None)))]
  {
  }

  /** A call whose name is not a constant, `(n)({ foo = 1 })`, is reported even though its
      single closure declares something: the closure is never visited. */
  lemma ComputedNameIsDisallowed()
    ensures VisitStmt([], Block([ExprStmt(MethodCall(None, Some(Block([ExprStmt(Binary(Assign, Var("foo"), OtherExpr("1")))]))))]))
         == [Disallowed(ExprNode(MethodCall(None, Some(Block([ExprStmt(Binary(Assign, Var("foo"), OtherExpr("1")))])))))]
  {
  }

  /** `a { x = 1 }; b { x = 2 }` declares `x` twice, in scopes a and b, never a/b. */
  lemma SiblingScopes()
    ensures VisitStmt([], Block([Call("a", [ExprStmt(Binary(Assign, Var("x"), OtherExpr("1")))]),
                                 Call("b", [ExprStmt(Binary(Assign, Var("x"), OtherExpr("2")))])]))
         == [Creator(["a"], Var("x"), OtherExpr("1")), Creator(["b"], Var("x"), OtherExpr("2"))]
  {
  }
}
