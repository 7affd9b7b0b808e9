# ScopeVisitor, modelled in Dafny

`ScopeVisitor` (Gradle's model DSL spike) walks the syntax tree of a block of Groovy
model-configuration script and is deny-by-default. For each node it does one of three things:

- it recurses into blocks and expression statements;
- for a call `name { ... }` with a constant name and a single closure argument, it visits the
  closure's code with a new visitor whose scope path is the current one plus `name`;
- for `x << { ... }`, `x = value` and `a.b = value`, it hands a creator record
  `(scope, target, value)` to the registry's `addCreator`.

Everything else goes to the restrictive base class. The base class reports
"Expression not allowed" against the node and does not descend.

The model has these parts:

- `Syntax` (syntax.dfy): the tree as datatypes `Stmt` and `Expr`. A `MethodCall` carries the
  results of the two helpers the visitor consults: the constant method name and the code of
  the single closure argument, each an `Option`.
- `ScopePath` (scope_path.dfy): the immutable scope path and `Extend`, which builds the
  nested scope.
- `Walk` (walk.dfy): the specification. `VisitStmt`, `VisitAll` and `VisitExpr` give the
  ordered list of sink calls (`Event`s) that one visit makes. The lemmas about the walk live
  here too.
- `Visitor` (visitor.dfy): the visitor as the source runs it. It is a class
  `ScopeVisitor` with constant `scope` and `sink` fields and `void`-style visit methods.
  Those methods append to a shared `Sink`, and `NestedScope` allocates a fresh visitor.
  Each visit method is proved to append exactly what `Walk` says.
- `Driver` (visitor.dfy): one walk of a root block with the public visitor.
- `Scenarios` (scenarios.dfy): small scripts with their exact output.

The registry and the error collector are two collaborators in the source. Here they are one
`Sink` log, so the relative order of creators and diagnostics stays visible.

Where the code is more permissive than a plain reading of the DSL suggests, the model follows
the code. `=` with ANY property expression on the left is a declaration (the test is
`instanceof PropertyExpression`), whatever the receiver of the property is. So a computed
receiver such as `f().x = 1` also declares. It is not only literal dotted chains.

## Model

| member | source | states |
|---|---|---|
| ScopePath.Extend | subprojects/model-groovy/src/main/java/org/gradle/model/dsl/internal/spike/ScopeVisitor.java:47-52 | the nested scope is one longer than the parent's, starts with the parent's names and ends with the call's name |
| Visitor.Sink.AddCreator | subprojects/model-groovy/src/main/java/org/gradle/model/dsl/internal/spike/ScopeVisitor.java:81-86 | the registry receives exactly one more record, `(scope, target, value)`, after the earlier ones |
| Visitor.Sink.Report | subprojects/model-groovy/src/main/java/org/gradle/model/dsl/internal/spike/ScopeVisitor.java:41 | the error collector receives exactly one more "not allowed" report, against the given node |
| Visitor.ScopeVisitor.constructor | subprojects/model-groovy/src/main/java/org/gradle/model/dsl/internal/spike/ScopeVisitor.java:36-38 | the public visitor starts with the empty scope path and the given sink |
| Visitor.ScopeVisitor.Nested | subprojects/model-groovy/src/main/java/org/gradle/model/dsl/internal/spike/ScopeVisitor.java:40-45 | the private constructor keeps the given sink and scope |
| Visitor.ScopeVisitor.NestedScope | subprojects/model-groovy/src/main/java/org/gradle/model/dsl/internal/spike/ScopeVisitor.java:47-52 | returns a fresh visitor that shares the sink and has the scope extended by the name; the parent's scope is a constant and cannot change |
| Visitor.ScopeVisitor.Restrict | subprojects/model-groovy/src/main/java/org/gradle/model/dsl/internal/spike/ScopeVisitor.java:41 | base behaviour: exactly one report against the node and nothing else, so no descent into it |
| Visitor.ScopeVisitor.VisitStatement | subprojects/model-groovy/src/main/java/org/gradle/model/dsl/internal/spike/ScopeVisitor.java:54-62 | dispatching a statement appends exactly the walk's events for it under this visitor's scope |
| Visitor.ScopeVisitor.VisitBlockStatement | subprojects/model-groovy/src/main/java/org/gradle/model/dsl/internal/spike/ScopeVisitor.java:54-58 | the loop appends the events of the statements, in source order, all under the same scope |
| Visitor.ScopeVisitor.VisitExpressionStatement | subprojects/model-groovy/src/main/java/org/gradle/model/dsl/internal/spike/ScopeVisitor.java:60-62 | appends exactly the inner expression's events under the same scope, nothing of its own |
| Visitor.ScopeVisitor.VisitExpression | subprojects/model-groovy/src/main/java/org/gradle/model/dsl/internal/spike/ScopeVisitor.java:61 | dispatching an expression appends exactly the walk's events for it; kinds not overridden get one report |
| Visitor.ScopeVisitor.VisitMethodCallExpression | subprojects/model-groovy/src/main/java/org/gradle/model/dsl/internal/spike/ScopeVisitor.java:64-75 | a call with a constant name and a single closure appends only its closure code's events under scope + [name]; any other call appends only one report and its closure is never visited |
| Visitor.ScopeVisitor.VisitBinaryExpression | subprojects/model-groovy/src/main/java/org/gradle/model/dsl/internal/spike/ScopeVisitor.java:77-93 | a declaration shape appends exactly one creator `(scope, left, right)`; any other binary appends exactly one report |
| Driver.WalkScript | subprojects/model-groovy/src/main/java/org/gradle/model/dsl/internal/spike/ScopeVisitor.java:36-38 | a walk from the public visitor emits the walk's events from the root scope, with as many creators as the tree has reachable declarations |
| Walk.VisitAllAppend | subprojects/model-groovy/src/main/java/org/gradle/model/dsl/internal/spike/ScopeVisitor.java:54-58 | a block's output over `a + b` is the output over `a` followed by the output over `b` |
| Walk.VisitAllAt | subprojects/model-groovy/src/main/java/org/gradle/model/dsl/internal/spike/ScopeVisitor.java:54-58 | statement i's events come after those of all earlier statements and before those of all later ones |
| Walk.VisitPair | subprojects/model-groovy/src/main/java/org/gradle/model/dsl/internal/spike/ScopeVisitor.java:54-58 | a two-statement block emits the first statement's events, then the second's |
| Walk.BareBlockOpensNoScope | subprojects/model-groovy/src/main/java/org/gradle/model/dsl/internal/spike/ScopeVisitor.java:54-58 | a bare nested block opens no scope: its output equals the output with its statements spliced into the enclosing block |
| Walk.ScopeShift | subprojects/model-groovy/src/main/java/org/gradle/model/dsl/internal/spike/ScopeVisitor.java:47-52 | visiting under `outer + scope` emits the same events as under `scope`, except that `outer` is prefixed to every creator's scope |
| Walk.ScopeShiftAll | subprojects/model-groovy/src/main/java/org/gradle/model/dsl/internal/spike/ScopeVisitor.java:54-58 | the same scope-shift property for a statement list |
| Walk.ScopeShiftExpr | subprojects/model-groovy/src/main/java/org/gradle/model/dsl/internal/spike/ScopeVisitor.java:64-93 | the same scope-shift property for an expression |
| Walk.RescopeAppend | subprojects/model-groovy/src/main/java/org/gradle/model/dsl/internal/spike/ScopeVisitor.java:54-58 | prefixing scopes distributes over the concatenation of outputs |
| Walk.RootedAt | subprojects/model-groovy/src/main/java/org/gradle/model/dsl/internal/spike/ScopeVisitor.java:36-52 | any visitor's output is the root visitor's output with its scope prefixed to every creator's scope |
| Walk.CreatorsExtendScope | subprojects/model-groovy/src/main/java/org/gradle/model/dsl/internal/spike/ScopeVisitor.java:47-52 | every creator emitted under a scope carries a scope path that starts with that scope |
| Walk.ScopeOpeningTagsItsBody | subprojects/model-groovy/src/main/java/org/gradle/model/dsl/internal/spike/ScopeVisitor.java:65-72 | a scope-opening call emits exactly its body's output under scope + [name]; every creator in it has a scope extending scope + [name] |
| Walk.NestExact | subprojects/model-groovy/src/main/java/org/gradle/model/dsl/internal/spike/ScopeVisitor.java:65-72 | visiting a body nested inside scope-opening calls named `names` equals visiting it under the scope extended by exactly `names`, in order |
| Walk.NestedDeclarationScope | subprojects/model-groovy/src/main/java/org/gradle/model/dsl/internal/spike/ScopeVisitor.java:65-86 | a declaration inside calls named `names` yields exactly one creator, with scope exactly the enclosing scope followed by `names` |
| Walk.NameFollowsScope | subprojects/model-groovy/src/main/java/org/gradle/model/dsl/internal/spike/ScopeVisitor.java:70 | every creator inside a call named `name` has `name` right after the enclosing scope |
| Walk.SiblingIsolation | subprojects/model-groovy/src/main/java/org/gradle/model/dsl/internal/spike/ScopeVisitor.java:47-58 | two sibling calls `a {..}` and `b {..}` in one block: every creator in the first part of the output has `a` right after the enclosing scope and every creator in the rest has `b` there, so at that depth each sibling's declarations carry their own call's name |
| Walk.BinaryOutcome | subprojects/model-groovy/src/main/java/org/gradle/model/dsl/internal/spike/ScopeVisitor.java:78-93 | a binary expression yields exactly one event; it is the creator `(scope, left, right)` iff the shape is `var << closure`, `var = e` or `prop = e`, otherwise the report; operators other than `<<` and `=` never declare |
| Walk.CreatorCountAppend | subprojects/model-groovy/src/main/java/org/gradle/model/dsl/internal/spike/ScopeVisitor.java:54-58 | creator counts add up over concatenated outputs |
| Walk.CreatorCountIsDeclarationCount | subprojects/model-groovy/src/main/java/org/gradle/model/dsl/internal/spike/ScopeVisitor.java:54-93 | the number of creators emitted equals the number of declarations reachable through blocks, expression statements and scope-opening calls |
| Walk.CreatorCountIsDeclarationCountAll | subprojects/model-groovy/src/main/java/org/gradle/model/dsl/internal/spike/ScopeVisitor.java:54-58 | the same count equality for a statement list |
| Walk.CreatorCountIsDeclarationCountExpr | subprojects/model-groovy/src/main/java/org/gradle/model/dsl/internal/spike/ScopeVisitor.java:64-93 | the same count equality for an expression |
| Walk.CreatorsAreDeclarations | subprojects/model-groovy/src/main/java/org/gradle/model/dsl/internal/spike/ScopeVisitor.java:80-86 | every creator's target is a variable or a property expression |
| Walk.CreatorsAreDeclarationsAll | subprojects/model-groovy/src/main/java/org/gradle/model/dsl/internal/spike/ScopeVisitor.java:54-58 | the same target property for a statement list |
| Walk.CreatorsAreDeclarationsExpr | subprojects/model-groovy/src/main/java/org/gradle/model/dsl/internal/spike/ScopeVisitor.java:64-93 | the same target property for an expression |
| Scenarios.SingleStatementBlock | subprojects/model-groovy/src/main/java/org/gradle/model/dsl/internal/spike/ScopeVisitor.java:54-58 | a one-statement block emits exactly that statement's events |
| Scenarios.NestedDeclaration | subprojects/model-groovy/src/main/java/org/gradle/model/dsl/internal/spike/ScopeVisitor.java:65-86 | `tasks { compile { options = 5 } }` emits one creator, `options` in scope tasks/compile |
| Scenarios.ShiftIntoClosure | subprojects/model-groovy/src/main/java/org/gradle/model/dsl/internal/spike/ScopeVisitor.java:80-81 | `output << { ... }` at the root emits one creator with the closure as value and the empty scope |
| Scenarios.QualifiedAssignment | subprojects/model-groovy/src/main/java/org/gradle/model/dsl/internal/spike/ScopeVisitor.java:85-86 | `a.b.c = x` emits one creator with the property as target and `x` as value |
| Scenarios.ArithmeticIsDisallowed | subprojects/model-groovy/src/main/java/org/gradle/model/dsl/internal/spike/ScopeVisitor.java:90-91 | `1 + 2` emits one report and no creator |
| Scenarios.CallWithSeveralArgumentsIsDisallowed | subprojects/model-groovy/src/main/java/org/gradle/model/dsl/internal/spike/ScopeVisitor.java:68-74 | a call without a single closure argument emits exactly one report |
| Scenarios.ComputedNameIsDisallowed | subprojects/model-groovy/src/main/java/org/gradle/model/dsl/internal/spike/ScopeVisitor.java:66-74 | a call with a non-constant name and a declaring closure yields exactly one report; the closure is never visited |
| Scenarios.SiblingScopes | subprojects/model-groovy/src/main/java/org/gradle/model/dsl/internal/spike/ScopeVisitor.java:47-58 | `a { x = 1 }; b { x = 2 }` emits `x` in scope a, then `x` in scope b |

## Left out

- Groovy's AST classes, source positions and `SourceUnit`: the tree is the `Syntax` datatypes. A report carries the offending node itself as its identity, not a position.
- `AstUtils.extractConstantMethodName` and `AstUtils.getSingleClosureArg` are not part of this model. A `MethodCall` carries their results as inputs. So "exactly one argument, and it is a closure" is taken as given, not derived from an argument list.
- `RestrictiveCodeVisitor` is not part of this model. Its behaviour is taken to be: one "Expression not allowed" report against the node, and no descent. It applies to every node kind `ScopeVisitor` does not override: other statements, and a variable, property, closure or any other expression standing alone.
- Groovy's `PropertyExpression` subclasses (attribute expressions) are not told apart from plain property access. The `instanceof` test accepts them all.
- `ModelRegistryDslHelperStatementGenerator.addCreator` is not part of this model. Its code generation is outside the walk, so only the `(scope, target, value)` triple it receives is recorded.
- Token typing (`Token.isA`) is reduced to comparing the operator with `<<` and `=`. Compound assignments such as `+=` are other operators.
- Guava's `ImmutableList` is a Dafny `seq<string>`, which is immutable by construction.
