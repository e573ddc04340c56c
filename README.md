# js2php emitter, modelled in Dafny

js2php turns JavaScript into PHP source text. It parses the input with Esprima,
then walks the syntax tree with one recursive function, `visit(node, parent)`
(index.js:14-320), which returns the PHP text of each node. The result is
`"<?php\n"` followed by the text of the program (index.js:322). This project models
that walk and proves what it produces.

- `ast.dfy` (`Ast`): the node kinds `visit` handles, plus `Other(kind)` for every kind
  it does not handle. It also holds size measures used for termination.
- `emitter.dfy` (`Emitter`): the specification function `Emit(env, n, ctx)`. It returns
  a `Fragment`: the text `visit` returns and the log of the side effects of the visit.
  The two exceptions are the ones under "## Findings", where `Emit` gives the corrected
  text.
  The log records `scope.create(fn)` and the "not implemented" diagnostic, in order.
  - `env` holds the collaborators the emitter calls but does not own: the override table
    from `./core` and `utils.capitaliseFirstLetter`.
  - `ctx` holds the fields the source writes onto a node before visiting it: `parent`,
    `isCallee`, `isMemberExpression` and `static`. It also holds the `property.static`
    flag that an enclosing member access may have set.
- `visitor.dfy` (`Visitor`): the walk as the source writes it. It is a recursive method
  with `content += …` updates, `push`-into-an-array loops, and the terminator step at
  the end. Each method is proved to return exactly the fragment `Emit` specifies.
- `properties.dfy` (`Properties`): what the emitter promises, proved about `Emit`. The
  lemmas compare it with independent reference definitions: element-wise child texts
  instead of the folds the emitter builds, closed forms for identifiers, member
  accesses, calls, functions, methods, literals, statement lists, switches and imports,
  and concrete translations.
- `findings.dfy` (`Findings`): two places where the source concatenates a node object
  instead of its name.

The rewrites the source applies to nodes in place (a `NewExpression` becomes a
`CallExpression`, a method's value or a function expression becomes a
`FunctionDeclaration`, `constructor` becomes `__construct`) are modelled as visiting
the rewritten node value.

Member-access casing follows the code:
- `A.B.c` renders `A\B::c`. For the outer access, line 122 reads the flag on `c`, which
  only an enclosing access sets. The object's flag comes from `A`. See
  `Properties.NamespaceThenStatic`.
- `obj.Method()` renders `$obj->Method();`, because the lower-case object selects
  instance access. See `Properties.InstanceCallScenario`.

## Model

| member | source | states |
|---|---|---|
| Emitter.Connective | index.js:121-128 | the connective is `\` exactly when object and property are both static-style, `::` exactly when only the object is, and `->` exactly when the object is not |
| Emitter.Terminate | index.js:315-317 | when a terminator is owed and the content does not already end in `;` or `;\n`, exactly `;\n` is appended; nothing is appended when it is not owed or already present; so an owed result always ends in a terminator |
| Emitter.Translate | index.js:322 | the output starts with `<?php` and a newline, and the rest is exactly the program's text |
| Visitor.Visit | index.js:14-320 | the text and effects of visiting any node are exactly those of `Emit` |
| Visitor.VisitBasic | index.js:20-181 | the program, block, class-body, declaration-list, identifier, punctuator, literal, `this` and `break` cases, and the calls, member accesses, functions and object and array literals it dispatches, return exactly what `Emit` specifies |
| Visitor.VisitSequence | index.js:24-31 | the `content +=` loop over a child list yields the children's texts in order, each followed by the suffix, with their effects in order; statement lists pass the next sibling as parent |
| Visitor.VisitList | index.js:166-178 | the `push` loop collects each child's text, visited with the list as parent, in order, with their effects |
| Visitor.VisitCall | index.js:68-91 | the callee is visited as callee; an overridden call returns at once; otherwise the arguments are joined in order and a terminator is owed only under an expression statement |
| Visitor.VisitMember | index.js:93-104 | the override table's rewrite is applied to the member in its context, and a changed node is visited with the member's parent; otherwise the access renders as `Emit` specifies |
| Visitor.VisitAccess | index.js:106-135 | an access the table leaves alone: the collapse, the static flags, the connective and computed access match `Emit` |
| Visitor.VisitParam | index.js:145-154 | parameter i is visited as `param = default` under the function when it has a default, and as itself otherwise, exactly as `Emit` specifies |
| Visitor.VisitParams | index.js:144-157 | the parameters' texts and effects are collected in order, entry i being parameter i's visit |
| Visitor.VisitFunction | index.js:138-164 | parameters first, then one `scope.create`, then the header, the body and the closing brace, exactly as `Emit` |
| Visitor.VisitExpression | index.js:58-285 | binary, logical and assignment forms (index.js:58-62), properties (index.js:180-181), updates (index.js:247-248), `new` (index.js:273-277) and function expressions (index.js:279-285) return exactly what `Emit` specifies |
| Visitor.VisitStatement | index.js:34-189 | declarators (index.js:34-41), expression statements (index.js:63-65) and returns (index.js:183-189) render as `Emit` specifies, including the terminator step (index.js:315-317) |
| Visitor.VisitCompound | index.js:219-245 | `if`/`else`, `for` and `for … in` render as `Emit` specifies |
| Visitor.VisitSwitch | index.js:249-268 | a switch and its cases render as `Emit` specifies |
| Visitor.VisitDeclaration | index.js:191-308 | classes (index.js:191-198), methods (index.js:200-214), modules (index.js:289-291), exports (index.js:293-294), imports and their specifiers (index.js:296-308) render as `Emit` specifies |
| Visitor.TranslateProgram | index.js:322 | the exported function returns exactly `Translate` of the tree |
| Properties.IdentifierSigil | index.js:43-50 | an identifier renders as `$` plus its name exactly when none of static, callee or member-property is set, as the bare name otherwise, and has no effects |
| Properties.MemberOfIdentifiers | index.js:106-135 | `a.b` renders the object bare when it is static-style (with `$` otherwise), then the connective of the two casings, then `b` |
| Properties.NestedMemberCollapse | index.js:108-128 | in `a.b.c` the outer access renders `a.b` from the collapsed pair, and its connective reads the outer property's flag, which only an enclosing access sets; the casing of `c` plays no part |
| Properties.NamespaceThenStatic | index.js:108-134 | `A.B.c` renders `A\B::c` |
| Properties.ComputedOfIdentifiers | index.js:130-131 | `a[b]` renders object, `[`, property, `]` with no connective, and the property keeps its `$` unless it is static-style |
| Properties.StrlenTableWellFormed | index.js:95-104 | a table rewriting `x.length` to `strlen(x)`, which keeps the accessed object, is accepted by the model |
| Properties.StrlenRewrite | index.js:97-101 | with that table, `x.length` renders as `strlen(x)` visited with the access's own parent |
| Properties.StrlenScenario | index.js:95-104 | with that table the statement `s.length;` renders `strlen($s);` and a newline |
| Properties.PushTableWellFormed | index.js:95-104 | a table rewriting the callee `x.push` of a call to `array_push(x, args)`, which copies the call's arguments, is accepted by the model |
| Properties.PushRewrite | index.js:72-104 | with that table, the call `a.push(b)` renders as `array_push(a, b)` visited with the call as parent |
| Properties.PushScenario | index.js:68-104 | with that table the statement `a.push(b);` renders `array_push($a, $b);` and a newline |
| Properties.PlainCall | index.js:78-91 | a call the table does not catch renders callee, `(`, the arguments' texts joined by `, ` in order, `)`, followed by `;\n` exactly when its parent is an expression statement |
| Properties.OverriddenCall | index.js:72-76 | a call whose callee's property is in the table is exactly the callee's rendering, with no argument list and no terminator; a true rewrite is the replacement visited with the call as parent |
| Properties.CallStatementTerminatedOnce | index.js:315-317 | a call statement ends in exactly one `;\n`, though both the call and the statement owe a terminator |
| Properties.NewIsUnterminatedCall | index.js:273-277 | `new C(args)` is `new ` plus the call's text, never terminated, because the early return skips the terminator step |
| Properties.TerminateTwice | index.js:315-317 | applying the terminator step twice equals applying it once with either obligation |
| Properties.StatementsTerminated | index.js:34-189 | expression statements (index.js:63-65), returns (index.js:183-189) and initialised declarators (index.js:34-40) always end in a terminator |
| Properties.ParamsAt | index.js:144-157 | the parameter list has one entry per parameter, and entry i is parameter i's visit |
| Properties.ParamWithDefault | index.js:145-151 | a parameter with a default renders `param = default`, both visited under the synthetic assignment |
| Properties.FunctionDeclarationShape | index.js:138-164 | `function id(p1, …, pk) {\n body }\n`; the log is the parameters' effects, then exactly one `scope.create(id)`, then the body's |
| Properties.FunctionHeader | index.js:159-162 | every function starts with `function`, its name and `(`, and its log records its `scope.create` |
| Properties.MethodDefinitionShape | index.js:200-214 | a method is `public `, `static ` when static, then `function`, its key (`constructor` renamed to `__construct`), `(`, its parameters' texts joined by `, `, `) {`, a newline, its body and `}` with a newline; its log is the parameters' effects, one `scope.create` of that name, then the body's |
| Properties.FunctionExpressionShape | index.js:279-285 | a function expression renders as the declaration it is normalised into, in the same context; an anonymous one opens with `function (` |
| Properties.ArrayLiteral | index.js:173-178 | an array literal is `array(` plus the elements' texts joined by `, ` in order plus `)` |
| Properties.ObjectLiteral | index.js:166-171 | an object literal is `array(` plus its `"key" => value` entries joined by `, ` in order plus `)` |
| Properties.SiblingTexts | index.js:24-26 | the body loop visits each statement with its next sibling as parent |
| Properties.StatementSequence | index.js:20-26 | a program, block or class body is its statements' texts concatenated in order, with nothing between them |
| Properties.SwitchShape | index.js:249-255 | a switch is `switch (d){`, each case's text followed by a newline in order, then `}` |
| Properties.SwitchCaseShape | index.js:258-268 | a case is `case t:` and a newline (or `default:` and a newline without a test), then its consequents' texts in order, each visited under the case |
| Properties.SwitchCaseLines | index.js:252-254 | the case loop yields each case's text, visited under the switch, followed by a newline, in order |
| Properties.SpecifierFragments | index.js:301-308 | each import specifier is its `use` line in the capitalised namespace of its import, and has no effects |
| Properties.ImportLines | index.js:296-299 | an import is one `use` line per specifier, in order, and has no effects |
| Properties.SingleDeclaration | index.js:28-32 | a declaration of one variable is that declarator's visit |
| Properties.LiteralSum | index.js:58-59 | `1 + 2` renders `1 + 2` |
| Properties.InitialisedDeclarator | index.js:34-40 | a declarator with an initialiser is `$id = value` followed by `;` and a newline; when the value's text already ends in a terminator, that one is kept and none is added |
| Properties.DeclarationSequence | index.js:28-32 | a declaration of any number of variables is its declarators' texts concatenated in order, each visited under the declaration |
| Properties.DeclarationScenario | index.js:34-40 | `let x = 1 + 2;` renders `$x = 1 + 2;` and a newline |
| Properties.InstanceCallScenario | index.js:113-134 | `obj.Method();` renders `$obj->Method();` and a newline |
| Properties.InstanceMember | index.js:113-134 | `obj.Method` renders `$obj->Method` in any context |
| Properties.BareDeclaration | index.js:34-36 | a declaration without an initialiser renders `$id` and owes no terminator |
| Properties.EmptyBlock | index.js:20-26 | an empty block renders nothing and has no effects |
| Properties.ForInScenario | index.js:243-245 | `for (var k in o) {}` renders `foreach ($o as $k => $___){}` |
| Properties.UnsupportedInBody | index.js:310-312 | in any program, block or class body, a statement of an unhandled kind at position i has empty text, the body's text is the other statements' texts in order around it, and its kind is reported in the body's log |
| Properties.UnsupportedFragments | index.js:310-312 | in `[unsupported, break]` the unsupported node is an empty fragment with its diagnostic, and `break;` follows |
| Properties.UnsupportedScenario | index.js:20-26 | a block holding an unsupported node and `break` renders `break;` and logs one diagnostic |
| Findings.ExtendsLosesName | index.js:194-196 | as written, classes extending different superclasses get the same clause; the corrected clauses differ |
| Findings.ExtendsBaseAsWritten | index.js:194-196 | as written, `extends Base` renders ` extends [object Object]`, which differs from the corrected clause |
| Findings.ExtendsNamesSuperclass | index.js:191-198 | the corrected clause is ` extends ` followed by exactly the superclass name, and is empty without one |
| Findings.ExpressionNameLost | index.js:282-283 | as written, every named function expression is named `[object Object]`; the corrected names differ |
| Findings.NamedExpressionAsWritten | index.js:282-285 | as written, the expression `function f() {}` opens with `function [object Object](` |
| Findings.NamedExpressionCorrected | index.js:279-285 | corrected, the expression `function f() {}` opens with `function f(` |

## Left out

- Parsing. `esprima.parse` (index.js:7-12) is a foreign parser. The model starts from a `Node` value. Source locations, ranges, tokens and comments are not represented.
- The bodies of `./core`, `./scope` and `./utils` (index.js:1-3) are not part of this model:
  - the override table is a map from property names to rewrites; each rewrite receives the member-access node and what it carries when visited, including its `parent` (for a callee, the call), so a rewrite may read and copy the call's arguments;
  - `capitaliseFirstLetter` is an arbitrary string function;
  - `scope.create` is recorded by name in the log, and its effect on scopes is not modelled.
- `console.log` (index.js:311) is I/O. It appears only as an `Unsupported(kind)` entry in the log.
- Emitter.WellFormed: override tables are covered only when every rewrite makes progress. A rewrite of an access visited as a callee is measured against the whole call, and any other rewrite against the access itself. Progress means it returns the node itself, or a tree with fewer accesses the table fires on, or as many and fewer nodes. So a rewrite may keep the accessed object (`x.length` to `strlen(x)`) or replace the whole call and copy its arguments (`x.push(a)` to `array_push(x, a)`), and chains of rewrites that shrink are covered. Tables whose rewrites do not shrink are left out; on some of these, such as a rewrite that rebuilds the same access, the source recurses without end.
- Override identity is compared by value. A rewrite that returns an equal node renders on the normal path, whereas the source compares references.
- The override table is looked up by the property's name, so only identifier properties can fire, whether the access is computed or not (`a[length]` fires, `a["length"]` has no name and does not). JavaScript prototype keys of the table and the key `undefined` are not modelled.
- Names are strings. Identifier fields the emitter reads only by `.name` are strings, and the superclass is an optional string.
- The `node.name || node.value` fallback for identifiers (index.js:44) and the text `undefined` for a missing name are not modelled.
- The casing test reads an identifier's name, a punctuator's value or a string literal's value (index.js:118-119). A non-string literal counts as not static-style; in the source, calling `.match` on a non-string value would throw.
- A `for` loop with a missing `init`, `test` or `update` (index.js:236-238) is not modelled, because the source dereferences them. All four parts are required nodes.
- An import specifier visited outside an import declaration takes its namespace from the empty string. The source reads `node.parent.source.value`, which would throw there.
- A call visited without any parent never owes a terminator. The source's `node.parent.type` (index.js:89) would throw there.
- The source's in-place rewrites would show if a caller visited the same node objects again. The model treats each visit as acting on the node's value, so that reuse is not captured.
- Emitter.EmitMember: a replacement from the override table is visited with fresh flags. In the source, a rewrite that reuses a node also reuses the flags an enclosing access already wrote onto it (index.js:112-118). So with `length ↦ strlen(x)`, the source renders `S.length.foo;` as `strlen(S)::foo;` and a newline, because the enclosing access marked `S` static-style, whereas the model renders `strlen($S)::foo;` and a newline. Flags live on node objects there and on the visit's context here; Visitor.VisitMember behaves the same way.
- Emitter.Emit: for the `extends` clause (index.js:194-196) and the name of a named function expression (index.js:282-283), `Emit` gives the corrected text, not the `[object Object]` the source produces. The as-written behaviour is modelled separately in `Findings`.
- `export { a }`, whose `declaration` is null, cannot be expressed: `ExportDeclaration` requires a declaration. The source visits the null declaration (index.js:294) and throws.
- Array holes such as `[1, , 2]` cannot be expressed: array elements are nodes. The source visits the hole (index.js:176) and throws.
- Findings.ExtendsLosesName and Findings.ExpressionNameLost model JavaScript's object-to-string conversion only as the constant text `[object Object]`.

## Findings

| source | as written | input that shows it | evidently intended | confidence | as-written member | corrected member |
|---|---|---|---|---|---|---|
| index.js:194-196 | `" extends " + node.superClass` concatenates the superclass identifier node, which JavaScript converts to `[object Object]` | `class A extends Base {}` | ` extends Base`, the superclass's name | not executed | Findings.ExtendsLosesName | Findings.ExtendsNamesSuperclass |
| index.js:282-283 | `node.id = { name: node.id \|\| "" }` stores the identifier node itself as the name, so a named function expression renders as `function [object Object](` | `var g = function f() {}` | `function f(`, the expression's own name | not executed | Findings.NamedExpressionAsWritten | Findings.NamedExpressionCorrected |
