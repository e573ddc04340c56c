/**
 * The emitter of index.js as a specification function: `Emit(env, n, ctx)` is the
 * text `visit(n, parent)` returns, together with the log of the side effects the
 * visit performs (one `scope.create` per function, one diagnostic per unsupported
 * node kind), in the order they happen.
 *
 * The source passes context to later visits by writing fields onto the nodes
 * (`parent`, `isCallee`, `static`, `isMemberExpression`); here those fields are the
 * explicit argument `ctx`, holding exactly what the node carries when it is visited.
 */
module Emitter {
  import opened Ast

  /**
   * The collaborators the emitter calls and does not own: the override table of
   * `./core` (property name to a rewrite of the member-access node, which sees the
   * node together with what it carries, its `parent` among them) and
   * `utils.capitaliseFirstLetter`.
   */
  datatype Env = Env(core: map<string, (Node, Ctx) -> Node>, capitalise: string -> string)

  /**
   * What a node carries when it is visited.
   * - parent: the `parent` field (the last parent argument passed for it, if any);
   * - isCallee: set by a call on its callee;
   * - isMemberExpression: set by a non-computed member access on its property;
   * - isStatic: the node's own `static` field, set by a member access;
   * - propertyStatic: (for a member access) whether `property.static` was already
   *   set, and truthy, by the member access that encloses this one.
   */
  datatype Ctx = Ctx(parent: Option<Node>, isCallee: bool, isMemberExpression: bool,
                     isStatic: bool, propertyStatic: bool)

  /** A visit of a node that nothing has annotated yet, other than its parent. */
  function Fresh(parent: Option<Node>): Ctx
  {
    Ctx(parent, false, false, false, false)
  }

  /** Side effects of a visit: `scope.create(fn)` and the `console.log` diagnostic. */
  datatype Event = ScopeCreated(fn: string) | Unsupported(kind: string)

  datatype Fragment = Fragment(text: string, log: seq<Event>)

  // ---------------------------------------------------------------------------
  // Casing heuristic and member-access connective

  /** The "static-style" flag: `/^[A-Z]/` matches the string. */
  predicate StartsUpper(s: string)
  {
    |s| > 0 && 'A' <= s[0] <= 'Z'
  }

  /** `node.name || node.value || ""`, for the node kinds that have such a field. */
  function CasingName(n: Node): string
  {
    match n
    case Identifier(name) => name
    case Punctuator(v) => v
    case Literal(_, Some(v)) => v
    case _ => ""
  }

  predicate IsStaticStyle(n: Node)
  {
    StartsUpper(CasingName(n))
  }

  /** The connective between object and property of a non-computed member access. */
  function Connective(objectStatic: bool, propertyStatic: bool): (r: string)
    ensures r == "\\" <==> objectStatic && propertyStatic
    ensures r == "::" <==> objectStatic && !propertyStatic
    ensures r == "->" <==> !objectStatic
  {
    if propertyStatic && objectStatic then "\\"
    else if objectStatic then "::"
    else "->"
  }

  // ---------------------------------------------------------------------------
  // Statement terminator

  /** `/;\n?$/` matches the string. */
  predicate EndsInTerminator(s: string)
  {
    (|s| >= 1 && s[|s| - 1] == ';') || (|s| >= 2 && s[|s| - 2..] == ";\n")
  }

  /** The last step of every visit: append `";\n"` when one is owed and missing. */
  function Terminate(content: string, owed: bool): (r: string)
    ensures owed ==> EndsInTerminator(r)
    ensures !owed || EndsInTerminator(content) ==> r == content
    ensures owed && !EndsInTerminator(content) ==> r == content + ";\n"
    ensures content <= r && |r| <= |content| + 2
  {
    if owed && !EndsInTerminator(content) then
      var r := content + ";\n";
      assert r[|r| - 2..] == ";\n";
      r
    else content
  }

  // ---------------------------------------------------------------------------
  // Override table

  /** Whether `core[node.property.name]` exists for this member access. */
  predicate Fires(env: Env, n: Node)
  {
    n.MemberExpression? && n.property.Identifier? && n.property.name in env.core
  }

  /** `core[node.property.name](node)`, applied to the node as annotated when visited. */
  function Replacement(env: Env, n: Node, ctx: Ctx): Node
    requires Fires(env, n)
  {
    env.core[n.property.name](n, ctx)
  }

  /** Number of member accesses in the tree on which the override table fires. */
  function Sites(env: Env, n: Node): nat
  {
    match n
    case Program(b) => SitesSeq(env, b)
    case BlockStatement(b) => SitesSeq(env, b)
    case ClassBody(b) => SitesSeq(env, b)
    case VariableDeclaration(ds) => SitesSeq(env, ds)
    case VariableDeclarator(_, init) => SitesOpt(env, init)
    case Identifier(_) => 0
    case Punctuator(_) => 0
    case Literal(_, _) => 0
    case BinaryExpression(l, _, r) => Sites(env, l) + Sites(env, r)
    case LogicalExpression(l, _, r) => Sites(env, l) + Sites(env, r)
    case AssignmentExpression(l, _, r) => Sites(env, l) + Sites(env, r)
    case ExpressionStatement(e) => Sites(env, e)
    case CallExpression(c, args) => Sites(env, c) + SitesSeq(env, args)
    case NewExpression(c, args) => Sites(env, c) + SitesSeq(env, args)
    case MemberExpression(o, p, _) => (if Fires(env, n) then 1 else 0) + Sites(env, o) + Sites(env, p)
    case FunctionDeclaration(_, ps, ds, b) => SitesSeq(env, ps) + SitesDefaults(env, ds) + Sites(env, b)
    case FunctionExpression(_, ps, ds, b) => SitesSeq(env, ps) + SitesDefaults(env, ds) + Sites(env, b)
    case ObjectExpression(ps) => SitesSeq(env, ps)
    case ArrayExpression(es) => SitesSeq(env, es)
    case Property(_, v) => Sites(env, v)
    case ReturnStatement(a) => SitesOpt(env, a)
    case ClassDeclaration(_, _, b) => Sites(env, b)
    case MethodDefinition(_, _, ps, ds, b) => SitesSeq(env, ps) + SitesDefaults(env, ds) + Sites(env, b)
    case ThisExpression => 0
    case IfStatement(t, c, a) => Sites(env, t) + Sites(env, c) + SitesOpt(env, a)
    case ForStatement(i, t, u, b) => Sites(env, i) + Sites(env, t) + Sites(env, u) + Sites(env, b)
    case ForInStatement(l, r, b) => Sites(env, l) + Sites(env, r) + Sites(env, b)
    case UpdateExpression(_, x) => Sites(env, x)
    case SwitchStatement(d, cs) => Sites(env, d) + SitesSeq(env, cs)
    case SwitchCase(t, cs) => SitesOpt(env, t) + SitesSeq(env, cs)
    case BreakStatement => 0
    case ModuleDeclaration(_, b) => Sites(env, b)
    case ExportDeclaration(d) => Sites(env, d)
    case ImportDeclaration(ss, _) => SitesSeq(env, ss)
    case ImportSpecifier(_, _) => 0
    case Other(_) => 0
  }

  function SitesSeq(env: Env, s: seq<Node>): nat
  {
    if s == [] then 0 else Sites(env, s[0]) + SitesSeq(env, s[1..])
  }

  function SitesOpt(env: Env, o: Option<Node>): nat
  {
    match o
    case None => 0
    case Some(x) => Sites(env, x)
  }

  function SitesDefaults(env: Env, s: seq<Option<Node>>): nat
  {
    if s == [] then 0 else SitesOpt(env, s[0]) + SitesDefaults(env, s[1..])
  }

  lemma {:induction false} SitesSeqBound(env: Env, s: seq<Node>, i: nat)
    requires i < |s|
    ensures Sites(env, s[i]) <= SitesSeq(env, s)
  {
    if i > 0 {
      SitesSeqBound(env, s[1..], i - 1);
    }
  }

  lemma {:induction false} SitesDefaultsBound(env: Env, s: seq<Option<Node>>, i: nat)
    requires i < |s| && s[i].Some?
    ensures Sites(env, s[i].value) <= SitesDefaults(env, s)
  {
    if i > 0 {
      SitesDefaultsBound(env, s[1..], i - 1);
    }
  }

  lemma OptionBound(env: Env, o: Option<Node>)
    requires o.Some?
    ensures Sites(env, o.value) == SitesOpt(env, o) && Size(o.value) == SizeOpt(o)
  {
  }

  /** Whether the node is visited as the callee of the call that is its parent. */
  predicate CalleeOf(n: Node, ctx: Ctx)
  {
    ctx.isCallee && ctx.parent.Some? && ctx.parent.value.CallExpression? && ctx.parent.value.callee == n
  }

  /**
   * The tree a visit is measured by: the call, for a callee (a rewrite of the callee
   * stands for the whole call, and may take the call's arguments), else the node.
   */
  function Anchor(n: Node, ctx: Ctx): Node
  {
    if CalleeOf(n, ctx) then ctx.parent.value else n
  }

  /** Places a callee's visit just below its call's visit in the termination order. */
  function Rank(n: Node, ctx: Ctx): nat
  {
    if CalleeOf(n, ctx) then 0 else 4
  }

  /** The tree a visit is measured by is at least as large as the node. */
  lemma AnchorBound(env: Env, n: Node, ctx: Ctx)
    ensures Sites(env, n) <= Sites(env, Anchor(n, ctx)) && Size(n) <= Size(Anchor(n, ctx))
    ensures CalleeOf(n, ctx) ==> Size(n) < Size(Anchor(n, ctx))
  {
  }

  /**
   * Every rewrite the table performs makes progress: it hands back the node itself,
   * or a tree with fewer member accesses on which the table fires than the tree the
   * visit is measured by, or as many and fewer nodes. Rewrites may fire again on
   * their result, so long as the chain of rewrites comes to an end.
   */
  ghost predicate WellFormed(env: Env)
  {
    forall m, c {:trigger Progress(env, Anchor(m, c), m, Replacement(env, m, c))} ::
      Fires(env, m) ==> Progress(env, Anchor(m, c), m, Replacement(env, m, c))
  }

  ghost predicate Progress(env: Env, anchor: Node, m: Node, r: Node)
  {
    r == m || Sites(env, r) < Sites(env, anchor) || (Sites(env, r) == Sites(env, anchor) && Size(r) < Size(anchor))
  }

  // ---------------------------------------------------------------------------
  // Text helpers

  /** `Array.prototype.join`. */
  function Join(parts: seq<string>, sep: string): string
  {
    if |parts| == 0 then ""
    else if |parts| == 1 then parts[0]
    else Join(parts[..|parts| - 1], sep) + sep + parts[|parts| - 1]
  }

  function Texts(fs: seq<Fragment>): seq<string>
  {
    if fs == [] then [] else Texts(fs[..|fs| - 1]) + [fs[|fs| - 1].text]
  }

  /** The texts of `fs` in order, each followed by `suffix`. */
  function Concat(fs: seq<Fragment>, suffix: string): string
  {
    if fs == [] then "" else Concat(fs[..|fs| - 1], suffix) + (fs[|fs| - 1].text + suffix)
  }

  function Logs(fs: seq<Fragment>): seq<Event>
  {
    if fs == [] then [] else Logs(fs[..|fs| - 1]) + fs[|fs| - 1].log
  }

  /** `left + " " + operator + " " + right`, the shape of every binary form. */
  function Infix(l: Fragment, op: string, r: Fragment): Fragment
  {
    Fragment(l.text + " " + op + " " + r.text, l.log + r.log)
  }

  /** The name a (normalised) function gets from a method key (index.js:206-208). */
  function MethodName(key: string): (r: string)
    ensures key == "constructor" ==> r == "__construct"
    ensures key != "constructor" ==> r == key
  {
    if key == "constructor" then "__construct" else key
  }

  /** The name a function expression gets when normalised into a declaration. */
  function ExpressionName(fnId: Option<string>): string
  {
    match fnId
    case None => ""
    case Some(name) => name
  }

  /** The `extends` clause of a class declaration. */
  function ExtendsClause(superClass: Option<string>): string
  {
    match superClass
    case None => ""
    case Some(name) => " extends " + name
  }

  /** `node.parent.source.value` for an import specifier. */
  function ImportSource(parent: Option<Node>): string
  {
    match parent
    case Some(ImportDeclaration(_, src)) => src
    case _ => ""
  }

  /** Whether a call's parent makes it owe a terminator (index.js:89). */
  predicate UnderExpressionStatement(ctx: Ctx)
  {
    ctx.parent.Some? && ctx.parent.value.ExpressionStatement?
  }

  /** The context the i-th child of a sequence is visited with. */
  function ChildCtx(s: seq<Node>, owner: Option<Node>, siblings: bool, i: nat): Ctx
  {
    if siblings then Fresh(if i + 1 < |s| then Some(s[i + 1]) else None)
    else Fresh(owner)
  }

  // ---------------------------------------------------------------------------
  // The emitter

  function Emit(env: Env, n: Node, ctx: Ctx): Fragment
    requires WellFormed(env)
    decreases Sites(env, Anchor(n, ctx)), Size(Anchor(n, ctx)), Rank(n, ctx) + 3
  {
    AnchorBound(env, n, ctx);
    if IsExpressionKind(n) then EmitExpression(env, n, ctx)
    else if IsStatementKind(n) then EmitStatement(env, n)
    else if IsDeclarationKind(n) then EmitDeclaration(env, n, ctx)
    else EmitBasic(env, n, ctx)
  }

  /** Sequences, leaves, calls, member accesses, function declarations, literals. */
  function EmitBasic(env: Env, n: Node, ctx: Ctx): Fragment
    requires WellFormed(env) && !IsExpressionKind(n) && !IsStatementKind(n) && !IsDeclarationKind(n)
    decreases Sites(env, Anchor(n, ctx)), Size(Anchor(n, ctx)), Rank(n, ctx) + 2
  {
    AnchorBound(env, n, ctx);
    match n
    case Program(b) => EmitSequence(env, b, None, true, "")
    case BlockStatement(b) => EmitSequence(env, b, None, true, "")
    case ClassBody(b) => EmitSequence(env, b, None, true, "")
    case VariableDeclaration(ds) => EmitSequence(env, ds, Some(n), false, "")
    case ImportDeclaration(ss, _) => EmitSequence(env, ss, Some(n), false, "")
    case Identifier(name) =>
      var sigil := if !ctx.isStatic && !ctx.isCallee && !ctx.isMemberExpression then "$" else "";
      Fragment(sigil + name, [])
    case Punctuator(v) => Fragment(v, [])
    case Literal(raw, _) => Fragment(raw, [])
    case ThisExpression => Fragment("$this", [])
    case BreakStatement => Fragment("break;", [])
    case CallExpression(_, _) => EmitCall(env, n, ctx)
    case MemberExpression(_, _, _) => EmitMember(env, n, ctx)
    case FunctionDeclaration(_, _, _, _) => EmitFunction(env, n)
    case ObjectExpression(ps) => EmitList(env, ps, n)
    case ArrayExpression(es) => EmitList(env, es, n)
    case Other(kind) => Fragment("", [Unsupported(kind)])
  }

  predicate IsExpressionKind(n: Node)
  {
    n.BinaryExpression? || n.LogicalExpression? || n.AssignmentExpression? || n.NewExpression? ||
    n.FunctionExpression? || n.Property? || n.UpdateExpression?
  }

  /** The statement kinds that may owe a terminator. */
  predicate IsSimpleStatementKind(n: Node)
  {
    n.VariableDeclarator? || n.ExpressionStatement? || n.ReturnStatement?
  }

  predicate IsCompoundKind(n: Node)
  {
    n.IfStatement? || n.ForStatement? || n.ForInStatement? || n.SwitchStatement? || n.SwitchCase?
  }

  predicate IsStatementKind(n: Node)
  {
    IsSimpleStatementKind(n) || IsCompoundKind(n)
  }

  predicate IsDeclarationKind(n: Node)
  {
    n.ClassDeclaration? || n.MethodDefinition? || n.ModuleDeclaration? || n.ExportDeclaration? ||
    n.ImportSpecifier?
  }

  /** Operators, `new`, function expressions and object properties. */
  function EmitExpression(env: Env, n: Node, ctx: Ctx): Fragment
    requires WellFormed(env) && IsExpressionKind(n)
    decreases Sites(env, n), Size(n), 5
  {
    var here := Fresh(Some(n));
    match n
    case BinaryExpression(l, op, r) => Infix(Emit(env, l, here), op, Emit(env, r, here))
    case LogicalExpression(l, op, r) => Infix(Emit(env, l, here), op, Emit(env, r, here))
    case AssignmentExpression(l, op, r) => Infix(Emit(env, l, here), op, Emit(env, r, here))
    case NewExpression(c, args) =>
      // the node is retyped into a call and visited with itself as parent
      var call := CallExpression(c, args);
      var f := Emit(env, call, ctx.(parent := Some(call)));
      Fragment("new " + f.text, f.log)
    case FunctionExpression(fnId, ps, ds, b) =>
      // the retyped node renders as a declaration, whatever it carries
      EmitFunction(env, FunctionDeclaration(ExpressionName(fnId), ps, ds, b))
    case Property(key, v) =>
      var f := Emit(env, v, here);
      Fragment("\"" + key + "\" => " + f.text, f.log)
    case UpdateExpression(op, x) =>
      var f := Emit(env, x, here);
      Fragment(f.text + op, f.log)
  }

  /** Declarators and the statement forms. */
  function EmitStatement(env: Env, n: Node): Fragment
    requires WellFormed(env) && IsStatementKind(n)
    decreases Sites(env, n), Size(n), 5
  {
    var here := Fresh(Some(n));
    match n
    case VariableDeclarator(id, init) =>
      (match init
       case None => Fragment("$" + id, [])
       case Some(x) =>
         OptionBound(env, init);
         var f := Emit(env, x, here);
         Fragment(Terminate("$" + id + (" = " + f.text), true), f.log))
    case ExpressionStatement(e) =>
      var f := Emit(env, e, here);
      Fragment(Terminate(f.text, true), f.log)
    case ReturnStatement(a) =>
      (match a
       case None => Fragment(Terminate("return", true), [])
       case Some(x) =>
         OptionBound(env, a);
         var f := Emit(env, x, here);
         Fragment(Terminate("return" + (" " + f.text), true), f.log))
    case IfStatement(t, c, a) =>
      var ft := Emit(env, t, here);
      var fc := Emit(env, c, here);
      var head := "if (" + ft.text + ") {\n" + (fc.text + "}");
      (match a
       case None => Fragment(head, ft.log + fc.log)
       case Some(x) =>
         OptionBound(env, a);
         var fa := Emit(env, x, here);
         var alt := if x.BlockStatement? then "{" + fa.text + "}" else fa.text;
         Fragment(head + " else " + alt, ft.log + fc.log + fa.log))
    case ForStatement(i, t, u, b) =>
      var fi := Emit(env, i, here);
      var ft := Emit(env, t, here);
      var fu := Emit(env, u, here);
      var fb := Emit(env, b, here);
      Fragment("for (" + fi.text + (ft.text + ";") + fu.text + ") {" + fb.text + "}",
               fi.log + ft.log + fu.log + fb.log)
    case ForInStatement(l, r, b) =>
      var fr := Emit(env, r, here);
      var fl := Emit(env, l, Fresh(None));
      var fb := Emit(env, b, here);
      Fragment("foreach (" + fr.text + " as " + fl.text + " => $___)" + ("{" + fb.text + "}"),
               fr.log + fl.log + fb.log)
    case SwitchStatement(d, cs) =>
      var fd := Emit(env, d, here);
      var fs := EmitSequence(env, cs, Some(n), false, "\n");
      Fragment("switch (" + fd.text + ")" + "{" + fs.text + "}", fd.log + fs.log)
    case SwitchCase(t, cs) =>
      var fs := EmitSequence(env, cs, Some(n), false, "");
      (match t
       case None => Fragment("default:\n" + fs.text, fs.log)
       case Some(x) =>
         OptionBound(env, t);
         var ft := Emit(env, x, here);
         Fragment("case " + ft.text + ":\n" + fs.text, ft.log + fs.log))
  }

  /** Classes, methods, modules, exports and import specifiers. */
  function EmitDeclaration(env: Env, n: Node, ctx: Ctx): Fragment
    requires WellFormed(env) && IsDeclarationKind(n)
    decreases Sites(env, n), Size(n), 5
  {
    var here := Fresh(Some(n));
    match n
    case ClassDeclaration(id, sup, b) =>
      var f := Emit(env, b, here);
      Fragment("class " + id + ExtendsClause(sup) + ("\n{\n" + f.text + "\n}\n"), f.log)
    case MethodDefinition(key, st, ps, ds, b) =>
      var f := Emit(env, FunctionDeclaration(MethodName(key), ps, ds, b), here);
      Fragment("public " + (if st then "static " else "") + f.text, f.log)
    case ModuleDeclaration(id, b) =>
      var f := Emit(env, b, Fresh(None));
      Fragment("namespace " + env.capitalise(id) + ";\n" + f.text, f.log)
    case ExportDeclaration(d) => Emit(env, d, here)
    case ImportSpecifier(id, alias) =>
      var ns := env.capitalise(ImportSource(ctx.parent));
      var asClause := if alias.Some? then " as " + alias.value else "";
      Fragment("use \\" + ns + "\\" + id + asClause + ";\n", [])
  }

  /** A call: the callee, then either nothing (override) or the argument list. */
  function EmitCall(env: Env, n: Node, ctx: Ctx): Fragment
    requires WellFormed(env) && n.CallExpression?
    decreases Sites(env, n), Size(n), 5
  {
    var fc := Emit(env, n.callee, Fresh(Some(n)).(isCallee := true));
    if Fires(env, n.callee) then fc
    else
      var args := EmitFragments(env, n.arguments, Some(n), false, |n.arguments|);
      var content := fc.text + ("(" + Join(Texts(args), ", ") + ")");
      Fragment(Terminate(content, UnderExpressionStatement(ctx)), fc.log + Logs(args))
  }

  /** A member access: the override, or object, connective and property. */
  function EmitMember(env: Env, n: Node, ctx: Ctx): Fragment
    requires WellFormed(env) && n.MemberExpression?
    decreases Sites(env, Anchor(n, ctx)), Size(Anchor(n, ctx)), Rank(n, ctx) + 1
  {
    AnchorBound(env, n, ctx);
    if Fires(env, n) && Replacement(env, n, ctx) != n then
      assert Progress(env, Anchor(n, ctx), n, Replacement(env, n, ctx));
      Emit(env, Replacement(env, n, ctx), Fresh(ctx.parent))
    else
      var collapse := n.obj.MemberExpression?;
      var target := if collapse then n.obj.obj else n.obj;
      // the flag line 122 reads: set just now (no collapse) or by the enclosing access
      var propertyStatic := if collapse then ctx.propertyStatic else IsStaticStyle(n.property);
      var accessor := Connective(IsStaticStyle(target), propertyStatic);
      var objectCtx := Fresh(Some(n)).(isStatic := IsStaticStyle(n.obj),
                                       propertyStatic := collapse && IsStaticStyle(n.obj.property));
      var propertyCtx := Fresh(Some(n)).(isStatic := propertyStatic,
                                         isMemberExpression := !n.computed);
      var fo := Emit(env, n.obj, objectCtx);
      var fp := Emit(env, n.property, propertyCtx);
      if n.computed then Fragment(fo.text + "[" + fp.text + "]", fo.log + fp.log)
      else Fragment(fo.text + accessor + fp.text, fo.log + fp.log)
  }

  /** A function declaration: parameters, `scope.create`, then the body. */
  function EmitFunction(env: Env, n: Node): Fragment
    requires WellFormed(env) && n.FunctionDeclaration?
    decreases Sites(env, n), Size(n), 5
  {
    var ps := EmitParams(env, n, |n.params|);
    var fb := Emit(env, n.block, Fresh(Some(n)));
    Fragment("function " + n.id + ("(" + Join(Texts(ps), ", ") + ") {\n") + fb.text + "}\n",
             Logs(ps) + [ScopeCreated(n.id)] + fb.log)
  }

  /** The fragments of the first k parameters. */
  function EmitParams(env: Env, n: Node, k: nat): seq<Fragment>
    requires WellFormed(env) && n.FunctionDeclaration? && k <= |n.params|
    decreases SitesSeq(env, n.params) + SitesDefaults(env, n.defaults),
              SizeSeq(n.params) + SizeDefaults(n.defaults), k
  {
    if k == 0 then [] else EmitParams(env, n, k - 1) + [EmitParam(env, n, k - 1)]
  }

  /**
   * Parameter i; one with a default is visited as a synthetic binary expression
   * `param = default` whose parent is the function.
   */
  function EmitParam(env: Env, n: Node, i: nat): Fragment
    requires WellFormed(env) && n.FunctionDeclaration? && i < |n.params|
    decreases SitesSeq(env, n.params) + SitesDefaults(env, n.defaults),
              SizeSeq(n.params) + SizeDefaults(n.defaults), i
  {
    SitesSeqBound(env, n.params, i);
    SizeSeqBound(n.params, i);
    if i < |n.defaults| && n.defaults[i].Some? then
      SitesDefaultsBound(env, n.defaults, i);
      SizeDefaultsBound(n.defaults, i);
      Emit(env, BinaryExpression(n.params[i], "=", n.defaults[i].value), Fresh(Some(n)))
    else
      Emit(env, n.params[i], Fresh(Some(n)))
  }

  /** `array(` elements joined by `", "` `)`, for object and array literals. */
  function EmitList(env: Env, s: seq<Node>, n: Node): Fragment
    requires WellFormed(env)
    decreases SitesSeq(env, s), SizeSeq(s), |s| + 1
  {
    var fs := EmitFragments(env, s, Some(n), false, |s|);
    Fragment("array(" + Join(Texts(fs), ", ") + ")", Logs(fs))
  }

  /** The children's texts concatenated, each followed by `suffix`. */
  function EmitSequence(env: Env, s: seq<Node>, owner: Option<Node>, siblings: bool, suffix: string): Fragment
    requires WellFormed(env)
    decreases SitesSeq(env, s), SizeSeq(s), |s| + 1
  {
    var fs := EmitFragments(env, s, owner, siblings, |s|);
    Fragment(Concat(fs, suffix), Logs(fs))
  }

  /** The fragments of the first k children, in order. */
  function EmitFragments(env: Env, s: seq<Node>, owner: Option<Node>, siblings: bool, k: nat): seq<Fragment>
    requires WellFormed(env) && k <= |s|
    decreases SitesSeq(env, s), SizeSeq(s), k
  {
    if k == 0 then []
    else
      SitesSeqBound(env, s, k - 1);
      SizeSeqBound(s, k - 1);
      EmitFragments(env, s, owner, siblings, k - 1) + [Emit(env, s[k - 1], ChildCtx(s, owner, siblings, k - 1))]
  }

  /** The exported wrapper: the PHP open tag, then the program. */
  function Translate(env: Env, ast: Node): (r: string)
    requires WellFormed(env)
    ensures "<?php\n" <= r && r[6..] == Emit(env, ast, Fresh(None)).text
  {
    "<?php\n" + Emit(env, ast, Fresh(None)).text
  }
}
