/**
 * The emitter written the way index.js writes it: a recursive `visit` whose
 * sequence cases accumulate `content += ...` or push into an array and join it,
 * and which appends the owed terminator as its last step. Every method is proved
 * to produce exactly the fragment `Emitter.Emit` specifies.
 */
module Visitor {
  import opened Ast
  import opened Emitter

  lemma FragmentsSnoc(fs: seq<Fragment>, f: Fragment, suffix: string)
    ensures Concat(fs + [f], suffix) == Concat(fs, suffix) + (f.text + suffix)
    ensures Logs(fs + [f]) == Logs(fs) + f.log
    ensures Texts(fs + [f]) == Texts(fs) + [f.text]
  {
    assert (fs + [f])[..|fs|] == fs;
  }

  /** One more child visited: its text and suffix join the sequence, its effects the log. */
  lemma SequenceStep(env: Env, s: seq<Node>, owner: Option<Node>, siblings: bool, suffix: string, i: nat, f: Fragment)
    requires WellFormed(env) && i < |s|
    requires f == Emit(env, s[i], ChildCtx(s, owner, siblings, i))
    ensures Concat(EmitFragments(env, s, owner, siblings, i + 1), suffix) ==
            Concat(EmitFragments(env, s, owner, siblings, i), suffix) + (f.text + suffix)
    ensures Logs(EmitFragments(env, s, owner, siblings, i + 1)) == Logs(EmitFragments(env, s, owner, siblings, i)) + f.log
    ensures Texts(EmitFragments(env, s, owner, siblings, i + 1)) == Texts(EmitFragments(env, s, owner, siblings, i)) + [f.text]
  {
    FragmentsSnoc(EmitFragments(env, s, owner, siblings, i), f, suffix);
  }

  /** The sequence built so far, extended by one more child's visit. */
  lemma ContentStep(env: Env, s: seq<Node>, owner: Option<Node>, siblings: bool, suffix: string, i: nat,
                    content: string, log: seq<Event>, c: string, l: seq<Event>)
    requires WellFormed(env) && i < |s|
    requires content == Concat(EmitFragments(env, s, owner, siblings, i), suffix)
    requires log == Logs(EmitFragments(env, s, owner, siblings, i))
    requires Fragment(c, l) == Emit(env, s[i], ChildCtx(s, owner, siblings, i))
    ensures content + (c + suffix) == Concat(EmitFragments(env, s, owner, siblings, i + 1), suffix)
    ensures log + l == Logs(EmitFragments(env, s, owner, siblings, i + 1))
  {
    SequenceStep(env, s, owner, siblings, suffix, i, Fragment(c, l));
  }

  /** `visit(node, parent)`: the text of the node and the side effects of visiting it. */
  method Visit(env: Env, n: Node, ctx: Ctx) returns (content: string, log: seq<Event>)
    requires WellFormed(env)
    ensures Fragment(content, log) == Emit(env, n, ctx)
    decreases Sites(env, Anchor(n, ctx)), Size(Anchor(n, ctx)), Rank(n, ctx) + 4
  {
    AnchorBound(env, n, ctx);
    if IsExpressionKind(n) {
      content, log := VisitExpression(env, n, ctx);
    } else if IsSimpleStatementKind(n) {
      content, log := VisitStatement(env, n);
    } else if n.SwitchStatement? || n.SwitchCase? {
      content, log := VisitSwitch(env, n);
    } else if IsCompoundKind(n) {
      content, log := VisitCompound(env, n);
    } else if IsDeclarationKind(n) {
      content, log := VisitDeclaration(env, n, ctx);
    } else {
      content, log := VisitBasic(env, n, ctx);
    }
  }

  /** Sequences, leaves, calls, member accesses, function declarations and literals. */
  method VisitBasic(env: Env, n: Node, ctx: Ctx) returns (content: string, log: seq<Event>)
    requires WellFormed(env)
    requires !IsExpressionKind(n) && !IsStatementKind(n) && !IsDeclarationKind(n)
    ensures Fragment(content, log) == EmitBasic(env, n, ctx)
    decreases Sites(env, Anchor(n, ctx)), Size(Anchor(n, ctx)), Rank(n, ctx) + 3
  {
    AnchorBound(env, n, ctx);
    content, log := "", [];
    match n
    case Program(b) => content, log := VisitSequence(env, b, None, true, "");
    case BlockStatement(b) => content, log := VisitSequence(env, b, None, true, "");
    case ClassBody(b) => content, log := VisitSequence(env, b, None, true, "");
    case VariableDeclaration(ds) => content, log := VisitSequence(env, ds, Some(n), false, "");
    case ImportDeclaration(ss, _) => content, log := VisitSequence(env, ss, Some(n), false, "");
    case Identifier(name) =>
      if !ctx.isStatic && !ctx.isCallee && !ctx.isMemberExpression {
        content := "$";
      }
      content := content + name;
    case Punctuator(v) => content := v;
    case Literal(raw, _) => content := raw;
    case ThisExpression => content := "$this";
    case BreakStatement => content := "break;";
    case CallExpression(_, _) => content, log := VisitCall(env, n, ctx);
    case MemberExpression(_, _, _) => content, log := VisitMember(env, n, ctx);
    case FunctionDeclaration(_, _, _, _) => content, log := VisitFunction(env, n);
    case ObjectExpression(ps) =>
      var parts;
      parts, log := VisitList(env, ps, n);
      content := "array(" + Join(parts, ", ") + ")";
    case ArrayExpression(es) =>
      var parts;
      parts, log := VisitList(env, es, n);
      content := "array(" + Join(parts, ", ") + ")";
    case Other(kind) =>
      // report the unsupported kind; nothing is emitted
      log := [Unsupported(kind)];
  }

  /**
   * Each child visited in order, its text and the suffix appended to the content; a
   * statement list passes the next sibling as the parent argument, the other lists
   * pass the owner.
   */
  method VisitSequence(env: Env, s: seq<Node>, owner: Option<Node>, siblings: bool, suffix: string)
    returns (content: string, log: seq<Event>)
    requires WellFormed(env)
    ensures Fragment(content, log) == EmitSequence(env, s, owner, siblings, suffix)
    decreases SitesSeq(env, s), SizeSeq(s)
  {
    content, log := "", [];
    var i := 0;
    while i < |s|
      invariant 0 <= i <= |s|
      invariant content == Concat(EmitFragments(env, s, owner, siblings, i), suffix)
      invariant log == Logs(EmitFragments(env, s, owner, siblings, i))
    {
      var parent := if siblings then (if i + 1 < |s| then Some(s[i + 1]) else None) else owner;
      SitesSeqBound(env, s, i);
      SizeSeqBound(s, i);
      var c, l := Visit(env, s[i], Fresh(parent));
      ContentStep(env, s, owner, siblings, suffix, i, content, log, c, l);
      content := content + (c + suffix);
      log := log + l;
      i := i + 1;
    }
  }

  /** One more list element visited: its text is pushed, its effects join the log. */
  lemma ListStep(env: Env, s: seq<Node>, owner: Node, i: nat, parts: seq<string>, log: seq<Event>, c: string, l: seq<Event>)
    requires WellFormed(env) && i < |s|
    requires parts == Texts(EmitFragments(env, s, Some(owner), false, i))
    requires log == Logs(EmitFragments(env, s, Some(owner), false, i))
    requires Fragment(c, l) == Emit(env, s[i], Fresh(Some(owner)))
    ensures parts + [c] == Texts(EmitFragments(env, s, Some(owner), false, i + 1))
    ensures log + l == Logs(EmitFragments(env, s, Some(owner), false, i + 1))
  {
    SequenceStep(env, s, Some(owner), false, "", i, Fragment(c, l));
  }

  /** Each child visited with the owner as parent, its text pushed onto the list in order. */
  method VisitList(env: Env, s: seq<Node>, owner: Node) returns (parts: seq<string>, log: seq<Event>)
    requires WellFormed(env)
    ensures parts == Texts(EmitFragments(env, s, Some(owner), false, |s|))
    ensures log == Logs(EmitFragments(env, s, Some(owner), false, |s|))
    decreases SitesSeq(env, s), SizeSeq(s)
  {
    parts, log := [], [];
    var i := 0;
    while i < |s|
      invariant 0 <= i <= |s|
      invariant parts == Texts(EmitFragments(env, s, Some(owner), false, i))
      invariant log == Logs(EmitFragments(env, s, Some(owner), false, i))
    {
      SitesSeqBound(env, s, i);
      SizeSeqBound(s, i);
      var c, l := Visit(env, s[i], Fresh(Some(owner)));
      ListStep(env, s, owner, i, parts, log, c, l);
      parts := parts + [c];
      log := log + l;
      i := i + 1;
    }
  }

  method VisitCall(env: Env, n: Node, ctx: Ctx) returns (content: string, log: seq<Event>)
    requires WellFormed(env) && n.CallExpression?
    ensures Fragment(content, log) == EmitCall(env, n, ctx)
    decreases Sites(env, n), Size(n), 5
  {
    var semicolon := false;
    content, log := Visit(env, n.callee, Fresh(Some(n)).(isCallee := true));
    // an overridden call is returned as it is
    if Fires(env, n.callee) {
      return;
    }
    var arguments, argLog := VisitList(env, n.arguments, n);
    content := content + ("(" + Join(arguments, ", ") + ")");
    log := log + argLog;
    if UnderExpressionStatement(ctx) {
      semicolon := true;
    }
    if semicolon && !EndsInTerminator(content) {
      content := content + ";\n";
    }
  }

  method VisitMember(env: Env, n: Node, ctx: Ctx) returns (content: string, log: seq<Event>)
    requires WellFormed(env) && n.MemberExpression?
    ensures Fragment(content, log) == EmitMember(env, n, ctx)
    decreases Sites(env, Anchor(n, ctx)), Size(Anchor(n, ctx)), Rank(n, ctx) + 2
  {
    AnchorBound(env, n, ctx);
    var newNode := n;
    if Fires(env, n) {
      newNode := Replacement(env, n, ctx);
    }
    if n != newNode {
      assert Progress(env, Anchor(n, ctx), n, newNode);
      content, log := Visit(env, newNode, Fresh(ctx.parent));
    } else {
      content, log := VisitAccess(env, n, ctx);
    }
  }

  /** A member access the override table leaves alone: object, connective, property. */
  method VisitAccess(env: Env, n: Node, ctx: Ctx) returns (content: string, log: seq<Event>)
    requires WellFormed(env) && n.MemberExpression? && !(Fires(env, n) && Replacement(env, n, ctx) != n)
    ensures Fragment(content, log) == EmitMember(env, n, ctx)
    decreases Sites(env, Anchor(n, ctx)), Size(Anchor(n, ctx)), Rank(n, ctx) + 1
  {
    AnchorBound(env, n, ctx);
    var target, property;
    if n.obj.MemberExpression? {
      target, property := n.obj.obj, n.obj.property;
    } else {
      target, property := n.obj, n.property;
    }
    var targetStatic := IsStaticStyle(target);
    // n.property.static: set here when there is no collapse, else by the enclosing access
    var nodePropertyStatic := if n.obj.MemberExpression? then ctx.propertyStatic else IsStaticStyle(property);
    var accessor;
    if nodePropertyStatic && targetStatic {
      accessor := "\\";
    } else if targetStatic {
      accessor := "::";
    } else {
      accessor := "->";
    }
    var objectCtx := Fresh(Some(n)).(isStatic := IsStaticStyle(n.obj),
                                     propertyStatic := n.obj.MemberExpression? && IsStaticStyle(n.obj.property));
    var o, ol := Visit(env, n.obj, objectCtx);
    var p, pl;
    if n.computed {
      p, pl := Visit(env, n.property, Fresh(Some(n)).(isStatic := nodePropertyStatic));
      content := o + "[" + p + "]";
    } else {
      p, pl := Visit(env, n.property, Fresh(Some(n)).(isStatic := nodePropertyStatic, isMemberExpression := true));
      content := o + accessor + p;
    }
    log := ol + pl;
  }

  /** One more parameter visited: its text joins the list, its effects the log. */
  lemma ParamStep(env: Env, n: Node, i: nat, parameters: seq<string>, log: seq<Event>, param: string, l: seq<Event>)
    requires WellFormed(env) && n.FunctionDeclaration? && i < |n.params|
    requires parameters == Texts(EmitParams(env, n, i)) && log == Logs(EmitParams(env, n, i))
    requires Fragment(param, l) == EmitParam(env, n, i)
    ensures parameters + [param] == Texts(EmitParams(env, n, i + 1))
    ensures log + l == Logs(EmitParams(env, n, i + 1))
  {
    FragmentsSnoc(EmitParams(env, n, i), Fragment(param, l), "");
  }

  /** Parameter i, visited as `param = default` when it has a default. */
  method VisitParam(env: Env, n: Node, i: nat) returns (param: string, log: seq<Event>)
    requires WellFormed(env) && n.FunctionDeclaration? && i < |n.params|
    ensures Fragment(param, log) == EmitParam(env, n, i)
    decreases SitesSeq(env, n.params) + SitesDefaults(env, n.defaults),
              SizeSeq(n.params) + SizeDefaults(n.defaults), i
  {
    SitesSeqBound(env, n.params, i);
    SizeSeqBound(n.params, i);
    if i < |n.defaults| && n.defaults[i].Some? {
      SitesDefaultsBound(env, n.defaults, i);
      SizeDefaultsBound(n.defaults, i);
      param, log := Visit(env, BinaryExpression(n.params[i], "=", n.defaults[i].value), Fresh(Some(n)));
    } else {
      param, log := Visit(env, n.params[i], Fresh(Some(n)));
    }
  }

  /** The parameters, in order. */
  method VisitParams(env: Env, n: Node) returns (parameters: seq<string>, log: seq<Event>)
    requires WellFormed(env) && n.FunctionDeclaration?
    ensures parameters == Texts(EmitParams(env, n, |n.params|))
    ensures log == Logs(EmitParams(env, n, |n.params|))
    decreases SitesSeq(env, n.params) + SitesDefaults(env, n.defaults),
              SizeSeq(n.params) + SizeDefaults(n.defaults), |n.params|
  {
    parameters, log := [], [];
    var i := 0;
    while i < |n.params|
      invariant 0 <= i <= |n.params|
      invariant parameters == Texts(EmitParams(env, n, i))
      invariant log == Logs(EmitParams(env, n, i))
    {
      var param, l := VisitParam(env, n, i);
      ParamStep(env, n, i, parameters, log, param, l);
      parameters := parameters + [param];
      log := log + l;
      i := i + 1;
    }
  }

  method VisitFunction(env: Env, n: Node) returns (content: string, log: seq<Event>)
    requires WellFormed(env) && n.FunctionDeclaration?
    ensures Fragment(content, log) == EmitFunction(env, n)
    decreases Sites(env, n), Size(n), 5
  {
    var parameters;
    parameters, log := VisitParams(env, n);
    // record the function's scope, after its parameters and before its body
    log := log + [ScopeCreated(n.id)];
    content := "function " + n.id;
    content := content + ("(" + Join(parameters, ", ") + ") {\n");
    var b, bl := Visit(env, n.block, Fresh(Some(n)));
    content := content + b;
    content := content + "}\n";
    log := log + bl;
  }

  method VisitExpression(env: Env, n: Node, ctx: Ctx) returns (content: string, log: seq<Event>)
    requires WellFormed(env) && IsExpressionKind(n)
    ensures Fragment(content, log) == EmitExpression(env, n, ctx)
    decreases Sites(env, n), Size(n), 5
  {
    var here := Fresh(Some(n));
    match n
    case BinaryExpression(l, op, r) =>
      var a, al := Visit(env, l, here);
      var b, bl := Visit(env, r, here);
      content, log := a + " " + op + " " + b, al + bl;
    case LogicalExpression(l, op, r) =>
      var a, al := Visit(env, l, here);
      var b, bl := Visit(env, r, here);
      content, log := a + " " + op + " " + b, al + bl;
    case AssignmentExpression(l, op, r) =>
      var a, al := Visit(env, l, here);
      var b, bl := Visit(env, r, here);
      content, log := a + " " + op + " " + b, al + bl;
    case NewExpression(c, args) =>
      // the node becomes a call and is visited as its own parent
      var call := CallExpression(c, args);
      content, log := Visit(env, call, ctx.(parent := Some(call)));
      content := "new " + content;
    case FunctionExpression(fnId, ps, ds, b) =>
      // the retyped node renders as a declaration, whatever it carries
      content, log := VisitFunction(env, FunctionDeclaration(ExpressionName(fnId), ps, ds, b));
    case Property(key, v) =>
      var a, al := Visit(env, v, here);
      content, log := "\"" + key + "\" => " + a, al;
    case UpdateExpression(op, x) =>
      var a, al := Visit(env, x, here);
      content, log := a + op, al;
  }

  /** Declarators, expression statements and returns: the kinds that set `semicolon`. */
  method VisitStatement(env: Env, n: Node) returns (content: string, log: seq<Event>)
    requires WellFormed(env) && IsSimpleStatementKind(n)
    ensures Fragment(content, log) == EmitStatement(env, n)
    decreases Sites(env, n), Size(n), 5
  {
    var here := Fresh(Some(n));
    var semicolon := false;
    content, log := "", [];
    // each case leaves what the statement renders before the terminator rule applies
    match n {
    case VariableDeclarator(id, init) =>
      content := "$" + id;
      match init {
        case None =>
          assert EmitStatement(env, n) == Fragment(Terminate(content, semicolon), log);
        case Some(x) =>
          OptionBound(env, init);
          var a, al := Visit(env, x, here);
          content, log := content + (" = " + a), al;
          semicolon := true;
          assert EmitStatement(env, n) == Fragment(Terminate(content, semicolon), log);
      }
    case ExpressionStatement(e) =>
      content, log := Visit(env, e, here);
      semicolon := true;
      assert EmitStatement(env, n) == Fragment(Terminate(content, semicolon), log);
    case ReturnStatement(arg) =>
      semicolon := true;
      content := "return";
      match arg {
        case None =>
          assert EmitStatement(env, n) == Fragment(Terminate(content, semicolon), log);
        case Some(x) =>
          OptionBound(env, arg);
          var a, al := Visit(env, x, here);
          content, log := content + (" " + a), al;
          assert EmitStatement(env, n) == Fragment(Terminate(content, semicolon), log);
      }
    }
    // append the terminator when one is owed and missing
    if semicolon && !EndsInTerminator(content) {
      content := content + ";\n";
    }
  }

  /** Conditionals and loops; like the switch, none of them owes a terminator. */
  method VisitCompound(env: Env, n: Node) returns (content: string, log: seq<Event>)
    requires WellFormed(env) && (n.IfStatement? || n.ForStatement? || n.ForInStatement?)
    ensures Fragment(content, log) == EmitStatement(env, n)
    decreases Sites(env, n), Size(n), 5
  {
    var here := Fresh(Some(n));
    content, log := "", [];
    match n
    case IfStatement(t, c, alt) =>
      var a, al := Visit(env, t, here);
      content := "if (" + a + ") {\n";
      var b, bl := Visit(env, c, here);
      content := content + (b + "}");
      log := al + bl;
      match alt {
        case None =>
        case Some(x) =>
          OptionBound(env, alt);
          content := content + " else ";
          var e, el := Visit(env, x, here);
          if x.BlockStatement? {
            content := content + ("{" + e + "}");
          } else {
            content := content + e;
          }
          log := log + el;
      }
    case ForStatement(i, t, u, b) =>
      content := "for (";
      var a, al := Visit(env, i, here);
      content := content + a;
      var c, cl := Visit(env, t, here);
      content := content + (c + ";");
      var d, dl := Visit(env, u, here);
      content := content + d;
      content := content + ") {";
      var e, el := Visit(env, b, here);
      content := content + e;
      content := content + "}";
      log := al + cl + dl + el;
    case ForInStatement(l, r, b) =>
      var a, al := Visit(env, r, here);
      var c, cl := Visit(env, l, Fresh(None));
      content := "foreach (" + a + " as " + c + " => $___)";
      var e, el := Visit(env, b, here);
      content := content + ("{" + e + "}");
      log := al + cl + el;
  }

  /** A switch and its cases. */
  method VisitSwitch(env: Env, n: Node) returns (content: string, log: seq<Event>)
    requires WellFormed(env) && (n.SwitchStatement? || n.SwitchCase?)
    ensures Fragment(content, log) == EmitStatement(env, n)
    decreases Sites(env, n), Size(n), 5
  {
    var here := Fresh(Some(n));
    content, log := "", [];
    match n
    case SwitchStatement(d, cs) =>
      var a, al := Visit(env, d, here);
      content := "switch (" + a + ")";
      content := content + "{";
      var c, cl := VisitSequence(env, cs, Some(n), false, "\n");
      content := content + c;
      content := content + "}";
      log := al + cl;
    case SwitchCase(t, cs) =>
      match t {
        case None =>
          content := "default:\n";
        case Some(x) =>
          OptionBound(env, t);
          var a, al := Visit(env, x, here);
          content := content + ("case " + a + ":\n");
          log := al;
      }
      var c, cl := VisitSequence(env, cs, Some(n), false, "");
      content := content + c;
      log := log + cl;
  }

  /** Classes, methods, modules, exports and import specifiers. */
  method VisitDeclaration(env: Env, n: Node, ctx: Ctx) returns (content: string, log: seq<Event>)
    requires WellFormed(env) && IsDeclarationKind(n)
    ensures Fragment(content, log) == EmitDeclaration(env, n, ctx)
    decreases Sites(env, n), Size(n), 5
  {
    var here := Fresh(Some(n));
    match n
    case ClassDeclaration(id, sup, b) =>
      content := "class " + id;
      content := content + ExtendsClause(sup);
      var a, al := Visit(env, b, here);
      content, log := content + ("\n{\n" + a + "\n}\n"), al;
    case MethodDefinition(key, st, ps, ds, b) =>
      // the modifiers come first
      content := "public ";
      if st {
        content := content + "static ";
      }
      var a, al := Visit(env, FunctionDeclaration(MethodName(key), ps, ds, b), here);
      content, log := content + a, al;
    case ModuleDeclaration(id, b) =>
      content := "namespace " + env.capitalise(id) + ";\n";
      var a, al := Visit(env, b, Fresh(None));
      content, log := content + a, al;
    case ExportDeclaration(d) =>
      content, log := Visit(env, d, here);
    case ImportSpecifier(id, alias) =>
      var namespace := env.capitalise(ImportSource(ctx.parent));
      content := "use \\" + namespace + "\\" + id;
      if alias.Some? {
        content := content + (" as " + alias.value);
      }
      content, log := content + ";\n", [];
  }

  /** The exported function: the open tag, then the visit of the program. */
  method TranslateProgram(env: Env, ast: Node) returns (php: string)
    requires WellFormed(env)
    ensures php == Translate(env, ast)
  {
    var content, _ := Visit(env, ast, Fresh(None));
    php := "<?php\n" + content;
  }
}
