/**
 * What the emitter promises, stated against independent reference definitions:
 * element-wise child texts instead of the left folds the emitter builds, closed
 * forms for identifiers and member accesses, and the shapes of calls, functions,
 * methods, literals, statement lists and imports.
 */
module Properties {
  import opened Ast
  import opened Emitter

  // ---------------------------------------------------------------------------
  // Reference definitions

  /** Right-to-left concatenation of a list of strings. */
  function Flatten(ss: seq<string>): string
  {
    if ss == [] then "" else ss[0] + Flatten(ss[1..])
  }

  /** A name as an identifier renders it: bare when static-style, with `$` otherwise. */
  function Sigilled(name: string, bare: bool): string
  {
    if bare then name else "$" + name
  }

  /** The text of every child of a list, each visited with the given parent. */
  ghost function ChildTexts(env: Env, s: seq<Node>, parent: Option<Node>): seq<string>
    requires WellFormed(env)
  {
    seq(|s|, i requires 0 <= i < |s| => Emit(env, s[i], Fresh(parent)).text)
  }

  /** The text of every statement of a body, each visited with its next sibling as parent. */
  ghost function StatementTexts(env: Env, s: seq<Node>): seq<string>
    requires WellFormed(env)
  {
    seq(|s|, i requires 0 <= i < |s| => Emit(env, s[i], Fresh(if i + 1 < |s| then Some(s[i + 1]) else None)).text)
  }

  // ---------------------------------------------------------------------------
  // The folds the emitter builds, element by element

  lemma FlattenSnoc(ss: seq<string>, x: string)
    ensures Flatten(ss + [x]) == Flatten(ss) + x
  {
    if ss != [] {
      assert (ss + [x])[1..] == ss[1..] + [x];
      FlattenSnoc(ss[1..], x);
    }
  }

  /** The k first fragments of a child list are the children's visits, in order. */
  lemma {:induction false} FragmentsAt(env: Env, s: seq<Node>, owner: Option<Node>, siblings: bool, k: nat)
    requires WellFormed(env) && k <= |s|
    ensures |EmitFragments(env, s, owner, siblings, k)| == k
    ensures forall i :: 0 <= i < k ==>
      EmitFragments(env, s, owner, siblings, k)[i] == Emit(env, s[i], ChildCtx(s, owner, siblings, i))
  {
    if k > 0 {
      FragmentsAt(env, s, owner, siblings, k - 1);
    }
  }

  lemma {:induction false} TextsAt(fs: seq<Fragment>)
    ensures |Texts(fs)| == |fs|
    ensures forall i :: 0 <= i < |fs| ==> Texts(fs)[i] == fs[i].text
  {
    if fs != [] {
      TextsAt(fs[..|fs| - 1]);
    }
  }

  /** Each fragment's text followed by the suffix. */
  function Suffixed(fs: seq<Fragment>, suffix: string): seq<string>
  {
    seq(|fs|, i requires 0 <= i < |fs| => fs[i].text + suffix)
  }

  /** Concatenating with a suffix is flattening the suffixed texts. */
  lemma {:induction false} ConcatFlatten(fs: seq<Fragment>, suffix: string)
    ensures Concat(fs, suffix) == Flatten(Suffixed(fs, suffix))
  {
    if fs != [] {
      var init := fs[..|fs| - 1];
      ConcatFlatten(init, suffix);
      assert Suffixed(fs, suffix) == Suffixed(init, suffix) + [fs[|fs| - 1].text + suffix];
      FlattenSnoc(Suffixed(init, suffix), fs[|fs| - 1].text + suffix);
    }
  }

  /** The texts of a list visited with its owner as parent. */
  lemma ListTexts(env: Env, s: seq<Node>, owner: Node)
    requires WellFormed(env)
    ensures Texts(EmitFragments(env, s, Some(owner), false, |s|)) == ChildTexts(env, s, Some(owner))
  {
    var fs := EmitFragments(env, s, Some(owner), false, |s|);
    var ts := ChildTexts(env, s, Some(owner));
    FragmentsAt(env, s, Some(owner), false, |s|);
    TextsAt(fs);
    forall i | 0 <= i < |s|
      ensures Texts(fs)[i] == ts[i]
    {
      assert fs[i] == Emit(env, s[i], ChildCtx(s, Some(owner), false, i));
    }
    assert |Texts(fs)| == |ts|;
  }

  /** A sequence whose children are all visited under its owner: their texts, flattened. */
  lemma OwnedSequence(env: Env, s: seq<Node>, owner: Node)
    requires WellFormed(env)
    ensures EmitSequence(env, s, Some(owner), false, "").text == Flatten(ChildTexts(env, s, Some(owner)))
  {
    var fs := EmitFragments(env, s, Some(owner), false, |s|);
    var ts := ChildTexts(env, s, Some(owner));
    ConcatFlatten(fs, "");
    FragmentsAt(env, s, Some(owner), false, |s|);
    forall i | 0 <= i < |s|
      ensures Suffixed(fs, "")[i] == ts[i]
    {
      assert fs[i] == Emit(env, s[i], ChildCtx(s, Some(owner), false, i));
    }
    assert Suffixed(fs, "") == ts;
  }

  // ---------------------------------------------------------------------------
  // Identifiers and member access (index.js:43-50, 93-135)

  /** An identifier carries `$` exactly when no context flag is set. */
  lemma IdentifierSigil(env: Env, name: string, ctx: Ctx)
    requires WellFormed(env)
    ensures Emit(env, Identifier(name), ctx).text == "$" + name <==>
            !ctx.isStatic && !ctx.isCallee && !ctx.isMemberExpression
    ensures ctx.isStatic || ctx.isCallee || ctx.isMemberExpression ==> Emit(env, Identifier(name), ctx).text == name
    ensures Emit(env, Identifier(name), ctx).log == []
  {
    assert |"$" + name| != |name|;
  }

  /** `a.b`: the object is bare when static-style, the connective follows the casing rule. */
  lemma MemberOfIdentifiers(env: Env, a: string, b: string, ctx: Ctx)
    requires WellFormed(env) && b !in env.core
    ensures Emit(env, MemberExpression(Identifier(a), Identifier(b), false), ctx).text ==
            Sigilled(a, StartsUpper(a)) + Connective(StartsUpper(a), StartsUpper(b)) + b
  {
    var n := MemberExpression(Identifier(a), Identifier(b), false);
    var objectCtx := Fresh(Some(n)).(isStatic := StartsUpper(a), propertyStatic := false);
    var propertyCtx := Fresh(Some(n)).(isStatic := StartsUpper(b), isMemberExpression := true);
    IdentifierSigil(env, a, objectCtx);
    IdentifierSigil(env, b, propertyCtx);
    assert Emit(env, n, ctx) == EmitMember(env, n, ctx) by {
      assert Emit(env, n, ctx) == EmitBasic(env, n, ctx);
    }
  }

  /**
   * `a.b.c`: the outer access collapses onto `a` and `b`, but its connective reads
   * the flag its own property carries, which only an enclosing access sets; the
   * casing of `c` plays no part.
   */
  lemma NestedMemberCollapse(env: Env, a: string, b: string, c: string, ctx: Ctx)
    requires WellFormed(env) && b !in env.core && c !in env.core
    ensures Emit(env, MemberExpression(MemberExpression(Identifier(a), Identifier(b), false), Identifier(c), false), ctx).text ==
            Sigilled(a, StartsUpper(a)) + Connective(StartsUpper(a), StartsUpper(b)) + b +
            Connective(StartsUpper(a), ctx.propertyStatic) + c
  {
    var inner := MemberExpression(Identifier(a), Identifier(b), false);
    var n := MemberExpression(inner, Identifier(c), false);
    var objectCtx := Fresh(Some(n)).(isStatic := false, propertyStatic := StartsUpper(b));
    var propertyCtx := Fresh(Some(n)).(isStatic := ctx.propertyStatic, isMemberExpression := true);
    MemberOfIdentifiers(env, a, b, objectCtx);
    assert Emit(env, Identifier(c), propertyCtx).text == c;
    assert Emit(env, n, ctx) == EmitMember(env, n, ctx);
  }

  /** `A.B.c` at the top of an expression renders `A\B::c`. */
  lemma NamespaceThenStatic(env: Env)
    requires WellFormed(env) && "B" !in env.core && "c" !in env.core
    ensures Emit(env, MemberExpression(MemberExpression(Identifier("A"), Identifier("B"), false), Identifier("c"), false),
                 Fresh(None)).text == "A\\B::c"
  {
    NestedMemberCollapse(env, "A", "B", "c", Fresh(None));
  }

  /** `a[b]`: no connective; the property is a value, bare only when static-style. */
  lemma ComputedOfIdentifiers(env: Env, a: string, b: string, ctx: Ctx)
    requires WellFormed(env) && b !in env.core
    ensures Emit(env, MemberExpression(Identifier(a), Identifier(b), true), ctx).text ==
            Sigilled(a, StartsUpper(a)) + "[" + Sigilled(b, StartsUpper(b)) + "]"
  {
    var n := MemberExpression(Identifier(a), Identifier(b), true);
    var objectCtx := Fresh(Some(n)).(isStatic := StartsUpper(a), propertyStatic := false);
    var propertyCtx := Fresh(Some(n)).(isStatic := StartsUpper(b));
    assert Emit(env, Identifier(a), objectCtx).text == Sigilled(a, StartsUpper(a));
    assert Emit(env, Identifier(b), propertyCtx).text == Sigilled(b, StartsUpper(b));
    assert Emit(env, n, ctx) == EmitMember(env, n, ctx);
  }

  // ---------------------------------------------------------------------------
  // Calls and the terminator (index.js:63-91, 97-104, 273-277, 315-317)

  /** The text of a call before any terminator: callee, then the arguments joined by `, `. */
  ghost function CallText(env: Env, call: Node): string
    requires WellFormed(env) && call.CallExpression?
  {
    Emit(env, call.callee, Fresh(Some(call)).(isCallee := true)).text +
    ("(" + Join(ChildTexts(env, call.arguments, Some(call)), ", ") + ")")
  }

  /** A call the override table does not catch owes a terminator only under an expression statement. */
  lemma PlainCall(env: Env, c: Node, args: seq<Node>, ctx: Ctx)
    requires WellFormed(env) && !Fires(env, c)
    ensures UnderExpressionStatement(ctx) ==>
      Emit(env, CallExpression(c, args), ctx).text == CallText(env, CallExpression(c, args)) + ";\n"
    ensures !UnderExpressionStatement(ctx) ==>
      Emit(env, CallExpression(c, args), ctx).text == CallText(env, CallExpression(c, args))
  {
    var call := CallExpression(c, args);
    var inner := CallText(env, call);
    assert Emit(env, call, ctx).text == Terminate(inner, UnderExpressionStatement(ctx)) by {
      assert Emit(env, call, ctx) == EmitBasic(env, call, ctx);
      assert EmitBasic(env, call, ctx) == EmitCall(env, call, ctx);
      ListTexts(env, args, call);
    }
    assert !EndsInTerminator(inner) by {
      assert inner[|inner| - 1] == ')';
    }
  }

  /**
   * A call whose callee's property is in the override table is exactly the callee's
   * rendering: no argument list and no terminator, whatever the context; when the
   * rewrite gives a new node, that is the replacement visited with the call as parent.
   */
  lemma OverriddenCall(env: Env, c: Node, args: seq<Node>, ctx: Ctx)
    requires WellFormed(env) && Fires(env, c)
    ensures Emit(env, CallExpression(c, args), ctx) ==
            Emit(env, c, Fresh(Some(CallExpression(c, args))).(isCallee := true))
    ensures var cctx := Fresh(Some(CallExpression(c, args))).(isCallee := true);
            Replacement(env, c, cctx) != c ==>
              Emit(env, CallExpression(c, args), ctx) == Emit(env, Replacement(env, c, cctx), Fresh(Some(CallExpression(c, args))))
  {
    var call := CallExpression(c, args);
    var cctx := Fresh(Some(call)).(isCallee := true);
    assert Emit(env, call, ctx) == EmitCall(env, call, ctx) by {
      assert Emit(env, call, ctx) == EmitBasic(env, call, ctx);
    }
    assert Emit(env, c, cctx) == EmitMember(env, c, cctx) by {
      assert Emit(env, c, cctx) == EmitBasic(env, c, cctx);
    }
  }

  /** A call statement ends in exactly one terminator, though both the call and the statement owe one. */
  lemma CallStatementTerminatedOnce(env: Env, c: Node, args: seq<Node>, ctx: Ctx)
    requires WellFormed(env) && !Fires(env, c)
    ensures Emit(env, ExpressionStatement(CallExpression(c, args)), ctx).text ==
            CallText(env, CallExpression(c, args)) + ";\n"
  {
    var st := ExpressionStatement(CallExpression(c, args));
    PlainCall(env, c, args, Fresh(Some(st)));
    var t := CallText(env, CallExpression(c, args)) + ";\n";
    assert t[|t| - 2..] == ";\n";
  }

  /** `new C(args)` is the call visited as its own parent: `new ` and never a terminator. */
  lemma NewIsUnterminatedCall(env: Env, c: Node, args: seq<Node>, ctx: Ctx)
    requires WellFormed(env) && !Fires(env, c)
    ensures Emit(env, NewExpression(c, args), ctx).text == "new " + CallText(env, CallExpression(c, args))
  {
    PlainCall(env, c, args, ctx.(parent := Some(CallExpression(c, args))));
  }

  /** Applying the terminator rule twice is applying it once. */
  lemma TerminateTwice(content: string, first: bool, second: bool)
    ensures Terminate(Terminate(content, first), second) == Terminate(content, first || second)
  {
    if first && !EndsInTerminator(content) {
      var r := content + ";\n";
      assert r[|r| - 2..] == ";\n";
    }
  }

  /** The statements that set the terminator flag end in one. */
  lemma StatementsTerminated(env: Env, n: Node, ctx: Ctx)
    requires WellFormed(env)
    requires n.ExpressionStatement? || n.ReturnStatement? || (n.VariableDeclarator? && n.init.Some?)
    ensures EndsInTerminator(Emit(env, n, ctx).text)
  {
  }

  // ---------------------------------------------------------------------------
  // An override table (index.js:95-104)

  /** A rewrite in the style of `./core`: `x.length` becomes `strlen(x)`. */
  function LengthToStrlen(m: Node, c: Ctx): Node
  {
    if m.MemberExpression? then CallExpression(Identifier("strlen"), [m.obj]) else m
  }

  function StrlenEnv(capitalise: string -> string): Env
  {
    Env(map["length" := LengthToStrlen], capitalise)
  }

  /** A table whose rewrite keeps the accessed object is well formed: the rewrite removes one site. */
  lemma StrlenTableWellFormed(capitalise: string -> string)
    ensures WellFormed(StrlenEnv(capitalise))
  {
    var env := StrlenEnv(capitalise);
    forall m, c | Fires(env, m)
      ensures Progress(env, Anchor(m, c), m, Replacement(env, m, c))
    {
      assert m.property.name == "length";
      assert Replacement(env, m, c) == CallExpression(Identifier("strlen"), [m.obj]);
      assert [m.obj][1..] == [];
      assert SitesSeq(env, [m.obj]) == Sites(env, m.obj);
    }
  }

  /** With that table, `x.length` is `strlen(x)` visited with the access's parent. */
  lemma StrlenRewrite(capitalise: string -> string, x: Node, ctx: Ctx)
    ensures WellFormed(StrlenEnv(capitalise)) &&
            Emit(StrlenEnv(capitalise), MemberExpression(x, Identifier("length"), false), ctx) ==
            Emit(StrlenEnv(capitalise), CallExpression(Identifier("strlen"), [x]), Fresh(ctx.parent))
  {
    var env := StrlenEnv(capitalise);
    StrlenTableWellFormed(capitalise);
    var m := MemberExpression(x, Identifier("length"), false);
    assert Emit(env, m, ctx) == EmitBasic(env, m, ctx);
    assert EmitBasic(env, m, ctx) == EmitMember(env, m, ctx);
    assert Fires(env, m);
    assert Replacement(env, m, ctx) == LengthToStrlen(m, ctx);
  }

  /** With that table, the statement `s.length;` renders `strlen($s);` and a newline. */
  lemma StrlenScenario(capitalise: string -> string)
    ensures WellFormed(StrlenEnv(capitalise)) &&
            Emit(StrlenEnv(capitalise), ExpressionStatement(MemberExpression(Identifier("s"), Identifier("length"), false)),
                 Fresh(None)).text == "strlen($s);\n"
  {
    var env := StrlenEnv(capitalise);
    var st := ExpressionStatement(MemberExpression(Identifier("s"), Identifier("length"), false));
    var call := CallExpression(Identifier("strlen"), [Identifier("s")]);
    StrlenRewrite(capitalise, Identifier("s"), Fresh(Some(st)));
    StrlenCallText(env, call);
    PlainCall(env, Identifier("strlen"), [Identifier("s")], Fresh(Some(st)));
    var t := "strlen($s);\n";
    assert t[|t| - 2..] == ";\n";
  }

  /** `strlen(s)` before any terminator. */
  lemma StrlenCallText(env: Env, call: Node)
    requires WellFormed(env) && call == CallExpression(Identifier("strlen"), [Identifier("s")])
    ensures CallText(env, call) == "strlen($s)"
  {
    IdentifierSigil(env, "s", Fresh(Some(call)));
    assert Emit(env, Identifier("s"), Fresh(Some(call))).text == "$" + "s" == "$s";
    assert ChildTexts(env, [Identifier("s")], Some(call))[0] == Emit(env, Identifier("s"), Fresh(Some(call))).text;
    assert ChildTexts(env, [Identifier("s")], Some(call)) == ["$s"];
    IdentifierSigil(env, "strlen", Fresh(Some(call)).(isCallee := true));
    assert CallText(env, call) == "strlen" + ("(" + Join(["$s"], ", ") + ")");
  }

  /** A rewrite that replaces a whole call: `x.push(args)` becomes `array_push(x, args)`. */
  function PushToArrayPush(m: Node, c: Ctx): Node
  {
    if m.MemberExpression? && CalleeOf(m, c) then
      CallExpression(Identifier("array_push"), [m.obj] + c.parent.value.arguments)
    else m
  }

  function PushEnv(capitalise: string -> string): Env
  {
    Env(map["push" := PushToArrayPush], capitalise)
  }

  lemma SitesCons(env: Env, x: Node, s: seq<Node>)
    ensures SitesSeq(env, [x] + s) == Sites(env, x) + SitesSeq(env, s)
  {
    assert ([x] + s)[1..] == s;
  }

  /** The replacement of a firing callee has fewer sites than the call it replaces. */
  lemma PushProgress(env: Env, m: Node, c: Ctx)
    requires Fires(env, m) && CalleeOf(m, c)
    ensures var r := CallExpression(Identifier("array_push"), [m.obj] + c.parent.value.arguments);
            Sites(env, r) < Sites(env, Anchor(m, c))
  {
    var args := c.parent.value.arguments;
    var r := CallExpression(Identifier("array_push"), [m.obj] + args);
    SitesCons(env, m.obj, args);
    assert Sites(env, r) == Sites(env, Identifier("array_push")) + SitesSeq(env, [m.obj] + args);
    assert Sites(env, c.parent.value) == Sites(env, m) + SitesSeq(env, args);
  }

  /** A table whose rewrite moves the call's arguments into the replacement is well formed. */
  lemma PushTableWellFormed(capitalise: string -> string)
    ensures WellFormed(PushEnv(capitalise))
  {
    var env := PushEnv(capitalise);
    forall m, c | Fires(env, m)
      ensures Progress(env, Anchor(m, c), m, Replacement(env, m, c))
    {
      assert Replacement(env, m, c) == PushToArrayPush(m, c);
      if CalleeOf(m, c) {
        PushProgress(env, m, c);
      }
    }
  }

  /** With that table, `a.push(b)` is `array_push(a, b)` visited with the call as parent. */
  lemma PushRewrite(capitalise: string -> string, ctx: Ctx)
    ensures var m := MemberExpression(Identifier("a"), Identifier("push"), false);
            WellFormed(PushEnv(capitalise)) &&
            Emit(PushEnv(capitalise), CallExpression(m, [Identifier("b")]), ctx) ==
            Emit(PushEnv(capitalise), CallExpression(Identifier("array_push"), [Identifier("a"), Identifier("b")]),
                 Fresh(Some(CallExpression(m, [Identifier("b")]))))
  {
    var env := PushEnv(capitalise);
    PushTableWellFormed(capitalise);
    var m := MemberExpression(Identifier("a"), Identifier("push"), false);
    var call := CallExpression(m, [Identifier("b")]);
    var cctx := Fresh(Some(call)).(isCallee := true);
    assert Fires(env, m);
    assert CalleeOf(m, cctx);
    assert [Identifier("a")] + [Identifier("b")] == [Identifier("a"), Identifier("b")];
    assert Replacement(env, m, cctx) == PushToArrayPush(m, cctx);
    OverriddenCall(env, m, [Identifier("b")], ctx);
  }

  /** `array_push($a, $b)` before any terminator. */
  lemma PushCallText(env: Env, call: Node)
    requires WellFormed(env) && call == CallExpression(Identifier("array_push"), [Identifier("a"), Identifier("b")])
    ensures CallText(env, call) == "array_push($a, $b)"
  {
    var callee := Emit(env, call.callee, Fresh(Some(call)).(isCallee := true)).text;
    var args := Join(ChildTexts(env, call.arguments, Some(call)), ", ");
    assert args == "$a, $b" by {
      PushArgumentTexts(env, call);
      assert ["$a", "$b"][..1] == ["$a"];
    }
    assert callee == "array_push" by {
      IdentifierSigil(env, "array_push", Fresh(Some(call)).(isCallee := true));
    }
    assert CallText(env, call) == callee + ("(" + args + ")");
  }

  lemma PushArgumentTexts(env: Env, call: Node)
    requires WellFormed(env) && call == CallExpression(Identifier("array_push"), [Identifier("a"), Identifier("b")])
    ensures ChildTexts(env, call.arguments, Some(call)) == ["$a", "$b"]
  {
    IdentifierSigil(env, "a", Fresh(Some(call)));
    IdentifierSigil(env, "b", Fresh(Some(call)));
    assert Emit(env, Identifier("a"), Fresh(Some(call))).text == "$" + "a" == "$a";
    assert Emit(env, Identifier("b"), Fresh(Some(call))).text == "$" + "b" == "$b";
    assert ChildTexts(env, call.arguments, Some(call))[0] == Emit(env, Identifier("a"), Fresh(Some(call))).text;
    assert ChildTexts(env, call.arguments, Some(call))[1] == Emit(env, Identifier("b"), Fresh(Some(call))).text;
  }

  /** With that table, the statement `a.push(b);` renders `array_push($a, $b);` and a newline. */
  lemma PushScenario(capitalise: string -> string)
    ensures var call := CallExpression(MemberExpression(Identifier("a"), Identifier("push"), false), [Identifier("b")]);
            WellFormed(PushEnv(capitalise)) &&
            Emit(PushEnv(capitalise), ExpressionStatement(call), Fresh(None)).text == "array_push($a, $b);\n"
  {
    var env := PushEnv(capitalise);
    var call := CallExpression(MemberExpression(Identifier("a"), Identifier("push"), false), [Identifier("b")]);
    var st := ExpressionStatement(call);
    var r := CallExpression(Identifier("array_push"), [Identifier("a"), Identifier("b")]);
    PushRewrite(capitalise, Fresh(Some(st)));
    PlainCall(env, Identifier("array_push"), [Identifier("a"), Identifier("b")], Fresh(Some(call)));
    PushCallText(env, r);
    assert Emit(env, st, Fresh(None)).text == Terminate("array_push($a, $b)", true) by {
      assert Emit(env, st, Fresh(None)) == EmitStatement(env, st);
    }
    assert !EndsInTerminator("array_push($a, $b)");
  }

  // ---------------------------------------------------------------------------
  // Functions and methods (index.js:138-164, 200-214, 279-287)

  /** The fragments of the parameters are the parameters' visits, in order. */
  lemma {:induction false} ParamsAt(env: Env, n: Node, k: nat)
    requires WellFormed(env) && n.FunctionDeclaration? && k <= |n.params|
    ensures |EmitParams(env, n, k)| == k
    ensures forall i :: 0 <= i < k ==> EmitParams(env, n, k)[i] == EmitParam(env, n, i)
  {
    if k > 0 {
      ParamsAt(env, n, k - 1);
    }
  }

  /** A parameter with a default renders `param = default`, its operands visited under the synthetic assignment. */
  lemma ParamWithDefault(env: Env, n: Node, i: nat)
    requires WellFormed(env) && n.FunctionDeclaration? && i < |n.params|
    requires i < |n.defaults| && n.defaults[i].Some?
    ensures EmitParam(env, n, i).text ==
            Emit(env, n.params[i], Fresh(Some(BinaryExpression(n.params[i], "=", n.defaults[i].value)))).text +
            " = " +
            Emit(env, n.defaults[i].value, Fresh(Some(BinaryExpression(n.params[i], "=", n.defaults[i].value)))).text
  {
    var assign := BinaryExpression(n.params[i], "=", n.defaults[i].value);
    assert EmitParam(env, n, i) == Emit(env, assign, Fresh(Some(n)));
    assert Emit(env, assign, Fresh(Some(n))) == EmitExpression(env, assign, Fresh(Some(n)));
  }

  lemma ParamWithoutDefault(env: Env, n: Node, i: nat)
    requires WellFormed(env) && n.FunctionDeclaration? && i < |n.params|
    requires !(i < |n.defaults| && n.defaults[i].Some?)
    ensures EmitParam(env, n, i) == Emit(env, n.params[i], Fresh(Some(n)))
  {
  }

  /**
   * A function declaration: `function id(p1, ..., pk) {\n body }\n`, and exactly one
   * `scope.create` for it, after the parameters' effects and before the body's.
   */
  lemma FunctionDeclarationShape(env: Env, n: Node, ctx: Ctx)
    requires WellFormed(env) && n.FunctionDeclaration?
    ensures Emit(env, n, ctx).text ==
            "function " + n.id + "(" +
            Join(ParamTextList(env, n), ", ") +
            ") {\n" + Emit(env, n.block, Fresh(Some(n))).text + "}\n"
    ensures Emit(env, n, ctx).log ==
            Logs(EmitParams(env, n, |n.params|)) + [ScopeCreated(n.id)] + Emit(env, n.block, Fresh(Some(n))).log
  {
    assert Emit(env, n, ctx) == EmitFunction(env, n);
    ParamTexts(env, n);
  }

  /** The text of every parameter of a function, in order. */
  ghost function ParamTextList(env: Env, n: Node): seq<string>
    requires WellFormed(env) && n.FunctionDeclaration?
  {
    seq(|n.params|, i requires 0 <= i < |n.params| => EmitParam(env, n, i).text)
  }

  /** The texts of the parameter list are the parameters' texts, in order. */
  lemma ParamTexts(env: Env, n: Node)
    requires WellFormed(env) && n.FunctionDeclaration?
    ensures Texts(EmitParams(env, n, |n.params|)) == ParamTextList(env, n)
  {
    ParamsAt(env, n, |n.params|);
    TextsAt(EmitParams(env, n, |n.params|));
  }

  /** A function's text opens with its header, and its log records its `scope.create`. */
  lemma FunctionHeader(env: Env, n: Node, ctx: Ctx)
    requires WellFormed(env) && n.FunctionDeclaration?
    ensures "function " + n.id + "(" <= Emit(env, n, ctx).text
    ensures ScopeCreated(n.id) in Emit(env, n, ctx).log
  {
    var ps := EmitParams(env, n, |n.params|);
    var fb := Emit(env, n.block, Fresh(Some(n)));
    var head := "function " + n.id + "(";
    assert Emit(env, n, ctx) == EmitFunction(env, n);
    assert EmitFunction(env, n).text == head + (Join(Texts(ps), ", ") + ") {\n" + fb.text + "}\n");
    assert (Logs(ps) + [ScopeCreated(n.id)] + fb.log)[|Logs(ps)|] == ScopeCreated(n.id);
  }

  /** A method is a public (and possibly static) function named after its key, `constructor` renamed:
      the declaration's parameters, `scope.create` and body, behind the modifiers. */
  lemma MethodDefinitionShape(env: Env, key: string, isStatic: bool, ps: seq<Node>, ds: seq<Option<Node>>, b: Node, ctx: Ctx)
    requires WellFormed(env)
    ensures var m := MethodDefinition(key, isStatic, ps, ds, b);
            var head := "public " + (if isStatic then "static " else "") + "function " + MethodName(key) + "(";
            head <= Emit(env, m, ctx).text &&
            ScopeCreated(MethodName(key)) in Emit(env, m, ctx).log
    ensures var m := MethodDefinition(key, isStatic, ps, ds, b);
            var f := FunctionDeclaration(MethodName(key), ps, ds, b);
            Emit(env, m, ctx).text ==
            "public " + (if isStatic then "static " else "") + "function " + MethodName(key) + "(" +
            Join(ParamTextList(env, f), ", ") +
            ") {\n" + Emit(env, b, Fresh(Some(f))).text + "}\n"
    ensures var m := MethodDefinition(key, isStatic, ps, ds, b);
            var f := FunctionDeclaration(MethodName(key), ps, ds, b);
            Emit(env, m, ctx).log ==
            Logs(EmitParams(env, f, |ps|)) + [ScopeCreated(MethodName(key))] + Emit(env, b, Fresh(Some(f))).log
  {
    MethodHeader(env, key, isStatic, ps, ds, b, ctx);
    MethodClosedForm(env, MethodDefinition(key, isStatic, ps, ds, b), ctx);
  }

  lemma MethodHeader(env: Env, key: string, isStatic: bool, ps: seq<Node>, ds: seq<Option<Node>>, b: Node, ctx: Ctx)
    requires WellFormed(env)
    ensures var m := MethodDefinition(key, isStatic, ps, ds, b);
            var head := "public " + (if isStatic then "static " else "") + "function " + MethodName(key) + "(";
            head <= Emit(env, m, ctx).text &&
            ScopeCreated(MethodName(key)) in Emit(env, m, ctx).log
  {
    var m := MethodDefinition(key, isStatic, ps, ds, b);
    var f := FunctionDeclaration(MethodName(key), ps, ds, b);
    var ff := Emit(env, f, Fresh(Some(m)));
    var prefix := "public " + (if isStatic then "static " else "");
    MethodAsFunction(env, m, ctx);
    FunctionHeader(env, f, Fresh(Some(m)));
    PrefixThen(prefix, "function " + MethodName(key) + "(", ff.text);
  }

  lemma MethodClosedForm(env: Env, m: Node, ctx: Ctx)
    requires WellFormed(env) && m.MethodDefinition?
    ensures var f := FunctionDeclaration(MethodName(m.key), m.params, m.defaults, m.block);
            Emit(env, m, ctx).text ==
            "public " + (if m.isStatic then "static " else "") + "function " + MethodName(m.key) + "(" +
            Join(ParamTextList(env, f), ", ") +
            ") {\n" + Emit(env, m.block, Fresh(Some(f))).text + "}\n"
    ensures var f := FunctionDeclaration(MethodName(m.key), m.params, m.defaults, m.block);
            Emit(env, m, ctx).log ==
            Logs(EmitParams(env, f, |m.params|)) + [ScopeCreated(MethodName(m.key))] + Emit(env, m.block, Fresh(Some(f))).log
  {
    var f := FunctionDeclaration(MethodName(m.key), m.params, m.defaults, m.block);
    var ff := Emit(env, f, Fresh(Some(m)));
    MethodAsFunction(env, m, ctx);
    FunctionDeclarationShape(env, f, Fresh(Some(m)));
    Prefixed(Emit(env, m, ctx), ff, "public " + (if m.isStatic then "static " else ""),
             MethodName(m.key), Join(ParamTextList(env, f), ", "), Emit(env, m.block, Fresh(Some(f))).text);
  }

  /** A declaration's text behind a prefix, regrouped as one concatenation. */
  lemma Prefixed(whole: Fragment, part: Fragment, prefix: string, name: string, params: string, body: string)
    requires whole == Fragment(prefix + part.text, part.log)
    requires part.text == "function " + name + "(" + params + ") {\n" + body + "}\n"
    ensures whole.text == prefix + "function " + name + "(" + params + ") {\n" + body + "}\n"
    ensures whole.log == part.log
  {
  }

  /** A method is its modifiers, then the normalised declaration visited under the method. */
  lemma MethodAsFunction(env: Env, m: Node, ctx: Ctx)
    requires WellFormed(env) && m.MethodDefinition?
    ensures var ff := Emit(env, FunctionDeclaration(MethodName(m.key), m.params, m.defaults, m.block), Fresh(Some(m)));
            Emit(env, m, ctx) == Fragment("public " + (if m.isStatic then "static " else "") + ff.text, ff.log)
  {
    assert Emit(env, m, ctx) == EmitDeclaration(env, m, ctx);
  }

  lemma PrefixThen(a: string, b: string, c: string)
    requires b <= c
    ensures a + b <= a + c
  {
    assert c == b + c[|b|..];
    assert a + c == (a + b) + c[|b|..];
  }

  /** A method named `constructor` is the function `__construct`. */
  lemma ConstructorRenamed(env: Env, isStatic: bool, ps: seq<Node>, ds: seq<Option<Node>>, b: Node, ctx: Ctx)
    requires WellFormed(env)
    ensures var m := MethodDefinition("constructor", isStatic, ps, ds, b);
            Emit(env, m, ctx).text ==
            "public " + (if isStatic then "static " else "") +
            Emit(env, FunctionDeclaration("__construct", ps, ds, b), Fresh(Some(m))).text
  {
    var m := MethodDefinition("constructor", isStatic, ps, ds, b);
    assert Emit(env, m, ctx) == EmitDeclaration(env, m, ctx);
  }

  /** A function expression renders as the declaration it is normalised into, keeping its context. */
  lemma FunctionExpressionShape(env: Env, fnId: Option<string>, ps: seq<Node>, ds: seq<Option<Node>>, b: Node, ctx: Ctx)
    requires WellFormed(env)
    ensures Emit(env, FunctionExpression(fnId, ps, ds, b), ctx) ==
            Emit(env, FunctionDeclaration(ExpressionName(fnId), ps, ds, b), ctx)
    ensures "function " + ExpressionName(fnId) + "(" <= Emit(env, FunctionExpression(fnId, ps, ds, b), ctx).text
    ensures fnId.None? ==> "function (" <= Emit(env, FunctionExpression(fnId, ps, ds, b), ctx).text
  {
    var e := FunctionExpression(fnId, ps, ds, b);
    var f := FunctionDeclaration(ExpressionName(fnId), ps, ds, b);
    assert Emit(env, e, ctx) == Emit(env, f, ctx) by {
      assert Emit(env, e, ctx) == EmitExpression(env, e, ctx);
    }
    FunctionHeader(env, f, ctx);
  }

  // ---------------------------------------------------------------------------
  // Lists, statement sequences, switch, imports (index.js:20-32, 166-181, 252-269, 293-307)

  /** Array literals: `array(` the elements joined by `, ` `)`. */
  lemma ArrayLiteral(env: Env, es: seq<Node>, ctx: Ctx)
    requires WellFormed(env)
    ensures Emit(env, ArrayExpression(es), ctx).text ==
            "array(" + Join(ChildTexts(env, es, Some(ArrayExpression(es))), ", ") + ")"
  {
    var n := ArrayExpression(es);
    assert Emit(env, n, ctx) == EmitList(env, es, n) by {
      assert Emit(env, n, ctx) == EmitBasic(env, n, ctx);
    }
    ListTexts(env, es, n);
  }

  /** An object property renders as a PHP `"key" => value` entry. */
  lemma PropertyEntry(env: Env, p: Node, ctx: Ctx)
    requires WellFormed(env) && p.Property?
    ensures Emit(env, p, ctx).text == "\"" + p.key + "\" => " + Emit(env, p.propValue, Fresh(Some(p))).text
  {
    assert Emit(env, p, ctx) == EmitExpression(env, p, ctx);
  }

  /** Object literals: `array(` the `"key" => value` entries joined by `, ` `)`. */
  lemma ObjectLiteral(env: Env, ps: seq<Node>, ctx: Ctx)
    requires WellFormed(env) && forall i :: 0 <= i < |ps| ==> ps[i].Property?
    ensures Emit(env, ObjectExpression(ps), ctx).text ==
            "array(" +
            Join(seq(|ps|, i requires 0 <= i < |ps| =>
                   "\"" + ps[i].key + "\" => " + Emit(env, ps[i].propValue, Fresh(Some(ps[i]))).text), ", ") +
            ")"
  {
    var n := ObjectExpression(ps);
    assert Emit(env, n, ctx) == EmitList(env, ps, n) by {
      assert Emit(env, n, ctx) == EmitBasic(env, n, ctx);
    }
    var ts := ChildTexts(env, ps, Some(n));
    ListTexts(env, ps, n);
    forall i | 0 <= i < |ps|
      ensures ts[i] == "\"" + ps[i].key + "\" => " + Emit(env, ps[i].propValue, Fresh(Some(ps[i]))).text
    {
      PropertyEntry(env, ps[i], Fresh(Some(n)));
    }
    assert ts == seq(|ps|, i requires 0 <= i < |ps| =>
                   "\"" + ps[i].key + "\" => " + Emit(env, ps[i].propValue, Fresh(Some(ps[i]))).text);
  }

  /** The suffixed texts of a statement body are the statements' texts, each with its next sibling as parent. */
  lemma SiblingTexts(env: Env, body: seq<Node>)
    requires WellFormed(env)
    ensures Suffixed(EmitFragments(env, body, None, true, |body|), "") == StatementTexts(env, body)
  {
    var fs := EmitFragments(env, body, None, true, |body|);
    FragmentsAt(env, body, None, true, |body|);
    var ts := StatementTexts(env, body);
    forall i | 0 <= i < |body|
      ensures Suffixed(fs, "")[i] == ts[i]
    {
      var c := Fresh(if i + 1 < |body| then Some(body[i + 1]) else None);
      assert ChildCtx(body, None, true, i) == c;
      assert fs[i] == Emit(env, body[i], c);
      assert ts[i] == Emit(env, body[i], c).text;
    }
    assert |Suffixed(fs, "")| == |ts|;
  }

  /** A program, block or class body emits its statements as a sibling-parented sequence. */
  lemma BodySequence(env: Env, n: Node, ctx: Ctx)
    requires WellFormed(env) && (n.Program? || n.BlockStatement? || n.ClassBody?)
    ensures Emit(env, n, ctx) == EmitSequence(env, n.body, None, true, "")
  {
    assert Emit(env, n, ctx) == EmitBasic(env, n, ctx);
    match n
    case Program(_) =>
    case BlockStatement(_) =>
    case ClassBody(_) =>
  }

  /** A program, block or class body is its statements' texts in order, nothing between them. */
  lemma StatementSequence(env: Env, n: Node, ctx: Ctx)
    requires WellFormed(env) && (n.Program? || n.BlockStatement? || n.ClassBody?)
    ensures Emit(env, n, ctx).text == Flatten(StatementTexts(env, n.body))
  {
    var fs := EmitFragments(env, n.body, None, true, |n.body|);
    BodySequence(env, n, ctx);
    ConcatFlatten(fs, "");
    SiblingTexts(env, n.body);
  }

  /** The case list of a switch: every case visited under the switch, each followed by a newline. */
  lemma SwitchCaseLines(env: Env, n: Node)
    requires WellFormed(env) && n.SwitchStatement?
    ensures EmitSequence(env, n.cases, Some(n), false, "\n").text ==
            Flatten(seq(|n.cases|, i requires 0 <= i < |n.cases| => Emit(env, n.cases[i], Fresh(Some(n))).text + "\n"))
  {
    var cs := n.cases;
    var fs := EmitFragments(env, cs, Some(n), false, |cs|);
    ConcatFlatten(fs, "\n");
    FragmentsAt(env, cs, Some(n), false, |cs|);
    var ts := seq(|cs|, i requires 0 <= i < |cs| => Emit(env, cs[i], Fresh(Some(n))).text + "\n");
    forall i | 0 <= i < |cs|
      ensures Suffixed(fs, "\n")[i] == ts[i]
    {
      assert ChildCtx(cs, Some(n), false, i) == Fresh(Some(n));
    }
    assert Suffixed(fs, "\n") == ts;
  }

  /** A switch: every case on its own line, inside the braces. */
  lemma SwitchShape(env: Env, d: Node, cs: seq<Node>, ctx: Ctx)
    requires WellFormed(env)
    ensures Emit(env, SwitchStatement(d, cs), ctx).text ==
            "switch (" + Emit(env, d, Fresh(Some(SwitchStatement(d, cs)))).text + "){" +
            Flatten(seq(|cs|, i requires 0 <= i < |cs| => Emit(env, cs[i], Fresh(Some(SwitchStatement(d, cs)))).text + "\n")) +
            "}"
  {
    var n := SwitchStatement(d, cs);
    assert Emit(env, n, ctx) == EmitStatement(env, n);
    SwitchCaseLines(env, n);
    var dt := Emit(env, d, Fresh(Some(n))).text;
    assert "switch (" + dt + ")" + "{" == "switch (" + dt + "){";
  }

  /** A case: its label line, then its consequents' texts in order, each visited under the case. */
  lemma SwitchCaseShape(env: Env, t: Option<Node>, cs: seq<Node>, ctx: Ctx)
    requires WellFormed(env)
    ensures var n := SwitchCase(t, cs);
            var head := if t.None? then "default:\n" else "case " + Emit(env, t.value, Fresh(Some(n))).text + ":\n";
            Emit(env, n, ctx).text == head + Flatten(ChildTexts(env, cs, Some(n)))
  {
    var n := SwitchCase(t, cs);
    assert Emit(env, n, ctx) == EmitStatement(env, n);
    OwnedSequence(env, cs, n);
  }

  /** The `use` line of one specifier, in the namespace of the module it comes from. */
  function UseLine(namespace: string, id: string, alias: Option<string>): string
  {
    "use \\" + namespace + "\\" + id + (if alias.Some? then " as " + alias.value else "") + ";\n"
  }

  /** The `use` lines of an import's specifiers, in order. */
  function UseLines(namespace: string, ss: seq<Node>): seq<string>
    requires forall i :: 0 <= i < |ss| ==> ss[i].ImportSpecifier?
  {
    seq(|ss|, i requires 0 <= i < |ss| => UseLine(namespace, ss[i].id, ss[i].alias))
  }

  /** Each specifier, visited under its import, is its `use` line and has no effects. */
  lemma SpecifierFragments(env: Env, n: Node)
    requires WellFormed(env) && n.ImportDeclaration?
    requires forall i :: 0 <= i < |n.specifiers| ==> n.specifiers[i].ImportSpecifier?
    ensures var fs := EmitFragments(env, n.specifiers, Some(n), false, |n.specifiers|);
            Suffixed(fs, "") == UseLines(env.capitalise(n.source), n.specifiers) &&
            forall i :: 0 <= i < |fs| ==> fs[i].log == []
  {
    var ss := n.specifiers;
    var fs := EmitFragments(env, ss, Some(n), false, |ss|);
    FragmentsAt(env, ss, Some(n), false, |ss|);
    var ls := UseLines(env.capitalise(n.source), ss);
    forall i | 0 <= i < |ss|
      ensures Suffixed(fs, "")[i] == ls[i] && fs[i].log == []
    {
      assert ChildCtx(ss, Some(n), false, i) == Fresh(Some(n));
      assert Emit(env, ss[i], Fresh(Some(n))) == EmitDeclaration(env, ss[i], Fresh(Some(n)));
    }
  }

  /** An import is one `use` line per specifier, each reading the module name from the import. */
  lemma ImportLines(env: Env, ss: seq<Node>, source: string, ctx: Ctx)
    requires WellFormed(env) && forall i :: 0 <= i < |ss| ==> ss[i].ImportSpecifier?
    ensures Emit(env, ImportDeclaration(ss, source), ctx).text == Flatten(UseLines(env.capitalise(source), ss))
    ensures Emit(env, ImportDeclaration(ss, source), ctx).log == []
  {
    var n := ImportDeclaration(ss, source);
    var fs := EmitFragments(env, ss, Some(n), false, |ss|);
    assert Emit(env, n, ctx) == Fragment(Concat(fs, ""), Logs(fs)) by {
      assert Emit(env, n, ctx) == EmitBasic(env, n, ctx);
      assert EmitBasic(env, n, ctx) == EmitSequence(env, ss, Some(n), false, "");
    }
    ConcatFlatten(fs, "");
    SpecifierFragments(env, n);
    NoEffects(fs);
  }

  lemma {:induction false} NoEffects(fs: seq<Fragment>)
    requires forall i :: 0 <= i < |fs| ==> fs[i].log == []
    ensures Logs(fs) == []
  {
    if fs != [] {
      NoEffects(fs[..|fs| - 1]);
    }
  }

  // ---------------------------------------------------------------------------
  // Scenarios

  /** The text of a one-element sequence is its element's text and the suffix. */
  lemma ConcatOne(f: Fragment, suffix: string)
    ensures Concat([f], suffix) == f.text + suffix
    ensures Logs([f]) == f.log
  {
    assert [f][..0] == [];
  }

  /** A declaration of one variable is that declarator's visit. */
  lemma SingleDeclaration(env: Env, decl: Node, ctx: Ctx)
    requires WellFormed(env)
    ensures Emit(env, VariableDeclaration([decl]), ctx) == Emit(env, decl, Fresh(Some(VariableDeclaration([decl]))))
  {
    var n := VariableDeclaration([decl]);
    var f := Emit(env, decl, Fresh(Some(n)));
    assert EmitFragments(env, [decl], Some(n), false, 1) == [f] by {
      assert EmitFragments(env, [decl], Some(n), false, 0) == [];
    }
    ConcatOne(f, "");
    assert Emit(env, n, ctx) == EmitSequence(env, [decl], Some(n), false, "");
  }

  lemma LiteralSum(env: Env, ctx: Ctx)
    requires WellFormed(env)
    ensures Emit(env, BinaryExpression(Literal("1", None), "+", Literal("2", None)), ctx).text == "1 + 2"
  {
    var bin := BinaryExpression(Literal("1", None), "+", Literal("2", None));
    assert Emit(env, bin, ctx) == EmitExpression(env, bin, ctx);
    assert Emit(env, Literal("1", None), Fresh(Some(bin))).text == "1";
    assert Emit(env, Literal("2", None), Fresh(Some(bin))).text == "2";
  }

  /** Text after a space ends in a terminator exactly when the text itself does. */
  lemma TerminatorAfterSpace(head: string, v: string)
    requires |head| > 0 && head[|head| - 1] == ' '
    ensures EndsInTerminator(head + v) <==> EndsInTerminator(v)
  {
    var t := head + v;
    if |v| >= 2 {
      assert t[|t| - 2..] == v[|v| - 2..];
    } else if |v| == 1 {
      assert t[|t| - 2] == ' ';
    }
  }

  /**
   * A declarator with an initialiser is `$id = value` followed by `;` and a newline,
   * unless the value's text already ends in a terminator, which is then kept as the only one.
   */
  lemma InitialisedDeclarator(env: Env, id: string, x: Node, ctx: Ctx)
    requires WellFormed(env)
    ensures var v := Emit(env, x, Fresh(Some(VariableDeclarator(id, Some(x))))).text;
            (!EndsInTerminator(v) ==> Emit(env, VariableDeclarator(id, Some(x)), ctx).text == "$" + id + " = " + v + ";\n") &&
            (EndsInTerminator(v) ==> Emit(env, VariableDeclarator(id, Some(x)), ctx).text == "$" + id + " = " + v)
  {
    var d := VariableDeclarator(id, Some(x));
    var v := Emit(env, x, Fresh(Some(d))).text;
    assert Emit(env, d, ctx).text == Terminate("$" + id + (" = " + v), true) by {
      assert Emit(env, d, ctx) == EmitStatement(env, d);
    }
    assert "$" + id + (" = " + v) == ("$" + id + " = ") + v;
    TerminatorAfterSpace("$" + id + " = ", v);
  }

  /** A declaration emits its declarators' texts in order, each visited under the declaration. */
  lemma DeclarationSequence(env: Env, ds: seq<Node>, ctx: Ctx)
    requires WellFormed(env)
    ensures Emit(env, VariableDeclaration(ds), ctx).text == Flatten(ChildTexts(env, ds, Some(VariableDeclaration(ds))))
  {
    var n := VariableDeclaration(ds);
    assert Emit(env, n, ctx) == EmitSequence(env, ds, Some(n), false, "") by {
      assert Emit(env, n, ctx) == EmitBasic(env, n, ctx);
    }
    OwnedSequence(env, ds, n);
  }

  /** `let x = 1 + 2;` renders `$x = 1 + 2;` and a newline. */
  lemma DeclarationScenario(env: Env)
    requires WellFormed(env)
    ensures Emit(env, VariableDeclaration([VariableDeclarator("x",
              Some(BinaryExpression(Literal("1", None), "+", Literal("2", None))))]), Fresh(None)).text ==
            "$x = 1 + 2;\n"
  {
    var bin := BinaryExpression(Literal("1", None), "+", Literal("2", None));
    var decl := VariableDeclarator("x", Some(bin));
    SingleDeclaration(env, decl, Fresh(None));
    DeclaratorSum(env, Fresh(Some(VariableDeclaration([decl]))));
  }

  /** The declarator `x = 1 + 2` renders `$x = 1 + 2;` and a newline. */
  lemma DeclaratorSum(env: Env, ctx: Ctx)
    requires WellFormed(env)
    ensures Emit(env, VariableDeclarator("x", Some(BinaryExpression(Literal("1", None), "+", Literal("2", None)))), ctx).text ==
            "$x = 1 + 2;\n"
  {
    var bin := BinaryExpression(Literal("1", None), "+", Literal("2", None));
    var decl := VariableDeclarator("x", Some(bin));
    LiteralSum(env, Fresh(Some(decl)));
    var v := Emit(env, bin, Fresh(Some(decl))).text;
    assert v == "1 + 2";
    assert !EndsInTerminator(v);
    InitialisedDeclarator(env, "x", bin, ctx);
    assert Emit(env, decl, ctx).text == "$" + "x" + " = " + v + ";\n";
  }

  /** `obj.Method` renders `$obj->Method` in any context. */
  lemma InstanceMember(env: Env, ctx: Ctx)
    requires WellFormed(env) && "Method" !in env.core
    ensures Emit(env, MemberExpression(Identifier("obj"), Identifier("Method"), false), ctx).text == "$obj->Method"
  {
    MemberOfIdentifiers(env, "obj", "Method", ctx);
    assert !StartsUpper("obj") && StartsUpper("Method");
  }

  /** A call without arguments is its callee's text and `()`. */
  lemma NoArgumentCallText(env: Env, c: Node)
    requires WellFormed(env)
    ensures CallText(env, CallExpression(c, [])) ==
            Emit(env, c, Fresh(Some(CallExpression(c, []))).(isCallee := true)).text + "()"
  {
    assert ChildTexts(env, [], Some(CallExpression(c, []))) == [];
  }

  /** `obj.Method();` renders `$obj->Method();`: a lower-case object means instance access. */
  lemma InstanceCallScenario(env: Env)
    requires WellFormed(env) && "Method" !in env.core
    ensures Emit(env, ExpressionStatement(CallExpression(MemberExpression(Identifier("obj"), Identifier("Method"), false), [])),
                 Fresh(None)).text == "$obj->Method();\n"
  {
    var c := MemberExpression(Identifier("obj"), Identifier("Method"), false);
    var call := CallExpression(c, []);
    CallStatementTerminatedOnce(env, c, [], Fresh(None));
    InstanceMember(env, Fresh(Some(call)).(isCallee := true));
    NoArgumentCallText(env, c);
  }

  /** `var k` (no initialiser) renders `$k`. */
  lemma BareDeclaration(env: Env, id: string, ctx: Ctx)
    requires WellFormed(env)
    ensures Emit(env, VariableDeclaration([VariableDeclarator(id, None)]), ctx).text == "$" + id
  {
    var decl := VariableDeclarator(id, None);
    SingleDeclaration(env, decl, ctx);
    assert Emit(env, decl, Fresh(Some(VariableDeclaration([decl])))) == EmitStatement(env, decl);
  }

  /** An empty block renders nothing. */
  lemma EmptyBlock(env: Env, ctx: Ctx)
    requires WellFormed(env)
    ensures Emit(env, BlockStatement([]), ctx) == Fragment("", [])
  {
    BodySequence(env, BlockStatement([]), ctx);
    assert EmitFragments(env, [], None, true, 0) == [];
  }

  /** `for (var k in o) {}` renders `foreach ($o as $k => $___){}`. */
  lemma ForInScenario(env: Env)
    requires WellFormed(env)
    ensures Emit(env, ForInStatement(VariableDeclaration([VariableDeclarator("k", None)]), Identifier("o"), BlockStatement([])),
                 Fresh(None)).text == "foreach ($o as $k => $___){}"
  {
    var left := VariableDeclaration([VariableDeclarator("k", None)]);
    var n := ForInStatement(left, Identifier("o"), BlockStatement([]));
    BareDeclaration(env, "k", Fresh(None));
    EmptyBlock(env, Fresh(Some(n)));
    assert Emit(env, n, Fresh(None)) == EmitStatement(env, n);
    assert Emit(env, Identifier("o"), Fresh(Some(n))).text == "$o";
  }

  /** A node of a kind the emitter does not implement adds no text and exactly one diagnostic naming its kind. */
  lemma UnsupportedKind(env: Env, kind: string, ctx: Ctx)
    requires WellFormed(env)
    ensures Emit(env, Other(kind), ctx).text == ""
    ensures Emit(env, Other(kind), ctx).log == [Unsupported(kind)]
  {
    assert Emit(env, Other(kind), ctx) == EmitBasic(env, Other(kind), ctx);
  }

  lemma {:induction false} FlattenAppend(a: seq<string>, b: seq<string>)
    ensures Flatten(a + b) == Flatten(a) + Flatten(b)
  {
    if a == [] {
      assert a + b == b;
    } else {
      assert (a + b)[0] == a[0];
      assert (a + b)[1..] == a[1..] + b;
      FlattenAppend(a[1..], b);
    }
  }

  /** Every event of one fragment appears in the logs of the list. */
  lemma {:induction false} LogsContain(fs: seq<Fragment>, j: nat, e: Event)
    requires j < |fs| && e in fs[j].log
    ensures e in Logs(fs)
  {
    var init := fs[..|fs| - 1];
    assert Logs(fs) == Logs(init) + fs[|fs| - 1].log;
    if j < |fs| - 1 {
      assert init[j] == fs[j];
      LogsContain(init, j, e);
    }
  }

  /** The texts of a body around its i-th statement. */
  lemma {:induction false} FlattenAround(ts: seq<string>, i: nat)
    requires i < |ts|
    ensures Flatten(ts) == Flatten(ts[..i]) + ts[i] + Flatten(ts[i + 1..])
  {
    assert ts == ts[..i] + ([ts[i]] + ts[i + 1..]);
    FlattenAppend(ts[..i], [ts[i]] + ts[i + 1..]);
    assert ([ts[i]] + ts[i + 1..])[1..] == ts[i + 1..];
  }

  /** The diagnostic of a body's i-th statement reaches the body's log. */
  lemma BodyLogContains(env: Env, n: Node, i: nat, e: Event, ctx: Ctx)
    requires WellFormed(env) && (n.Program? || n.BlockStatement? || n.ClassBody?) && i < |n.body|
    requires e in Emit(env, n.body[i], Fresh(if i + 1 < |n.body| then Some(n.body[i + 1]) else None)).log
    ensures e in Emit(env, n, ctx).log
  {
    var body := n.body;
    var fs := EmitFragments(env, body, None, true, |body|);
    BodySequence(env, n, ctx);
    FragmentsAt(env, body, None, true, |body|);
    assert ChildCtx(body, None, true, i) == Fresh(if i + 1 < |body| then Some(body[i + 1]) else None);
    LogsContain(fs, i, e);
  }

  /** An unsupported statement has no text, whoever its next sibling is. */
  lemma UnsupportedText(env: Env, body: seq<Node>, i: nat, kind: string)
    requires WellFormed(env) && i < |body| && body[i] == Other(kind)
    ensures StatementTexts(env, body)[i] == ""
  {
    UnsupportedKind(env, kind, Fresh(if i + 1 < |body| then Some(body[i + 1]) else None));
  }

  /** A body's text around its i-th statement. */
  lemma BodyTextAround(env: Env, n: Node, i: nat, ctx: Ctx)
    requires WellFormed(env) && (n.Program? || n.BlockStatement? || n.ClassBody?) && i < |n.body|
    ensures var ts := StatementTexts(env, n.body);
            Emit(env, n, ctx).text == Flatten(ts[..i]) + ts[i] + Flatten(ts[i + 1..])
  {
    StatementSequence(env, n, ctx);
    FlattenAround(StatementTexts(env, n.body), i);
  }

  /** An unsupported statement anywhere in a body: it contributes no text, the statements
      around it keep theirs, and its kind is reported. */
  lemma UnsupportedInBody(env: Env, n: Node, i: nat, kind: string, ctx: Ctx)
    requires WellFormed(env) && (n.Program? || n.BlockStatement? || n.ClassBody?)
    requires i < |n.body| && n.body[i] == Other(kind)
    ensures StatementTexts(env, n.body)[i] == ""
    ensures Emit(env, n, ctx).text ==
            Flatten(StatementTexts(env, n.body)[..i]) + Flatten(StatementTexts(env, n.body)[i + 1..])
    ensures Unsupported(kind) in Emit(env, n, ctx).log
  {
    var ts := StatementTexts(env, n.body);
    var before, after := Flatten(ts[..i]), Flatten(ts[i + 1..]);
    UnsupportedText(env, n.body, i, kind);
    assert before + ts[i] + after == before + after by {
      assert before + ts[i] == before;
    }
    BodyTextAround(env, n, i, ctx);
    UnsupportedKind(env, kind, Fresh(if i + 1 < |n.body| then Some(n.body[i + 1]) else None));
    BodyLogContains(env, n, i, Unsupported(kind), ctx);
  }

  /** The fragments of `[unsupported, break]`: the unsupported node adds only its diagnostic. */
  lemma UnsupportedFragments(env: Env, kind: string)
    requires WellFormed(env)
    ensures EmitFragments(env, [Other(kind), BreakStatement], None, true, 2) ==
            [Fragment("", [Unsupported(kind)]), Fragment("break;", [])]
  {
    var body := [Other(kind), BreakStatement];
    FragmentsAt(env, body, None, true, 2);
    assert ChildCtx(body, None, true, 0) == Fresh(Some(BreakStatement));
    assert ChildCtx(body, None, true, 1) == Fresh(None);
    UnsupportedKind(env, kind, Fresh(Some(BreakStatement)));
    assert Emit(env, BreakStatement, Fresh(None)) == EmitBasic(env, BreakStatement, Fresh(None));
  }

  /** An unsupported node in a block adds no text, reports its kind, and leaves its neighbours intact. */
  lemma UnsupportedScenario(env: Env, kind: string)
    requires WellFormed(env)
    ensures Emit(env, BlockStatement([Other(kind), BreakStatement]), Fresh(None)) ==
            Fragment("break;", [Unsupported(kind)])
  {
    var body := [Other(kind), BreakStatement];
    var fs := EmitFragments(env, body, None, true, 2);
    UnsupportedFragments(env, kind);
    assert fs[..1] == [fs[0]];
    ConcatOne(fs[0], "");
    BodySequence(env, BlockStatement(body), Fresh(None));
  }
}
