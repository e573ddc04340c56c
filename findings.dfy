/**
 * Two places where index.js concatenates an ESTree node object into the output
 * instead of that node's name; JavaScript turns any such object into the text
 * `[object Object]`. Each is modelled as written, with a lemma exhibiting the
 * name that is lost, beside the corrected definition the emitter uses.
 */
module Findings {
  import opened Ast
  import opened Emitter
  import Properties

  /** What JavaScript's string conversion makes of a plain object. */
  const ObjectText: string := "[object Object]"

  // ---------------------------------------------------------------------------
  // `extends` (index.js:194-196)

  /** The clause as written: `" extends " + node.superClass`, where the superclass is an identifier node. */
  function ExtendsClauseAsWritten(superClass: Option<string>): string
  {
    match superClass
    case None => ""
    case Some(_) => " extends " + ObjectText
  }

  /** As written, two classes extending different superclasses get the same clause, and neither names its superclass. */
  lemma ExtendsLosesName(a: string, b: string)
    requires a != b
    ensures ExtendsClauseAsWritten(Some(a)) == ExtendsClauseAsWritten(Some(b))
    ensures ExtendsClause(Some(a)) != ExtendsClause(Some(b))
  {
    var ca, cb := ExtendsClause(Some(a)), ExtendsClause(Some(b));
    assert ca[9..] == a && cb[9..] == b;
  }

  /** Concretely: `class A extends Base` renders `extends [object Object]`. */
  lemma ExtendsBaseAsWritten()
    ensures ExtendsClauseAsWritten(Some("Base")) == " extends [object Object]"
    ensures ExtendsClauseAsWritten(Some("Base")) != ExtendsClause(Some("Base"))
  {
    assert |ExtendsClauseAsWritten(Some("Base"))| != |ExtendsClause(Some("Base"))|;
  }

  /** The corrected clause names the superclass: the name is exactly what follows ` extends `. */
  lemma ExtendsNamesSuperclass(name: string)
    ensures " extends " <= ExtendsClause(Some(name))
    ensures ExtendsClause(Some(name))[|" extends "|..] == name
    ensures ExtendsClause(None) == ""
  {
  }

  // ---------------------------------------------------------------------------
  // Function expression names (index.js:282-283)

  /** The name as written: `{ name: node.id || "" }`, where `node.id` is an identifier node when present. */
  function ExpressionNameAsWritten(fnId: Option<string>): string
  {
    match fnId
    case None => ""
    case Some(_) => ObjectText
  }

  /** As written, differently named function expressions get the same name; the corrected name keeps them apart. */
  lemma ExpressionNameLost(a: string, b: string)
    requires a != b
    ensures ExpressionNameAsWritten(Some(a)) == ExpressionNameAsWritten(Some(b)) == ObjectText
    ensures ExpressionName(Some(a)) != ExpressionName(Some(b))
  {
  }

  /** Concretely: `function f() {}` as an expression renders as `function [object Object](`. */
  lemma NamedExpressionAsWritten(env: Env, ps: seq<Node>, ds: seq<Option<Node>>, b: Node, ctx: Ctx)
    requires WellFormed(env)
    ensures var f := FunctionDeclaration(ExpressionNameAsWritten(Some("f")), ps, ds, b);
            "function [object Object](" <= Emit(env, f, ctx).text
  {
    var f := FunctionDeclaration(ExpressionNameAsWritten(Some("f")), ps, ds, b);
    Properties.FunctionHeader(env, f, ctx);
  }

  /** The corrected expression is the declaration under its own name: `function f(`. */
  lemma NamedExpressionCorrected(env: Env, ps: seq<Node>, ds: seq<Option<Node>>, b: Node, ctx: Ctx)
    requires WellFormed(env)
    ensures "function f(" <= Emit(env, FunctionExpression(Some("f"), ps, ds, b), ctx).text
  {
    var e := FunctionExpression(Some("f"), ps, ds, b);
    var f := FunctionDeclaration("f", ps, ds, b);
    assert Emit(env, e, ctx) == Emit(env, f, ctx) by {
      assert Emit(env, e, ctx) == EmitExpression(env, e, ctx);
    }
    Properties.FunctionHeader(env, f, ctx);
  }
}
