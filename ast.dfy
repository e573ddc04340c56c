/**
 * The syntax tree the js2php emitter consumes: the subset of the Esprima/ESTree
 * node kinds that `visit` in index.js dispatches on, plus `Other` for every kind
 * it does not handle. Fields keep the ESTree names where Dafny allows it; where
 * two kinds use one ESTree name with different types the field is renamed
 * (`block` for a single body node, `caseTest`/`caseBody` for switch cases, ...).
 * Identifier-valued fields the emitter only reads `.name` of are kept as strings.
 */
module Ast {

  datatype Option<+T> = None | Some(value: T)

  datatype Node =
    | Program(body: seq<Node>)
    | BlockStatement(body: seq<Node>)
    | ClassBody(body: seq<Node>)
    | VariableDeclaration(declarations: seq<Node>)
    | VariableDeclarator(id: string, init: Option<Node>)
    | Identifier(name: string)
    | Punctuator(value: string)
      /** `raw` is the source text; `stringValue` is the literal's value when it is a string */
    | Literal(raw: string, stringValue: Option<string>)
    | BinaryExpression(left: Node, operator: string, right: Node)
    | LogicalExpression(left: Node, operator: string, right: Node)
    | AssignmentExpression(left: Node, operator: string, right: Node)
    | ExpressionStatement(expression: Node)
    | CallExpression(callee: Node, arguments: seq<Node>)
    | NewExpression(callee: Node, arguments: seq<Node>)
    | MemberExpression(obj: Node, property: Node, computed: bool)
      /** `defaults[i]`, when present and not None, is the default value of `params[i]` */
    | FunctionDeclaration(id: string, params: seq<Node>, defaults: seq<Option<Node>>, block: Node)
    | FunctionExpression(fnId: Option<string>, params: seq<Node>, defaults: seq<Option<Node>>, block: Node)
    | ObjectExpression(properties: seq<Node>)
    | ArrayExpression(elements: seq<Node>)
    | Property(key: string, propValue: Node)
    | ReturnStatement(argument: Option<Node>)
    | ClassDeclaration(id: string, superClass: Option<string>, block: Node)
      /** the method's FunctionExpression value is carried inline: its params, defaults and body */
    | MethodDefinition(key: string, isStatic: bool, params: seq<Node>, defaults: seq<Option<Node>>, block: Node)
    | ThisExpression
    | IfStatement(test: Node, consequent: Node, alternate: Option<Node>)
    | ForStatement(forInit: Node, test: Node, update: Node, block: Node)
    | ForInStatement(left: Node, right: Node, block: Node)
    | UpdateExpression(operator: string, operand: Node)
    | SwitchStatement(discriminant: Node, cases: seq<Node>)
    | SwitchCase(caseTest: Option<Node>, caseBody: seq<Node>)
    | BreakStatement
      /** `id` is the value of the module-name literal */
    | ModuleDeclaration(id: string, block: Node)
    | ExportDeclaration(declaration: Node)
      /** `source` is the value of the module-name literal being imported from */
    | ImportDeclaration(specifiers: seq<Node>, source: string)
    | ImportSpecifier(id: string, alias: Option<string>)
      /** any node kind the emitter does not implement */
    | Other(kind: string)

  /** A size measure, used only to prove that the emitter terminates. */
  function Size(n: Node): nat
  {
    match n
    case Program(b) => 1 + SizeSeq(b)
    case BlockStatement(b) => 1 + SizeSeq(b)
    case ClassBody(b) => 1 + SizeSeq(b)
    case VariableDeclaration(ds) => 1 + SizeSeq(ds)
    case VariableDeclarator(_, init) => 1 + SizeOpt(init)
    case Identifier(_) => 1
    case Punctuator(_) => 1
    case Literal(_, _) => 1
    case BinaryExpression(l, _, r) => 1 + Size(l) + Size(r)
    case LogicalExpression(l, _, r) => 1 + Size(l) + Size(r)
    case AssignmentExpression(l, _, r) => 1 + Size(l) + Size(r)
    case ExpressionStatement(e) => 1 + Size(e)
    case CallExpression(c, args) => 1 + Size(c) + SizeSeq(args)
    case NewExpression(c, args) => 2 + Size(c) + SizeSeq(args)
    case MemberExpression(o, p, _) => 1 + Size(o) + Size(p)
    case FunctionDeclaration(_, ps, ds, b) => 1 + SizeSeq(ps) + SizeDefaults(ds) + Size(b)
    case FunctionExpression(_, ps, ds, b) => 2 + SizeSeq(ps) + SizeDefaults(ds) + Size(b)
    case ObjectExpression(ps) => 1 + SizeSeq(ps)
    case ArrayExpression(es) => 1 + SizeSeq(es)
    case Property(_, v) => 1 + Size(v)
    case ReturnStatement(a) => 1 + SizeOpt(a)
    case ClassDeclaration(_, _, b) => 1 + Size(b)
    case MethodDefinition(_, _, ps, ds, b) => 2 + SizeSeq(ps) + SizeDefaults(ds) + Size(b)
    case ThisExpression => 1
    case IfStatement(t, c, a) => 1 + Size(t) + Size(c) + SizeOpt(a)
    case ForStatement(i, t, u, b) => 1 + Size(i) + Size(t) + Size(u) + Size(b)
    case ForInStatement(l, r, b) => 1 + Size(l) + Size(r) + Size(b)
    case UpdateExpression(_, x) => 1 + Size(x)
    case SwitchStatement(d, cs) => 1 + Size(d) + SizeSeq(cs)
    case SwitchCase(t, cs) => 1 + SizeOpt(t) + SizeSeq(cs)
    case BreakStatement => 1
    case ModuleDeclaration(_, b) => 1 + Size(b)
    case ExportDeclaration(d) => 1 + Size(d)
    case ImportDeclaration(ss, _) => 1 + SizeSeq(ss)
    case ImportSpecifier(_, _) => 1
    case Other(_) => 1
  }

  function SizeSeq(s: seq<Node>): nat
  {
    if s == [] then 1 else 1 + Size(s[0]) + SizeSeq(s[1..])
  }

  function SizeOpt(o: Option<Node>): nat
  {
    match o
    case None => 0
    case Some(x) => Size(x)
  }

  function SizeDefaults(s: seq<Option<Node>>): nat
  {
    if s == [] then 1 else 1 + SizeOpt(s[0]) + SizeDefaults(s[1..])
  }

  /** Every element of a child sequence is strictly smaller than the sequence. */
  lemma {:induction false} SizeSeqBound(s: seq<Node>, i: nat)
    requires i < |s|
    ensures Size(s[i]) < SizeSeq(s)
  {
    if i > 0 {
      SizeSeqBound(s[1..], i - 1);
    }
  }

  lemma {:induction false} SizeDefaultsBound(s: seq<Option<Node>>, i: nat)
    requires i < |s| && s[i].Some?
    ensures Size(s[i].value) < SizeDefaults(s)
  {
    if i > 0 {
      SizeDefaultsBound(s[1..], i - 1);
    }
  }
}
