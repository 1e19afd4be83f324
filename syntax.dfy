/**
 * The owned syntax tree the engine works on: the subset of the Babel AST that the
 * codemod inspects, with every other node shape kept as its type name only.
 */
module Syntax {
  import opened Wrappers

  /** A JavaScript number literal. The engine never computes with it, so it stays opaque. */
  datatype JsNumber = JsNumber(raw: string)

  datatype CommentKind = CommentBlock | CommentLine | OtherCommentKind(nodeType: string)

  /** A comment attached to a node, with the flags that say on which side it sits. */
  datatype Comment = Comment(kind: CommentKind, value: string, leading: bool, trailing: bool)

  /** The key of an object property. */
  datatype Key = IdentifierKey(name: string) | StringKey(value: string) | OtherKey(nodeType: string)

  datatype Expr =
    | Identifier(name: string)
    | StringLiteral(value: string)
    | NumericLiteral(number: JsNumber)
    | TemplateLiteral(raw: string)
    | UnaryExpression(operator: string, argument: Expr)
    | BinaryExpression(operator: string, left: Expr, right: Expr)
    | LogicalExpression(operator: string, left: Expr, right: Expr)
    | ConditionalExpression(test: Expr, consequent: Expr, alternate: Expr)
    | MemberExpression(obj: Expr, property: Expr)
    | CallExpression(callee: Expr, arguments: seq<Expr>)
    | ArrayExpression(elements: seq<Expr>)
    | ObjectExpression(properties: seq<ObjectMember>)
    | OtherExpression(nodeType: string)

  /** A plain `key: value` member of an object literal, with its comments. */
  datatype ObjectProperty = ObjectProperty(key: Key, value: Expr, comments: seq<Comment>)

  /** A member of an object literal: a plain property, or anything else (spread, method, ...). */
  datatype ObjectMember = Property(property: ObjectProperty) | OtherMember(nodeType: string)

  /** The binding pattern of a declarator. */
  datatype Pattern = IdentifierPattern(name: string) | OtherPattern(nodeType: string)

  datatype Declarator = VariableDeclarator(id: Pattern, init: Option<Expr>)

  /** `const a = ..., b = ...;` with the comments attached to the declaration. */
  datatype VarDecl = VarDecl(declarations: seq<Declarator>, comments: seq<Comment>)

  /** The specifiers of an import declaration. */
  datatype Specifier =
    | ImportDefaultSpecifier(local: string)
    | ImportNamespaceSpecifier(local: string)
    | ImportSpecifier(imported: string, local: string)

  datatype ExportSpecifier = ExportSpecifier(exported: string, local: string)

  /** A top-level statement of a program body. */
  datatype Statement =
    | ImportDeclaration(source: string, specifiers: seq<Specifier>)
    | VariableDeclaration(decl: VarDecl)
    | ExportNamedDeclaration(declaration: Option<VarDecl>, exportSpecifiers: seq<ExportSpecifier>, exportComments: seq<Comment>)
    | RawText(text: string)
    | OtherStatement(nodeType: string)

  /** The Babel type name of an expression, as the error messages print it. */
  function ExprType(e: Expr): string {
    match e
    case Identifier(_) => "Identifier"
    case StringLiteral(_) => "StringLiteral"
    case NumericLiteral(_) => "NumericLiteral"
    case TemplateLiteral(_) => "TemplateLiteral"
    case UnaryExpression(_, _) => "UnaryExpression"
    case BinaryExpression(_, _, _) => "BinaryExpression"
    case LogicalExpression(_, _, _) => "LogicalExpression"
    case ConditionalExpression(_, _, _) => "ConditionalExpression"
    case MemberExpression(_, _) => "MemberExpression"
    case CallExpression(_, _) => "CallExpression"
    case ArrayExpression(_) => "ArrayExpression"
    case ObjectExpression(_) => "ObjectExpression"
    case OtherExpression(t) => t
  }

  function KeyType(k: Key): string {
    match k
    case IdentifierKey(_) => "Identifier"
    case StringKey(_) => "StringLiteral"
    case OtherKey(t) => t
  }

  function MemberType(m: ObjectMember): string {
    match m
    case Property(_) => "ObjectProperty"
    case OtherMember(t) => t
  }

  function CommentType(k: CommentKind): string {
    match k
    case CommentBlock => "CommentBlock"
    case CommentLine => "CommentLine"
    case OtherCommentKind(t) => t
  }

  /**
   * What the engine takes from its surroundings: the unit normaliser
   * (`maybeAddPxToNumber`, not part of this model), the context evaluator (which reads
   * a definitions file and evaluates the expression's source against it; `None` stands
   * for an undefined result or an evaluation error), and the configuration that the
   * source reads from environment variables.
   */
  datatype Env = Env(
    maybeAddPxToNumber: (string, JsNumber) -> string,
    evaluate: Expr -> Option<string>,
    contextFilePath: string,
    classNamesName: string,
    checkPrecedenceComment: string)

  /** The configuration defaults of transforms/index.ts when no variable is set. */
  const DefaultContextFilePath := "./context.example.js"
  const DefaultClassNamesName := "classNames"
  const DefaultCheckPrecedenceComment := " TODO: check CSS precedence"

  /** Whether `s` is an import declaration of `moduleName` (_isModuleMatch). */
  predicate IsImportOf(s: Statement, moduleName: string) {
    s.ImportDeclaration? && s.source == moduleName
  }
}
