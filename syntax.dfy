/** The part of the parser's syntax tree that the core reads: TypeScript type
    expressions (for the resolver), statements and expressions (for the usage
    walk) and module items (for both). Node kinds that no function of the core
    looks into are collapsed into one leaf per category. */
module Syntax {
  import opened Common

  /** An identifier node. Only the identifiers that stand as the callee of a
      call are objects, because the call rewrite assigns their `value` in place;
      every other name in the tree is a plain string. */
  class Identifier {
    var value: string

    constructor (value: string)
      ensures this.value == value
    {
      this.value := value;
    }
  }

  // ----- Type expressions -----

  datatype Keyword =
    | KwString | KwNumber | KwBigint | KwBoolean | KwSymbol | KwUndefined | KwObject
    | KwAny | KwUnknown | KwVoid | KwNull | KwNever | KwIntrinsic

  /** The literal of a literal type. Numbers are modelled as integers. */
  datatype TsLiteral =
    | NumericLit(n: int)
    | StringLit(s: string)
    | BooleanLit(b: bool)
    | BigIntLit(big: int)
    | TemplateLit

  /** The name of a type reference: a bare identifier or a qualified `A.B`. */
  datatype TypeName = SimpleName(name: string) | QualifiedName(left: string, right: string)

  /** A member of a type literal or interface body. */
  datatype TypeElement =
    | PropertySignature(key: Expr, computed: bool, optional: bool, annotation: Option<TsType>)
    | CallSignature
    | ConstructSignature
    | GetterSignature
    | SetterSignature
    | MethodSignature
    | IndexSignature

  datatype TsType =
    | KeywordType(kind: Keyword)
    | TypeReference(typeName: TypeName, typeParams: seq<TsType>)
    | TypeLiteral(members: seq<TypeElement>)
    | ArrayType(elemType: TsType)
    | TupleType(elemTypes: seq<TsType>)      // element labels are not kept
    | UnionType(types: seq<TsType>)
    | IntersectionType(types: seq<TsType>)
    | LiteralType(literal: TsLiteral)
    /** this, function, constructor, query, optional, rest, conditional, infer,
        parenthesized, operator, indexed-access, mapped, predicate and import types */
    | OtherType

  // ----- Expressions -----

  /** The callee of a call: an identifier object, or anything else (a member
      expression, `super`, `import`, another call, ...). */
  datatype Callee = CalleeIdent(id: Identifier) | CalleeOther

  /** The body of a function, method, constructor, catch clause or finally
      clause; it is optional where the source tests for it. */
  datatype Block = Block(stmts: seq<Stmt>)

  datatype ArrowBody = BlockBody(stmts: seq<Stmt>) | ExprBody(expression: Expr)

  /** A property of an object literal. */
  datatype ObjProp =
    | SpreadProp(argument: Expr)
    | ShorthandProp(name: string)
    | KeyValueProp(key: Expr, value: Expr)
    | AssignmentProp(name: string, value: Expr)
    /** getter, setter and method properties */
    | MethodProp(body: Option<Block>)

  /** A member of a class body. */
  datatype ClassMember =
    | ConstructorMember(body: Option<Block>)
    /** a class method or a private method */
    | MethodMember(body: Option<Block>)
    /** a class property or a private property */
    | PropertyMember(value: Option<Expr>)
    | StaticBlockMember(block: seq<Stmt>)
    /** empty member, index signature, auto accessor */
    | InertMember

  datatype Expr =
    | IdentExpr(name: string)
    /** array literal; `None` is a hole, the spread marker is not kept */
    | ArrayExpr(elements: seq<Option<Expr>>)
    | ObjectExpr(properties: seq<ObjProp>)
    | FunctionExpr(body: Option<Block>)
    | UnaryExpr(argument: Expr)
    | UpdateExpr(argument: Expr)
    | BinaryExpr(left: Expr, right: Expr)
    | AssignExpr(left: Expr, right: Expr)
    | MemberExpr(obj: Expr, property: Expr)
    | CondExpr(test: Expr, consequent: Expr, alternate: Expr)
    | CallExpr(callee: Callee, arguments: seq<Expr>, typeArguments: seq<TsType>)
    | NewExpr(newCallee: Expr, newArguments: seq<Expr>)
    | SeqExpr(expressions: seq<Expr>)
    | ArrowExpr(arrowBody: ArrowBody)
    | ClassExpr(classBody: seq<ClassMember>)
    | YieldExpr(yielded: Option<Expr>)
    | AwaitExpr(awaited: Expr)
    /** literals, this, super property, templates, meta property, parenthesis,
        JSX, TypeScript assertions, private name, optional chaining, invalid */
    | OtherExpr

  // ----- Statements -----

  /** The initializers of the declarators of one variable declaration. */
  type Declarators = seq<Option<Expr>>

  datatype ForInit = InitDecl(decls: Declarators) | InitExpr(expression: Expr)

  /** The left side of for-in / for-of: a declaration or a pattern. */
  datatype ForHead = HeadDecl(decls: Declarators) | HeadPattern(pattern: Expr)

  datatype SwitchCase = SwitchCase(test: Option<Expr>, consequent: seq<Stmt>)

  datatype Stmt =
    | ExprStmt(expression: Expr)
    | FunctionDecl(functionBody: Option<Block>)
    | VarDecl(decls: Declarators)
    | TypeAliasDecl(name: string, typeAnnotation: TsType)
    | InterfaceDecl(name: string, interfaceBody: seq<TypeElement>)
    | BlockStmt(stmts: seq<Stmt>)
    | WithStmt(obj: Expr, body: Stmt)
    | ReturnStmt(argument: Option<Expr>)
    | LabeledStmt(body: Stmt)
    | IfStmt(test: Expr, consequent: Stmt, alternate: Option<Stmt>)
    | SwitchStmt(discriminant: Expr, cases: seq<SwitchCase>)
    | ThrowStmt(thrown: Expr)
    | TryStmt(block: seq<Stmt>, handler: Option<Block>, finalizer: Option<Block>)
    | WhileStmt(test: Expr, body: Stmt)
    | DoWhileStmt(body: Stmt, test: Expr)
    | ForStmt(init: Option<ForInit>, forTest: Option<Expr>, update: Option<Expr>, body: Stmt)
    | ForInStmt(head: ForHead, right: Expr, body: Stmt)
    | ForOfStmt(head: ForHead, right: Expr, body: Stmt)
    | ClassDecl(classBody: seq<ClassMember>)
    /** enum, namespace, empty, debugger, break and continue statements */
    | OtherStmt

  // ----- Modules -----

  datatype ImportSpecifier =
    | NamedSpecifier(local: string)
    | DefaultSpecifier(local: string)
    | NamespaceSpecifier(local: string)

  datatype ModuleItem =
    | ImportDecl(specifiers: seq<ImportSpecifier>, source: string)
    /** `export <declaration>`; the parser puts only declarations here */
    | ExportDecl(declaration: Stmt)
    /** `export { … }` with or without `from '<source>'`; the names are not read */
    | ExportNamed(reexportSource: Option<string>)
    | ExportDefaultExpr(expression: Expr)
    /** export default declaration, export *, import =, export =, export as namespace */
    | OtherModuleDecl
    | StmtItem(stmt: Stmt)

  datatype Module = Module(body: seq<ModuleItem>)

  /** The module loader as a map from import specifier to loaded module. */
  type Loader = map<string, Module>

  /** The resolution context: the file being transformed and the loader. */
  datatype Context = Context(home: Module, loader: Loader)
}
