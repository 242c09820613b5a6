/** Type resolution (tsTypeResolver.ts): a TypeScript type expression becomes a
    type schema, `None` when the form is not modelled, or an exception.

    The functions below are the specification; the methods after them follow
    the source's loops and are proved equal to it. The source has no cycle
    detection, and every resolver is an `async` function, which runs on the
    caller's stack until its first `await` suspends it and then resumes on a
    fresh one. So a self-referential declaration does one of two things. If
    the cycle suspends somewhere (a property signature awaits its key before
    its type; a union, tuple or intersection awaits each member before the
    next; a module hop awaits the loader), the recursion never ends and never
    throws. If it does not (`type T = T[]`, `type T = T | string`), the stack
    overflows with a RangeError, which propagates like any other exception.
    A `Budget` makes both visible: see its comment. */
module TypeResolver {
  import opened Common
  import opened Syntax
  import opened Schema

  // ----- Leaves -----

  /** resolveExpression: the name of an identifier; undefined for any other expression. */
  function ResolveExpression(e: Expr): Option<string> {
    if e.IdentExpr? then Some(e.name) else None
  }

  /** The key a property is stored under: `properties[undefined]` converts the
      missing key to the string "undefined". */
  function PropertyKey(key: Expr): string {
    match ResolveExpression(key)
    case Some(n) => n
    case None => "undefined"
  }

  /** The source text of a keyword type. */
  function KeywordName(k: Keyword): string {
    match k
    case KwString => "string"
    case KwNumber => "number"
    case KwBigint => "bigint"
    case KwBoolean => "boolean"
    case KwSymbol => "symbol"
    case KwUndefined => "undefined"
    case KwObject => "object"
    case KwAny => "any"
    case KwUnknown => "unknown"
    case KwVoid => "void"
    case KwNull => "null"
    case KwNever => "never"
    case KwIntrinsic => "intrinsic"
  }

  /** resolveTsKeywordType */
  function ResolveKeyword(k: Keyword): (r: Option<Schema>)
    ensures r.Some? <==> KeywordName(k) in {"string", "number", "boolean"}
    ensures r.Some? ==> Tag(r.value) == KeywordName(k)
    ensures r.Some? ==> r.value in {StringNode([]), NumberNode([]), BooleanNode}
  {
    match k
    case KwString => Some(StringNode([]))
    case KwNumber => Some(NumberNode([]))
    case KwBoolean => Some(BooleanNode)
    case _ => None
  }

  /** The literal value a literal type denotes, if it denotes one. */
  predicate Denotes(l: TsLiteral, v: LitValue) {
    match l
    case NumericLit(n) => v == LitNumber(n)
    case StringLit(s) => v == LitString(s)
    case BooleanLit(b) => v == LitBool(b)
    case BigIntLit(n) => v == LitBigInt(n)
    case TemplateLit => false
  }

  /** resolveTsLiteralType */
  function ResolveLiteral(l: TsLiteral): (r: Option<Schema>)
    ensures r.Some? <==> !l.TemplateLit?
    ensures r.Some? ==> r.value.LiteralNode? && Denotes(l, r.value.value)
  {
    match l
    case NumericLit(n) => Some(LiteralNode(LitNumber(n)))
    case StringLit(s) => Some(LiteralNode(LitString(s)))
    case BooleanLit(b) => Some(LiteralNode(LitBool(b)))
    case BigIntLit(n) => Some(LiteralNode(LitBigInt(n)))
    case TemplateLit => None
  }

  /** `specifiers.some(s => s.local.value === name)` */
  predicate ImportsName(specs: seq<ImportSpecifier>, name: string) {
    exists s :: s in specs && s.local == name
  }

  /** The declaration `item` makes of `name` in the file's own body: a type
      alias or interface, exported or not. */
  function LocalDeclaration(item: ModuleItem, name: string): Option<Stmt> {
    match item
    case StmtItem(s) => if (s.TypeAliasDecl? || s.InterfaceDecl?) && s.name == name then Some(s) else None
    case ExportDecl(s) => ExportedDeclaration(item, name)
    case _ => None
  }

  /** The exported type alias or interface `item` declares under `name`. */
  function ExportedDeclaration(item: ModuleItem, name: string): Option<Stmt> {
    match item
    case ExportDecl(s) => if (s.TypeAliasDecl? || s.InterfaceDecl?) && s.name == name then Some(s) else None
    case _ => None
  }

  // ----- The bound on a resolution -----

  /** `fuel` bounds the number of declaration and module hops the model
      follows: running out of it means the resolution has not finished, and
      on a cycle it never does. `stack` is how many nested declaration hops
      one JavaScript stack holds, and `room` how many the current
      synchronous stretch may still take before the stack overflows. */
  datatype Budget = Budget(fuel: nat, stack: nat, room: nat)

  /** The budget after an `await` has suspended the resolver: the code after
      it runs on a fresh stack. */
  function Resumed(b: Budget): (r: Budget)
    ensures r.fuel == b.fuel && r.stack == b.stack && r.room == b.stack
  {
    b.(room := b.stack)
  }

  /** The budget one declaration hop further down the same stack. */
  function Deeper(b: Budget): (r: Budget)
    requires b.fuel > 0 && b.room > 0
    ensures r.fuel < b.fuel && r.stack == b.stack && r.room == b.room - 1
  {
    Budget(b.fuel - 1, b.stack, b.room - 1)
  }

  // ----- The specification: mutually recursive functions -----

  /** resolveTsType */
  function Resolved(ctx: Context, t: TsType, b: Budget): Result<Option<Schema>>
    decreases b.fuel, 0, t
  {
    match t
    case KeywordType(k) => Ok(ResolveKeyword(k))
    case TypeReference(n, _) =>
      if n.QualifiedName? then Ok(None)
      else if b.room == 0 then Fail(StackOverflow)
      else if b.fuel == 0 then Fail(Unfinished)
      else ReferenceFrom(ctx, n.name, Deeper(b), 0)
    case TypeLiteral(ms) => BodyResolved(ctx, ms, b)
    case ArrayType(e) =>
      var r :- Resolved(ctx, e, b);
      Ok(if r.Some? then Some(ArrayNode(r.value, [])) else None)
    case TupleType(ts) =>
      var rs :- EachFrom(ctx, [], ts, b);
      Ok(Some(TupleNode(rs)))
    case UnionType(ts) =>
      var rs :- EachFrom(ctx, [], ts, b);
      Ok(Some(UnionNode(rs)))
    case IntersectionType(ts) =>
      var ps :- IntersectionFrom(ctx, [], ts, b);
      Ok(Some(ObjectNode(ps)))
    case LiteralType(l) => Ok(ResolveLiteral(l))
    case OtherType => Ok(None)
  }

  /** resolveTsTypeElement with resolveTsPropertySignature: the entry a member
      contributes, if any. */
  function ElementResolved(ctx: Context, m: TypeElement, b: Budget): Result<Option<Property>>
    decreases b.fuel, 0, m
  {
    match m
    case PropertySignature(key, computed, _, ann) =>
      if computed then Ok(None)
      else if ann.None? then Fail(MissingTypeAnnotation)
      else
        var r :- Resolved(ctx, ann.value, Resumed(b));
        Ok(Some(Property(PropertyKey(key), r)))
    case _ => Ok(None)
  }

  /** resolveTsTypeLiteral and resolveTsInterfaceBody: an object schema holding
      the entries of the members. */
  function BodyResolved(ctx: Context, ms: seq<TypeElement>, b: Budget): Result<Option<Schema>>
    decreases b.fuel, 0, ms, 1
  {
    var ps :- ElementsFrom(ctx, [], ms, b);
    Ok(Some(ObjectNode(ps)))
  }

  /** The loop of resolveTsTypeLiteral and resolveTsInterfaceBody, continuing
      from the dictionary `acc` with the members `ms` still to process. */
  function ElementsFrom(ctx: Context, acc: seq<Property>, ms: seq<TypeElement>, b: Budget): Result<seq<Property>>
    decreases b.fuel, 0, ms, 0
  {
    if ms == [] then Ok(acc)
    else
      var e :- ElementResolved(ctx, ms[0], b);
      ElementsFrom(ctx, if e.Some? then Put(acc, e.value.key, e.value.value) else acc, ms[1..], b)
  }

  /** The loop of resolveTsUnionType and resolveTsTupleType: push every member
      that resolves. */
  function EachFrom(ctx: Context, acc: seq<Schema>, ts: seq<TsType>, b: Budget): Result<seq<Schema>>
    decreases b.fuel, 0, ts
  {
    if ts == [] then Ok(acc)
    else
      var r :- Resolved(ctx, ts[0], b);
      EachFrom(ctx, if r.Some? then acc + [r.value] else acc, ts[1..], Resumed(b))
  }

  /** The inner loop of resolveTsIntersectionType: copy every entry of `ps`. */
  function Merge(acc: seq<Property>, ps: seq<Property>): seq<Property>
    decreases ps
  {
    if ps == [] then acc else Merge(Put(acc, ps[0].key, ps[0].value), ps[1..])
  }

  /** The outer loop of resolveTsIntersectionType: merge the members that
      resolve to object schemas. */
  function IntersectionFrom(ctx: Context, acc: seq<Property>, ts: seq<TsType>, b: Budget): Result<seq<Property>>
    decreases b.fuel, 0, ts
  {
    if ts == [] then Ok(acc)
    else
      var r :- Resolved(ctx, ts[0], b);
      IntersectionFrom(ctx, if r.Some? && r.value.ObjectNode? then Merge(acc, r.value.properties) else acc, ts[1..], Resumed(b))
  }

  /** The schema of a declaration found by name: a type alias resolves its
      annotation, an interface its body. */
  function DeclarationResolved(ctx: Context, d: Stmt, b: Budget): Result<Option<Schema>>
    requires d.TypeAliasDecl? || d.InterfaceDecl?
    decreases b.fuel, 0, d
  {
    if d.TypeAliasDecl? then Resolved(ctx, d.typeAnnotation, b)
    else BodyResolved(ctx, d.interfaceBody, b)
  }

  /** The loop of resolveTsTypeReference, from statement `i` of the file being
      transformed. */
  function ReferenceFrom(ctx: Context, name: string, b: Budget, i: nat): Result<Option<Schema>>
    requires i <= |ctx.home.body|
    decreases b.fuel, 3, |ctx.home.body| - i
  {
    if i == |ctx.home.body| then Ok(None)
    else
      var item := ctx.home.body[i];
      if item.ImportDecl? && ImportsName(item.specifiers, name) then FileResolved(ctx, item.source, name, b)
      else if LocalDeclaration(item, name).Some? then DeclarationResolved(ctx, LocalDeclaration(item, name).value, b)
      else ReferenceFrom(ctx, name, b, i + 1)
  }

  /** resolveTypeFromFile. Reading the loaded module's body happens before any
      check, so a specifier the loader cannot load throws. */
  function FileResolved(ctx: Context, source: string, name: string, b: Budget): Result<Option<Schema>>
    decreases b.fuel, 2
  {
    if source !in ctx.loader then Fail(ModuleNotLoaded(source))
    else ExportsFrom(ctx, ctx.loader[source], name, Resumed(b), 0)
  }

  /** The loop of resolveTypeFromFile over the loaded module, from statement `i`. */
  function ExportsFrom(ctx: Context, m: Module, name: string, b: Budget, i: nat): Result<Option<Schema>>
    requires i <= |m.body|
    decreases b.fuel, 1, |m.body| - i
  {
    if i == |m.body| then Ok(None)
    else
      var item := m.body[i];
      if ExportedDeclaration(item, name).Some? then DeclarationResolved(ctx, ExportedDeclaration(item, name).value, b)
      else if item.ExportNamed? then
        if item.reexportSource.None? then Fail(ReexportWithoutSource)
        else if b.fuel == 0 then Fail(Unfinished)
        else FileResolved(ctx, item.reexportSource.value, name, b.(fuel := b.fuel - 1))
      else ExportsFrom(ctx, m, name, b, i + 1)
  }

  /** How member `i` of a union, tuple or intersection resolves: the loop
      awaits each member before it moves on, so every member after the first
      starts on a fresh stack. */
  function MemberResolved(ctx: Context, ts: seq<TsType>, i: nat, b: Budget): Result<Option<Schema>>
    requires i < |ts|
  {
    Resolved(ctx, ts[i], if i == 0 then b else Resumed(b))
  }

  // ----- The implementation: the source's functions, each proved equal to its specification -----

  /** resolveTsType */
  method ResolveTsType(ctx: Context, t: TsType, b: Budget) returns (r: Result<Option<Schema>>)
    ensures r == Resolved(ctx, t, b)
    decreases b.fuel, 0, t
  {
    match t
    case KeywordType(k) =>
      r := Ok(ResolveKeyword(k));
    case TypeReference(n, _) =>
      if n.QualifiedName? {
        r := Ok(None);
      } else if b.room == 0 {
        r := Fail(StackOverflow);
      } else if b.fuel == 0 {
        r := Fail(Unfinished);
      } else {
        r := ResolveTsTypeReference(ctx, n.name, Deeper(b));
      }
    case TypeLiteral(ms) =>
      r := ResolveTsInterfaceBody(ctx, ms, b);
    case ArrayType(_) =>
      r := ResolveTsArrayType(ctx, t, b);
    case TupleType(ts) =>
      var types :- ResolveEachTsType(ctx, ts, b);
      r := Ok(Some(TupleNode(types)));
    case UnionType(ts) =>
      var types :- ResolveEachTsType(ctx, ts, b);
      r := Ok(Some(UnionNode(types)));
    case IntersectionType(ts) =>
      r := ResolveTsIntersectionType(ctx, ts, b);
    case LiteralType(l) =>
      r := Ok(ResolveLiteral(l));
    case OtherType =>
      r := Ok(None);
  }

  /** resolveTsPropertySignature */
  method ResolveTsPropertySignature(ctx: Context, m: TypeElement, b: Budget) returns (r: Result<Option<Property>>)
    requires m.PropertySignature?
    ensures r == ElementResolved(ctx, m, b)
    decreases b.fuel, 0, m, 0
  {
    if m.computed {
      return Ok(None);
    }
    if m.annotation.None? {
      return Fail(MissingTypeAnnotation);
    }
    // the key is awaited first, so the type resolves on a fresh stack
    var typeInfo :- ResolveTsType(ctx, m.annotation.value, Resumed(b));
    r := Ok(Some(Property(PropertyKey(m.key), typeInfo)));
  }

  /** resolveTsTypeElement */
  method ResolveTsTypeElement(ctx: Context, m: TypeElement, b: Budget) returns (r: Result<Option<Property>>)
    ensures r == ElementResolved(ctx, m, b)
    decreases b.fuel, 0, m, 1
  {
    if m.PropertySignature? {
      r := ResolveTsPropertySignature(ctx, m, b);
    } else {
      r := Ok(None);
    }
  }

  /** resolveTsTypeLiteral and resolveTsInterfaceBody (the two share one loop). */
  method ResolveTsInterfaceBody(ctx: Context, ms: seq<TypeElement>, b: Budget) returns (r: Result<Option<Schema>>)
    ensures r == BodyResolved(ctx, ms, b)
    decreases b.fuel, 0, ms, 1
  {
    var properties: seq<Property> := [];
    for i := 0 to |ms|
      invariant ElementsFrom(ctx, properties, ms[i..], b) == ElementsFrom(ctx, [], ms, b)
    {
      assert ms[i..][0] == ms[i] && ms[i..][1..] == ms[i + 1..];
      var result :- ResolveTsTypeElement(ctx, ms[i], b);
      if result.Some? {
        properties := Put(properties, result.value.key, result.value.value);
      }
    }
    r := Ok(Some(ObjectNode(properties)));
  }

  /** resolveTsArrayType */
  method ResolveTsArrayType(ctx: Context, t: TsType, b: Budget) returns (r: Result<Option<Schema>>)
    requires t.ArrayType?
    ensures r == Resolved(ctx, t, b)
    decreases b.fuel, 0, t, 1
  {
    var elementType :- ResolveTsType(ctx, t.elemType, b);
    if elementType.Some? {
      r := Ok(Some(ArrayNode(elementType.value, [])));
    } else {
      r := Ok(None);
    }
  }

  /** The loop of resolveTsUnionType and resolveTsTupleType. */
  method ResolveEachTsType(ctx: Context, ts: seq<TsType>, b: Budget) returns (r: Result<seq<Schema>>)
    ensures r == EachFrom(ctx, [], ts, b)
    decreases b.fuel, 0, ts, 1
  {
    var types: seq<Schema> := [];
    var budget := b;
    for i := 0 to |ts|
      invariant budget == if i == 0 then b else Resumed(b)
      invariant EachFrom(ctx, types, ts[i..], budget) == EachFrom(ctx, [], ts, b)
    {
      assert ts[i..][0] == ts[i] && ts[i..][1..] == ts[i + 1..];
      var result :- ResolveTsType(ctx, ts[i], budget);
      if result.Some? {
        types := types + [result.value];
      }
      // the member was awaited: the next one starts on a fresh stack
      budget := Resumed(b);
    }
    r := Ok(types);
  }

  /** resolveTsIntersectionType */
  method ResolveTsIntersectionType(ctx: Context, ts: seq<TsType>, b: Budget) returns (r: Result<Option<Schema>>)
    ensures r == Resolved(ctx, IntersectionType(ts), b)
    decreases b.fuel, 0, ts, 1
  {
    var properties: seq<Property> := [];
    var budget := b;
    for i := 0 to |ts|
      invariant budget == if i == 0 then b else Resumed(b)
      invariant IntersectionFrom(ctx, properties, ts[i..], budget) == IntersectionFrom(ctx, [], ts, b)
    {
      assert ts[i..][0] == ts[i] && ts[i..][1..] == ts[i + 1..];
      var result :- ResolveTsType(ctx, ts[i], budget);
      budget := Resumed(b);
      if result.Some? && result.value.ObjectNode? {
        var entries := result.value.properties;
        ghost var before := properties;
        for j := 0 to |entries|
          invariant Merge(properties, entries[j..]) == Merge(before, entries)
        {
          assert entries[j..][0] == entries[j] && entries[j..][1..] == entries[j + 1..];
          properties := Put(properties, entries[j].key, entries[j].value);
        }
      }
    }
    r := Ok(Some(ObjectNode(properties)));
  }

  /** resolveTypeFromFile */
  method ResolveTypeFromFile(ctx: Context, source: string, name: string, b: Budget) returns (r: Result<Option<Schema>>)
    ensures r == FileResolved(ctx, source, name, b)
    decreases b.fuel, 2
  {
    if source !in ctx.loader {
      return Fail(ModuleNotLoaded(source));
    }
    var imported := ctx.loader[source];
    // the loader was awaited: the rest runs on a fresh stack
    var budget := Resumed(b);
    for i := 0 to |imported.body|
      invariant ExportsFrom(ctx, imported, name, budget, i) == ExportsFrom(ctx, imported, name, budget, 0)
    {
      var statement := imported.body[i];
      if statement.ExportDecl? && statement.declaration.TypeAliasDecl? && statement.declaration.name == name {
        r := ResolveTsType(ctx, statement.declaration.typeAnnotation, budget);
        return;
      }
      if statement.ExportDecl? && statement.declaration.InterfaceDecl? && statement.declaration.name == name {
        r := ResolveTsInterfaceBody(ctx, statement.declaration.interfaceBody, budget);
        return;
      }
      if statement.ExportNamed? {
        if statement.reexportSource.None? {
          return Fail(ReexportWithoutSource);
        }
        if budget.fuel == 0 {
          return Fail(Unfinished);
        }
        r := ResolveTypeFromFile(ctx, statement.reexportSource.value, name, budget.(fuel := budget.fuel - 1));
        return;
      }
    }
    r := Ok(None);
  }

  /** resolveTsTypeReference for an identifier type name */
  method ResolveTsTypeReference(ctx: Context, name: string, b: Budget) returns (r: Result<Option<Schema>>)
    ensures r == ReferenceFrom(ctx, name, b, 0)
    decreases b.fuel, 3
  {
    var body := ctx.home.body;
    for i := 0 to |body|
      invariant ReferenceFrom(ctx, name, b, i) == ReferenceFrom(ctx, name, b, 0)
    {
      var statement := body[i];
      if statement.ImportDecl? && ImportsName(statement.specifiers, name) {
        r := ResolveTypeFromFile(ctx, statement.source, name, b);
        return;
      }
      if statement.StmtItem? && statement.stmt.TypeAliasDecl? && statement.stmt.name == name {
        r := ResolveTsType(ctx, statement.stmt.typeAnnotation, b);
        return;
      }
      if statement.StmtItem? && statement.stmt.InterfaceDecl? && statement.stmt.name == name {
        r := ResolveTsInterfaceBody(ctx, statement.stmt.interfaceBody, b);
        return;
      }
      if statement.ExportDecl? && statement.declaration.TypeAliasDecl? && statement.declaration.name == name {
        r := ResolveTsType(ctx, statement.declaration.typeAnnotation, b);
        return;
      }
      if statement.ExportDecl? && statement.declaration.InterfaceDecl? && statement.declaration.name == name {
        r := ResolveTsInterfaceBody(ctx, statement.declaration.interfaceBody, b);
        return;
      }
    }
    r := Ok(None);
  }
}
