/** functionProcessors/is.ts: what happens to one tracked call. The callee
    identifier is renamed in place; then the first type argument is resolved
    and a validator is generated for it, checking the fixed name `test1`,
    and parsed. The parser is a foreign call and is a parameter here. */
module IsProcessor {
  import opened Common
  import opened Syntax
  import opened Schema
  import opened Validation
  import opened ValidationProperties
  import opened TypeResolver

  /** The prefix the callee's name gets. */
  const Namespace := "__swctypia."

  /** The name every generated validator tests. */
  const TestVariable := "test1"

  /** What the parser makes of a text: it throws on a syntax error; otherwise
      the program is empty, or its first statement is or is not an
      expression statement. */
  datatype Parsed = Unparsable | EmptyProgram | FirstExpression | FirstOther

  /** What the walk passes down to each tracked call: the resolution context,
      the parser and the resolver's budget. */
  datatype Processing = Processing(ctx: Context, parse: string -> Parsed, budget: Budget)

  /** The callee identifier of a call: the one object the rewrite assigns. */
  function CalleeObjects(call: Expr): set<Identifier> {
    if call.CallExpr? && call.callee.CalleeIdent? then {call.callee.id} else {}
  }

  /** The outcome of isProcessor for a call with these type arguments: the
      text of the replacement expression, `None` for undefined, or the
      exception it throws. */
  function Processed(p: Processing, typeArguments: seq<TsType>): (r: Result<Option<string>>)
    ensures typeArguments == [] ==> r == Ok(None)
    ensures typeArguments != [] && Resolved(p.ctx, typeArguments[0], p.budget).Fail? ==> r == Fail(Resolved(p.ctx, typeArguments[0], p.budget).error)
    ensures typeArguments != [] && Resolved(p.ctx, typeArguments[0], p.budget) == Ok(None) ==> r == Fail(UndefinedNode)
    ensures r.Ok? && r.value.Some? ==>
      typeArguments != [] &&
      (var t := Resolved(p.ctx, typeArguments[0], p.budget);
       t.Ok? && t.value.Some? && Gen(t.value.value, TestVariable) == Ok(r.value.value))
  {
    if typeArguments == [] then Ok(None)
    else
      var t :- Resolved(p.ctx, typeArguments[0], p.budget);
      var code :- GenOpt(t, TestVariable);
      match p.parse(code)
      case Unparsable => Fail(SyntaxError)
      case EmptyProgram => Fail(NoStatement)
      case FirstExpression => Ok(Some(code))
      case FirstOther => Ok(None)
  }

  /** isProcessor */
  method IsProcessor(p: Processing, call: Expr) returns (r: Result<Option<string>>)
    requires call.CallExpr?
    modifies CalleeObjects(call)
    ensures call.callee.CalleeIdent? ==> call.callee.id.value == Namespace + old(call.callee.id.value)
    ensures r == Processed(p, call.typeArguments)
  {
    if call.callee.CalleeIdent? {
      call.callee.id.value := Namespace + call.callee.id.value;
    }
    if call.typeArguments == [] {
      return Ok(None);
    }
    var t := ResolveTsType(p.ctx, call.typeArguments[0], p.budget);
    if t.Fail? {
      return Fail(t.error);
    }
    if t.value.None? {
      return Fail(UndefinedNode);
    }
    var code := GenerateValidationCode(t.value.value, TestVariable);
    if code.Fail? {
      return Fail(code.error);
    }
    match p.parse(code.value)
    case Unparsable => r := Fail(SyntaxError);
    case EmptyProgram => r := Fail(NoStatement);
    case FirstExpression => r := Ok(Some(code.value));
    case FirstOther => r := Ok(None);
  }

  /** Only the first type argument is read. */
  lemma OnlyFirstTypeArgument(p: Processing, t: TsType, rest: seq<TsType>)
    ensures Processed(p, [t] + rest) == Processed(p, [t])
  {
    assert ([t] + rest)[0] == [t][0];
  }

  /** A type that resolves to an empty union gives the text of a bare line
      break, which parses to a program without statements: reading the type
      of its first statement throws. */
  lemma EmptyUnionThrows(p: Processing, t: TsType)
    requires Resolved(p.ctx, t, p.budget) == Ok(Some(UnionNode([])))
    requires p.parse("\n") == EmptyProgram
    ensures Processed(p, [t]) == Fail(NoStatement)
  {
    ExactTexts(TestVariable);
  }
}
