/** The validator generator (validation-ast.ts): a schema and the text of a
    variable reference become the source text of a boolean JavaScript
    expression, or an exception.

    The functions are the specification; the methods after them follow the
    source's `let code` loops and are proved equal to it. */
module Validation {
  import opened Common
  import opened Schema

  // ----- swcTypiaConstraintFunctions -----

  /** The own entries of `swcTypiaConstraintFunctions[table]`. */
  function OwnConstraints(table: string): set<string> {
    if table == "string" || table == "array" then {"minLength", "maxLength"}
    else if table == "number" then {"min", "max"}
    else {}
  }

  /** The members every plain object inherits from `Object.prototype`; looking
      one of them up in a constraint table yields a function, which is truthy. */
  const InheritedMembers: set<string> := {
    "constructor", "hasOwnProperty", "isPrototypeOf", "propertyIsEnumerable",
    "toLocaleString", "toString", "valueOf", "__defineGetter__",
    "__defineSetter__", "__lookupGetter__", "__lookupSetter__", "__proto__"
  }

  /** `swcTypiaConstraintFunctions[table][key]` is truthy. */
  predicate IsKnownConstraint(table: string, key: string) {
    key in OwnConstraints(table) || key in InheritedMembers
  }

  /** The constraint predicates, with `measure` the length of a string or
      array, or the value of a number. */
  function ConstraintHolds(key: string, measure: int, bound: int): (b: bool)
    requires key in {"minLength", "maxLength", "min", "max"}
    ensures key in {"minLength", "min"} ==> (b <==> measure >= bound)
    ensures key in {"maxLength", "max"} ==> (b <==> measure <= bound)
  {
    if key == "minLength" || key == "min" then measure >= bound else measure <= bound
  }

  // ----- JSON.stringify of the values the generator prints -----

  function DigitChar(d: nat): char
    requires d < 10
  {
    "0123456789"[d]
  }

  function NatText(n: nat): string
    decreases n
  {
    if n < 10 then [DigitChar(n)] else NatText(n / 10) + [DigitChar(n % 10)]
  }

  /** `JSON.stringify` of an integral number. */
  function IntText(n: int): string {
    if n < 0 then "-" + NatText(-n) else NatText(n)
  }

  function HexChar(d: nat): char
    requires d < 16
  {
    "0123456789abcdef"[d]
  }

  /** The escape JSON.stringify writes for one character of a string. */
  function EscapeChar(c: char): string {
    if c == '"' then "\\\""
    else if c == '\\' then "\\\\"
    else if c == '\U{8}' then "\\b"
    else if c == '\U{C}' then "\\f"
    else if c == '\n' then "\\n"
    else if c == '\r' then "\\r"
    else if c == '\t' then "\\t"
    else if (c as int) < 0x20 then "\\u00" + [HexChar(c as int / 16), HexChar(c as int % 16)]
    else [c]
  }

  function Escape(s: string): string {
    if s == [] then "" else EscapeChar(s[0]) + Escape(s[1..])
  }

  /** `JSON.stringify` of a string. */
  function StringText(s: string): string {
    "\"" + Escape(s) + "\""
  }

  /** `JSON.stringify` of a literal value; a bigint cannot be serialized. */
  function LiteralText(l: LitValue): Result<string> {
    match l
    case LitString(s) => Ok(StringText(s))
    case LitNumber(n) => Ok(IntText(n))
    case LitBool(b) => Ok(if b then "true" else "false")
    case LitBigInt(_) => Fail(BigIntNotSerializable)
  }

  // ----- The generated text -----

  /** `typeof <v> === '<type>'` */
  function TypeofCheck(v: string, tag: string): string {
    "typeof " + v + " === '" + tag + "'"
  }

  /** The conjunct calling one constraint function. */
  function ConstraintCall(table: string, c: Constraint, v: string): string {
    " && " + ConstraintInvocation(table, c, v)
  }

  /** The call of one constraint function on `v`. */
  function ConstraintInvocation(table: string, c: Constraint, v: string): string {
    "constraintFunctions['" + table + "']['" + c.key + "'](" + v + ", " + IntText(c.bound) + ")"
  }

  /** The loop over the constraint entries: one call per known key, in entry order. */
  function ConstraintCode(table: string, cs: seq<Constraint>, v: string): string {
    if cs == [] then ""
    else (if IsKnownConstraint(table, cs[0].key) then ConstraintCall(table, cs[0], v) else "") + ConstraintCode(table, cs[1..], v)
  }

  /** generateTypeValidation */
  function TypeValidation(tag: string, cs: seq<Constraint>, v: string): string {
    TypeofCheck(v, tag) + ConstraintCode(tag, cs, v)
  }

  /** generateBooleanValidation */
  function BooleanValidation(v: string): string {
    TypeofCheck(v, "boolean")
  }

  /** The reference to a property of `v`: the key goes in unescaped. */
  function PropertyRef(v: string, key: string): string {
    v + "['" + key + "']"
  }

  const ObjectHeader: string -> string := v => TypeofCheck(v, "object") + " && " + v + " !== null"

  /** `pieces.join(sep)` */
  function Join(pieces: seq<string>, sep: string): string {
    if pieces == [] then ""
    else if |pieces| == 1 then pieces[0]
    else pieces[0] + sep + Join(pieces[1..], sep)
  }

  /** `prefix` followed by the text `r` holds, or the exception `r` raised. */
  function Prefixed(prefix: string, r: Result<string>): Result<string> {
    if r.Ok? then Ok(prefix + r.value) else r
  }

  /** The pieces `prefix` followed by the pieces `r` holds, or the exception `r` raised. */
  function Appended(prefix: seq<string>, r: Result<seq<string>>): Result<seq<string>> {
    if r.Ok? then Ok(prefix + r.value) else r
  }

  /** The pieces joined with `||`, or the exception raised while making them. */
  function Joined(r: Result<seq<string>>): Result<string> {
    if r.Ok? then Ok(Join(r.value, " || ")) else Fail(r.error)
  }

  /** generateValidationCode */
  function Gen(s: Schema, v: string): Result<string>
    decreases s, 1
  {
    match s
    case StringNode(cs) => Ok(TypeValidation("string", cs, v) + "\n")
    case NumberNode(cs) => Ok(TypeValidation("number", cs, v) + "\n")
    case BooleanNode => Ok(BooleanValidation(v) + "\n")
    case ArrayNode(e, cs) =>
      var code :- ArrayValidation(e, cs, v);
      Ok(code + "\n")
    case ObjectNode(ps) =>
      var code :- Prefixed(ObjectHeader(v), PropertyChecks(ps, v));
      Ok(code + "\n")
    case UnionNode(ts) =>
      var code :- Joined(UnionPieces(ts, v));
      Ok(code + "\n")
    case LiteralNode(l) =>
      var text :- LiteralText(l);
      Ok(v + " === " + text + "\n")
    case TupleNode(_) => Fail(UnsupportedNodeType("tuple"))
  }

  /** generateValidationCode on a value that may be undefined (an unresolved
      property type): reading `.type` of undefined throws. */
  function GenOpt(s: Option<Schema>, v: string): Result<string>
    decreases s, 2
  {
    if s.None? then Fail(UndefinedNode) else Gen(s.value, v)
  }

  /** generateArrayValidation */
  function ArrayValidation(e: Schema, cs: seq<Constraint>, v: string): Result<string>
    decreases e, 2
  {
    var element :- Gen(e, "element");
    Ok("Array.isArray(" + v + ")" + ConstraintCode("array", cs, v) + " && " + v + ".every(element => " + element + ")")
  }

  /** The loop of generateObjectValidation: one conjunct per property, in order. */
  function PropertyChecks(ps: seq<Property>, v: string): Result<string>
    decreases ps, 3
  {
    if ps == [] then Ok("")
    else
      var check :- GenOpt(ps[0].value, PropertyRef(v, ps[0].key));
      var rest :- PropertyChecks(ps[1..], v);
      Ok(" && " + check + rest)
  }

  /** The `map` of generateUnionValidation: each member's code in parentheses. */
  function UnionPieces(ts: seq<Schema>, v: string): Result<seq<string>>
    decreases ts, 3
  {
    if ts == [] then Ok([])
    else
      var code :- Gen(ts[0], v);
      var rest :- UnionPieces(ts[1..], v);
      Ok(["(" + code + ")"] + rest)
  }

  // ----- The implementation -----

  /** generateValidationCode. A property whose type did not resolve reaches
      the source's function as undefined and throws on entry; the callers here
      raise that exception before the call. */
  method GenerateValidationCode(ast: Schema, variableName: string) returns (r: Result<string>)
    ensures r == Gen(ast, variableName)
    decreases ast, 1
  {
    match ast
    case StringNode(cs) =>
      var code := GenerateTypeValidation("string", cs, variableName);
      r := Ok(code + "\n");
    case NumberNode(cs) =>
      var code := GenerateTypeValidation("number", cs, variableName);
      r := Ok(code + "\n");
    case BooleanNode =>
      r := Ok(BooleanValidation(variableName) + "\n");
    case ArrayNode(e, cs) =>
      var code :- GenerateArrayValidation(e, cs, variableName);
      r := Ok(code + "\n");
    case ObjectNode(ps) =>
      var code :- GenerateObjectValidation(ps, variableName);
      r := Ok(code + "\n");
    case UnionNode(ts) =>
      var code :- GenerateUnionValidation(ts, variableName);
      r := Ok(code + "\n");
    case LiteralNode(l) =>
      var text :- LiteralText(l);
      r := Ok(variableName + " === " + text + "\n");
    case TupleNode(_) =>
      r := Fail(UnsupportedNodeType("tuple"));
  }

  /** The constraint loop shared by generateTypeValidation and generateArrayValidation. */
  method AppendConstraints(code0: string, table: string, cs: seq<Constraint>, variableName: string) returns (code: string)
    ensures code == code0 + ConstraintCode(table, cs, variableName)
  {
    code := code0;
    for i := 0 to |cs|
      invariant code + ConstraintCode(table, cs[i..], variableName) == code0 + ConstraintCode(table, cs, variableName)
    {
      assert cs[i..][0] == cs[i] && cs[i..][1..] == cs[i + 1..];
      if IsKnownConstraint(table, cs[i].key) {
        code := code + ConstraintCall(table, cs[i], variableName);
      }
    }
    assert cs[|cs|..] == [];
  }

  /** generateTypeValidation */
  method GenerateTypeValidation(tag: string, cs: seq<Constraint>, variableName: string) returns (code: string)
    ensures code == TypeValidation(tag, cs, variableName)
  {
    code := AppendConstraints(TypeofCheck(variableName, tag), tag, cs, variableName);
  }

  /** generateArrayValidation */
  method GenerateArrayValidation(e: Schema, cs: seq<Constraint>, variableName: string) returns (r: Result<string>)
    ensures r == ArrayValidation(e, cs, variableName)
    decreases e, 2
  {
    var code := AppendConstraints("Array.isArray(" + variableName + ")", "array", cs, variableName);
    var element :- GenerateValidationCode(e, "element");
    r := Ok(code + " && " + variableName + ".every(element => " + element + ")");
  }

  /** generateObjectValidation */
  method GenerateObjectValidation(ps: seq<Property>, variableName: string) returns (r: Result<string>)
    ensures r == Prefixed(ObjectHeader(variableName), PropertyChecks(ps, variableName))
    decreases ps, 2
  {
    var code := ObjectHeader(variableName);
    assert ps[0..] == ps;
    for i := 0 to |ps|
      invariant Prefixed(code, PropertyChecks(ps[i..], variableName)) == Prefixed(ObjectHeader(variableName), PropertyChecks(ps, variableName))
    {
      assert ps[i..][0] == ps[i] && ps[i..][1..] == ps[i + 1..];
      if ps[i].value.None? {
        assert PropertyChecks(ps[i..], variableName) == Fail(UndefinedNode);
        return Fail(UndefinedNode);
      }
      var check := GenerateValidationCode(ps[i].value.value, PropertyRef(variableName, ps[i].key));
      if check.Fail? {
        assert PropertyChecks(ps[i..], variableName) == check;
        return check;
      }
      ghost var rest := PropertyChecks(ps[i + 1..], variableName);
      if rest.Ok? {
        assert PropertyChecks(ps[i..], variableName) == Ok(" && " + check.value + rest.value);
        assert code + (" && " + check.value + rest.value) == (code + " && " + check.value) + rest.value;
      }
      code := code + " && " + check.value;
    }
    assert ps[|ps|..] == [];
    assert code + "" == code;
    r := Ok(code);
  }

  /** generateUnionValidation */
  method GenerateUnionValidation(ts: seq<Schema>, variableName: string) returns (r: Result<string>)
    ensures r == Joined(UnionPieces(ts, variableName))
    decreases ts, 2
  {
    var typeChecks: seq<string> := [];
    assert ts[0..] == ts;
    if UnionPieces(ts, variableName).Ok? {
      assert [] + UnionPieces(ts, variableName).value == UnionPieces(ts, variableName).value;
    }
    for i := 0 to |ts|
      invariant Appended(typeChecks, UnionPieces(ts[i..], variableName)) == UnionPieces(ts, variableName)
    {
      assert ts[i..][0] == ts[i] && ts[i..][1..] == ts[i + 1..];
      var code := GenerateValidationCode(ts[i], variableName);
      if code.Fail? {
        assert UnionPieces(ts[i..], variableName) == Fail(code.error);
        return Fail(code.error);
      }
      ghost var rest := UnionPieces(ts[i + 1..], variableName);
      if rest.Ok? {
        assert UnionPieces(ts[i..], variableName) == Ok(["(" + code.value + ")"] + rest.value);
        assert typeChecks + (["(" + code.value + ")"] + rest.value) == (typeChecks + ["(" + code.value + ")"]) + rest.value;
      }
      typeChecks := typeChecks + ["(" + code.value + ")"];
    }
    assert ts[|ts|..] == [];
    assert typeChecks + [] == typeChecks;
    r := Ok(Join(typeChecks, " || "));
  }
}
