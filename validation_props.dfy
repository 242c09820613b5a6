/** Properties of the validator generator: when it throws, the shape of the
    text it emits, which constraints it includes, and that the literal text
    it prints reads back as the value it came from. */
module ValidationProperties {
  import opened Common
  import opened Schema
  import opened Validation

  // ----- When generation throws -----

  /** The schemas the generator accepts: no tuple anywhere, no property whose
      type did not resolve, no bigint literal. */
  predicate Generable(s: Schema)
    decreases s
  {
    match s
    case ArrayNode(e, _) => Generable(e)
    case ObjectNode(ps) => forall i :: 0 <= i < |ps| ==> PropertyGenerable(ps[i])
    case UnionNode(ts) => forall i :: 0 <= i < |ts| ==> Generable(ts[i])
    case LiteralNode(l) => !l.LitBigInt?
    case TupleNode(_) => false
    case _ => true
  }

  predicate PropertyGenerable(p: Property)
    decreases p
  {
    p.value.Some? && Generable(p.value.value)
  }

  /** The three exceptions generation can raise. */
  predicate GenerationError(e: Error) {
    e == UnsupportedNodeType("tuple") || e == UndefinedNode || e == BigIntNotSerializable
  }

  /** Generation succeeds exactly on the generable schemas, whatever the
      variable name, and otherwise raises one of its three exceptions. */
  lemma {:induction false} GenSucceedsIffGenerable(s: Schema, v: string)
    ensures Gen(s, v).Ok? <==> Generable(s)
    ensures Gen(s, v).Fail? ==> GenerationError(Gen(s, v).error)
    decreases s, 1
  {
    match s
    case ArrayNode(e, cs) =>
      GenSucceedsIffGenerable(e, "element");
    case ObjectNode(ps) =>
      PropertyChecksSucceedIffGenerable(ps, v);
    case UnionNode(ts) =>
      UnionPiecesSucceedIffGenerable(ts, v);
    case _ =>
  }

  lemma {:induction false} PropertyChecksSucceedIffGenerable(ps: seq<Property>, v: string)
    ensures PropertyChecks(ps, v).Ok? <==> forall i :: 0 <= i < |ps| ==> PropertyGenerable(ps[i])
    ensures PropertyChecks(ps, v).Fail? ==> GenerationError(PropertyChecks(ps, v).error)
    decreases ps, 2
  {
    if ps != [] {
      if ps[0].value.Some? {
        GenSucceedsIffGenerable(ps[0].value.value, PropertyRef(v, ps[0].key));
      }
      PropertyChecksSucceedIffGenerable(ps[1..], v);
      if forall i :: 0 <= i < |ps| ==> PropertyGenerable(ps[i]) {
        assert forall i :: 0 <= i < |ps[1..]| ==> PropertyGenerable(ps[1..][i]) by {
          forall i | 0 <= i < |ps[1..]| ensures PropertyGenerable(ps[1..][i]) {
            assert ps[1..][i] == ps[i + 1];
          }
        }
      } else {
        var i :| 0 <= i < |ps| && !PropertyGenerable(ps[i]);
        if i > 0 {
          assert ps[1..][i - 1] == ps[i];
        }
      }
    }
  }

  lemma {:induction false} UnionPiecesSucceedIffGenerable(ts: seq<Schema>, v: string)
    ensures UnionPieces(ts, v).Ok? <==> forall i :: 0 <= i < |ts| ==> Generable(ts[i])
    ensures UnionPieces(ts, v).Fail? ==> GenerationError(UnionPieces(ts, v).error)
    ensures UnionPieces(ts, v).Ok? ==> |UnionPieces(ts, v).value| == |ts|
    decreases ts, 2
  {
    if ts != [] {
      GenSucceedsIffGenerable(ts[0], v);
      UnionPiecesSucceedIffGenerable(ts[1..], v);
      if forall i :: 0 <= i < |ts| ==> Generable(ts[i]) {
        assert forall i :: 0 <= i < |ts[1..]| ==> Generable(ts[1..][i]) by {
          forall i | 0 <= i < |ts[1..]| ensures Generable(ts[1..][i]) {
            assert ts[1..][i] == ts[i + 1];
          }
        }
      } else {
        var i :| 0 <= i < |ts| && !Generable(ts[i]);
        if i > 0 {
          assert ts[1..][i - 1] == ts[i];
        }
      }
    }
  }

  /** A tuple schema is refused with "Unsupported AST node type: tuple". */
  lemma TupleRefused(ts: seq<Schema>, v: string)
    ensures Gen(TupleNode(ts), v) == Fail(UnsupportedNodeType("tuple"))
  {
  }

  // ----- The shape of the text -----

  /** The text each kind of schema starts with. */
  function Lead(s: Schema, v: string): string {
    match s
    case StringNode(_) => TypeofCheck(v, "string")
    case NumberNode(_) => TypeofCheck(v, "number")
    case BooleanNode => TypeofCheck(v, "boolean")
    case ArrayNode(_, _) => "Array.isArray(" + v + ")"
    case ObjectNode(_) => TypeofCheck(v, "object") + " && " + v + " !== null"
    case UnionNode(ts) => if ts == [] then "" else "("
    case LiteralNode(_) => v + " === "
    case TupleNode(_) => ""
  }

  lemma ShapeOf(text: string, lead: string, middle: string)
    requires text == lead + middle + "\n"
    ensures lead <= text && |text| > 0 && text[|text| - 1] == '\n'
  {
    assert text[..|lead|] == lead;
  }

  lemma UnionShape(ts: seq<Schema>, v: string)
    requires Gen(UnionNode(ts), v).Ok?
    ensures Lead(UnionNode(ts), v) <= Gen(UnionNode(ts), v).value
  {
    UnionPiecesSucceedIffGenerable(ts, v);
    var pieces := UnionPieces(ts, v).value;
    if ts != [] {
      var first := Gen(ts[0], v).value;
      assert pieces[0] == "(" + first + ")";
      var joined := Join(pieces, " || ");
      if |pieces| > 1 {
        assert joined == pieces[0] + (" || " + Join(pieces[1..], " || "));
      }
      assert joined[0] == '(';
      assert Gen(UnionNode(ts), v).value == joined + "\n";
    }
  }

  lemma ArrayShape(s: Schema, v: string)
    requires Gen(s, v).Ok? && s.ArrayNode?
    ensures Lead(s, v) <= Gen(s, v).value && Gen(s, v).value[|Gen(s, v).value| - 1] == '\n'
  {
    var element := Gen(s.elementType, "element").value;
    ShapeOf(Gen(s, v).value, Lead(s, v), ConstraintCode("array", s.constraints, v) + " && " + v + ".every(element => " + element + ")");
  }

  lemma ObjectShape(s: Schema, v: string)
    requires Gen(s, v).Ok? && s.ObjectNode?
    ensures Lead(s, v) <= Gen(s, v).value && Gen(s, v).value[|Gen(s, v).value| - 1] == '\n'
  {
    ShapeOf(Gen(s, v).value, Lead(s, v), PropertyChecks(s.properties, v).value);
  }

  /** Every text the generator returns starts as its kind dictates and ends
      with a newline. */
  lemma GenShape(s: Schema, v: string)
    requires Gen(s, v).Ok?
    ensures Lead(s, v) <= Gen(s, v).value
    ensures |Gen(s, v).value| > 0 && Gen(s, v).value[|Gen(s, v).value| - 1] == '\n'
  {
    var text := Gen(s, v).value;
    match s
    case StringNode(cs) =>
      ShapeOf(text, Lead(s, v), ConstraintCode("string", cs, v));
    case NumberNode(cs) =>
      ShapeOf(text, Lead(s, v), ConstraintCode("number", cs, v));
    case BooleanNode =>
      ShapeOf(text, Lead(s, v), "");
    case ArrayNode(_, _) =>
      ArrayShape(s, v);
    case ObjectNode(_) =>
      ObjectShape(s, v);
    case UnionNode(ts) =>
      UnionShape(ts, v);
      ShapeOf(text, "", Join(UnionPieces(ts, v).value, " || "));
    case LiteralNode(l) =>
      ShapeOf(text, Lead(s, v), LiteralText(l).value);
  }

  /** A boolean's text is exactly its typeof test; an empty union's is a lone newline. */
  lemma ExactTexts(v: string)
    ensures Gen(BooleanNode, v) == Ok("typeof " + v + " === 'boolean'\n")
    ensures Gen(UnionNode([]), v) == Ok("\n")
  {
    assert TypeofCheck(v, "boolean") + "\n" == "typeof " + v + " === 'boolean'\n";
    assert Join([], " || ") + "\n" == "\n";
  }

  // ----- Which constraints are emitted -----

  /** The entries whose key is known for `table`, in entry order. */
  function KnownConstraints(table: string, cs: seq<Constraint>): seq<Constraint> {
    if cs == [] then []
    else (if IsKnownConstraint(table, cs[0].key) then [cs[0]] else []) + KnownConstraints(table, cs[1..])
  }

  /** One call per entry. */
  function Calls(table: string, cs: seq<Constraint>, v: string): string {
    if cs == [] then "" else ConstraintCall(table, cs[0], v) + Calls(table, cs[1..], v)
  }

  /** The constraint code is one call per known entry, in entry order; unknown
      keys contribute nothing. */
  lemma {:induction false} ConstraintCodeIsKnownCalls(table: string, cs: seq<Constraint>, v: string)
    ensures ConstraintCode(table, cs, v) == Calls(table, KnownConstraints(table, cs), v)
    ensures forall c :: c in KnownConstraints(table, cs) <==> c in cs && IsKnownConstraint(table, c.key)
  {
    if cs != [] {
      ConstraintCodeIsKnownCalls(table, cs[1..], v);
      var rest := KnownConstraints(table, cs[1..]);
      if IsKnownConstraint(table, cs[0].key) {
        assert ([cs[0]] + rest)[0] == cs[0] && ([cs[0]] + rest)[1..] == rest;
      } else {
        assert [] + rest == rest;
      }
      forall c ensures c in KnownConstraints(table, cs) <==> c in cs && IsKnownConstraint(table, c.key) {
        assert c in cs <==> c == cs[0] || c in cs[1..];
      }
    }
  }

  /** With no known key among the entries, a string or number check is the bare typeof test. */
  lemma UnknownConstraintsIgnored(tag: string, cs: seq<Constraint>, v: string)
    requires forall i :: 0 <= i < |cs| ==> !IsKnownConstraint(tag, cs[i].key)
    ensures TypeValidation(tag, cs, v) == TypeofCheck(v, tag)
  {
    ConstraintCodeIsKnownCalls(tag, cs, v);
  }

  // ----- The literal text reads back as the literal -----

  function DigitValue(c: char): int {
    if '0' <= c <= '9' then c as int - '0' as int else -1
  }

  /** The decimal digits `s` denote, or -1 when `s` is not a digit string. */
  function DecimalValue(s: string): int
    decreases |s|
  {
    if s == [] then -1
    else if |s| == 1 then DigitValue(s[0])
    else
      var high := DecimalValue(s[..|s| - 1]);
      var low := DigitValue(s[|s| - 1]);
      if high < 0 || low < 0 then -1 else high * 10 + low
  }

  /** The integer a JSON number denotes, when it is an integer. */
  function ParseInt(s: string): Option<int> {
    if |s| > 0 && s[0] == '-' then
      (var n := DecimalValue(s[1..]); if n < 0 then None else Some(-n))
    else
      (var n := DecimalValue(s); if n < 0 then None else Some(n))
  }

  lemma {:induction false} NatTextDigits(n: nat)
    ensures DecimalValue(NatText(n)) == n
    ensures |NatText(n)| > 0 && NatText(n)[0] != '-'
    decreases n
  {
    if n >= 10 {
      NatTextDigits(n / 10);
      var t := NatText(n);
      assert t[..|t| - 1] == NatText(n / 10);
      assert t[0] == NatText(n / 10)[0];
    }
  }

  /** The number a literal or constraint bound prints as reads back as itself. */
  lemma IntTextRoundTrip(n: int)
    ensures ParseInt(IntText(n)) == Some(n)
  {
    if n < 0 {
      var t := NatText(-n);
      NatTextDigits(-n);
      var s := "-" + t;
      assert s == IntText(n);
      assert |s| > 0 && s[0] == '-' && s[1..] == t;
      assert ParseInt(s) == Some(-DecimalValue(t));
    } else {
      var t := NatText(n);
      NatTextDigits(n);
      assert t == IntText(n);
      assert !(|t| > 0 && t[0] == '-');
      assert ParseInt(t) == Some(DecimalValue(t));
    }
  }

  function HexValue(c: char): int {
    if '0' <= c <= '9' then c as int - '0' as int
    else if 'a' <= c <= 'f' then c as int - 'a' as int + 10
    else -1
  }

  /** The characters a JSON string body denotes, or `None` when it is malformed.
      Only the escapes JSON.stringify writes are read. */
  function Unescape(s: string): Option<string>
    decreases |s|
  {
    if s == [] then Some([])
    else if s[0] == '"' then None
    else if s[0] != '\\' then
      (var rest := Unescape(s[1..]); if rest.None? then None else Some([s[0]] + rest.value))
    else if |s| < 2 then None
    else
      var c := s[1];
      var simple :=
        if c == '"' then Some('"') else if c == '\\' then Some('\\')
        else if c == 'b' then Some('\U{8}') else if c == 'f' then Some('\U{C}')
        else if c == 'n' then Some('\n') else if c == 'r' then Some('\r')
        else if c == 't' then Some('\t') else None;
      if simple.Some? then
        (var rest := Unescape(s[2..]); if rest.None? then None else Some([simple.value] + rest.value))
      else if c == 'u' && |s| >= 6 && s[2] == '0' && s[3] == '0' && 0 <= HexValue(s[4]) < 2 && 0 <= HexValue(s[5]) then
        var code := HexValue(s[4]) * 16 + HexValue(s[5]);
        var rest := Unescape(s[6..]);
        if rest.None? then None else Some([code as char] + rest.value)
      else None
  }

  /** The string a JSON string literal denotes. */
  function ParseString(s: string): Option<string> {
    if |s| >= 2 && s[0] == '"' && s[|s| - 1] == '"' then Unescape(s[1..|s| - 1]) else None
  }

  function Then(c: char, r: Option<string>): Option<string> {
    if r.None? then None else Some([c] + r.value)
  }

  lemma ShortEscapeReadsBack(c: char, rest: string)
    requires c == '"' || c == '\\' || c == '\U{8}' || c == '\U{C}' || c == '\n' || c == '\r' || c == '\t'
    ensures Unescape(EscapeChar(c) + rest) == Then(c, Unescape(rest))
  {
    var t := EscapeChar(c) + rest;
    assert |EscapeChar(c)| == 2 && t[0] == '\\';
    assert t[2..] == rest;
  }

  lemma ControlEscapeReadsBack(c: char, rest: string)
    requires (c as int) < 0x20 && !(c == '\U{8}' || c == '\U{C}' || c == '\n' || c == '\r' || c == '\t')
    ensures Unescape(EscapeChar(c) + rest) == Then(c, Unescape(rest))
  {
    var hi, lo := c as int / 16, c as int % 16;
    assert EscapeChar(c) == "\\u00" + [HexChar(hi), HexChar(lo)];
    var t := EscapeChar(c) + rest;
    assert t[0] == '\\' && t[1] == 'u' && t[2] == '0' && t[3] == '0' && t[4] == HexChar(hi) && t[5] == HexChar(lo);
    assert HexValue(HexChar(hi)) == hi && HexValue(HexChar(lo)) == lo;
    assert t[6..] == rest;
    assert (hi * 16 + lo) as char == c;
  }

  lemma EscapeCharReadsBack(c: char, rest: string)
    ensures Unescape(EscapeChar(c) + rest) == Then(c, Unescape(rest))
  {
    if c == '"' || c == '\\' || c == '\U{8}' || c == '\U{C}' || c == '\n' || c == '\r' || c == '\t' {
      ShortEscapeReadsBack(c, rest);
    } else if (c as int) < 0x20 {
      ControlEscapeReadsBack(c, rest);
    } else {
      assert EscapeChar(c) == [c];
      assert ([c] + rest)[1..] == rest;
    }
  }

  lemma {:induction false} EscapeReadsBack(s: string)
    ensures Unescape(Escape(s)) == Some(s)
    decreases |s|
  {
    if s != [] {
      EscapeReadsBack(s[1..]);
      EscapeCharReadsBack(s[0], Escape(s[1..]));
      assert [s[0]] + s[1..] == s;
    }
  }

  /** A string literal prints as a JSON string that reads back as the same string. */
  lemma StringTextRoundTrip(s: string)
    ensures ParseString(StringText(s)) == Some(s)
  {
    var t := StringText(s);
    assert t[1..|t| - 1] == Escape(s);
    EscapeReadsBack(s);
  }
}
