/** What the generated validators mean. `Conforms` says when a JavaScript
    value has the type a schema describes; `Written` is the expression the
    generator's text reads as. The text reads as `Written(s, r, false)`
    (`ReadsAs`), and with every object property's check in parentheses,
    `Written(s, r, true)`, the validator accepts exactly the conforming values
    (`WrittenSound`). As written, a union-typed property's `||` escapes the
    object's `&&` chain, and the validator accepts a value that does not
    conform (`UnionPropertyEscapes`) and throws on null (`NullInputThrows`). */
module ValidatorSemantics {
  import opened Common
  import opened Schema
  import opened Validation
  import opened JsModel

  // ----- The schemas the semantics covers -----

  /** Generation succeeds and every union has a member: the text of an empty
      union is a bare line break, which is not an expression. */
  predicate Expressible(s: Schema)
    decreases s
  {
    match s
    case ArrayNode(e, _) => Expressible(e)
    case ObjectNode(ps) => forall i :: 0 <= i < |ps| ==> PropertyExpressible(ps[i])
    case UnionNode(ts) => |ts| > 0 && forall i :: 0 <= i < |ts| ==> Expressible(ts[i])
    case LiteralNode(l) => !l.LitBigInt?
    case TupleNode(_) => false
    case _ => true
  }

  /** The generator splices a key between the single quotes of `v['key']`
      as it is, so the text reads as that member access only when the key
      holds no quote, backslash or line terminator. */
  predicate KeySafe(k: string) {
    forall i :: 0 <= i < |k| ==> k[i] !in {'\'', '\\', '\n', '\r', '\U{2028}', '\U{2029}'}
  }

  predicate PropertyExpressible(p: Property)
    decreases p
  {
    KeySafe(p.key) && p.value.Some? && Expressible(p.value.value)
  }

  /** No constraint key names a member the constraint tables only inherit. */
  predicate NoInheritedKeys(cs: seq<Constraint>) {
    forall i :: 0 <= i < |cs| ==> cs[i].key !in InheritedMembers
  }

  predicate NoInherited(s: Schema)
    decreases s
  {
    match s
    case StringNode(cs) => NoInheritedKeys(cs)
    case NumberNode(cs) => NoInheritedKeys(cs)
    case ArrayNode(e, cs) => NoInheritedKeys(cs) && NoInherited(e)
    case ObjectNode(ps) => forall i :: 0 <= i < |ps| ==> PropertyNoInherited(ps[i])
    case UnionNode(ts) => forall i :: 0 <= i < |ts| ==> NoInherited(ts[i])
    case _ => true
  }

  predicate PropertyNoInherited(p: Property)
    decreases p
  {
    p.value.Some? ==> NoInherited(p.value.value)
  }

  /** A union of two or more members. */
  predicate IsDisjunction(s: Schema) {
    s.UnionNode? && |s.types| > 1
  }

  /** No object property, at any depth, has a union of two or more members as its type. */
  predicate NoBareUnionProperty(s: Schema)
    decreases s
  {
    match s
    case ArrayNode(e, _) => NoBareUnionProperty(e)
    case ObjectNode(ps) => forall i :: 0 <= i < |ps| ==> PropertyNotBareUnion(ps[i])
    case UnionNode(ts) => forall i :: 0 <= i < |ts| ==> NoBareUnionProperty(ts[i])
    case _ => true
  }

  predicate PropertyNotBareUnion(p: Property)
    decreases p
  {
    p.value.Some? ==> !IsDisjunction(p.value.value) && NoBareUnionProperty(p.value.value)
  }

  // ----- The type a schema describes -----

  /** Every own constraint of `table` among `cs` holds of the measure `m`. */
  predicate Holds(table: string, cs: seq<Constraint>, m: int) {
    forall i :: 0 <= i < |cs| && cs[i].key in OwnConstraints(table) ==> ConstraintHolds(cs[i].key, m, cs[i].bound)
  }

  /** The property `k` of an object or array. */
  function Member(v: JsValue, k: string): JsValue {
    var r := Get(v, k);
    if r.Some? then r.value else JsUndefined
  }

  /** The value `v` has the type `s` describes. */
  predicate Conforms(s: Schema, v: JsValue)
    decreases s
  {
    match s
    case StringNode(cs) => v.JsString? && Holds("string", cs, Utf16Length(v.s))
    case NumberNode(cs) => v.JsNumber? && Holds("number", cs, v.n)
    case BooleanNode => v.JsBool?
    case ArrayNode(e, cs) =>
      v.JsArray? && Holds("array", cs, |v.elements|) &&
      forall i :: 0 <= i < |v.elements| ==> Conforms(e, v.elements[i])
    case ObjectNode(ps) => IsObject(v) && forall i :: 0 <= i < |ps| ==> PropertyConforms(ps[i], v)
    case UnionNode(ts) => exists i :: 0 <= i < |ts| && Conforms(ts[i], v)
    case LiteralNode(l) => StrictEquals(v, l)
    case TupleNode(_) => false
  }

  predicate PropertyConforms(p: Property, v: JsValue)
    decreases p
  {
    p.value.Some? && Conforms(p.value.value, Member(v, p.key))
  }

  /** A string's length constraints count UTF-16 code units, as
      `value.length` does: `maxLength: 1` refuses a single character outside
      the Basic Multilingual Plane, and `maxLength: 2` admits it. */
  lemma AstralCharCountsTwice()
    ensures Conforms(StringNode([Constraint("maxLength", 2)]), JsString("\U{1F600}"))
    ensures !Conforms(StringNode([Constraint("maxLength", 1)]), JsString("\U{1F600}"))
  {
    var cs := [Constraint("maxLength", 1)];
    assert Utf16Length("\U{1F600}") == 2;
    assert cs[0].key in OwnConstraints("string") && !ConstraintHolds(cs[0].key, 2, cs[0].bound);
  }

  // ----- The expression the text reads as -----

  /** `typeof r === 'object' && r !== null` */
  function Header(r: Ref): Chain {
    Conj(Single(TypeIs(r, "object")), Single(NotNull(r)))
  }

  /** `acc` followed by one constraint call per known key of `cs`. */
  function WithCalls(acc: Chain, table: string, cs: seq<Constraint>, r: Ref): Chain
    decreases cs
  {
    if cs == [] then acc
    else
      var next := if IsKnownConstraint(table, cs[0].key) then Conj(acc, Single(Call(table, cs[0].key, r, cs[0].bound))) else acc;
      WithCalls(next, table, cs[1..], r)
  }

  /** The check of schema `s` on reference `r`, as the generator's text reads
      (`grouped` false) or with each object property's check in parentheses
      (`grouped` true). */
  function Written(s: Schema, r: Ref, grouped: bool): Chain
    requires Expressible(s)
    decreases s, 0
  {
    match s
    case StringNode(cs) => AddBreak(WithCalls(Single(TypeIs(r, "string")), "string", cs, r))
    case NumberNode(cs) => AddBreak(WithCalls(Single(TypeIs(r, "number")), "number", cs, r))
    case BooleanNode => AddBreak(Single(TypeIs(r, "boolean")))
    case ArrayNode(e, cs) =>
      AddBreak(Conj(WithCalls(Single(IsArray(r)), "array", cs, r), Single(Every(r, Written(e, Var("element"), grouped)))))
    case ObjectNode(ps) => AddBreak(PropertiesWritten(Header(r), ps, r, grouped))
    case UnionNode(ts) => AddBreak(Alternatives(ts, r, grouped))
    case LiteralNode(l) => AddBreak(Single(Equals(r, l)))
  }

  /** The check of one property, on `r['key']`. */
  function PropertyWritten(p: Property, r: Ref, grouped: bool): Chain
    requires PropertyExpressible(p)
    decreases p, 0
  {
    var c := Written(p.value.value, Index(r, p.key), grouped);
    if grouped then Single(Group(c)) else c
  }

  /** `acc && <check of ps[0]> && <check of ps[1]> && …` */
  function PropertiesWritten(acc: Chain, ps: seq<Property>, r: Ref, grouped: bool): Chain
    requires forall i :: 0 <= i < |ps| ==> PropertyExpressible(ps[i])
    decreases ps, 0
  {
    if ps == [] then acc
    else PropertiesWritten(Conj(acc, PropertyWritten(ps[0], r, grouped)), ps[1..], r, grouped)
  }

  /** `(<check of ts[0]>) || (<check of ts[1]>) || …` */
  function Alternatives(ts: seq<Schema>, r: Ref, grouped: bool): Chain
    requires |ts| > 0 && forall i :: 0 <= i < |ts| ==> Expressible(ts[i])
    decreases ts, 0
  {
    var first := Single(Group(Written(ts[0], r, grouped)));
    if |ts| == 1 then first else Disj(first, Alternatives(ts[1..], r, grouped))
  }

  // ----- The generator's text reads as `Written(s, r, false)` -----

  lemma SingleText(a: Atom)
    ensures ChainText(Single(a)) == AtomText(a)
  {
    assert Breaks(0) == "";
    assert LinksText([]) == "";
  }

  lemma CallStepText(acc: Chain, table: string, c: Constraint, r: Ref)
    ensures ChainText(Conj(acc, Single(Call(table, c.key, r, c.bound)))) == ChainText(acc) + ConstraintCall(table, c, RefText(r))
  {
    var call := Call(table, c.key, r, c.bound);
    JoinText(acc, Single(call));
    SingleText(call);
    var x, y := ChainText(acc), AtomText(call);
    assert y == ConstraintInvocation(table, c, RefText(r));
    assert x + " && " + y == x + (" && " + y);
  }

  lemma {:induction false} WithCallsText(acc: Chain, table: string, cs: seq<Constraint>, r: Ref)
    ensures ChainText(WithCalls(acc, table, cs, r)) == ChainText(acc) + ConstraintCode(table, cs, RefText(r))
    decreases cs
  {
    var v, x := RefText(r), ChainText(acc);
    if cs == [] {
      assert x + "" == x;
    } else {
      var y := ConstraintCode(table, cs[1..], v);
      if IsKnownConstraint(table, cs[0].key) {
        var next := Conj(acc, Single(Call(table, cs[0].key, r, cs[0].bound)));
        assert WithCalls(acc, table, cs, r) == WithCalls(next, table, cs[1..], r);
        CallStepText(acc, table, cs[0], r);
        WithCallsText(next, table, cs[1..], r);
        Assoc(x, ConstraintCall(table, cs[0], v), y);
      } else {
        assert WithCalls(acc, table, cs, r) == WithCalls(acc, table, cs[1..], r);
        WithCallsText(acc, table, cs[1..], r);
        assert ConstraintCode(table, cs, v) == "" + y == y;
      }
    }
  }

  lemma TypeReadsAs(tag: string, cs: seq<Constraint>, r: Ref)
    ensures TypeValidation(tag, cs, RefText(r)) + "\n" == ChainText(AddBreak(WithCalls(Single(TypeIs(r, tag)), tag, cs, r)))
  {
    SingleText(TypeIs(r, tag));
    WithCallsText(Single(TypeIs(r, tag)), tag, cs, r);
    AddBreakText(WithCalls(Single(TypeIs(r, tag)), tag, cs, r));
  }

  lemma ArrayReadsAs(e: Schema, cs: seq<Constraint>, r: Ref, element: string)
    requires Expressible(e) && element == ChainText(Written(e, Var("element"), false))
    requires Gen(e, "element") == Ok(element)
    ensures ArrayValidation(e, cs, RefText(r)) == Ok(ChainText(Conj(WithCalls(Single(IsArray(r)), "array", cs, r), Single(Every(r, Written(e, Var("element"), false))))))
  {
    var v := RefText(r);
    var calls := WithCalls(Single(IsArray(r)), "array", cs, r);
    var every := Every(r, Written(e, Var("element"), false));
    var x, y := "Array.isArray(" + v + ")", ConstraintCode("array", cs, v);
    var z := v + ".every(element => " + element + ")";
    assert ChainText(calls) == x + y by {
      SingleText(IsArray(r));
      WithCallsText(Single(IsArray(r)), "array", cs, r);
    }
    assert ChainText(Single(every)) == z by {
      SingleText(every);
    }
    JoinText(calls, Single(every));
    var pre, ev := x + y + " && ", ".every(element => ";
    assert ArrayValidation(e, cs, v) == Ok(pre + v + ev + element + ")");
    Assoc(pre, v, ev);
    Assoc(pre, v + ev, element);
    Assoc(pre, v + ev + element, ")");
  }

  lemma ObjectHeaderText(r: Ref)
    ensures ChainText(Header(r)) == ObjectHeader(RefText(r))
  {
    SingleText(TypeIs(r, "object"));
    SingleText(NotNull(r));
    JoinText(Single(TypeIs(r, "object")), Single(NotNull(r)));
  }

  /** The generator's text for `s` on the reference `r` is the text of
      `Written(s, r, false)`. */
  lemma {:induction false} ReadsAs(s: Schema, r: Ref)
    requires Expressible(s)
    ensures Gen(s, RefText(r)) == Ok(ChainText(Written(s, r, false)))
    decreases s, 0
  {
    var v := RefText(r);
    match s
    case StringNode(cs) => TypeReadsAs("string", cs, r);
    case NumberNode(cs) => TypeReadsAs("number", cs, r);
    case BooleanNode =>
      SingleText(TypeIs(r, "boolean"));
      AddBreakText(Single(TypeIs(r, "boolean")));
    case ArrayNode(e, cs) =>
      ReadsAs(e, Var("element"));
      ArrayReadsAs(e, cs, r, ChainText(Written(e, Var("element"), false)));
      AddBreakText(Conj(WithCalls(Single(IsArray(r)), "array", cs, r), Single(Every(r, Written(e, Var("element"), false)))));
    case ObjectNode(ps) =>
      ObjectHeaderText(r);
      PropertiesReadAs(Header(r), ps, r);
      AddBreakText(PropertiesWritten(Header(r), ps, r, false));
    case UnionNode(ts) =>
      AlternativesReadAs(ts, r);
      AddBreakText(Alternatives(ts, r, false));
    case LiteralNode(l) =>
      SingleText(Equals(r, l));
      AddBreakText(Single(Equals(r, l)));
  }

  lemma {:induction false} PropertiesReadAs(acc: Chain, ps: seq<Property>, r: Ref)
    requires forall i :: 0 <= i < |ps| ==> PropertyExpressible(ps[i])
    ensures PropertyChecks(ps, RefText(r)).Ok?
    ensures ChainText(PropertiesWritten(acc, ps, r, false)) == ChainText(acc) + PropertyChecks(ps, RefText(r)).value
    decreases ps, 0
  {
    var v := RefText(r);
    if ps == [] {
      assert ChainText(acc) + "" == ChainText(acc);
    } else {
      var p := ps[0];
      var c := Written(p.value.value, Index(r, p.key), false);
      ReadsAs(p.value.value, Index(r, p.key));
      assert GenOpt(p.value, PropertyRef(v, p.key)) == Ok(ChainText(c));
      JoinText(acc, c);
      PropertiesReadAs(Conj(acc, c), ps[1..], r);
      var x, y, z := ChainText(acc), ChainText(c), PropertyChecks(ps[1..], v).value;
      assert PropertyChecks(ps, v) == Ok(" && " + y + z);
      Assoc(x + " && ", y, z);
      Assoc(x, " && ", y + z);
      Assoc(" && ", y, z);
    }
  }

  lemma {:induction false} AlternativesReadAs(ts: seq<Schema>, r: Ref)
    requires |ts| > 0 && forall i :: 0 <= i < |ts| ==> Expressible(ts[i])
    ensures UnionPieces(ts, RefText(r)).Ok? && |UnionPieces(ts, RefText(r)).value| == |ts|
    ensures Joined(UnionPieces(ts, RefText(r))) == Ok(ChainText(Alternatives(ts, r, false)))
    decreases ts, 0
  {
    var v := RefText(r);
    var w := Written(ts[0], r, false);
    ReadsAs(ts[0], r);
    SingleText(Group(w));
    var piece := "(" + ChainText(w) + ")";
    if |ts| == 1 {
      assert UnionPieces(ts[1..], v) == Ok([]);
      assert UnionPieces(ts, v) == Ok([piece] + []);
      assert [piece] + [] == [piece];
    } else {
      AlternativesReadAs(ts[1..], r);
      var rest := UnionPieces(ts[1..], v).value;
      assert UnionPieces(ts, v) == Ok([piece] + rest);
      var pieces := [piece] + rest;
      assert pieces[0] == piece && pieces[1..] == rest;
      JoinText(Single(Group(w)), Alternatives(ts[1..], r, false));
    }
  }

  // ----- How `Written` groups -----

  lemma {:induction false} WithCallsAllAnd(acc: Chain, table: string, cs: seq<Constraint>, r: Ref)
    requires AllAnd(acc.tail)
    ensures AllAnd(WithCalls(acc, table, cs, r).tail)
    decreases cs
  {
    if cs != [] {
      ConjEval(acc, Single(Call(table, cs[0].key, r, cs[0].bound)), map[]);
      var next := if IsKnownConstraint(table, cs[0].key) then Conj(acc, Single(Call(table, cs[0].key, r, cs[0].bound))) else acc;
      WithCallsAllAnd(next, table, cs[1..], r);
    }
  }

  /** The check of anything but a union of two or more members is a chain of
      `&&` only, so it stays whole when joined to others by `&&`. */
  lemma {:induction false} Conjunctive(s: Schema, r: Ref, g: bool)
    requires Expressible(s) && !IsDisjunction(s) && (g || NoBareUnionProperty(s))
    ensures AllAnd(Written(s, r, g).tail)
    decreases s, 0
  {
    match s
    case StringNode(cs) =>
      WithCallsAllAnd(Single(TypeIs(r, "string")), "string", cs, r);
      AddBreakEval(WithCalls(Single(TypeIs(r, "string")), "string", cs, r), map[]);
    case NumberNode(cs) =>
      WithCallsAllAnd(Single(TypeIs(r, "number")), "number", cs, r);
      AddBreakEval(WithCalls(Single(TypeIs(r, "number")), "number", cs, r), map[]);
    case BooleanNode =>
    case ArrayNode(e, cs) =>
      var calls := WithCalls(Single(IsArray(r)), "array", cs, r);
      WithCallsAllAnd(Single(IsArray(r)), "array", cs, r);
      ConjEval(calls, Single(Every(r, Written(e, Var("element"), g))), map[]);
      AddBreakEval(Conj(calls, Single(Every(r, Written(e, Var("element"), g)))), map[]);
    case ObjectNode(ps) =>
      ConjEval(Single(TypeIs(r, "object")), Single(NotNull(r)), map[]);
      PropertiesConjunctive(Header(r), ps, r, g);
      AddBreakEval(PropertiesWritten(Header(r), ps, r, g), map[]);
    case UnionNode(ts) =>
    case LiteralNode(l) =>
  }

  lemma {:induction false} PropertiesConjunctive(acc: Chain, ps: seq<Property>, r: Ref, g: bool)
    requires forall i :: 0 <= i < |ps| ==> PropertyExpressible(ps[i])
    requires g || forall i :: 0 <= i < |ps| ==> PropertyNotBareUnion(ps[i])
    requires AllAnd(acc.tail)
    ensures AllAnd(PropertiesWritten(acc, ps, r, g).tail)
    decreases ps, 0
  {
    if ps != [] {
      PropertyConjunctive(ps[0], r, g);
      ConjEval(acc, PropertyWritten(ps[0], r, g), map[]);
      PropertiesConjunctive(Conj(acc, PropertyWritten(ps[0], r, g)), ps[1..], r, g);
    }
  }

  lemma {:induction false} PropertyConjunctive(p: Property, r: Ref, g: bool)
    requires PropertyExpressible(p)
    requires g || PropertyNotBareUnion(p)
    ensures AllAnd(PropertyWritten(p, r, g).tail)
    decreases p, 0
  {
    if !g {
      Conjunctive(p.value.value, Index(r, p.key), g);
    }
  }

  // ----- What `Written` evaluates to -----

  /** Each own constraint of `table` measures `v` as `m`. */
  predicate MeasuredAs(table: string, v: JsValue, m: int) {
    forall k :: k in OwnConstraints(table) ==> Measure(k, v) == Some(m)
  }

  /** After a conjunction worth `b0`, the constraint calls make it
      `b0 && Holds(table, cs, m)`. */
  lemma {:induction false} CallsEval(acc: Chain, table: string, cs: seq<Constraint>, r: Ref, env: Env, v: JsValue, m: int, b0: bool)
    requires AllAnd(acc.tail) && EvalChain(acc, env) == Some(b0)
    requires EvalRef(r, env) == Some(v) && (b0 ==> MeasuredAs(table, v, m))
    requires NoInheritedKeys(cs)
    ensures EvalChain(WithCalls(acc, table, cs, r), env) == Some(b0 && Holds(table, cs, m))
    decreases cs
  {
    if cs != [] {
      var c := cs[0];
      var known := IsKnownConstraint(table, c.key);
      assert known <==> c.key in OwnConstraints(table);
      var b1 := b0 && (known ==> ConstraintHolds(c.key, m, c.bound));
      var next := if known then Conj(acc, Single(Call(table, c.key, r, c.bound))) else acc;
      if known {
        ConjEval(acc, Single(Call(table, c.key, r, c.bound)), env);
      }
      assert AllAnd(next.tail) && EvalChain(next, env) == Some(b1);
      CallsEval(next, table, cs[1..], r, env, v, m, b1);
      assert Holds(table, cs, m) <==> (known ==> ConstraintHolds(c.key, m, c.bound)) && Holds(table, cs[1..], m) by {
        assert forall i :: 0 < i < |cs| ==> cs[i] == cs[1..][i - 1];
      }
    }
  }

  lemma TypeSound(tag: string, cs: seq<Constraint>, r: Ref, env: Env, v: JsValue, m: int)
    requires EvalRef(r, env) == Some(v) && NoInheritedKeys(cs)
    requires Typeof(v) == tag ==> MeasuredAs(tag, v, m)
    ensures EvalChain(AddBreak(WithCalls(Single(TypeIs(r, tag)), tag, cs, r)), env) == Some(Typeof(v) == tag && Holds(tag, cs, m))
  {
    CallsEval(Single(TypeIs(r, tag)), tag, cs, r, env, v, m, Typeof(v) == tag);
    AddBreakEval(WithCalls(Single(TypeIs(r, tag)), tag, cs, r), env);
  }

  lemma HeaderEval(r: Ref, env: Env, v: JsValue)
    requires EvalRef(r, env) == Some(v)
    ensures EvalChain(Header(r), env) == Some(IsObject(v)) && AllAnd(Header(r).tail)
  {
    ConjEval(Single(TypeIs(r, "object")), Single(NotNull(r)), env);
  }

  /** With each property's check in parentheses, or with no union of two or
      more members as a property's type, the validator of `s` evaluates,
      without an exception, to whether the value conforms to `s`. */
  lemma {:induction false} WrittenSound(s: Schema, r: Ref, g: bool, env: Env, v: JsValue)
    requires Expressible(s) && NoInherited(s) && (g || NoBareUnionProperty(s))
    requires EvalRef(r, env) == Some(v)
    ensures EvalChain(Written(s, r, g), env) == Some(Conforms(s, v))
    decreases s, 2
  {
    match s
    case StringNode(cs) =>
      TypeSound("string", cs, r, env, v, if v.JsString? then Utf16Length(v.s) else 0);
    case NumberNode(cs) =>
      TypeSound("number", cs, r, env, v, if v.JsNumber? then v.n else 0);
    case BooleanNode =>
      AddBreakEval(Single(TypeIs(r, "boolean")), env);
    case ArrayNode(e, cs) =>
      ArraySound(s, r, g, env, v);
    case ObjectNode(ps) =>
      ObjectSound(s, r, g, env, v);
    case UnionNode(ts) =>
      UnionSound(s, r, g, env, v);
    case LiteralNode(l) =>
      AddBreakEval(Single(Equals(r, l)), env);
  }

  lemma {:induction false} ObjectSound(s: Schema, r: Ref, g: bool, env: Env, v: JsValue)
    requires s.ObjectNode? && Expressible(s) && NoInherited(s) && (g || NoBareUnionProperty(s))
    requires EvalRef(r, env) == Some(v)
    ensures EvalChain(Written(s, r, g), env) == Some(Conforms(s, v))
    decreases s, 1
  {
    var ps := s.properties;
    HeaderEval(r, env, v);
    PropertiesSound(Header(r), ps, r, g, env, v, IsObject(v));
    AddBreakEval(PropertiesWritten(Header(r), ps, r, g), env);
  }

  lemma {:induction false} UnionSound(s: Schema, r: Ref, g: bool, env: Env, v: JsValue)
    requires s.UnionNode? && Expressible(s) && NoInherited(s) && (g || NoBareUnionProperty(s))
    requires EvalRef(r, env) == Some(v)
    ensures EvalChain(Written(s, r, g), env) == Some(Conforms(s, v))
    decreases s, 1
  {
    AlternativesSound(s.types, r, g, env, v);
    AddBreakEval(Alternatives(s.types, r, g), env);
  }

  lemma {:induction false} ArraySound(s: Schema, r: Ref, g: bool, env: Env, v: JsValue)
    requires s.ArrayNode? && Expressible(s) && NoInherited(s) && (g || NoBareUnionProperty(s))
    requires EvalRef(r, env) == Some(v)
    ensures EvalChain(Written(s, r, g), env) == Some(Conforms(s, v))
    decreases s, 1
  {
    var e, cs := s.elementType, s.constraints;
    var calls := WithCalls(Single(IsArray(r)), "array", cs, r);
    var every := Single(Every(r, Written(e, Var("element"), g)));
    CallsEval(Single(IsArray(r)), "array", cs, r, env, v, if v.JsArray? then |v.elements| else 0, v.JsArray?);
    WithCallsAllAnd(Single(IsArray(r)), "array", cs, r);
    ConjEval(calls, every, env);
    AddBreakEval(Conj(calls, every), env);
    if v.JsArray? {
      EverySound(e, g, v.elements, env);
    }
  }

  lemma {:induction false} EverySound(e: Schema, g: bool, xs: seq<JsValue>, env: Env)
    requires Expressible(e) && NoInherited(e) && (g || NoBareUnionProperty(e))
    ensures EvalEvery(Written(e, Var("element"), g), xs, env) == Some(forall i :: 0 <= i < |xs| ==> Conforms(e, xs[i]))
    decreases e, |xs| + 3
  {
    if xs != [] {
      WrittenSound(e, Var("element"), g, env["element" := xs[0]], xs[0]);
      EverySound(e, g, xs[1..], env);
      assert forall i :: 0 < i < |xs| ==> xs[i] == xs[1..][i - 1];
    }
  }

  lemma {:induction false} PropertiesSound(acc: Chain, ps: seq<Property>, r: Ref, g: bool, env: Env, v: JsValue, b0: bool)
    requires forall i :: 0 <= i < |ps| ==> PropertyExpressible(ps[i])
    requires forall i :: 0 <= i < |ps| ==> PropertyNoInherited(ps[i])
    requires g || forall i :: 0 <= i < |ps| ==> PropertyNotBareUnion(ps[i])
    requires AllAnd(acc.tail) && EvalChain(acc, env) == Some(b0) && (b0 ==> IsObject(v))
    requires EvalRef(r, env) == Some(v)
    ensures EvalChain(PropertiesWritten(acc, ps, r, g), env) == Some(b0 && forall i :: 0 <= i < |ps| ==> PropertyConforms(ps[i], v))
    decreases ps, 0
  {
    if ps != [] {
      var c := PropertyWritten(ps[0], r, g);
      PropertyConjunctive(ps[0], r, g);
      ConjEval(acc, c, env);
      var b1 := b0 && PropertyConforms(ps[0], v);
      if b0 {
        PropertySound(ps[0], r, g, env, v);
      }
      assert EvalChain(Conj(acc, c), env) == Some(b1);
      PropertiesSound(Conj(acc, c), ps[1..], r, g, env, v, b1);
      assert forall i :: 0 < i < |ps| ==> ps[i] == ps[1..][i - 1];
    }
  }

  lemma {:induction false} PropertySound(p: Property, r: Ref, g: bool, env: Env, v: JsValue)
    requires PropertyExpressible(p) && PropertyNoInherited(p)
    requires g || PropertyNotBareUnion(p)
    requires EvalRef(r, env) == Some(v) && IsObject(v)
    ensures EvalChain(PropertyWritten(p, r, g), env) == Some(PropertyConforms(p, v))
    decreases p, 0
  {
    assert EvalRef(Index(r, p.key), env) == Some(Member(v, p.key));
    WrittenSound(p.value.value, Index(r, p.key), g, env, Member(v, p.key));
  }

  lemma {:induction false} AlternativesSound(ts: seq<Schema>, r: Ref, g: bool, env: Env, v: JsValue)
    requires |ts| > 0 && forall i :: 0 <= i < |ts| ==> Expressible(ts[i])
    requires forall i :: 0 <= i < |ts| ==> NoInherited(ts[i]) && (g || NoBareUnionProperty(ts[i]))
    requires EvalRef(r, env) == Some(v)
    ensures EvalChain(Alternatives(ts, r, g), env) == Some(exists i :: 0 <= i < |ts| && Conforms(ts[i], v))
    decreases ts, 0
  {
    var w := Written(ts[0], r, g);
    WrittenSound(ts[0], r, g, env, v);
    assert EvalAtom(Group(w), env) == Some(Conforms(ts[0], v));
    SomeConformsSplit(ts, v);
    if |ts| > 1 {
      assert forall i :: 0 <= i < |ts| - 1 ==> ts[1..][i] == ts[i + 1];
      AlternativesSound(ts[1..], r, g, env, v);
      DisjEval(Group(w), Alternatives(ts[1..], r, g), env);
    }
  }

  /** Some member conforms exactly when the first does or some later one does. */
  lemma SomeConformsSplit(ts: seq<Schema>, v: JsValue)
    requires |ts| > 0
    ensures (exists i :: 0 <= i < |ts| && Conforms(ts[i], v)) <==>
      Conforms(ts[0], v) || exists j :: 0 <= j < |ts| - 1 && Conforms(ts[1..][j], v)
  {
    if exists i :: 0 <= i < |ts| && Conforms(ts[i], v) {
      var i :| 0 <= i < |ts| && Conforms(ts[i], v);
      if i > 0 {
        assert ts[1..][i - 1] == ts[i];
      }
    }
    if exists j :: 0 <= j < |ts| - 1 && Conforms(ts[1..][j], v) {
      var j :| 0 <= j < |ts| - 1 && Conforms(ts[1..][j], v);
      assert ts[j + 1] == ts[1..][j];
    }
  }

  // ----- The generator as written: a union-typed property -----

  /** `{a: string | number, b: string}` */
  function UnionPropertySchema(): Schema {
    ObjectNode([Property("a", Some(UnionNode([StringNode([]), NumberNode([])]))), Property("b", Some(StringNode([])))])
  }

  /** The generator's text for the schema reads as the chain `Written`
      builds without parentheses. */
  lemma UnionPropertyText()
    ensures Gen(UnionPropertySchema(), "test1") == Ok(ChainText(Written(UnionPropertySchema(), Var("test1"), false)))
  {
    ReadsAs(UnionPropertySchema(), Var("test1"));
  }

  /** The chain the generator's text for the schema reads as, on reference
      `t`: `typeof t === 'object' && t !== null && (typeof t['a'] ===
      'string') || (typeof t['a'] === 'number') && typeof t['b'] === 'string'`. */
  lemma UnionPropertyShape(t: Ref)
    ensures (var c := PropertiesWritten(Header(t), UnionPropertySchema().properties, t, false);
      Written(UnionPropertySchema(), t, false) == AddBreak(c) && UnionPropertyChain(c, t))
  {
    var a, b := Index(t, "a"), Index(t, "b");
    assert Written(StringNode([]), a, false) == Chain(Term(TypeIs(a, "string"), 1), []);
    assert Written(NumberNode([]), a, false) == Chain(Term(TypeIs(a, "number"), 1), []);
    var ps := UnionPropertySchema().properties;
    var pa := Written(UnionNode([StringNode([]), NumberNode([])]), a, false);
    var pb := Written(StringNode([]), b, false);
    assert PropertyWritten(ps[0], t, false) == pa && PropertyWritten(ps[1], t, false) == pb;
    assert pa.head == Term(Group(Written(StringNode([]), a, false)), 0);
    assert pa.tail == [Link(OrOp, Term(Group(Written(NumberNode([]), a, false)), 1))];
    assert pb == Chain(Term(TypeIs(b, "string"), 1), []);
    assert ps[1..][1..] == [];
    assert PropertiesWritten(Header(t), ps, t, false) == Conj(Conj(Header(t), pa), pb);
  }

  /** The schema is within the semantics. */
  lemma UnionPropertyCovered()
    ensures Expressible(UnionPropertySchema()) && NoInherited(UnionPropertySchema())
  {
    var ps := UnionPropertySchema().properties;
    assert PropertyExpressible(ps[0]) && PropertyExpressible(ps[1]);
    assert PropertyNoInherited(ps[0]) && PropertyNoInherited(ps[1]);
  }

  /** The value `{a: "x", b: 1}` does not have the schema's type. */
  lemma UnionPropertyMismatch()
    ensures !Conforms(UnionPropertySchema(), JsObject([Field("a", JsString("x")), Field("b", JsNumber(1))]))
  {
    var v := JsObject([Field("a", JsString("x")), Field("b", JsNumber(1))]);
    assert Member(v, "b") == JsNumber(1);
    assert !PropertyConforms(UnionPropertySchema().properties[1], v);
  }

  /** `h && x && y || …` with `h`, `x` and `y` true is true: the `||`
      ends the evaluation. */
  lemma {:induction false} OrAfterTrue(c: Chain, env: Env)
    requires |c.tail| >= 3 && c.tail[0].op == AndOp && c.tail[1].op == AndOp && c.tail[2].op == OrOp
    requires EvalAtom(c.head.atom, env) == Some(true)
    requires EvalLink(c.tail[0], env) == Some(true) && EvalLink(c.tail[1], env) == Some(true)
    ensures EvalChain(c, env) == Some(true)
  {
    assert c.tail[1..][0] == c.tail[1] && c.tail[1..][1..] == c.tail[2..];
    assert c.tail[2..][0] == c.tail[2];
    assert EvalTail(true, c.tail[2..], env) == Some(true);
    assert EvalTail(true, c.tail[1..], env) == EvalTail(true, c.tail[2..], env);
    assert EvalTail(true, c.tail, env) == EvalTail(true, c.tail[1..], env);
  }

  /** `h && x && y || z …` with `h` true and `x` false evaluates `z`, and
      throws when `z` throws. */
  lemma {:induction false} OrAfterFalse(c: Chain, env: Env)
    requires |c.tail| >= 3 && c.tail[0].op == AndOp && c.tail[1].op == AndOp && c.tail[2].op == OrOp
    requires EvalAtom(c.head.atom, env) == Some(true)
    requires EvalLink(c.tail[0], env) == Some(false) && EvalLink(c.tail[2], env) == None
    ensures EvalChain(c, env) == None
  {
    assert c.tail[1..][0] == c.tail[1] && c.tail[1..][1..] == c.tail[2..];
    assert c.tail[2..][0] == c.tail[2];
    assert EvalTail(false, c.tail[2..], env) == None;
    assert EvalTail(false, c.tail[1..], env) == None;
  }

  /** The chain `typeof t === 'object' && t !== null && (typeof t['a'] ===
      'string') || (typeof t['a'] === 'number') && typeof t['b'] === 'string'`. */
  predicate UnionPropertyChain(c: Chain, t: Ref) {
    var a := Index(t, "a");
    c.head == Term(TypeIs(t, "object"), 0) &&
    c.tail == [Link(AndOp, Term(NotNull(t), 0)),
               Link(AndOp, Term(Group(Chain(Term(TypeIs(a, "string"), 1), [])), 0)),
               Link(OrOp, Term(Group(Chain(Term(TypeIs(a, "number"), 1), [])), 1)),
               Link(AndOp, Term(TypeIs(Index(t, "b"), "string"), 1))]
  }

  lemma UnionPropertyChainAccepts(c: Chain, t: Ref, env: Env, v: JsValue)
    requires UnionPropertyChain(c, t)
    requires EvalRef(t, env) == Some(v) && IsObject(v) && Member(v, "a").JsString?
    ensures EvalChain(c, env) == Some(true)
  {
    var a := Index(t, "a");
    var str := Chain(Term(TypeIs(a, "string"), 1), []);
    assert c.tail[1].term.atom == Group(str);
    assert EvalRef(a, env) == Some(Member(v, "a"));
    assert EvalAtom(TypeIs(a, "string"), env) == Some(true);
    assert EvalChain(str, env) == Some(true);
    OrAfterTrue(c, env);
  }

  lemma UnionPropertyChainThrows(c: Chain, t: Ref, env: Env)
    requires UnionPropertyChain(c, t)
    requires EvalRef(t, env) == Some(JsNull)
    ensures EvalChain(c, env) == None
  {
    var a := Index(t, "a");
    var num := Chain(Term(TypeIs(a, "number"), 1), []);
    assert c.tail[2].term.atom == Group(num);
    assert EvalRef(a, env) == None;
    assert EvalAtom(TypeIs(a, "number"), env) == None;
    assert EvalChain(num, env) == None;
    OrAfterFalse(c, env);
  }

  /** The chain as written accepts any object whose property `a` is a
      string, whatever its property `b`: once `typeof t['a'] === 'string'`
      holds, the `||` ends the evaluation before `t['b']` is checked. */
  lemma UnionPropertyAcceptsAnyB(t: Ref, env: Env, v: JsValue)
    requires EvalRef(t, env) == Some(v) && IsObject(v) && Member(v, "a").JsString?
    ensures EvalChain(Written(UnionPropertySchema(), t, false), env) == Some(true)
  {
    var c := PropertiesWritten(Header(t), UnionPropertySchema().properties, t, false);
    UnionPropertyShape(t);
    UnionPropertyChainAccepts(c, t, env, v);
    AddBreakEval(c, env);
  }

  /** In particular it accepts `{a: "x", b: 1}`. */
  lemma UnionPropertyAccepted()
    ensures EvalChain(Written(UnionPropertySchema(), Var("test1"), false), map["test1" := JsObject([Field("a", JsString("x")), Field("b", JsNumber(1))])]) == Some(true)
  {
    var v := JsObject([Field("a", JsString("x")), Field("b", JsNumber(1))]);
    assert Member(v, "a") == JsString("x");
    UnionPropertyAcceptsAnyB(Var("test1"), map["test1" := v], v);
  }

  /** With the property checks in parentheses, `{a: "x", b: 1}` is refused. */
  lemma UnionPropertyRefusedGrouped()
    ensures EvalChain(Written(UnionPropertySchema(), Var("test1"), true), map["test1" := JsObject([Field("a", JsString("x")), Field("b", JsNumber(1))])]) == Some(false)
  {
    var v := JsObject([Field("a", JsString("x")), Field("b", JsNumber(1))]);
    UnionPropertyMismatch();
    UnionPropertyCovered();
    WrittenSound(UnionPropertySchema(), Var("test1"), true, map["test1" := v], v);
  }

  /** The text `typeof test1 === 'object' && test1 !== null && (A) || (B) && C`
      groups as `(… && A) || (B && C)`: the value `{a: "x", b: 1}` does not
      have the type, yet the validator the generator writes accepts it. With
      the property checks in parentheses it is refused. */
  lemma UnionPropertyEscapes()
    ensures Gen(UnionPropertySchema(), "test1") == Ok(ChainText(Written(UnionPropertySchema(), Var("test1"), false)))
    ensures !Conforms(UnionPropertySchema(), JsObject([Field("a", JsString("x")), Field("b", JsNumber(1))]))
    ensures EvalChain(Written(UnionPropertySchema(), Var("test1"), false), map["test1" := JsObject([Field("a", JsString("x")), Field("b", JsNumber(1))])]) == Some(true)
    ensures EvalChain(Written(UnionPropertySchema(), Var("test1"), true), map["test1" := JsObject([Field("a", JsString("x")), Field("b", JsNumber(1))])]) == Some(false)
  {
    UnionPropertyText();
    UnionPropertyMismatch();
    UnionPropertyAccepted();
    UnionPropertyRefusedGrouped();
  }

  /** On any reference whose value is `null`, the validator as written
      reads `null['a']` and throws a TypeError. */
  lemma NullThrowsOn(t: Ref, env: Env)
    requires EvalRef(t, env) == Some(JsNull)
    ensures EvalChain(Written(UnionPropertySchema(), t, false), env) == None
  {
    var c := PropertiesWritten(Header(t), UnionPropertySchema().properties, t, false);
    UnionPropertyShape(t);
    UnionPropertyChainThrows(c, t, env);
    AddBreakEval(c, env);
  }

  /** On `null` the same validator throws a TypeError; with the property
      checks in parentheses it returns false. */
  lemma NullInputThrows()
    ensures EvalChain(Written(UnionPropertySchema(), Var("test1"), false), map["test1" := JsNull]) == None
    ensures EvalChain(Written(UnionPropertySchema(), Var("test1"), true), map["test1" := JsNull]) == Some(false)
  {
    NullThrowsOn(Var("test1"), map["test1" := JsNull]);
    UnionPropertyCovered();
    WrittenSound(UnionPropertySchema(), Var("test1"), true, map["test1" := JsNull], JsNull);
  }
}
