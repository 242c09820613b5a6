/** The fragment of JavaScript the validator generator writes: values, the
    expressions its text is made of, how that text reads under JavaScript's
    operator precedence, and how it evaluates.

    Generated text is a chain of terms separated by `&&` and `||`. Each term
    (a `typeof` test, a comparison, a call, an `every`, a parenthesized
    group) is closed in itself. JavaScript groups such a chain by precedence:
    `&&` binds tighter than `||`, both associate to the left and both
    short-circuit. `EvalChain` evaluates a chain in exactly that reading. */
module JsModel {
  import opened Common
  import opened Schema
  import opened Validation

  // ----- Values -----

  datatype JsValue =
    | JsUndefined
    | JsNull
    | JsBool(b: bool)
    | JsNumber(n: int)
    | JsString(s: string)
    | JsBigInt(big: int)
    | JsArray(elements: seq<JsValue>)
    | JsObject(fields: seq<Field>)

  datatype Field = Field(name: string, val: JsValue)

  /** The `typeof` operator. */
  function Typeof(v: JsValue): string {
    match v
    case JsUndefined => "undefined"
    case JsNull => "object"
    case JsBool(_) => "boolean"
    case JsNumber(_) => "number"
    case JsString(_) => "string"
    case JsBigInt(_) => "bigint"
    case JsArray(_) => "object"
    case JsObject(_) => "object"
  }

  /** `typeof v === 'object' && v !== null` */
  predicate IsObject(v: JsValue) {
    Typeof(v) == "object" && v != JsNull
  }

  function FieldValue(fs: seq<Field>, k: string): JsValue {
    if fs == [] then JsUndefined else if fs[0].name == k then fs[0].val else FieldValue(fs[1..], k)
  }

  /** `s.length`: JavaScript counts UTF-16 code units, two for a character
      outside the Basic Multilingual Plane and one for any other. */
  function Utf16Length(s: string): (n: nat)
    ensures |s| <= n <= 2 * |s|
    ensures n == |s| <==> forall i :: 0 <= i < |s| ==> s[i] < '\U{10000}'
  {
    if s == [] then 0
    else
      assert forall i :: 1 <= i < |s| ==> s[1..][i - 1] == s[i];
      (if s[0] < '\U{10000}' then 1 else 2) + Utf16Length(s[1..])
  }

  /** `v[k]`: a TypeError on null and undefined. Arrays and strings expose
      `length`; index keys and inherited members read as undefined. */
  function Get(v: JsValue, k: string): Option<JsValue> {
    match v
    case JsUndefined => None
    case JsNull => None
    case JsObject(fs) => Some(FieldValue(fs, k))
    case JsArray(es) => Some(if k == "length" then JsNumber(|es|) else JsUndefined)
    case JsString(s) => Some(if k == "length" then JsNumber(Utf16Length(s)) else JsUndefined)
    case _ => Some(JsUndefined)
  }

  /** `v === <literal>` */
  predicate StrictEquals(v: JsValue, l: LitValue) {
    match l
    case LitString(s) => v == JsString(s)
    case LitNumber(n) => v == JsNumber(n)
    case LitBool(b) => v == JsBool(b)
    case LitBigInt(n) => v == JsBigInt(n)
  }

  // ----- Expressions -----

  /** A variable, or a property of a reference: `v['key']`. */
  datatype Ref = Var(name: string) | Index(base: Ref, key: string)

  datatype Atom =
    | TypeIs(target: Ref, tag: string)                           // typeof r === 'tag'
    | NotNull(target: Ref)                                       // r !== null
    | IsArray(target: Ref)                                       // Array.isArray(r)
    | Call(table: string, key: string, target: Ref, bound: int)  // constraintFunctions['t']['k'](r, b)
    | Every(target: Ref, body: Chain)                            // r.every(element => body)
    | Equals(target: Ref, lit: LitValue)                         // r === <JSON of lit>
    | Group(inner: Chain)                                        // (inner)

  /** A term and the line breaks written after it. */
  datatype Term = Term(atom: Atom, breaks: nat)

  datatype Op = AndOp | OrOp

  datatype Link = Link(op: Op, term: Term)

  /** `head op1 term1 op2 term2 …` */
  datatype Chain = Chain(head: Term, tail: seq<Link>)

  // ----- The text -----

  function RefText(r: Ref): string {
    match r
    case Var(n) => n
    case Index(b, k) => PropertyRef(RefText(b), k)
  }

  function Breaks(n: nat): string {
    if n == 0 then "" else Breaks(n - 1) + "\n"
  }

  function AtomText(a: Atom): string
    decreases a
  {
    match a
    case TypeIs(r, tag) => TypeofCheck(RefText(r), tag)
    case NotNull(r) => RefText(r) + " !== null"
    case IsArray(r) => "Array.isArray(" + RefText(r) + ")"
    case Call(t, k, r, b) => ConstraintInvocation(t, Constraint(k, b), RefText(r))
    case Every(r, body) => RefText(r) + ".every(element => " + ChainText(body) + ")"
    case Equals(r, l) => RefText(r) + " === " + (var t := LiteralText(l); if t.Ok? then t.value else "")
    case Group(c) => "(" + ChainText(c) + ")"
  }

  function TermText(t: Term): string
    decreases t
  {
    AtomText(t.atom) + Breaks(t.breaks)
  }

  function OpText(op: Op): string {
    if op == AndOp then " && " else " || "
  }

  function LinkText(l: Link): string
    decreases l
  {
    OpText(l.op) + TermText(l.term)
  }

  function LinksText(ls: seq<Link>): string
    decreases ls
  {
    if ls == [] then "" else LinkText(ls[0]) + LinksText(ls[1..])
  }

  function ChainText(c: Chain): string
    decreases c
  {
    TermText(c.head) + LinksText(c.tail)
  }

  // ----- Building chains -----

  function Single(a: Atom): Chain {
    Chain(Term(a, 0), [])
  }

  /** The chain whose text is `c1 && c2`. */
  function Conj(c1: Chain, c2: Chain): Chain {
    Chain(c1.head, c1.tail + [Link(AndOp, c2.head)] + c2.tail)
  }

  /** The chain whose text is `c1 || c2`. */
  function Disj(c1: Chain, c2: Chain): Chain {
    Chain(c1.head, c1.tail + [Link(OrOp, c2.head)] + c2.tail)
  }

  function Broken(t: Term): Term {
    Term(t.atom, t.breaks + 1)
  }

  /** The chain whose text is `c` followed by a line break. */
  function AddBreak(c: Chain): Chain {
    if c.tail == [] then Chain(Broken(c.head), [])
    else
      var last := c.tail[|c.tail| - 1];
      Chain(c.head, c.tail[..|c.tail| - 1] + [Link(last.op, Broken(last.term))])
  }

  /** Every operator of the chain is `&&`. */
  predicate AllAnd(ls: seq<Link>) {
    forall i :: 0 <= i < |ls| ==> ls[i].op == AndOp
  }

  // ----- Evaluation -----

  type Env = map<string, JsValue>

  /** The value of a reference; `None` is an exception (an unbound name, or a
      property read on null or undefined). */
  function EvalRef(r: Ref, env: Env): Option<JsValue> {
    match r
    case Var(n) => if n in env then Some(env[n]) else None
    case Index(b, k) => (var base := EvalRef(b, env); if base.None? then None else Get(base.value, k))
  }

  /** What a constraint function measures: the length for minLength and
      maxLength, the value for min and max. */
  function Measure(key: string, v: JsValue): Option<int> {
    if key in {"minLength", "maxLength"} then
      (if v.JsString? then Some(Utf16Length(v.s)) else if v.JsArray? then Some(|v.elements|) else None)
    else if key in {"min", "max"} then
      (if v.JsNumber? then Some(v.n) else None)
    else None
  }

  /** The value of a term; `None` is an exception. A call to a member that the
      constraint table only inherits is outside the model and reads as `None`;
      a constraint call on a value it cannot measure is false. */
  function EvalAtom(a: Atom, env: Env): Option<bool>
    decreases a, 0
  {
    match a
    case Group(c) => EvalChain(c, env)
    case Every(r, body) =>
      var v := EvalRef(r, env);
      if v.None? || !v.value.JsArray? then None else EvalEvery(body, v.value.elements, env)
    case TypeIs(r, tag) =>
      var v := EvalRef(r, env);
      if v.None? then None else Some(Typeof(v.value) == tag)
    case NotNull(r) =>
      var v := EvalRef(r, env);
      if v.None? then None else Some(v.value != JsNull)
    case IsArray(r) =>
      var v := EvalRef(r, env);
      if v.None? then None else Some(v.value.JsArray?)
    case Equals(r, l) =>
      var v := EvalRef(r, env);
      if v.None? then None else Some(StrictEquals(v.value, l))
    case Call(t, k, r, b) =>
      var v := EvalRef(r, env);
      if v.None? || k !in OwnConstraints(t) then None
      else
        var m := Measure(k, v.value);
        Some(m.Some? && ConstraintHolds(k, m.value, b))
  }

  /** The term of a link. */
  function EvalLink(l: Link, env: Env): Option<bool>
    decreases l, 1
  {
    EvalAtom(l.term.atom, env)
  }

  /** `xs.every(element => body)` */
  function EvalEvery(body: Chain, xs: seq<JsValue>, env: Env): Option<bool>
    decreases body, |xs|
  {
    if xs == [] then Some(true)
    else
      var b := EvalChain(body, env["element" := xs[0]]);
      if b.None? then None else if !b.value then Some(false) else EvalEvery(body, xs[1..], env)
  }

  /** The rest of a chain, after terms whose grouping by precedence gave `cur`
      for the conjunction in progress. */
  function EvalTail(cur: bool, ls: seq<Link>, env: Env): Option<bool>
    decreases ls, 0
  {
    if ls == [] then Some(cur)
    else if ls[0].op == AndOp && !cur then EvalTail(false, ls[1..], env)
    else if ls[0].op == OrOp && cur then Some(true)
    else
      var b := EvalLink(ls[0], env);
      if b.None? then None else EvalTail(b.value, ls[1..], env)
  }

  function EvalChain(c: Chain, env: Env): Option<bool>
    decreases c, 0
  {
    var b := EvalAtom(c.head.atom, env);
    if b.None? then None else EvalTail(b.value, c.tail, env)
  }

  /** `x && y` on outcomes: an exception in `x` propagates, false stops. */
  function AndThen(x: Option<bool>, y: Option<bool>): Option<bool> {
    if x.None? then None else if !x.value then Some(false) else y
  }

  // ----- Lemmas about text -----

  lemma {:induction false} LinksTextAppend(a: seq<Link>, b: seq<Link>)
    ensures LinksText(a + b) == LinksText(a) + LinksText(b)
    decreases a
  {
    if a == [] {
      assert a + b == b;
    } else {
      LinksTextAppend(a[1..], b);
      var ab := a + b;
      assert ab[0] == a[0] && ab[1..] == a[1..] + b;
      assert LinksText(ab) == LinkText(a[0]) + LinksText(ab[1..]);
      Assoc(LinkText(a[0]), LinksText(a[1..]), LinksText(b));
    }
  }

  lemma OneLinkText(l: Link)
    ensures LinksText([l]) == LinkText(l)
  {
    assert [l][1..] == [];
  }

  lemma ConcatAssoc(x: string, y: string, o: string, z: string, w: string)
    ensures x + ((y + (o + z)) + w) == (x + y) + o + (z + w)
  {
  }

  /** The text of a chain joined to another by `op`. */
  lemma OpJoinText(c1: Chain, op: Op, c2: Chain)
    ensures ChainText(Chain(c1.head, c1.tail + [Link(op, c2.head)] + c2.tail)) == ChainText(c1) + OpText(op) + ChainText(c2)
  {
    var l := Link(op, c2.head);
    var m := LinksText(c1.tail + [l] + c2.tail);
    assert m == (LinksText(c1.tail) + LinkText(l)) + LinksText(c2.tail) by {
      LinksTextAppend(c1.tail + [l], c2.tail);
      LinksTextAppend(c1.tail, [l]);
      OneLinkText(l);
    }
    ConcatAssoc(TermText(c1.head), LinksText(c1.tail), OpText(op), TermText(c2.head), LinksText(c2.tail));
  }

  /** The text of `Conj(c1, c2)` is `c1 && c2`; of `Disj(c1, c2)`, `c1 || c2`. */
  lemma JoinText(c1: Chain, c2: Chain)
    ensures ChainText(Conj(c1, c2)) == ChainText(c1) + " && " + ChainText(c2)
    ensures ChainText(Disj(c1, c2)) == ChainText(c1) + " || " + ChainText(c2)
  {
    OpJoinText(c1, AndOp, c2);
    OpJoinText(c1, OrOp, c2);
  }

  /** The text of `AddBreak(c)` is the text of `c` and a line break. */
  lemma AddBreakText(c: Chain)
    ensures ChainText(AddBreak(c)) == ChainText(c) + "\n"
  {
    if c.tail == [] {
      assert ChainText(AddBreak(c)) == TermText(Broken(c.head)) + "";
      assert TermText(Broken(c.head)) == AtomText(c.head.atom) + (Breaks(c.head.breaks) + "\n");
      Assoc(AtomText(c.head.atom), Breaks(c.head.breaks), "\n");
      assert ChainText(c) == TermText(c.head) + "";
    } else {
      var n := |c.tail|;
      var init, last := c.tail[..n - 1], c.tail[n - 1];
      var l' := Link(last.op, Broken(last.term));
      assert c.tail == init + [last];
      LinksTextAppend(init, [last]);
      LinksTextAppend(init, [l']);
      OneLinkText(last);
      OneLinkText(l');
      var o, a, k := OpText(last.op), AtomText(last.term.atom), Breaks(last.term.breaks);
      assert LinkText(l') == o + (a + (k + "\n"));
      Assoc(a, k, "\n");
      Assoc(o, a + k, "\n");
      assert LinkText(l') == LinkText(last) + "\n";
      var h, i := TermText(c.head), LinksText(init);
      Assoc(i, LinkText(last), "\n");
      Assoc(h, i + LinkText(last), "\n");
    }
  }

  // ----- Lemmas about evaluation -----

  lemma {:induction false} TailIgnoresBreak(cur: bool, ls: seq<Link>, env: Env)
    requires ls != []
    ensures EvalTail(cur, ls[..|ls| - 1] + [Link(ls[|ls| - 1].op, Broken(ls[|ls| - 1].term))], env) == EvalTail(cur, ls, env)
    decreases ls
  {
    var n := |ls|;
    var ls' := ls[..n - 1] + [Link(ls[n - 1].op, Broken(ls[n - 1].term))];
    if n > 1 {
      assert ls'[1..] == ls[1..][..n - 2] + [Link(ls[1..][n - 2].op, Broken(ls[1..][n - 2].term))];
      TailIgnoresBreak(false, ls[1..], env);
      TailIgnoresBreak(true, ls[1..], env);
    }
  }

  /** Line breaks do not change what a chain evaluates to or how it groups. */
  lemma AddBreakEval(c: Chain, env: Env)
    ensures EvalChain(AddBreak(c), env) == EvalChain(c, env)
    ensures AllAnd(AddBreak(c).tail) <==> AllAnd(c.tail)
  {
    if c.tail != [] {
      var b := EvalAtom(c.head.atom, env);
      if b.Some? {
        TailIgnoresBreak(b.value, c.tail, env);
      }
      var n := |c.tail|;
      assert forall i :: 0 <= i < n ==> AddBreak(c).tail[i].op == c.tail[i].op;
    }
  }

  /** Once a conjunction of `&&`-only links is false, the rest is skipped. */
  lemma {:induction false} SkippedConjunction(ls: seq<Link>, env: Env)
    requires AllAnd(ls)
    ensures EvalTail(false, ls, env) == Some(false)
    decreases ls
  {
    if ls != [] {
      SkippedConjunction(ls[1..], env);
    }
  }

  lemma {:induction false} TailAppendAnd(cur: bool, a: seq<Link>, b: seq<Link>, env: Env)
    requires AllAnd(a) && AllAnd(b) && b != [] && b[0].op == AndOp
    ensures EvalTail(cur, a + b, env) == AndThen(EvalTail(cur, a, env), EvalTail(true, b, env))
    decreases a
  {
    if a == [] {
      assert a + b == b;
      if !cur {
        SkippedConjunction(b, env);
      }
    } else {
      assert (a + b)[0] == a[0] && (a + b)[1..] == a[1..] + b;
      TailAppendAnd(false, a[1..], b, env);
      TailAppendAnd(true, a[1..], b, env);
      var x := EvalLink(a[0], env);
      if cur && x.Some? {
        TailAppendAnd(x.value, a[1..], b, env);
      }
    }
  }

  /** A conjunction of two `&&`-only chains evaluates as `c1 && c2`. */
  lemma ConjEval(c1: Chain, c2: Chain, env: Env)
    requires AllAnd(c1.tail) && AllAnd(c2.tail)
    ensures EvalChain(Conj(c1, c2), env) == AndThen(EvalChain(c1, env), EvalChain(c2, env))
    ensures AllAnd(Conj(c1, c2).tail)
  {
    var b := [Link(AndOp, c2.head)] + c2.tail;
    assert Conj(c1, c2).tail == c1.tail + b;
    assert b[1..] == c2.tail;
    var x := EvalAtom(c1.head.atom, env);
    if x.Some? {
      TailAppendAnd(x.value, c1.tail, b, env);
    }
  }

  /** A single term followed by `||` evaluates as `t || c`. */
  lemma DisjEval(a: Atom, c: Chain, env: Env)
    ensures EvalChain(Disj(Single(a), c), env) ==
      (var x := EvalAtom(a, env); if x.None? then None else if x.value then Some(true) else EvalChain(c, env))
  {
    var d := Disj(Single(a), c);
    assert d.tail == [Link(OrOp, c.head)] + c.tail;
    assert d.tail[0] == Link(OrOp, c.head) && d.tail[1..] == c.tail;
    assert d.head.atom == a;
    var x := EvalAtom(a, env);
    if x.Some? && !x.value {
      assert EvalTail(false, d.tail, env) == (var y := EvalLink(d.tail[0], env); if y.None? then None else EvalTail(y.value, c.tail, env));
    }
  }
}
