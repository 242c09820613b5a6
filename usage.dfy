/** index.ts: which calls of a parsed file reach isProcessor, and in what
    order. The `visit*` functions of the source are recursive dispatch over
    the syntax tree; they keep no state of their own and change the tree only
    through isProcessor's in-place rename of a callee identifier.

    `ExprReach`, `InitReach`, `StmtReach`, `ItemReach` and their companions
    list the calls whose callee the walk tests, in the order it tests them,
    for each position the source distinguishes: expression position
    (visitExpression), a variable initializer (visitVariableDeclaration),
    a nested statement (visitStatement) and a module item
    (findSwcTypiaUsage). `Run` says what processing those calls in order
    does: each tracked callee is renamed, and the first exception stops the
    walk. Every visit method is proved to do exactly that. */
module Usage {
  import opened Common
  import opened Syntax
  import opened IsProcessor

  // ----- The calls each position reaches -----

  /** visitExpression: only array, call, arrow-function, class, yield and
      await nodes are looked into; a call's arguments are not. */
  function ExprReach(e: Expr): seq<Expr>
    decreases e, 1
  {
    match e
    case ArrayExpr(es) => ElementsReach(es)
    case CallExpr(_, _, _) => [e]
    case ArrowExpr(b) => ArrowReach(b)
    case ClassExpr(ms) => MembersReach(ms)
    case YieldExpr(y) => OptExprReach(y)
    case AwaitExpr(x) => ExprReach(x)
    case _ => []
  }

  function OptExprReach(x: Option<Expr>): seq<Expr>
    decreases x, 2
  {
    if x.Some? then ExprReach(x.value) else []
  }

  /** visitArrayExpression: the elements in order; holes are skipped. */
  function ElementsReach(es: seq<Option<Expr>>): seq<Expr>
    decreases es, 3
  {
    if es == [] then [] else OptExprReach(es[0]) + ElementsReach(es[1..])
  }

  /** visitSequenceExpression */
  function ExprsReach(es: seq<Expr>): seq<Expr>
    decreases es, 3
  {
    if es == [] then [] else ExprReach(es[0]) + ExprsReach(es[1..])
  }

  /** visitArrowFunctionExpression */
  function ArrowReach(b: ArrowBody): seq<Expr>
    decreases b, 2
  {
    match b
    case BlockBody(ss) => BlockReach(ss)
    case ExprBody(x) => ExprReach(x)
  }

  /** visitVariableDeclaration's switch on one initializer. It looks into
      more kinds than visitExpression, but not into class, yield or await
      nodes; what it looks into is then searched in expression position. */
  function InitReach(e: Expr): seq<Expr>
    decreases e, 2
  {
    match e
    case ArrayExpr(es) => ElementsReach(es)
    case ObjectExpr(ps) => PropsReach(ps)
    case FunctionExpr(b) => OptBlockReach(b)
    case UnaryExpr(a) => ExprReach(a)
    case UpdateExpr(a) => ExprReach(a)
    case BinaryExpr(l, r) => ExprReach(l) + ExprReach(r)
    case AssignExpr(_, r) => ExprReach(r)
    case MemberExpr(o, _) => ExprReach(o)
    case CondExpr(t, c, a) => ExprReach(t) + (ExprReach(c) + ExprReach(a))
    case CallExpr(_, _, _) => [e]
    case NewExpr(c, _) => ExprReach(c)
    case SeqExpr(es) => ExprsReach(es)
    case ArrowExpr(b) => ArrowReach(b)
    case _ => []
  }

  function DeclReach(d: Option<Expr>): seq<Expr>
    decreases d, 3
  {
    if d.Some? then InitReach(d.value) else []
  }

  /** visitVariableDeclaration: the initializers in order. */
  function DeclsReach(ds: Declarators): seq<Expr>
    decreases ds, 4
  {
    if ds == [] then [] else DeclReach(ds[0]) + DeclsReach(ds[1..])
  }

  /** visitProperty; spread elements are skipped by visitObjectExpression. */
  function PropReach(q: ObjProp): seq<Expr>
    decreases q, 2
  {
    match q
    case SpreadProp(_) => []
    case ShorthandProp(_) => []
    case KeyValueProp(_, v) => ExprReach(v)
    case AssignmentProp(_, v) => ExprReach(v)
    case MethodProp(b) => OptBlockReach(b)
  }

  /** visitObjectExpression */
  function PropsReach(ps: seq<ObjProp>): seq<Expr>
    decreases ps, 3
  {
    if ps == [] then [] else PropReach(ps[0]) + PropsReach(ps[1..])
  }

  /** The switch of visitClassMember on one member. */
  function MemberReach(m: ClassMember): seq<Expr>
    decreases m, 2
  {
    match m
    case ConstructorMember(b) => OptBlockReach(b)
    case MethodMember(b) => OptBlockReach(b)
    case PropertyMember(v) => OptExprReach(v)
    case StaticBlockMember(b) => BlockReach(b)
    case InertMember => []
  }

  /** visitClassMember */
  function MembersReach(ms: seq<ClassMember>): seq<Expr>
    decreases ms, 3
  {
    if ms == [] then [] else MemberReach(ms[0]) + MembersReach(ms[1..])
  }

  /** visitStatement: a statement nested in a block or another statement.
      Throw statements are not looked into. */
  function StmtReach(s: Stmt): seq<Expr>
    decreases s, 2
  {
    match s
    case ExprStmt(x) => ExprReach(x)
    case FunctionDecl(b) => OptBlockReach(b)
    case VarDecl(ds) => DeclsReach(ds)
    case BlockStmt(ss) => BlockReach(ss)
    case WithStmt(o, b) => ExprReach(o) + StmtReach(b)
    case ReturnStmt(a) => OptExprReach(a)
    case LabeledStmt(b) => StmtReach(b)
    case IfStmt(t, c, a) => ExprReach(t) + (StmtReach(c) + OptStmtReach(a))
    case SwitchStmt(d, cases) => ExprReach(d) + CasesReach(cases)
    case TryStmt(b, h, f) => BlockReach(b) + (OptBlockReach(h) + OptBlockReach(f))
    case WhileStmt(t, b) => ExprReach(t) + StmtReach(b)
    case DoWhileStmt(b, t) => ExprReach(t) + StmtReach(b)
    case ForStmt(i, t, u, b) => ForInitReach(i) + (OptExprReach(t) + (OptExprReach(u) + StmtReach(b)))
    case ForInStmt(h, r, b) => HeadReach(h) + (ExprReach(r) + StmtReach(b))
    case ForOfStmt(h, r, b) => HeadReach(h) + (ExprReach(r) + StmtReach(b))
    case ClassDecl(ms) => MembersReach(ms)
    case _ => []
  }

  function OptStmtReach(s: Option<Stmt>): seq<Expr>
    decreases s, 3
  {
    if s.Some? then StmtReach(s.value) else []
  }

  function ForInitReach(i: Option<ForInit>): seq<Expr>
    decreases i, 3
  {
    if i.None? then []
    else match i.value
      case InitDecl(ds) => DeclsReach(ds)
      case InitExpr(x) => ExprReach(x)
  }

  /** The left side of for-in and for-of: a pattern is not looked into. */
  function HeadReach(h: ForHead): seq<Expr>
    decreases h, 3
  {
    match h
    case HeadDecl(ds) => DeclsReach(ds)
    case HeadPattern(_) => []
  }

  /** visitBlockStatement */
  function BlockReach(ss: seq<Stmt>): seq<Expr>
    decreases ss, 3
  {
    if ss == [] then [] else StmtReach(ss[0]) + BlockReach(ss[1..])
  }

  function OptBlockReach(b: Option<Block>): seq<Expr>
    decreases b, 4
  {
    if b.Some? then BlockReach(b.value.stmts) else []
  }

  /** The consequents of a switch's cases in order; the case tests are not
      looked into. */
  function CasesReach(cases: seq<SwitchCase>): seq<Expr>
    decreases cases, 4
  {
    if cases == [] then [] else BlockReach(cases[0].consequent) + CasesReach(cases[1..])
  }

  /** findSwcTypiaUsage's switch on one module item: a top-level throw is
      searched and a top-level labeled statement is not, the other way round
      from visitStatement. */
  function ItemReach(item: ModuleItem): seq<Expr> {
    match item
    case ExportDecl(d) => StmtReach(d)
    case ExportDefaultExpr(x) => ExprReach(x)
    case StmtItem(s) =>
      (match s
       case ThrowStmt(x) => ExprReach(x)
       case LabeledStmt(_) => []
       case _ => StmtReach(s))
    case _ => []
  }

  /** findSwcTypiaUsage */
  function ModuleReach(body: seq<ModuleItem>): seq<Expr> {
    if body == [] then [] else ItemReach(body[0]) + ModuleReach(body[1..])
  }

  // ----- What processing the reached calls does -----

  /** The callee identifiers of the calls `cs`. */
  function Callees(cs: seq<Expr>): set<Identifier> {
    if cs == [] then {} else CalleeObjects(cs[0]) + Callees(cs[1..])
  }

  /** The `value` field of each identifier node in `ids`: the part of the
      tree the walk writes. */
  function Values(ids: set<Identifier>): (m: map<Identifier, string>)
    reads ids
    ensures m.Keys == ids
  {
    map o | o in ids :: o.value
  }

  /** visitCallExpression's test, on the identifier values `m`. */
  predicate Tracked(c: Expr, m: map<Identifier, string>, names: seq<string>) {
    c.CallExpr? && c.callee.CalleeIdent? && c.callee.id in m && m[c.callee.id] in names
  }

  /** Processing the reached calls `cs` in order, from the identifier values
      `m`: the outcome and the identifier values after. A tracked callee is
      renamed before its type argument is processed, and the first exception
      ends the walk. */
  function Run(p: Processing, names: seq<string>, cs: seq<Expr>, m: map<Identifier, string>): (w: (Result<()>, map<Identifier, string>))
    requires Callees(cs) <= m.Keys
    ensures w.1.Keys == m.Keys
    decreases cs
  {
    if cs == [] then (Ok(()), m)
    else if Tracked(cs[0], names := names, m := m) then
      var id := cs[0].callee.id;
      var renamed := m[id := Namespace + m[id]];
      var out := Processed(p, cs[0].typeArguments);
      if out.Fail? then (Fail(out.error), renamed) else Run(p, names, cs[1..], renamed)
    else
      Run(p, names, cs[1..], m)
  }

  /** The walk over `cs` went from the identifier values `before` to `after`
      and ended with `r`. */
  predicate Walked(p: Processing, names: seq<string>, cs: seq<Expr>, before: map<Identifier, string>, after: map<Identifier, string>, r: Result<()>) {
    Callees(cs) <= before.Keys && Run(p, names, cs, before) == (r, after)
  }

  /** No two of the calls share a callee object, as in a tree the parser builds. */
  predicate Distinct(cs: seq<Expr>) {
    cs == [] || (CalleeObjects(cs[0]) !! Callees(cs[1..]) && Distinct(cs[1..]))
  }

  // ----- Properties of Run -----

  lemma {:induction false} CalleesAppend(a: seq<Expr>, b: seq<Expr>)
    ensures Callees(a + b) == Callees(a) + Callees(b)
    decreases a
  {
    if a == [] {
      assert a + b == b;
    } else {
      assert (a + b)[0] == a[0] && (a + b)[1..] == a[1..] + b;
      CalleesAppend(a[1..], b);
    }
  }

  /** Walking two lists of calls one after the other is walking their
      concatenation: the second is walked only if the first raised nothing,
      from the identifier values the first left. */
  lemma {:induction false} RunAppend(p: Processing, names: seq<string>, a: seq<Expr>, b: seq<Expr>, m: map<Identifier, string>)
    requires Callees(a) <= m.Keys && Callees(b) <= m.Keys
    ensures Callees(a + b) <= m.Keys
    ensures Run(p, names, a + b, m) ==
      (var ra := Run(p, names, a, m); if ra.0.Fail? then ra else Run(p, names, b, ra.1))
    decreases a
  {
    CalleesAppend(a, b);
    if a == [] {
      assert a + b == b;
    } else {
      assert (a + b)[0] == a[0] && (a + b)[1..] == a[1..] + b;
      if Tracked(a[0], m, names) {
        var id := a[0].callee.id;
        RunAppend(p, names, a[1..], b, m[id := Namespace + m[id]]);
      } else {
        RunAppend(p, names, a[1..], b, m);
      }
    }
  }

  /** Only the callees of the walked calls change. */
  lemma {:induction false} RunKeepsOthers(p: Processing, names: seq<string>, cs: seq<Expr>, m: map<Identifier, string>)
    requires Callees(cs) <= m.Keys
    ensures forall o :: o in m && o !in Callees(cs) ==> Run(p, names, cs, m).1[o] == m[o]
    decreases cs
  {
    if cs != [] {
      if Tracked(cs[0], m, names) {
        var id := cs[0].callee.id;
        RunKeepsOthers(p, names, cs[1..], m[id := Namespace + m[id]]);
      } else {
        RunKeepsOthers(p, names, cs[1..], m);
      }
    }
  }

  lemma {:induction false} InCallees(cs: seq<Expr>, i: nat)
    requires i < |cs| && cs[i].CallExpr? && cs[i].callee.CalleeIdent?
    ensures cs[i].callee.id in Callees(cs)
    ensures i > 0 ==> cs[i].callee.id in Callees(cs[1..])
    decreases i
  {
    if i > 0 {
      assert cs[1..][i - 1] == cs[i];
      InCallees(cs[1..], i - 1);
    }
  }

  /** When the callees are distinct and the walk raises nothing, every
      tracked callee has been renamed once and every other one kept. */
  lemma {:induction false} RunRenamesTracked(p: Processing, names: seq<string>, cs: seq<Expr>, m: map<Identifier, string>)
    requires Callees(cs) <= m.Keys && Distinct(cs) && Run(p, names, cs, m).0.Ok?
    ensures forall i :: 0 <= i < |cs| && cs[i].CallExpr? && cs[i].callee.CalleeIdent? && cs[i].callee.id in m ==>
      Run(p, names, cs, m).1[cs[i].callee.id] ==
        if Tracked(cs[i], m, names) then Namespace + m[cs[i].callee.id] else m[cs[i].callee.id]
    decreases cs
  {
    if cs != [] {
      var m1 := if Tracked(cs[0], m, names) then m[cs[0].callee.id := Namespace + m[cs[0].callee.id]] else m;
      assert Run(p, names, cs, m) == Run(p, names, cs[1..], m1);
      RunRenamesTracked(p, names, cs[1..], m1);
      RunKeepsOthers(p, names, cs[1..], m1);
      forall i | 0 <= i < |cs| && cs[i].CallExpr? && cs[i].callee.CalleeIdent? && cs[i].callee.id in m
        ensures Run(p, names, cs, m).1[cs[i].callee.id] ==
          if Tracked(cs[i], m, names) then Namespace + m[cs[i].callee.id] else m[cs[i].callee.id]
      {
        InCallees(cs, i);
        if i > 0 {
          assert cs[1..][i - 1] == cs[i];
          assert cs[i].callee.id !in CalleeObjects(cs[0]);
        }
      }
    }
  }

  /** When the callees are distinct, the walk raises nothing exactly when the
      processing of no tracked call raises anything. */
  lemma {:induction false} RunSucceedsIff(p: Processing, names: seq<string>, cs: seq<Expr>, m: map<Identifier, string>)
    requires Callees(cs) <= m.Keys && Distinct(cs)
    ensures Run(p, names, cs, m).0.Ok? <==>
      forall i :: 0 <= i < |cs| && Tracked(cs[i], m, names) ==> Processed(p, cs[i].typeArguments).Ok?
    decreases cs
  {
    if cs != [] {
      var m1 := if Tracked(cs[0], m, names) then m[cs[0].callee.id := Namespace + m[cs[0].callee.id]] else m;
      RunSucceedsIff(p, names, cs[1..], m1);
      forall i | 0 < i < |cs|
        ensures cs[1..][i - 1] == cs[i] && (Tracked(cs[i], m1, names) <==> Tracked(cs[i], m, names))
      {
        assert cs[1..][i - 1] == cs[i];
        if cs[i].CallExpr? && cs[i].callee.CalleeIdent? {
          InCallees(cs, i);
        }
      }
    }
  }

  /** Call `i` is the first tracked call, judged on the identifier values `m`,
      whose processing throws. */
  predicate FirstFailure(p: Processing, names: seq<string>, cs: seq<Expr>, m: map<Identifier, string>, i: nat) {
    && i < |cs| && Tracked(cs[i], m, names) && Processed(p, cs[i].typeArguments).Fail?
    && forall j :: 0 <= j < i && Tracked(cs[j], m, names) ==> Processed(p, cs[j].typeArguments).Ok?
  }

  /** The walk ends with the exception `e` exactly when `e` is what the
      first tracked call that throws throws. */
  lemma {:induction false} RunFailsAtFirst(p: Processing, names: seq<string>, cs: seq<Expr>, m: map<Identifier, string>, e: Error)
    requires Callees(cs) <= m.Keys && Distinct(cs)
    ensures Run(p, names, cs, m).0 == Fail(e) <==>
      exists i: nat :: FirstFailure(p, names, cs, m, i) && Processed(p, cs[i].typeArguments) == Fail(e)
    decreases cs
  {
    if cs != [] {
      var tracked0 := Tracked(cs[0], m, names);
      var m1 := if tracked0 then m[cs[0].callee.id := Namespace + m[cs[0].callee.id]] else m;
      forall i | 0 < i < |cs|
        ensures cs[1..][i - 1] == cs[i] && (Tracked(cs[i], m1, names) <==> Tracked(cs[i], m, names))
      {
        assert cs[1..][i - 1] == cs[i];
        if cs[i].CallExpr? && cs[i].callee.CalleeIdent? {
          InCallees(cs, i);
        }
      }
      if tracked0 && Processed(p, cs[0].typeArguments).Fail? {
        assert FirstFailure(p, names, cs, m, 0);
        forall i | FirstFailure(p, names, cs, m, i) ensures i == 0 {
        }
      } else {
        RunFailsAtFirst(p, names, cs[1..], m1, e);
        if exists i: nat :: FirstFailure(p, names, cs, m, i) && Processed(p, cs[i].typeArguments) == Fail(e) {
          var i: nat :| FirstFailure(p, names, cs, m, i) && Processed(p, cs[i].typeArguments) == Fail(e);
          assert i > 0;
          assert FirstFailure(p, names, cs[1..], m1, i - 1);
        }
        if exists i: nat :: FirstFailure(p, names, cs[1..], m1, i) && Processed(p, cs[1..][i].typeArguments) == Fail(e) {
          var i: nat :| FirstFailure(p, names, cs[1..], m1, i) && Processed(p, cs[1..][i].typeArguments) == Fail(e);
          forall j | 0 <= j < i + 1 && Tracked(cs[j], m, names) ensures Processed(p, cs[j].typeArguments).Ok? {
            if j > 0 {
              assert cs[1..][j - 1] == cs[j];
            }
          }
          assert FirstFailure(p, names, cs, m, i + 1);
        }
      }
    }
  }

  /** A walk that meets no tracked callee changes nothing and raises nothing. */
  lemma {:induction false} RunUntracked(p: Processing, names: seq<string>, cs: seq<Expr>, m: map<Identifier, string>)
    requires Callees(cs) <= m.Keys
    requires forall o :: o in Callees(cs) ==> m[o] !in names
    ensures Run(p, names, cs, m) == (Ok(()), m)
    decreases cs
  {
    if cs != [] {
      RunUntracked(p, names, cs[1..], m);
    }
  }

  lemma SliceStep<T>(xs: seq<T>, i: nat)
    requires i < |xs|
    ensures xs[i..][0] == xs[i] && xs[i..][1..] == xs[i + 1..]
  {
  }

  lemma SliceEnds<T>(xs: seq<T>)
    ensures xs[0..] == xs && xs[|xs|..] == []
  {
  }

  // ----- The walk -----

  /** visitCallExpression: a call whose callee is a tracked identifier goes
      to isProcessor, whose replacement is discarded; its exception is not. */
  method VisitCallExpression(p: Processing, names: seq<string>, call: Expr, ghost ids: set<Identifier>) returns (r: Result<()>)
    requires call.CallExpr? && Callees([call]) <= ids
    modifies ids
    ensures Walked(p, names, [call], old(Values(ids)), Values(ids), r)
  {
    assert Callees([call]) == CalleeObjects(call);
    ghost var m := Values(ids);
    if call.callee.CalleeIdent? && call.callee.id.value in names {
      var out := IsProcessor.IsProcessor(p, call);
      r := if out.Fail? then Fail(out.error) else Ok(());
      assert Values(ids) == m[call.callee.id := Namespace + m[call.callee.id]];
    } else {
      r := Ok(());
    }
  }

  /** visitExpression */
  method VisitExpression(p: Processing, names: seq<string>, e: Expr, ghost ids: set<Identifier>) returns (r: Result<()>)
    requires Callees(ExprReach(e)) <= ids
    modifies ids
    ensures Walked(p, names, ExprReach(e), old(Values(ids)), Values(ids), r)
    decreases e, 1
  {
    match e
    case ArrayExpr(es) => r := VisitArrayExpression(p, names, es, ids);
    case CallExpr(_, _, _) => r := VisitCallExpression(p, names, e, ids);
    case ArrowExpr(b) => r := VisitArrowFunctionExpression(p, names, b, ids);
    case ClassExpr(ms) => r := VisitClassMember(p, names, ms, ids);
    case YieldExpr(y) =>
      if y.Some? {
        r := VisitExpression(p, names, y.value, ids);
      } else {
        r := Ok(());
      }
    case AwaitExpr(x) => r := VisitExpression(p, names, x, ids);
    case _ => r := Ok(());
  }

  /** visitArrayExpression */
  method VisitArrayExpression(p: Processing, names: seq<string>, es: seq<Option<Expr>>, ghost ids: set<Identifier>) returns (r: Result<()>)
    requires Callees(ElementsReach(es)) <= ids
    modifies ids
    ensures Walked(p, names, ElementsReach(es), old(Values(ids)), Values(ids), r)
    decreases es, 3
  {
    ghost var m0 := Values(ids);
    SliceEnds(es);
    for i := 0 to |es|
      invariant Callees(ElementsReach(es[i..])) <= ids
      invariant Run(p, names, ElementsReach(es), m0) == Run(p, names, ElementsReach(es[i..]), Values(ids))
    {
      SliceStep(es, i);
      CalleesAppend(OptExprReach(es[i]), ElementsReach(es[i + 1..]));
      ghost var mb := Values(ids);
      RunAppend(p, names, OptExprReach(es[i]), ElementsReach(es[i + 1..]), mb);
      r := VisitExprOrSpread(p, names, es[i], ids);
      if r.Fail? {
        return;
      }
    }
    r := Ok(());
  }

  /** visitExprOrSpread, with the hole test of visitArrayExpression. */
  method VisitExprOrSpread(p: Processing, names: seq<string>, x: Option<Expr>, ghost ids: set<Identifier>) returns (r: Result<()>)
    requires Callees(OptExprReach(x)) <= ids
    modifies ids
    ensures Walked(p, names, OptExprReach(x), old(Values(ids)), Values(ids), r)
    decreases x, 2
  {
    if x.Some? {
      r := VisitExpression(p, names, x.value, ids);
    } else {
      r := Ok(());
    }
  }

  /** visitSequenceExpression */
  method VisitSequenceExpression(p: Processing, names: seq<string>, es: seq<Expr>, ghost ids: set<Identifier>) returns (r: Result<()>)
    requires Callees(ExprsReach(es)) <= ids
    modifies ids
    ensures Walked(p, names, ExprsReach(es), old(Values(ids)), Values(ids), r)
    decreases es, 3
  {
    ghost var m0 := Values(ids);
    SliceEnds(es);
    for i := 0 to |es|
      invariant Callees(ExprsReach(es[i..])) <= ids
      invariant Run(p, names, ExprsReach(es), m0) == Run(p, names, ExprsReach(es[i..]), Values(ids))
    {
      SliceStep(es, i);
      CalleesAppend(ExprReach(es[i]), ExprsReach(es[i + 1..]));
      ghost var mb := Values(ids);
      RunAppend(p, names, ExprReach(es[i]), ExprsReach(es[i + 1..]), mb);
      r := VisitExpression(p, names, es[i], ids);
      if r.Fail? {
        return;
      }
    }
    r := Ok(());
  }

  /** visitArrowFunctionExpression */
  method VisitArrowFunctionExpression(p: Processing, names: seq<string>, b: ArrowBody, ghost ids: set<Identifier>) returns (r: Result<()>)
    requires Callees(ArrowReach(b)) <= ids
    modifies ids
    ensures Walked(p, names, ArrowReach(b), old(Values(ids)), Values(ids), r)
    decreases b, 2
  {
    match b
    case BlockBody(ss) => r := VisitBlockStatement(p, names, ss, ids);
    case ExprBody(x) => r := VisitExpression(p, names, x, ids);
  }

  /** visitBinaryExpression: the left operand, then the right. */
  method VisitBinaryExpression(p: Processing, names: seq<string>, e: Expr, ghost ids: set<Identifier>) returns (r: Result<()>)
    requires e.BinaryExpr?
    requires Callees(InitReach(e)) <= ids
    modifies ids
    ensures Walked(p, names, InitReach(e), old(Values(ids)), Values(ids), r)
    decreases e, 1
  {
    assert InitReach(e) == ExprReach(e.left) + (ExprReach(e.right));
    ghost var mb;
    CalleesAppend(ExprReach(e.left), ExprReach(e.right));
    mb := Values(ids);
    RunAppend(p, names, ExprReach(e.left), ExprReach(e.right), mb);
    r := VisitExpression(p, names, e.left, ids);
    if r.Fail? {
      return;
    }
    r := VisitExpression(p, names, e.right, ids);
  }

  /** visitConditionalExpression */
  method VisitConditionalExpression(p: Processing, names: seq<string>, e: Expr, ghost ids: set<Identifier>) returns (r: Result<()>)
    requires e.CondExpr?
    requires Callees(InitReach(e)) <= ids
    modifies ids
    ensures Walked(p, names, InitReach(e), old(Values(ids)), Values(ids), r)
    decreases e, 1
  {
    assert InitReach(e) == ExprReach(e.test) + (ExprReach(e.consequent) + (ExprReach(e.alternate)));
    ghost var mb;
    CalleesAppend(ExprReach(e.test), (ExprReach(e.consequent) + (ExprReach(e.alternate))));
    mb := Values(ids);
    RunAppend(p, names, ExprReach(e.test), (ExprReach(e.consequent) + (ExprReach(e.alternate))), mb);
    r := VisitExpression(p, names, e.test, ids);
    if r.Fail? {
      return;
    }
    CalleesAppend(ExprReach(e.consequent), ExprReach(e.alternate));
    mb := Values(ids);
    RunAppend(p, names, ExprReach(e.consequent), ExprReach(e.alternate), mb);
    r := VisitExpression(p, names, e.consequent, ids);
    if r.Fail? {
      return;
    }
    r := VisitExpression(p, names, e.alternate, ids);
  }

  /** The switch of visitVariableDeclaration on one initializer. */
  method VisitInitializer(p: Processing, names: seq<string>, e: Expr, ghost ids: set<Identifier>) returns (r: Result<()>)
    requires Callees(InitReach(e)) <= ids
    modifies ids
    ensures Walked(p, names, InitReach(e), old(Values(ids)), Values(ids), r)
    decreases e, 2
  {
    match e
    case ArrayExpr(es) => r := VisitArrayExpression(p, names, es, ids);
    case ObjectExpr(ps) => r := VisitObjectExpression(p, names, ps, ids);
    case FunctionExpr(b) =>
      if b.Some? {
        assert OptBlockReach(b) == BlockReach(b.value.stmts);
        r := VisitBlockStatement(p, names, b.value.stmts, ids);
      } else {
        r := Ok(());
      }
    case UnaryExpr(_) => r := VisitOperand(p, names, e, ids);
    case UpdateExpr(_) => r := VisitOperand(p, names, e, ids);
    case BinaryExpr(_, _) => r := VisitBinaryExpression(p, names, e, ids);
    case AssignExpr(_, _) => r := VisitOperand(p, names, e, ids);
    case MemberExpr(_, _) => r := VisitOperand(p, names, e, ids);
    case CondExpr(_, _, _) => r := VisitConditionalExpression(p, names, e, ids);
    case CallExpr(_, _, _) => r := VisitCallExpression(p, names, e, ids);
    case NewExpr(_, _) => r := VisitOperand(p, names, e, ids);
    case SeqExpr(es) => r := VisitSequenceExpression(p, names, es, ids);
    case ArrowExpr(b) => r := VisitArrowFunctionExpression(p, names, b, ids);
    case _ => r := Ok(());
  }

  /** visitUnaryExpression, visitUpdateExpression, visitAssignmentExpression,
      visitMemberExpression and visitNewExpression, which all search one
      operand in expression position: the argument, the right side, the
      object, the callee. */
  method VisitOperand(p: Processing, names: seq<string>, e: Expr, ghost ids: set<Identifier>) returns (r: Result<()>)
    requires e.UnaryExpr? || e.UpdateExpr? || e.AssignExpr? || e.MemberExpr? || e.NewExpr?
    requires Callees(InitReach(e)) <= ids
    modifies ids
    ensures Walked(p, names, InitReach(e), old(Values(ids)), Values(ids), r)
    decreases e, 1
  {
    var operand := match e
      case UnaryExpr(a) => a
      case UpdateExpr(a) => a
      case AssignExpr(_, v) => v
      case MemberExpr(o, _) => o
      case NewExpr(c, _) => c;
    assert InitReach(e) == ExprReach(operand);
    r := VisitExpression(p, names, operand, ids);
  }

  /** visitVariableDeclaration: declarators without an initializer are skipped. */
  method VisitVariableDeclaration(p: Processing, names: seq<string>, ds: Declarators, ghost ids: set<Identifier>) returns (r: Result<()>)
    requires Callees(DeclsReach(ds)) <= ids
    modifies ids
    ensures Walked(p, names, DeclsReach(ds), old(Values(ids)), Values(ids), r)
    decreases ds, 4
  {
    ghost var m0 := Values(ids);
    SliceEnds(ds);
    for i := 0 to |ds|
      invariant Callees(DeclsReach(ds[i..])) <= ids
      invariant Run(p, names, DeclsReach(ds), m0) == Run(p, names, DeclsReach(ds[i..]), Values(ids))
    {
      SliceStep(ds, i);
      CalleesAppend(DeclReach(ds[i]), DeclsReach(ds[i + 1..]));
      ghost var mb := Values(ids);
      RunAppend(p, names, DeclReach(ds[i]), DeclsReach(ds[i + 1..]), mb);
      r := VisitDeclarator(p, names, ds[i], ids);
      if r.Fail? {
        return;
      }
    }
    r := Ok(());
  }

  /** One declarator of visitVariableDeclaration. */
  method VisitDeclarator(p: Processing, names: seq<string>, d: Option<Expr>, ghost ids: set<Identifier>) returns (r: Result<()>)
    requires Callees(DeclReach(d)) <= ids
    modifies ids
    ensures Walked(p, names, DeclReach(d), old(Values(ids)), Values(ids), r)
    decreases d, 3
  {
    if d.Some? {
      r := VisitInitializer(p, names, d.value, ids);
    } else {
      r := Ok(());
    }
  }

  /** visitObjectExpression: spread elements are skipped. */
  method VisitObjectExpression(p: Processing, names: seq<string>, ps: seq<ObjProp>, ghost ids: set<Identifier>) returns (r: Result<()>)
    requires Callees(PropsReach(ps)) <= ids
    modifies ids
    ensures Walked(p, names, PropsReach(ps), old(Values(ids)), Values(ids), r)
    decreases ps, 3
  {
    ghost var m0 := Values(ids);
    SliceEnds(ps);
    for i := 0 to |ps|
      invariant Callees(PropsReach(ps[i..])) <= ids
      invariant Run(p, names, PropsReach(ps), m0) == Run(p, names, PropsReach(ps[i..]), Values(ids))
    {
      SliceStep(ps, i);
      CalleesAppend(PropReach(ps[i]), PropsReach(ps[i + 1..]));
      ghost var mb := Values(ids);
      RunAppend(p, names, PropReach(ps[i]), PropsReach(ps[i + 1..]), mb);
      if ps[i].SpreadProp? {
        r := Ok(());
      } else {
        r := VisitProperty(p, names, ps[i], ids);
      }
      if r.Fail? {
        return;
      }
    }
    r := Ok(());
  }

  /** visitProperty */
  method VisitProperty(p: Processing, names: seq<string>, q: ObjProp, ghost ids: set<Identifier>) returns (r: Result<()>)
    requires Callees(PropReach(q)) <= ids
    modifies ids
    ensures Walked(p, names, PropReach(q), old(Values(ids)), Values(ids), r)
    decreases q, 2
  {
    match q
    case KeyValueProp(_, v) => r := VisitExpression(p, names, v, ids);
    case AssignmentProp(_, v) => r := VisitExpression(p, names, v, ids);
    case MethodProp(b) =>
      if b.Some? {
        assert OptBlockReach(b) == BlockReach(b.value.stmts);
        r := VisitBlockStatement(p, names, b.value.stmts, ids);
      } else {
        r := Ok(());
      }
    case _ => r := Ok(());
  }

  /** visitClassMember */
  method VisitClassMember(p: Processing, names: seq<string>, ms: seq<ClassMember>, ghost ids: set<Identifier>) returns (r: Result<()>)
    requires Callees(MembersReach(ms)) <= ids
    modifies ids
    ensures Walked(p, names, MembersReach(ms), old(Values(ids)), Values(ids), r)
    decreases ms, 3
  {
    ghost var m0 := Values(ids);
    SliceEnds(ms);
    for i := 0 to |ms|
      invariant Callees(MembersReach(ms[i..])) <= ids
      invariant Run(p, names, MembersReach(ms), m0) == Run(p, names, MembersReach(ms[i..]), Values(ids))
    {
      SliceStep(ms, i);
      CalleesAppend(MemberReach(ms[i]), MembersReach(ms[i + 1..]));
      ghost var mb := Values(ids);
      RunAppend(p, names, MemberReach(ms[i]), MembersReach(ms[i + 1..]), mb);
      r := VisitMember(p, names, ms[i], ids);
      if r.Fail? {
        return;
      }
    }
    r := Ok(());
  }

  /** One member: visitConstructor, visitClassMethod, visitClassProperty,
      visitStaticBlock and the members left alone. */
  method VisitMember(p: Processing, names: seq<string>, m: ClassMember, ghost ids: set<Identifier>) returns (r: Result<()>)
    requires Callees(MemberReach(m)) <= ids
    modifies ids
    ensures Walked(p, names, MemberReach(m), old(Values(ids)), Values(ids), r)
    decreases m, 2
  {
    match m
    case ConstructorMember(b) =>
      if b.Some? {
        assert OptBlockReach(b) == BlockReach(b.value.stmts);
        r := VisitBlockStatement(p, names, b.value.stmts, ids);
      } else {
        r := Ok(());
      }
    case MethodMember(b) =>
      if b.Some? {
        assert OptBlockReach(b) == BlockReach(b.value.stmts);
        r := VisitBlockStatement(p, names, b.value.stmts, ids);
      } else {
        r := Ok(());
      }
    case PropertyMember(v) =>
      if v.Some? {
        assert OptExprReach(v) == ExprReach(v.value);
        r := VisitExpression(p, names, v.value, ids);
      } else {
        r := Ok(());
      }
    case StaticBlockMember(b) => r := VisitBlockStatement(p, names, b, ids);
    case InertMember => r := Ok(());
  }

  /** visitStatement */
  method VisitStatement(p: Processing, names: seq<string>, s: Stmt, ghost ids: set<Identifier>) returns (r: Result<()>)
    requires Callees(StmtReach(s)) <= ids
    modifies ids
    ensures Walked(p, names, StmtReach(s), old(Values(ids)), Values(ids), r)
    decreases s, 2
  {
    match s
    case ExprStmt(x) => r := VisitExpression(p, names, x, ids);
    case FunctionDecl(b) =>
      if b.Some? {
        assert OptBlockReach(b) == BlockReach(b.value.stmts);
        r := VisitBlockStatement(p, names, b.value.stmts, ids);
      } else {
        r := Ok(());
      }
    case VarDecl(ds) => r := VisitVariableDeclaration(p, names, ds, ids);
    case BlockStmt(ss) => r := VisitBlockStatement(p, names, ss, ids);
    case WithStmt(_, _) => r := VisitWithStatement(p, names, s, ids);
    case ReturnStmt(a) =>
      if a.Some? {
        assert OptExprReach(a) == ExprReach(a.value);
        r := VisitExpression(p, names, a.value, ids);
      } else {
        r := Ok(());
      }
    case LabeledStmt(b) => r := VisitStatement(p, names, b, ids);
    case IfStmt(_, _, _) => r := VisitIfStatement(p, names, s, ids);
    case SwitchStmt(_, _) => r := VisitSwitchStatement(p, names, s, ids);
    case TryStmt(_, _, _) => r := VisitTryStatement(p, names, s, ids);
    case WhileStmt(_, _) => r := VisitWhileStatement(p, names, s, ids);
    case DoWhileStmt(_, _) => r := VisitDoWhileStatement(p, names, s, ids);
    case ForStmt(_, _, _, _) => r := VisitForStatement(p, names, s, ids);
    case ForInStmt(_, _, _) => r := VisitForInOrOfStatement(p, names, s, ids);
    case ForOfStmt(_, _, _) => r := VisitForInOrOfStatement(p, names, s, ids);
    case ClassDecl(ms) => r := VisitClassMember(p, names, ms, ids);
    case _ => r := Ok(());
  }

  /** visitWithStatement */
  method VisitWithStatement(p: Processing, names: seq<string>, s: Stmt, ghost ids: set<Identifier>) returns (r: Result<()>)
    requires s.WithStmt?
    requires Callees(StmtReach(s)) <= ids
    modifies ids
    ensures Walked(p, names, StmtReach(s), old(Values(ids)), Values(ids), r)
    decreases s, 1
  {
    assert StmtReach(s) == ExprReach(s.obj) + (StmtReach(s.body));
    ghost var mb;
    CalleesAppend(ExprReach(s.obj), StmtReach(s.body));
    mb := Values(ids);
    RunAppend(p, names, ExprReach(s.obj), StmtReach(s.body), mb);
    r := VisitExpression(p, names, s.obj, ids);
    if r.Fail? {
      return;
    }
    r := VisitStatement(p, names, s.body, ids);
  }

  /** visitIfStatement */
  method VisitIfStatement(p: Processing, names: seq<string>, s: Stmt, ghost ids: set<Identifier>) returns (r: Result<()>)
    requires s.IfStmt?
    requires Callees(StmtReach(s)) <= ids
    modifies ids
    ensures Walked(p, names, StmtReach(s), old(Values(ids)), Values(ids), r)
    decreases s, 1
  {
    assert StmtReach(s) == ExprReach(s.test) + (StmtReach(s.consequent) + (OptStmtReach(s.alternate)));
    ghost var mb;
    CalleesAppend(ExprReach(s.test), (StmtReach(s.consequent) + (OptStmtReach(s.alternate))));
    mb := Values(ids);
    RunAppend(p, names, ExprReach(s.test), (StmtReach(s.consequent) + (OptStmtReach(s.alternate))), mb);
    r := VisitExpression(p, names, s.test, ids);
    if r.Fail? {
      return;
    }
    CalleesAppend(StmtReach(s.consequent), OptStmtReach(s.alternate));
    mb := Values(ids);
    RunAppend(p, names, StmtReach(s.consequent), OptStmtReach(s.alternate), mb);
    r := VisitStatement(p, names, s.consequent, ids);
    if r.Fail? {
      return;
    }
    if s.alternate.Some? {
      r := VisitStatement(p, names, s.alternate.value, ids);
    } else {
      r := Ok(());
    }
  }

  /** visitTryStatement: the block, the handler's body, the finalizer. */
  method VisitTryStatement(p: Processing, names: seq<string>, s: Stmt, ghost ids: set<Identifier>) returns (r: Result<()>)
    requires s.TryStmt?
    requires Callees(StmtReach(s)) <= ids
    modifies ids
    ensures Walked(p, names, StmtReach(s), old(Values(ids)), Values(ids), r)
    decreases s, 1
  {
    assert StmtReach(s) == BlockReach(s.block) + (OptBlockReach(s.handler) + (OptBlockReach(s.finalizer)));
    ghost var mb;
    CalleesAppend(BlockReach(s.block), (OptBlockReach(s.handler) + (OptBlockReach(s.finalizer))));
    mb := Values(ids);
    RunAppend(p, names, BlockReach(s.block), (OptBlockReach(s.handler) + (OptBlockReach(s.finalizer))), mb);
    r := VisitBlockStatement(p, names, s.block, ids);
    if r.Fail? {
      return;
    }
    CalleesAppend(OptBlockReach(s.handler), OptBlockReach(s.finalizer));
    mb := Values(ids);
    RunAppend(p, names, OptBlockReach(s.handler), OptBlockReach(s.finalizer), mb);
    if s.handler.Some? {
      r := VisitBlockStatement(p, names, s.handler.value.stmts, ids);
    } else {
      r := Ok(());
    }
    if r.Fail? {
      return;
    }
    if s.finalizer.Some? {
      r := VisitBlockStatement(p, names, s.finalizer.value.stmts, ids);
    } else {
      r := Ok(());
    }
  }

  /** visitWhileStatement */
  method VisitWhileStatement(p: Processing, names: seq<string>, s: Stmt, ghost ids: set<Identifier>) returns (r: Result<()>)
    requires s.WhileStmt?
    requires Callees(StmtReach(s)) <= ids
    modifies ids
    ensures Walked(p, names, StmtReach(s), old(Values(ids)), Values(ids), r)
    decreases s, 1
  {
    assert StmtReach(s) == ExprReach(s.test) + (StmtReach(s.body));
    ghost var mb;
    CalleesAppend(ExprReach(s.test), StmtReach(s.body));
    mb := Values(ids);
    RunAppend(p, names, ExprReach(s.test), StmtReach(s.body), mb);
    r := VisitExpression(p, names, s.test, ids);
    if r.Fail? {
      return;
    }
    r := VisitStatement(p, names, s.body, ids);
  }

  /** visitDoWhileStatement: the test is searched before the body,
      although the body runs first. */
  method VisitDoWhileStatement(p: Processing, names: seq<string>, s: Stmt, ghost ids: set<Identifier>) returns (r: Result<()>)
    requires s.DoWhileStmt?
    requires Callees(StmtReach(s)) <= ids
    modifies ids
    ensures Walked(p, names, StmtReach(s), old(Values(ids)), Values(ids), r)
    decreases s, 1
  {
    assert StmtReach(s) == ExprReach(s.test) + (StmtReach(s.body));
    ghost var mb;
    CalleesAppend(ExprReach(s.test), StmtReach(s.body));
    mb := Values(ids);
    RunAppend(p, names, ExprReach(s.test), StmtReach(s.body), mb);
    r := VisitExpression(p, names, s.test, ids);
    if r.Fail? {
      return;
    }
    r := VisitStatement(p, names, s.body, ids);
  }

  /** visitForStatement */
  method VisitForStatement(p: Processing, names: seq<string>, s: Stmt, ghost ids: set<Identifier>) returns (r: Result<()>)
    requires s.ForStmt?
    requires Callees(StmtReach(s)) <= ids
    modifies ids
    ensures Walked(p, names, StmtReach(s), old(Values(ids)), Values(ids), r)
    decreases s, 1
  {
    assert StmtReach(s) == ForInitReach(s.init) + (OptExprReach(s.forTest) + (OptExprReach(s.update) + (StmtReach(s.body))));
    ghost var mb;
    CalleesAppend(ForInitReach(s.init), (OptExprReach(s.forTest) + (OptExprReach(s.update) + (StmtReach(s.body)))));
    mb := Values(ids);
    RunAppend(p, names, ForInitReach(s.init), (OptExprReach(s.forTest) + (OptExprReach(s.update) + (StmtReach(s.body)))), mb);
    if s.init.None? {
      r := Ok(());
    } else if s.init.value.InitDecl? {
      r := VisitVariableDeclaration(p, names, s.init.value.decls, ids);
    } else {
      r := VisitExpression(p, names, s.init.value.expression, ids);
    }
    if r.Fail? {
      return;
    }
    CalleesAppend(OptExprReach(s.forTest), (OptExprReach(s.update) + (StmtReach(s.body))));
    mb := Values(ids);
    RunAppend(p, names, OptExprReach(s.forTest), (OptExprReach(s.update) + (StmtReach(s.body))), mb);
    if s.forTest.Some? {
      r := VisitExpression(p, names, s.forTest.value, ids);
    } else {
      r := Ok(());
    }
    if r.Fail? {
      return;
    }
    CalleesAppend(OptExprReach(s.update), StmtReach(s.body));
    mb := Values(ids);
    RunAppend(p, names, OptExprReach(s.update), StmtReach(s.body), mb);
    if s.update.Some? {
      r := VisitExpression(p, names, s.update.value, ids);
    } else {
      r := Ok(());
    }
    if r.Fail? {
      return;
    }
    r := VisitStatement(p, names, s.body, ids);
  }

  /** visitForInStatement and visitForOfStatement, which are the same:
      visitPattern looks into nothing. */
  method VisitForInOrOfStatement(p: Processing, names: seq<string>, s: Stmt, ghost ids: set<Identifier>) returns (r: Result<()>)
    requires s.ForInStmt? || s.ForOfStmt?
    requires Callees(StmtReach(s)) <= ids
    modifies ids
    ensures Walked(p, names, StmtReach(s), old(Values(ids)), Values(ids), r)
    decreases s, 1
  {
    assert StmtReach(s) == HeadReach(s.head) + (ExprReach(s.right) + (StmtReach(s.body)));
    ghost var mb;
    CalleesAppend(HeadReach(s.head), (ExprReach(s.right) + (StmtReach(s.body))));
    mb := Values(ids);
    RunAppend(p, names, HeadReach(s.head), (ExprReach(s.right) + (StmtReach(s.body))), mb);
    if s.head.HeadDecl? {
      r := VisitVariableDeclaration(p, names, s.head.decls, ids);
    } else {
      r := Ok(());
    }
    if r.Fail? {
      return;
    }
    CalleesAppend(ExprReach(s.right), StmtReach(s.body));
    mb := Values(ids);
    RunAppend(p, names, ExprReach(s.right), StmtReach(s.body), mb);
    r := VisitExpression(p, names, s.right, ids);
    if r.Fail? {
      return;
    }
    r := VisitStatement(p, names, s.body, ids);
  }

  /** visitSwitchStatement: the discriminant, then every case's consequent. */
  method VisitSwitchStatement(p: Processing, names: seq<string>, s: Stmt, ghost ids: set<Identifier>) returns (r: Result<()>)
    requires s.SwitchStmt?
    requires Callees(StmtReach(s)) <= ids
    modifies ids
    ensures Walked(p, names, StmtReach(s), old(Values(ids)), Values(ids), r)
    decreases s, 1
  {
    ghost var m0 := Values(ids);
    var cases := s.cases;
    assert StmtReach(s) == ExprReach(s.discriminant) + CasesReach(cases);
    ghost var mb;
    CalleesAppend(ExprReach(s.discriminant), CasesReach(cases));
    mb := Values(ids);
    RunAppend(p, names, ExprReach(s.discriminant), CasesReach(cases), mb);
    r := VisitExpression(p, names, s.discriminant, ids);
    if r.Fail? {
      return;
    }
    SliceEnds(cases);
    for i := 0 to |cases|
      invariant Callees(CasesReach(cases[i..])) <= ids
      invariant Run(p, names, StmtReach(s), m0) == Run(p, names, CasesReach(cases[i..]), Values(ids))
    {
      var ss := cases[i].consequent;
      SliceStep(cases, i);
      CalleesAppend(BlockReach(ss), CasesReach(cases[i + 1..]));
      mb := Values(ids);
      RunAppend(p, names, BlockReach(ss), CasesReach(cases[i + 1..]), mb);
      SliceEnds(ss);
      for j := 0 to |ss|
        invariant Callees(BlockReach(ss[j..])) <= ids
        invariant Run(p, names, BlockReach(ss), mb) == Run(p, names, BlockReach(ss[j..]), Values(ids))
      {
        SliceStep(ss, j);
        CalleesAppend(StmtReach(ss[j]), BlockReach(ss[j + 1..]));
        ghost var mj := Values(ids);
        RunAppend(p, names, StmtReach(ss[j]), BlockReach(ss[j + 1..]), mj);
        r := VisitStatement(p, names, ss[j], ids);
        if r.Fail? {
          return;
        }
      }
    }
    r := Ok(());
  }

  /** visitBlockStatement */
  method VisitBlockStatement(p: Processing, names: seq<string>, ss: seq<Stmt>, ghost ids: set<Identifier>) returns (r: Result<()>)
    requires Callees(BlockReach(ss)) <= ids
    modifies ids
    ensures Walked(p, names, BlockReach(ss), old(Values(ids)), Values(ids), r)
    decreases ss, 3
  {
    ghost var m0 := Values(ids);
    SliceEnds(ss);
    for i := 0 to |ss|
      invariant Callees(BlockReach(ss[i..])) <= ids
      invariant Run(p, names, BlockReach(ss), m0) == Run(p, names, BlockReach(ss[i..]), Values(ids))
    {
      SliceStep(ss, i);
      CalleesAppend(StmtReach(ss[i]), BlockReach(ss[i + 1..]));
      ghost var mb := Values(ids);
      RunAppend(p, names, StmtReach(ss[i]), BlockReach(ss[i + 1..]), mb);
      r := VisitStatement(p, names, ss[i], ids);
      if r.Fail? {
        return;
      }
    }
    r := Ok(());
  }

  /** The switch of findSwcTypiaUsage on one module item. */
  method VisitModuleItem(p: Processing, names: seq<string>, item: ModuleItem, ghost ids: set<Identifier>) returns (r: Result<()>)
    requires Callees(ItemReach(item)) <= ids
    modifies ids
    ensures Walked(p, names, ItemReach(item), old(Values(ids)), Values(ids), r)
  {
    match item
    case ExportDecl(d) => r := VisitStatement(p, names, d, ids);
    case ExportDefaultExpr(x) => r := VisitExpression(p, names, x, ids);
    case StmtItem(s) =>
      if s.ThrowStmt? {
        r := VisitExpression(p, names, s.thrown, ids);
      } else if s.LabeledStmt? {
        r := Ok(());
      } else {
        r := VisitStatement(p, names, s, ids);
      }
    case _ => r := Ok(());
  }

  /** findSwcTypiaUsage */
  method FindSwcTypiaUsage(p: Processing, names: seq<string>, body: seq<ModuleItem>, ghost ids: set<Identifier>) returns (r: Result<()>)
    requires Callees(ModuleReach(body)) <= ids
    modifies ids
    ensures Walked(p, names, ModuleReach(body), old(Values(ids)), Values(ids), r)
  {
    ghost var m0 := Values(ids);
    SliceEnds(body);
    for i := 0 to |body|
      invariant Callees(ModuleReach(body[i..])) <= ids
      invariant Run(p, names, ModuleReach(body), m0) == Run(p, names, ModuleReach(body[i..]), Values(ids))
    {
      SliceStep(body, i);
      CalleesAppend(ItemReach(body[i]), ModuleReach(body[i + 1..]));
      ghost var mb := Values(ids);
      RunAppend(p, names, ItemReach(body[i]), ModuleReach(body[i + 1..]), mb);
      r := VisitModuleItem(p, names, body[i], ids);
      if r.Fail? {
        return;
      }
    }
    r := Ok(());
  }
}
