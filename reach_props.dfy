/** The reachability rules of the walk in index.ts, stated position by
    position, and what they mean for a tracked call. */
module ReachProperties {
  import opened Common
  import opened Syntax
  import opened IsProcessor
  import opened Usage

  /** A call's arguments are never searched: within a call, the walk tests
      the call's own callee and no other identifier changes. */
  lemma {:induction false} ArgumentsNeverSearched(p: Processing, names: seq<string>, c: Expr, m: map<Identifier, string>)
    requires c.CallExpr? && CalleeObjects(c) <= m.Keys
    ensures ExprReach(c) == [c] && InitReach(c) == [c]
    ensures forall o :: o in m && o !in CalleeObjects(c) ==> Run(p, names, ExprReach(c), m).1[o] == m[o]
  {
    assert Callees([c]) == CalleeObjects(c) by {
      assert [c][1..] == [];
    }
    RunKeepsOthers(p, names, [c], m);
  }

  /** The walk's leaves: in expression position, object, function, unary,
      update, binary, assignment, member, conditional, new and sequence
      expressions; as a variable initializer, class, yield and await
      expressions, although they are searched in expression position. */
  lemma LeafPositions(e: Expr)
    ensures (e.ObjectExpr? || e.FunctionExpr? || e.UnaryExpr? || e.UpdateExpr? || e.BinaryExpr? ||
             e.AssignExpr? || e.MemberExpr? || e.CondExpr? || e.NewExpr? || e.SeqExpr?) ==> ExprReach(e) == []
    ensures (e.ClassExpr? || e.YieldExpr? || e.AwaitExpr?) ==> InitReach(e) == []
  {
  }

  /** Inside an initializer, the left side of an assignment, the property
      of a member expression, the arguments of `new` and object spread
      elements are never searched. */
  lemma NeverSearchedInInitializer(l: Expr, r: Expr, args: seq<Expr>, x: Expr)
    ensures InitReach(AssignExpr(l, r)) == ExprReach(r)
    ensures InitReach(MemberExpr(r, l)) == ExprReach(r)
    ensures InitReach(NewExpr(r, args)) == ExprReach(r)
    ensures PropReach(SpreadProp(x)) == []
  {
  }

  /** The pattern on the left of for-in and for-of is never searched. */
  lemma ForPatternNeverSearched(pat: Expr, t: Expr, body: Stmt)
    ensures StmtReach(ForInStmt(HeadPattern(pat), t, body)) == ExprReach(t) + StmtReach(body)
    ensures StmtReach(ForOfStmt(HeadPattern(pat), t, body)) == ExprReach(t) + StmtReach(body)
  {
  }

  /** The test of a switch case is never searched, its consequent is. */
  lemma {:induction false} CaseTestNeverSearched(d: Expr, test: Expr, ss: seq<Stmt>)
    ensures StmtReach(SwitchStmt(d, [SwitchCase(Some(test), ss)])) == ExprReach(d) + BlockReach(ss)
  {
    var cases := [SwitchCase(Some(test), ss)];
    assert cases[1..] == [];
    assert CasesReach(cases) == BlockReach(ss) + [];
    assert BlockReach(ss) + [] == BlockReach(ss);
  }

  /** What only the top level handles: a throw statement is searched only
      there, export declarations and default-export expressions can only
      stand there, and a labeled statement is searched only when nested. */
  lemma TopLevelOnly(x: Expr, s: Stmt)
    ensures ItemReach(StmtItem(ThrowStmt(x))) == ExprReach(x) && StmtReach(ThrowStmt(x)) == []
    ensures ItemReach(ExportDecl(s)) == StmtReach(s) && ItemReach(ExportDefaultExpr(x)) == ExprReach(x)
    ensures ItemReach(StmtItem(LabeledStmt(s))) == [] && StmtReach(LabeledStmt(s)) == StmtReach(s)
  {
  }

  /** Depth-first in source order: `if` searches its test, consequent and
      alternate in that order; do-while its test before its body. */
  lemma SourceOrder(t: Expr, c: Stmt, a: Stmt, body: Stmt)
    ensures StmtReach(IfStmt(t, c, Some(a))) == ExprReach(t) + StmtReach(c) + StmtReach(a)
    ensures StmtReach(DoWhileStmt(body, t)) == ExprReach(t) + StmtReach(body)
  {
  }

  /** The same tracked call `a && f<T>()` is rewritten as a variable
      initializer but not as an expression statement. */
  lemma {:induction false} PositionMatters(p: Processing, names: seq<string>, f: Identifier, t: TsType, m: map<Identifier, string>)
    requires f in m && m[f] in names
    requires Processed(p, [t]).Ok?
    ensures (var e := BinaryExpr(IdentExpr("a"), CallExpr(CalleeIdent(f), [], [t]));
      Callees(StmtReach(VarDecl([Some(e)]))) <= m.Keys &&
      Run(p, names, StmtReach(VarDecl([Some(e)])), m) == (Ok(()), m[f := Namespace + m[f]]) &&
      StmtReach(ExprStmt(e)) == [] &&
      Run(p, names, StmtReach(ExprStmt(e)), m) == (Ok(()), m))
  {
    var c := CallExpr(CalleeIdent(f), [], [t]);
    var e := BinaryExpr(IdentExpr("a"), c);
    var ds: Declarators := [Some(e)];
    assert ds[1..] == [];
    assert InitReach(e) == [] + [c];
    assert DeclsReach(ds) == InitReach(e) + [];
    assert StmtReach(VarDecl(ds)) == [c];
    assert StmtReach(ExprStmt(e)) == [];
    assert [c][1..] == [];
    assert Callees([c]) == {f};
  }
}
