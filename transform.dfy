/** index.ts: findSwcTypiaImports, which collects the names to track, and
    transformFile, which decides between printing the rewritten tree and
    handing back the original text. The parser and the printer are foreign:
    the file comes in already parsed (or as the parser's exception), and the
    printed text is represented by the tree it is printed from. */
module Transform {
  import opened Common
  import opened Syntax
  import opened TypeResolver
  import opened IsProcessor
  import opened Usage
  import opened ResolverProperties

  /** The import source whose named imports are tracked. */
  const Sentinel := "./swctypia"

  // ----- findSwcTypiaImports -----

  /** The local names of the named specifiers of one import list, in order;
      default and namespace specifiers contribute nothing. */
  function SpecifierNames(specs: seq<ImportSpecifier>): seq<string> {
    if specs == [] then []
    else (if specs[0].NamedSpecifier? then [specs[0].local] else []) + SpecifierNames(specs[1..])
  }

  /** The names one module item contributes: those of an import from the
      sentinel module, nothing otherwise. */
  function ItemImports(item: ModuleItem): seq<string> {
    if item.ImportDecl? && item.source == Sentinel then SpecifierNames(item.specifiers) else []
  }

  /** The tracked names of a module body, in source order. */
  function TrackedImports(body: seq<ModuleItem>): seq<string> {
    if body == [] then [] else ItemImports(body[0]) + TrackedImports(body[1..])
  }

  /** A name is collected exactly when some specifier of some import from
      the sentinel module imports it by name. */
  lemma {:induction false} TrackedImportsMembers(body: seq<ModuleItem>, n: string)
    ensures n in TrackedImports(body) <==>
      exists i, j :: 0 <= i < |body| && body[i].ImportDecl? && body[i].source == Sentinel &&
        0 <= j < |body[i].specifiers| && body[i].specifiers[j] == NamedSpecifier(n)
    decreases body
  {
    if body != [] {
      TrackedImportsMembers(body[1..], n);
      if body[0].ImportDecl? && body[0].source == Sentinel {
        SpecifierNamesMembers(body[0].specifiers, n);
      }
      if n in TrackedImports(body[1..]) {
        var i, j :| 0 <= i < |body[1..]| && body[1..][i].ImportDecl? && body[1..][i].source == Sentinel &&
          0 <= j < |body[1..][i].specifiers| && body[1..][i].specifiers[j] == NamedSpecifier(n);
        assert body[i + 1] == body[1..][i];
      }
      if exists i, j :: 0 <= i < |body| && body[i].ImportDecl? && body[i].source == Sentinel &&
                        0 <= j < |body[i].specifiers| && body[i].specifiers[j] == NamedSpecifier(n) {
        var i, j :| 0 <= i < |body| && body[i].ImportDecl? && body[i].source == Sentinel &&
          0 <= j < |body[i].specifiers| && body[i].specifiers[j] == NamedSpecifier(n);
        if i > 0 {
          assert body[1..][i - 1] == body[i];
        }
      }
    }
  }

  lemma {:induction false} SpecifierNamesMembers(specs: seq<ImportSpecifier>, n: string)
    ensures n in SpecifierNames(specs) <==> exists j :: 0 <= j < |specs| && specs[j] == NamedSpecifier(n)
    decreases specs
  {
    if specs != [] {
      SpecifierNamesMembers(specs[1..], n);
      if n in SpecifierNames(specs[1..]) {
        var j :| 0 <= j < |specs[1..]| && specs[1..][j] == NamedSpecifier(n);
        assert specs[j + 1] == specs[1..][j];
      }
      if exists j :: 0 <= j < |specs| && specs[j] == NamedSpecifier(n) {
        var j :| 0 <= j < |specs| && specs[j] == NamedSpecifier(n);
        if j > 0 {
          assert specs[1..][j - 1] == specs[j];
        }
      }
    }
  }

  lemma SpecifierNamesStep(specs: seq<ImportSpecifier>, j: nat)
    requires j < |specs|
    ensures SpecifierNames(specs[j..]) ==
      (if specs[j].NamedSpecifier? then [specs[j].local] else []) + SpecifierNames(specs[j + 1..])
  {
    SliceStep(specs, j);
  }

  lemma TrackedImportsStep(body: seq<ModuleItem>, i: nat)
    requires i < |body|
    ensures TrackedImports(body[i..]) == ItemImports(body[i]) + TrackedImports(body[i + 1..])
  {
    SliceStep(body, i);
  }

  /** findSwcTypiaImports: the tracked names, or `None` (undefined) when there
      are none. */
  method FindSwcTypiaImports(m: Module) returns (r: Option<seq<string>>)
    ensures r.None? <==> TrackedImports(m.body) == []
    ensures r.Some? ==> r.value == TrackedImports(m.body)
  {
    var body := m.body;
    var found: seq<string> := [];
    SliceEnds(body);
    for i := 0 to |body|
      invariant found + TrackedImports(body[i..]) == TrackedImports(body)
    {
      var item := body[i];
      TrackedImportsStep(body, i);
      Assoc(found, ItemImports(item), TrackedImports(body[i + 1..]));
      ghost var before := found;
      if item.ImportDecl? && item.source == Sentinel {
        var specs := item.specifiers;
        SliceEnds(specs);
        for j := 0 to |specs|
          invariant found + SpecifierNames(specs[j..]) == before + SpecifierNames(specs)
        {
          var head := if specs[j].NamedSpecifier? then [specs[j].local] else [];
          SpecifierNamesStep(specs, j);
          Assoc(found, head, SpecifierNames(specs[j + 1..]));
          if specs[j].NamedSpecifier? {
            found := found + [specs[j].local];
          } else {
            assert found + head == found;
          }
        }
        assert found == before + ItemImports(item);
      } else {
        assert ItemImports(item) == [];
        assert before + ItemImports(item) == before;
      }
    }
    if |found| == 0 {
      return None;
    }
    return Some(found);
  }

  // ----- transformFile -----

  /** What transformFile does: hand back the original text, hand back the
      printout of the parsed tree as the walk left it, or never return (a
      type resolution that does not finish). */
  datatype Output = Unchanged | Printed(tree: Module) | NeverReturns

  /** The context transformFile builds for the walk: the parsed file is the
      home module. */
  function Setup(loader: Loader, parse: string -> Parsed, b: Budget, m: Module): Processing {
    Processing(Context(m, loader), parse, b)
  }

  /** transformFile, from the parser's outcome and the identifier values
      before: the output and the identifier values after. A parse exception,
      a file with no tracked name and an exception during the walk all give
      back the original text; a resolution that does not finish leaves the
      call pending forever. */
  function Transformed(loader: Loader, parse: string -> Parsed, b: Budget, parsed: Result<Module>, before: map<Identifier, string>): (t: (Output, map<Identifier, string>))
    requires parsed.Ok? ==> Callees(ModuleReach(parsed.value.body)) <= before.Keys
    ensures t.1.Keys == before.Keys
    ensures t.0.Printed? ==> parsed.Ok? && t.0.tree == parsed.value
  {
    if parsed.Fail? then (Unchanged, before)
    else
      var names := TrackedImports(parsed.value.body);
      if names == [] then (Unchanged, before)
      else
        var w := Run(Setup(loader, parse, b, parsed.value), names, ModuleReach(parsed.value.body), before);
        (if w.0.Ok? then Printed(parsed.value) else if w.0.error == Unfinished then NeverReturns else Unchanged, w.1)
  }

  /** transformFile. `ids` holds the callee identifiers of the parsed tree. */
  method TransformFile(loader: Loader, parse: string -> Parsed, b: Budget, parsed: Result<Module>, ghost ids: set<Identifier>) returns (out: Output)
    requires parsed.Ok? ==> Callees(ModuleReach(parsed.value.body)) <= ids
    modifies ids
    ensures (out, Values(ids)) == Transformed(loader, parse, b, parsed, old(Values(ids)))
  {
    if parsed.Fail? {
      return Unchanged;
    }
    var m := parsed.value;
    var names := FindSwcTypiaImports(m);
    if names.None? {
      return Unchanged;
    }
    var r := FindSwcTypiaUsage(Setup(loader, parse, b, m), names.value, m.body, ids);
    if r == Fail(Unfinished) {
      return NeverReturns;
    }
    if r.Fail? {
      return Unchanged;
    }
    return Printed(m);
  }

  // ----- Properties of transformFile -----

  /** Without a tracked name nothing is visited: the original text comes back
      and no identifier changes. */
  lemma NoImportUnchanged(loader: Loader, parse: string -> Parsed, b: Budget, m: Module, before: map<Identifier, string>)
    requires Callees(ModuleReach(m.body)) <= before.Keys
    requires forall i :: 0 <= i < |m.body| && m.body[i].ImportDecl? ==>
      m.body[i].source != Sentinel || forall j :: 0 <= j < |m.body[i].specifiers| ==> !m.body[i].specifiers[j].NamedSpecifier?
    ensures Transformed(loader, parse, b, Ok(m), before) == (Unchanged, before)
  {
    if TrackedImports(m.body) != [] {
      TrackedImportsMembers(m.body, TrackedImports(m.body)[0]);
    }
  }

  /** In a tree whose callees are distinct, the file is printed exactly when
      it imports a tracked name and the processing of no tracked call throws. */
  lemma PrintedIff(loader: Loader, parse: string -> Parsed, b: Budget, m: Module, before: map<Identifier, string>)
    requires Callees(ModuleReach(m.body)) <= before.Keys && Distinct(ModuleReach(m.body))
    ensures (var cs := ModuleReach(m.body); var names := TrackedImports(m.body);
      Transformed(loader, parse, b, Ok(m), before).0 == Printed(m) <==>
        names != [] &&
        forall i :: 0 <= i < |cs| && Tracked(cs[i], before, names) ==>
          Processed(Setup(loader, parse, b, m), cs[i].typeArguments).Ok?)
  {
    RunSucceedsIff(Setup(loader, parse, b, m), TrackedImports(m.body), ModuleReach(m.body), before);
  }

  /** In a tree whose callees are distinct, transformFile never returns
      exactly when it imports a tracked name and the first tracked call whose
      processing throws is one whose resolution does not finish. Every other
      exception is caught, and the original text comes back. */
  lemma NeverReturnsIff(loader: Loader, parse: string -> Parsed, b: Budget, m: Module, before: map<Identifier, string>)
    requires Callees(ModuleReach(m.body)) <= before.Keys && Distinct(ModuleReach(m.body))
    ensures (var cs := ModuleReach(m.body); var names := TrackedImports(m.body);
      Transformed(loader, parse, b, Ok(m), before).0 == NeverReturns <==>
        names != [] &&
        exists i: nat :: FirstFailure(Setup(loader, parse, b, m), names, cs, before, i) &&
          Processed(Setup(loader, parse, b, m), cs[i].typeArguments) == Fail(Unfinished))
  {
    RunFailsAtFirst(Setup(loader, parse, b, m), TrackedImports(m.body), ModuleReach(m.body), before, Unfinished);
  }

  /** In a printed file whose callees are distinct, every reached call with a
      tracked callee name carries the namespace prefix and every other
      reached callee keeps its name. */
  lemma PrintedRenames(loader: Loader, parse: string -> Parsed, b: Budget, m: Module, before: map<Identifier, string>)
    requires Callees(ModuleReach(m.body)) <= before.Keys && Distinct(ModuleReach(m.body))
    requires Transformed(loader, parse, b, Ok(m), before).0.Printed?
    ensures (var cs := ModuleReach(m.body); var after := Transformed(loader, parse, b, Ok(m), before).1;
      forall i :: 0 <= i < |cs| && cs[i].CallExpr? && cs[i].callee.CalleeIdent? ==>
        cs[i].callee.id in before &&
        after[cs[i].callee.id] ==
          if before[cs[i].callee.id] in TrackedImports(m.body) then Namespace + before[cs[i].callee.id]
          else before[cs[i].callee.id])
  {
    var cs := ModuleReach(m.body);
    forall i | 0 <= i < |cs| && cs[i].CallExpr? && cs[i].callee.CalleeIdent?
      ensures cs[i].callee.id in before
    {
      InCallees(cs, i);
    }
    RunRenamesTracked(Setup(loader, parse, b, m), TrackedImports(m.body), cs, before);
  }

  // ----- The budget only cuts the walk off -----

  lemma ProcessedMoreFuel(p: Processing, typeArguments: seq<TsType>, f: nat)
    requires Processed(p, typeArguments) != Fail(Unfinished)
    ensures Processed(p.(budget := More(p.budget, f)), typeArguments) == Processed(p, typeArguments)
  {
    if typeArguments != [] {
      ResolvedMoreFuel(p.ctx, typeArguments[0], p.budget, f);
    }
  }

  lemma {:induction false} RunMoreFuel(p: Processing, names: seq<string>, cs: seq<Expr>, m: map<Identifier, string>, f: nat)
    requires Callees(cs) <= m.Keys
    requires Run(p, names, cs, m).0 != Fail(Unfinished)
    ensures Run(p.(budget := More(p.budget, f)), names, cs, m) == Run(p, names, cs, m)
    decreases cs
  {
    if cs != [] {
      if Tracked(cs[0], m, names) {
        ProcessedMoreFuel(p, cs[0].typeArguments, f);
        if Processed(p, cs[0].typeArguments).Ok? {
          RunMoreFuel(p, names, cs[1..], m[cs[0].callee.id := Namespace + m[cs[0].callee.id]], f);
        }
      } else {
        RunMoreFuel(p, names, cs[1..], m, f);
      }
    }
  }

  /** Whatever transformFile does within a budget, other than not returning,
      it does with any larger one: the original text, or the printout with
      the same identifier values, is what the source, which has no bound,
      produces. */
  lemma TransformedMoreFuel(loader: Loader, parse: string -> Parsed, b: Budget, parsed: Result<Module>, before: map<Identifier, string>, f: nat)
    requires parsed.Ok? ==> Callees(ModuleReach(parsed.value.body)) <= before.Keys
    requires Transformed(loader, parse, b, parsed, before).0 != NeverReturns
    ensures Transformed(loader, parse, More(b, f), parsed, before) == Transformed(loader, parse, b, parsed, before)
  {
    if parsed.Ok? && TrackedImports(parsed.value.body) != [] {
      var m := parsed.value;
      assert Setup(loader, parse, More(b, f), m) == Setup(loader, parse, b, m).(budget := More(b, f));
      RunMoreFuel(Setup(loader, parse, b, m), TrackedImports(m.body), ModuleReach(m.body), before, f);
    }
  }

  // ----- Self-referential types -----

  /** The file `import {is} from './swctypia'; type Node = {next: Node};
      is<Node>(x)` as a module body, with `callee` the identifier `is` of the
      call and `alias` the declaration of Node. */
  function CycleFile(callee: Identifier, alias: TsType): seq<ModuleItem> {
    [ ImportDecl([NamedSpecifier("is")], Sentinel),
      StmtItem(TypeAliasDecl("Node", alias)),
      StmtItem(ExprStmt(CallExpr(CalleeIdent(callee), [IdentExpr("x")], [TypeReference(SimpleName("Node"), [])]))) ]
  }

  lemma CycleFileReach(callee: Identifier, alias: TsType)
    ensures ModuleReach(CycleFile(callee, alias)) == [CycleFile(callee, alias)[2].stmt.expression]
    ensures TrackedImports(CycleFile(callee, alias)) == ["is"]
  {
    var body := CycleFile(callee, alias);
    var call := body[2].stmt.expression;
    assert body[1..][1..] == body[2..] && body[2..][1..] == [];
    assert body[2..] == [body[2]];
    assert ItemReach(body[2]) == StmtReach(body[2].stmt) == ExprReach(call) == [call];
    assert ModuleReach(body[2..]) == [call] + ModuleReach([]);
    assert ModuleReach(body[1..]) == [] + ModuleReach(body[2..]);
    assert ModuleReach(body) == [] + ModuleReach(body[1..]);
    assert [NamedSpecifier("is")][1..] == [];
    assert SpecifierNames([NamedSpecifier("is")]) == ["is"] + [];
    assert TrackedImports(body[2..]) == ItemImports(body[2]) + TrackedImports([]) == [];
    assert TrackedImports(body[1..]) == ItemImports(body[1]) + TrackedImports(body[2..]) == [];
    assert TrackedImports(body) == ["is"] + [];
  }

  /** With `type Node = {next: Node}` the call's resolution recurses through
      a property signature, awaits at every turn and never finishes, so
      transformFile never returns, whatever the budget. */
  lemma SelfReferentialCallNeverReturns(loader: Loader, parse: string -> Parsed, b: Budget, callee: Identifier, key: Expr, before: map<Identifier, string>)
    requires b.stack > 0 && b.room > 0
    requires callee in before && before[callee] == "is"
    ensures (var m := Module(CycleFile(callee, TypeLiteral([PropertySignature(key, false, false, Some(TypeReference(SimpleName("Node"), [])))])));
      Callees(ModuleReach(m.body)) <= before.Keys &&
      Transformed(loader, parse, b, Ok(m), before).0 == NeverReturns)
  {
    var alias := TypeLiteral([PropertySignature(key, false, false, Some(TypeReference(SimpleName("Node"), [])))]);
    var m := Module(CycleFile(callee, alias));
    CycleFileReach(callee, alias);
    var call := m.body[2].stmt.expression;
    assert Callees([call]) == {callee};
    assert !DecidesReference(m.body[0], "Node") by {
      assert !ImportsName([NamedSpecifier("is")], "Node");
    }
    SelfReferenceNeverFinishes(Context(m, loader), "Node", key, 1, b);
    assert Processed(Setup(loader, parse, b, m), call.typeArguments) == Fail(Unfinished);
    assert Run(Setup(loader, parse, b, m), ["is"], [call], before).0 == Fail(Unfinished);
  }

  /** With `type Node = Node[]` the resolution recurses without ever
      suspending and overflows the stack; the RangeError is caught like any
      exception and the original text comes back. */
  lemma SyncSelfReferentialCallUnchanged(loader: Loader, parse: string -> Parsed, b: Budget, callee: Identifier, before: map<Identifier, string>)
    requires b.fuel >= b.room
    requires callee in before && before[callee] == "is"
    ensures (var m := Module(CycleFile(callee, ArrayType(TypeReference(SimpleName("Node"), []))));
      Callees(ModuleReach(m.body)) <= before.Keys &&
      Transformed(loader, parse, b, Ok(m), before).0 == Unchanged)
  {
    var alias := ArrayType(TypeReference(SimpleName("Node"), []));
    var m := Module(CycleFile(callee, alias));
    CycleFileReach(callee, alias);
    var call := m.body[2].stmt.expression;
    assert Callees([call]) == {callee};
    assert !DecidesReference(m.body[0], "Node") by {
      assert !ImportsName([NamedSpecifier("is")], "Node");
    }
    SyncSelfReferenceOverflows(Context(m, loader), "Node", 1, b);
    assert Processed(Setup(loader, parse, b, m), call.typeArguments) == Fail(StackOverflow);
    assert Run(Setup(loader, parse, b, m), ["is"], [call], before).0 == Fail(StackOverflow);
  }
}
