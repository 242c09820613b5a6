/** What the type resolver guarantees, proved about its specification. */
module ResolverProperties {
  import opened Common
  import opened Syntax
  import opened Schema
  import opened TypeResolver

  // ----- Every object schema the resolver produces holds each key once -----

  predicate ObjectKeysUnique(r: Result<Option<Schema>>) {
    r.Ok? && r.value.Some? && r.value.value.ObjectNode? ==> UniqueKeys(r.value.value.properties)
  }

  lemma {:induction false} ElementsKeepKeysUnique(ctx: Context, acc: seq<Property>, ms: seq<TypeElement>, b: Budget)
    requires UniqueKeys(acc)
    ensures ElementsFrom(ctx, acc, ms, b).Ok? ==> UniqueKeys(ElementsFrom(ctx, acc, ms, b).value)
    decreases ms
  {
    if ms != [] {
      var e := ElementResolved(ctx, ms[0], b);
      if e.Ok? {
        if e.value.Some? {
          PutKeepsKeysUnique(acc, e.value.value.key, e.value.value.value);
          ElementsKeepKeysUnique(ctx, Put(acc, e.value.value.key, e.value.value.value), ms[1..], b);
        } else {
          ElementsKeepKeysUnique(ctx, acc, ms[1..], b);
        }
      }
    }
  }

  lemma {:induction false} MergeKeepsKeysUnique(acc: seq<Property>, ps: seq<Property>)
    requires UniqueKeys(acc)
    ensures UniqueKeys(Merge(acc, ps))
    decreases ps
  {
    if ps != [] {
      PutKeepsKeysUnique(acc, ps[0].key, ps[0].value);
      MergeKeepsKeysUnique(Put(acc, ps[0].key, ps[0].value), ps[1..]);
    }
  }

  lemma {:induction false} IntersectionKeepsKeysUnique(ctx: Context, acc: seq<Property>, ts: seq<TsType>, b: Budget)
    requires UniqueKeys(acc)
    ensures IntersectionFrom(ctx, acc, ts, b).Ok? ==> UniqueKeys(IntersectionFrom(ctx, acc, ts, b).value)
    decreases ts
  {
    if ts != [] {
      var r := Resolved(ctx, ts[0], b);
      if r.Ok? {
        if r.value.Some? && r.value.value.ObjectNode? {
          MergeKeepsKeysUnique(acc, r.value.value.properties);
          IntersectionKeepsKeysUnique(ctx, Merge(acc, r.value.value.properties), ts[1..], Resumed(b));
        } else {
          IntersectionKeepsKeysUnique(ctx, acc, ts[1..], Resumed(b));
        }
      }
    }
  }

  /** Whatever path produced it (a type literal, an intersection, a declaration
      found by name in this or another file), an object schema never holds a
      key twice. */
  lemma {:induction false} ResolvedObjectKeysUnique(ctx: Context, t: TsType, b: Budget)
    ensures ObjectKeysUnique(Resolved(ctx, t, b))
    decreases b.fuel, 0, t
  {
    match t
    case TypeReference(n, _) =>
      if !n.QualifiedName? && b.room > 0 && b.fuel > 0 {
        ReferenceObjectKeysUnique(ctx, n.name, Deeper(b), 0);
      }
    case TypeLiteral(ms) =>
      ElementsKeepKeysUnique(ctx, [], ms, b);
    case IntersectionType(ts) =>
      IntersectionKeepsKeysUnique(ctx, [], ts, b);
    case _ =>
  }

  lemma {:induction false} DeclarationObjectKeysUnique(ctx: Context, d: Stmt, b: Budget)
    requires d.TypeAliasDecl? || d.InterfaceDecl?
    ensures ObjectKeysUnique(DeclarationResolved(ctx, d, b))
    decreases b.fuel, 0, d
  {
    if d.TypeAliasDecl? {
      ResolvedObjectKeysUnique(ctx, d.typeAnnotation, b);
    } else {
      ElementsKeepKeysUnique(ctx, [], d.interfaceBody, b);
    }
  }

  lemma {:induction false} ReferenceObjectKeysUnique(ctx: Context, name: string, b: Budget, i: nat)
    requires i <= |ctx.home.body|
    ensures ObjectKeysUnique(ReferenceFrom(ctx, name, b, i))
    decreases b.fuel, 3, |ctx.home.body| - i
  {
    if i < |ctx.home.body| {
      var item := ctx.home.body[i];
      if item.ImportDecl? && ImportsName(item.specifiers, name) {
        FileObjectKeysUnique(ctx, item.source, name, b);
      } else if LocalDeclaration(item, name).Some? {
        DeclarationObjectKeysUnique(ctx, LocalDeclaration(item, name).value, b);
      } else {
        ReferenceObjectKeysUnique(ctx, name, b, i + 1);
      }
    }
  }

  lemma {:induction false} FileObjectKeysUnique(ctx: Context, source: string, name: string, b: Budget)
    ensures ObjectKeysUnique(FileResolved(ctx, source, name, b))
    decreases b.fuel, 2
  {
    if source in ctx.loader {
      ExportsObjectKeysUnique(ctx, ctx.loader[source], name, Resumed(b), 0);
    }
  }

  lemma {:induction false} ExportsObjectKeysUnique(ctx: Context, m: Module, name: string, b: Budget, i: nat)
    requires i <= |m.body|
    ensures ObjectKeysUnique(ExportsFrom(ctx, m, name, b, i))
    decreases b.fuel, 1, |m.body| - i
  {
    if i < |m.body| {
      var item := m.body[i];
      if ExportedDeclaration(item, name).Some? {
        DeclarationObjectKeysUnique(ctx, ExportedDeclaration(item, name).value, b);
      } else if item.ExportNamed? {
        if item.reexportSource.Some? && b.fuel > 0 {
          FileObjectKeysUnique(ctx, item.reexportSource.value, name, b.(fuel := b.fuel - 1));
        }
      } else {
        ExportsObjectKeysUnique(ctx, m, name, b, i + 1);
      }
    }
  }

  // ----- Type literals and interface bodies -----

  /** The key under which a member contributes an entry, if it contributes one:
      every non-computed property signature does, no other member does. */
  function SignatureKey(m: TypeElement): Option<string> {
    if m.PropertySignature? && !m.computed then Some(PropertyKey(m.key)) else None
  }

  lemma {:induction false} ElementsFailure(ctx: Context, acc: seq<Property>, ms: seq<TypeElement>, b: Budget)
    ensures ElementsFrom(ctx, acc, ms, b).Fail? <==> exists i :: 0 <= i < |ms| && ElementResolved(ctx, ms[i], b).Fail?
    decreases ms
  {
    if ms != [] {
      var e := ElementResolved(ctx, ms[0], b);
      if e.Ok? {
        var next := if e.value.Some? then Put(acc, e.value.value.key, e.value.value.value) else acc;
        ElementsFailure(ctx, next, ms[1..], b);
        if exists i :: 0 <= i < |ms| && ElementResolved(ctx, ms[i], b).Fail? {
          var i :| 0 <= i < |ms| && ElementResolved(ctx, ms[i], b).Fail?;
          if i > 0 {
            assert ms[1..][i - 1] == ms[i];
          }
        }
        forall i | 0 <= i < |ms[1..]| && ElementResolved(ctx, ms[1..][i], b).Fail?
          ensures ElementResolved(ctx, ms[i + 1], b).Fail?
        {
          assert ms[1..][i] == ms[i + 1];
        }
      }
    }
  }

  /** A property signature that resolves contributes its own key. */
  lemma ElementKey(ctx: Context, m: TypeElement, b: Budget)
    requires ElementResolved(ctx, m, b).Ok?
    ensures ElementResolved(ctx, m, b).value.Some? <==> SignatureKey(m).Some?
    ensures SignatureKey(m).Some? ==> ElementResolved(ctx, m, b).value.value.key == SignatureKey(m).value
  {
  }

  lemma {:induction false} ElementsKeys(ctx: Context, acc: seq<Property>, ms: seq<TypeElement>, b: Budget, k: string)
    requires ElementsFrom(ctx, acc, ms, b).Ok?
    ensures HasKey(ElementsFrom(ctx, acc, ms, b).value, k)
        <==> HasKey(acc, k) || exists i :: 0 <= i < |ms| && SignatureKey(ms[i]) == Some(k)
    decreases ms
  {
    if ms != [] {
      var e := ElementResolved(ctx, ms[0], b);
      ElementKey(ctx, ms[0], b);
      var next := if e.value.Some? then Put(acc, e.value.value.key, e.value.value.value) else acc;
      ElementsKeys(ctx, next, ms[1..], b, k);
      assert HasKey(next, k) <==> HasKey(acc, k) || SignatureKey(ms[0]) == Some(k);
      if exists i :: 0 <= i < |ms| && SignatureKey(ms[i]) == Some(k) {
        var i :| 0 <= i < |ms| && SignatureKey(ms[i]) == Some(k);
        if i > 0 {
          assert ms[1..][i - 1] == ms[i];
        }
      }
      forall i | 0 <= i < |ms[1..]| && SignatureKey(ms[1..][i]) == Some(k)
        ensures SignatureKey(ms[i + 1]) == Some(k)
      {
        assert ms[1..][i] == ms[i + 1];
      }
    }
  }

  /** Members that do not contribute `k` leave its value alone. */
  lemma {:induction false} ElementsKeepValue(ctx: Context, acc: seq<Property>, ms: seq<TypeElement>, b: Budget, k: string)
    requires ElementsFrom(ctx, acc, ms, b).Ok?
    requires HasKey(acc, k)
    requires forall i :: 0 <= i < |ms| ==> SignatureKey(ms[i]) != Some(k)
    ensures HasKey(ElementsFrom(ctx, acc, ms, b).value, k)
    ensures ValueOf(ElementsFrom(ctx, acc, ms, b).value, k) == ValueOf(acc, k)
    decreases ms
  {
    if ms != [] {
      var e := ElementResolved(ctx, ms[0], b);
      ElementKey(ctx, ms[0], b);
      var next := if e.value.Some? then Put(acc, e.value.value.key, e.value.value.value) else acc;
      assert SignatureKey(ms[0]) != Some(k);
      forall i | 0 <= i < |ms[1..]| ensures SignatureKey(ms[1..][i]) != Some(k) {
        assert ms[1..][i] == ms[i + 1];
      }
      ElementsKeepValue(ctx, next, ms[1..], b, k);
    }
  }

  /** The value stored under a key is the one of the last signature with that key. */
  lemma {:induction false} ElementsLastWins(ctx: Context, acc: seq<Property>, ms: seq<TypeElement>, b: Budget, i: nat)
    requires ElementsFrom(ctx, acc, ms, b).Ok?
    requires i < |ms| && SignatureKey(ms[i]).Some?
    requires forall j :: i < j < |ms| ==> SignatureKey(ms[j]) != SignatureKey(ms[i])
    ensures HasKey(ElementsFrom(ctx, acc, ms, b).value, SignatureKey(ms[i]).value)
    ensures ElementResolved(ctx, ms[i], b)
         == Ok(Some(Property(SignatureKey(ms[i]).value, ValueOf(ElementsFrom(ctx, acc, ms, b).value, SignatureKey(ms[i]).value))))
    decreases ms
  {
    var k := SignatureKey(ms[i]).value;
    var e := ElementResolved(ctx, ms[0], b);
    ElementKey(ctx, ms[0], b);
    var next := if e.value.Some? then Put(acc, e.value.value.key, e.value.value.value) else acc;
    if i == 0 {
      forall j | 0 <= j < |ms[1..]| ensures SignatureKey(ms[1..][j]) != Some(k) {
        assert ms[1..][j] == ms[j + 1];
      }
      ElementsKeepValue(ctx, next, ms[1..], b, k);
    } else {
      assert ms[1..][i - 1] == ms[i];
      forall j | i - 1 < j < |ms[1..]| ensures SignatureKey(ms[1..][j]) != SignatureKey(ms[1..][i - 1]) {
        assert ms[1..][j] == ms[j + 1];
      }
      ElementsLastWins(ctx, next, ms[1..], b, i - 1);
      ElementsFailure(ctx, acc, ms, b);
      assert ElementResolved(ctx, ms[i], b).Ok?;
    }
  }

  /** resolveTsTypeLiteral / resolveTsInterfaceBody: an object schema with one
      entry per non-computed property signature, keyed by its name, holding the
      resolution of the last signature with that key; other members add
      nothing; the body throws exactly when one of its members throws. */
  lemma TypeLiteralEntries(ctx: Context, ms: seq<TypeElement>, b: Budget)
    ensures Resolved(ctx, TypeLiteral(ms), b).Fail?
        <==> exists i :: 0 <= i < |ms| && ElementResolved(ctx, ms[i], b).Fail?
    ensures Resolved(ctx, TypeLiteral(ms), b).Ok? ==>
      var r := Resolved(ctx, TypeLiteral(ms), b);
      && r.value.Some? && r.value.value.ObjectNode?
      && UniqueKeys(r.value.value.properties)
      && (forall k :: HasKey(r.value.value.properties, k) <==> exists i :: 0 <= i < |ms| && SignatureKey(ms[i]) == Some(k))
      && (forall i :: 0 <= i < |ms| && SignatureKey(ms[i]).Some? && (forall j :: i < j < |ms| ==> SignatureKey(ms[j]) != SignatureKey(ms[i])) ==>
            HasKey(r.value.value.properties, SignatureKey(ms[i]).value)
            && ElementResolved(ctx, ms[i], b)
               == Ok(Some(Property(SignatureKey(ms[i]).value, ValueOf(r.value.value.properties, SignatureKey(ms[i]).value)))))
  {
    ElementsFailure(ctx, [], ms, b);
    if ElementsFrom(ctx, [], ms, b).Ok? {
      ElementsKeepKeysUnique(ctx, [], ms, b);
      forall k ensures HasKey(ElementsFrom(ctx, [], ms, b).value, k) <==> exists i :: 0 <= i < |ms| && SignatureKey(ms[i]) == Some(k) {
        ElementsKeys(ctx, [], ms, b, k);
      }
      forall i | 0 <= i < |ms| && SignatureKey(ms[i]).Some? && (forall j :: i < j < |ms| ==> SignatureKey(ms[j]) != SignatureKey(ms[i]))
        ensures HasKey(ElementsFrom(ctx, [], ms, b).value, SignatureKey(ms[i]).value)
        ensures ElementResolved(ctx, ms[i], b)
             == Ok(Some(Property(SignatureKey(ms[i]).value, ValueOf(ElementsFrom(ctx, [], ms, b).value, SignatureKey(ms[i]).value))))
      {
        ElementsLastWins(ctx, [], ms, b, i);
      }
    }
  }

  // ----- Unions and tuples -----

  /** The resolution of each member, in order. */
  function Results(ctx: Context, ts: seq<TsType>, b: Budget): seq<Result<Option<Schema>>> {
    seq(|ts|, i requires 0 <= i < |ts| => MemberResolved(ctx, ts, i, b))
  }

  /** Past the first member, every member resolves on a fresh stack, so the
      members of `ts[1..]` resolve as they do within `ts`. */
  lemma MemberShift(ctx: Context, ts: seq<TsType>, b: Budget)
    requires ts != []
    ensures forall j :: 0 <= j < |ts| - 1 ==> MemberResolved(ctx, ts[1..], j, Resumed(b)) == MemberResolved(ctx, ts, j + 1, b)
  {
    assert Resumed(Resumed(b)) == Resumed(b);
    forall j | 0 <= j < |ts| - 1 ensures MemberResolved(ctx, ts[1..], j, Resumed(b)) == MemberResolved(ctx, ts, j + 1, b) {
      assert MemberResolved(ctx, ts[1..], j, Resumed(b)) == MemberResolved(ctx, ts, j + 1, b);
    }
  }

  /** The schemas of the results that resolved to one, in order. */
  function Kept(rs: seq<Result<Option<Schema>>>): seq<Schema> {
    if rs == [] then []
    else (if rs[0].Ok? && rs[0].value.Some? then [rs[0].value.value] else []) + Kept(rs[1..])
  }

  lemma {:induction false} KeptBounds(rs: seq<Result<Option<Schema>>>)
    ensures |Kept(rs)| <= |rs|
    ensures |Kept(rs)| == |rs| <==> forall i :: 0 <= i < |rs| ==> rs[i].Ok? && rs[i].value.Some?
    ensures forall x :: x in Kept(rs) <==> Ok(Some(x)) in rs
    ensures (forall i :: 0 <= i < |rs| ==> !(rs[i].Ok? && rs[i].value.Some?)) ==> Kept(rs) == []
  {
    if rs != [] {
      KeptBounds(rs[1..]);
      assert rs == [rs[0]] + rs[1..];
      if forall i :: 0 <= i < |rs| ==> !(rs[i].Ok? && rs[i].value.Some?) {
        forall i | 0 <= i < |rs[1..]| ensures !(rs[1..][i].Ok? && rs[1..][i].value.Some?) {
          assert rs[1..][i] == rs[i + 1];
        }
      }
      if forall i :: 0 <= i < |rs| ==> rs[i].Ok? && rs[i].value.Some? {
        forall i | 0 <= i < |rs[1..]| ensures rs[1..][i].Ok? && rs[1..][i].value.Some? {
          assert rs[1..][i] == rs[i + 1];
        }
      } else {
        var i :| 0 <= i < |rs| && !(rs[i].Ok? && rs[i].value.Some?);
        if i > 0 {
          assert rs[1..][i - 1] == rs[i];
        }
      }
    }
  }

  /** One turn of the loop behind unions and tuples. */
  lemma EachStep(ctx: Context, acc: seq<Schema>, ts: seq<TsType>, b: Budget)
    requires ts != [] && Resolved(ctx, ts[0], b).Ok?
    ensures (var r := Resolved(ctx, ts[0], b).value;
      EachFrom(ctx, acc, ts, b) == EachFrom(ctx, if r.Some? then acc + [r.value] else acc, ts[1..], Resumed(b)))
  {
  }

  /** One turn of the loop of resolveTsIntersectionType. */
  lemma IntersectionStep(ctx: Context, acc: seq<Property>, ts: seq<TsType>, b: Budget)
    requires ts != [] && (Resolved(ctx, ts[0], b).Ok? || IntersectionFrom(ctx, acc, ts, b).Ok?)
    ensures Resolved(ctx, ts[0], b).Ok?
    ensures (var r := Resolved(ctx, ts[0], b).value;
      IntersectionFrom(ctx, acc, ts, b) ==
        IntersectionFrom(ctx, if r.Some? && r.value.ObjectNode? then Merge(acc, r.value.properties) else acc, ts[1..], Resumed(b)))
  {
  }

  /** The loop behind unions and tuples keeps exactly the members that resolve,
      in source order, and throws exactly when a member throws. */
  lemma {:induction false} EachKeepsResolved(ctx: Context, acc: seq<Schema>, ts: seq<TsType>, b: Budget)
    ensures EachFrom(ctx, acc, ts, b).Fail? <==> exists i :: 0 <= i < |ts| && MemberResolved(ctx, ts, i, b).Fail?
    ensures EachFrom(ctx, acc, ts, b).Ok? ==> EachFrom(ctx, acc, ts, b).value == acc + Kept(Results(ctx, ts, b))
    decreases ts
  {
    if ts == [] {
      assert Results(ctx, ts, b) == [];
    } else {
      MemberShift(ctx, ts, b);
      var r := Resolved(ctx, ts[0], b);
      var rs := Results(ctx, ts, b);
      assert rs[0] == r && rs[1..] == Results(ctx, ts[1..], Resumed(b));
      SomeFailsSplit(ctx, ts, b);
      if r.Ok? {
        var next := if r.value.Some? then acc + [r.value.value] else acc;
        EachStep(ctx, acc, ts, b);
        EachKeepsResolved(ctx, next, ts[1..], Resumed(b));
        if r.value.Some? {
          Assoc(acc, [r.value.value], Kept(rs[1..]));
        } else {
          assert [] + Kept(rs[1..]) == Kept(rs[1..]);
        }
      }
    }
  }

  /** Some member throws exactly when the first does or some later one does. */
  lemma SomeFailsSplit(ctx: Context, ts: seq<TsType>, b: Budget)
    requires ts != []
    ensures (exists i :: 0 <= i < |ts| && MemberResolved(ctx, ts, i, b).Fail?) <==>
      Resolved(ctx, ts[0], b).Fail? || exists j :: 0 <= j < |ts| - 1 && MemberResolved(ctx, ts[1..], j, Resumed(b)).Fail?
  {
    MemberShift(ctx, ts, b);
    assert MemberResolved(ctx, ts, 0, b) == Resolved(ctx, ts[0], b);
    if exists i :: 0 <= i < |ts| && MemberResolved(ctx, ts, i, b).Fail? {
      var i :| 0 <= i < |ts| && MemberResolved(ctx, ts, i, b).Fail?;
      if i > 0 {
        assert MemberResolved(ctx, ts[1..], i - 1, Resumed(b)) == MemberResolved(ctx, ts, i, b);
      }
    }
    if exists j :: 0 <= j < |ts| - 1 && MemberResolved(ctx, ts[1..], j, Resumed(b)).Fail? {
      var j :| 0 <= j < |ts| - 1 && MemberResolved(ctx, ts[1..], j, Resumed(b)).Fail?;
      assert MemberResolved(ctx, ts[1..], j, Resumed(b)) == MemberResolved(ctx, ts, j + 1, b);
    }
  }

  /** resolveTsUnionType: a union of the members that resolve, in source order. */
  lemma UnionKeepsResolvedMembers(ctx: Context, ts: seq<TsType>, b: Budget)
    ensures Resolved(ctx, UnionType(ts), b).Fail? <==> exists i :: 0 <= i < |ts| && MemberResolved(ctx, ts, i, b).Fail?
    ensures Resolved(ctx, UnionType(ts), b).Ok? ==>
      Resolved(ctx, UnionType(ts), b) == Ok(Some(UnionNode(Kept(Results(ctx, ts, b)))))
  {
    EachKeepsResolved(ctx, [], ts, b);
    var e := EachFrom(ctx, [], ts, b);
    if e.Ok? {
      assert e.value == [] + Kept(Results(ctx, ts, b)) == Kept(Results(ctx, ts, b));
      assert Resolved(ctx, UnionType(ts), b) == Ok(Some(UnionNode(e.value)));
    }
  }

  /** A union none of whose members resolves is still a union, with no members. */
  lemma EmptyUnionIsStillUnion(ctx: Context, ts: seq<TsType>, b: Budget)
    requires forall i :: 0 <= i < |ts| ==> MemberResolved(ctx, ts, i, b) == Ok(None)
    ensures Resolved(ctx, UnionType(ts), b) == Ok(Some(UnionNode([])))
  {
    UnionKeepsResolvedMembers(ctx, ts, b);
    var rs := Results(ctx, ts, b);
    KeptBounds(rs);
    assert forall i :: 0 <= i < |ts| ==> !MemberResolved(ctx, ts, i, b).Fail?;
    assert forall i :: 0 <= i < |rs| ==> rs[i] == Ok(None);
  }

  /** resolveTsTupleType: the resolved elements in order; the arity is kept
      exactly when every element resolves. */
  lemma TupleDropsUnresolved(ctx: Context, ts: seq<TsType>, b: Budget)
    ensures Resolved(ctx, TupleType(ts), b).Fail? <==> exists i :: 0 <= i < |ts| && MemberResolved(ctx, ts, i, b).Fail?
    ensures Resolved(ctx, TupleType(ts), b).Ok? ==>
      var types := Kept(Results(ctx, ts, b));
      && Resolved(ctx, TupleType(ts), b) == Ok(Some(TupleNode(types)))
      && |types| <= |ts|
      && (|types| == |ts| <==> forall i :: 0 <= i < |ts| ==> MemberResolved(ctx, ts, i, b).value.Some?)
  {
    EachKeepsResolved(ctx, [], ts, b);
    var rs := Results(ctx, ts, b);
    KeptBounds(rs);
    var e := EachFrom(ctx, [], ts, b);
    if e.Ok? {
      assert e.value == [] + Kept(rs) == Kept(rs);
      assert Resolved(ctx, TupleType(ts), b) == Ok(Some(TupleNode(e.value)));
      assert forall i :: 0 <= i < |ts| ==> rs[i] == MemberResolved(ctx, ts, i, b) && rs[i].Ok?;
    }
  }

  // ----- Intersections -----

  lemma UniqueTail(ps: seq<Property>)
    requires UniqueKeys(ps) && ps != []
    ensures UniqueKeys(ps[1..]) && !HasKey(ps[1..], ps[0].key)
  {
    var ks := Keys(ps[1..]);
    assert forall j :: 0 <= j < |ks| ==> ks[j] == ps[j + 1].key;
  }

  /** Copying entries makes the union of the two key sets. */
  lemma {:induction false} MergeKeys(acc: seq<Property>, ps: seq<Property>, k: string)
    ensures HasKey(Merge(acc, ps), k) <==> HasKey(acc, k) || HasKey(ps, k)
    decreases ps
  {
    if ps != [] {
      assert Keys(ps) == [ps[0].key] + Keys(ps[1..]);
      MergeKeys(Put(acc, ps[0].key, ps[0].value), ps[1..], k);
    }
  }

  lemma {:induction false} MergeKeepsValue(acc: seq<Property>, ps: seq<Property>, k: string)
    requires HasKey(acc, k) && !HasKey(ps, k)
    ensures HasKey(Merge(acc, ps), k) && ValueOf(Merge(acc, ps), k) == ValueOf(acc, k)
    decreases ps
  {
    if ps != [] {
      assert Keys(ps) == [ps[0].key] + Keys(ps[1..]);
      MergeKeepsValue(Put(acc, ps[0].key, ps[0].value), ps[1..], k);
    }
  }

  /** A copied entry overwrites the value already stored under its key. */
  lemma {:induction false} MergeTakesValue(acc: seq<Property>, ps: seq<Property>, k: string)
    requires UniqueKeys(ps) && HasKey(ps, k)
    ensures HasKey(Merge(acc, ps), k) && ValueOf(Merge(acc, ps), k) == ValueOf(ps, k)
    decreases ps
  {
    assert Keys(ps) == [ps[0].key] + Keys(ps[1..]);
    UniqueTail(ps);
    if ps[0].key == k {
      MergeKeepsValue(Put(acc, k, ps[0].value), ps[1..], k);
    } else {
      MergeTakesValue(Put(acc, ps[0].key, ps[0].value), ps[1..], k);
    }
  }

  /** The member resolution `r` is an object schema that defines `k`. */
  predicate DefinesKey(r: Result<Option<Schema>>, k: string) {
    r.Ok? && r.value.Some? && r.value.value.ObjectNode? && HasKey(r.value.value.properties, k)
  }

  lemma {:induction false} IntersectionFailure(ctx: Context, acc: seq<Property>, ts: seq<TsType>, b: Budget)
    ensures IntersectionFrom(ctx, acc, ts, b).Fail? <==> exists i :: 0 <= i < |ts| && MemberResolved(ctx, ts, i, b).Fail?
    decreases ts
  {
    if ts != [] {
      MemberShift(ctx, ts, b);
      var r := Resolved(ctx, ts[0], b);
      assert MemberResolved(ctx, ts, 0, b) == r;
      if r.Ok? {
        var next := if r.value.Some? && r.value.value.ObjectNode? then Merge(acc, r.value.value.properties) else acc;
        IntersectionFailure(ctx, next, ts[1..], Resumed(b));
        if exists i :: 0 <= i < |ts| && MemberResolved(ctx, ts, i, b).Fail? {
          var i :| 0 <= i < |ts| && MemberResolved(ctx, ts, i, b).Fail?;
          if i > 0 {
            assert MemberResolved(ctx, ts[1..], i - 1, Resumed(b)) == MemberResolved(ctx, ts, i, b);
          }
        }
        forall i | 0 <= i < |ts[1..]| && MemberResolved(ctx, ts[1..], i, Resumed(b)).Fail?
          ensures MemberResolved(ctx, ts, i + 1, b).Fail?
        {
          assert MemberResolved(ctx, ts[1..], i, Resumed(b)) == MemberResolved(ctx, ts, i + 1, b);
        }
      }
    }
  }

  lemma {:induction false} IntersectionKeys(ctx: Context, acc: seq<Property>, ts: seq<TsType>, b: Budget, k: string)
    requires IntersectionFrom(ctx, acc, ts, b).Ok?
    ensures HasKey(IntersectionFrom(ctx, acc, ts, b).value, k)
        <==> HasKey(acc, k) || exists i :: 0 <= i < |ts| && DefinesKey(MemberResolved(ctx, ts, i, b), k)
    decreases ts
  {
    if ts != [] {
      MemberShift(ctx, ts, b);
      var r := Resolved(ctx, ts[0], b);
      assert MemberResolved(ctx, ts, 0, b) == r;
      var next := if r.value.Some? && r.value.value.ObjectNode? then Merge(acc, r.value.value.properties) else acc;
      if r.value.Some? && r.value.value.ObjectNode? {
        MergeKeys(acc, r.value.value.properties, k);
      }
      IntersectionKeys(ctx, next, ts[1..], Resumed(b), k);
      if exists i :: 0 <= i < |ts| && DefinesKey(MemberResolved(ctx, ts, i, b), k) {
        var i :| 0 <= i < |ts| && DefinesKey(MemberResolved(ctx, ts, i, b), k);
        if i > 0 {
          assert MemberResolved(ctx, ts[1..], i - 1, Resumed(b)) == MemberResolved(ctx, ts, i, b);
        }
      }
      forall i | 0 <= i < |ts[1..]| && DefinesKey(MemberResolved(ctx, ts[1..], i, Resumed(b)), k)
        ensures DefinesKey(MemberResolved(ctx, ts, i + 1, b), k)
      {
        assert MemberResolved(ctx, ts[1..], i, Resumed(b)) == MemberResolved(ctx, ts, i + 1, b);
      }
    }
  }

  lemma {:induction false} IntersectionKeepsValue(ctx: Context, acc: seq<Property>, ts: seq<TsType>, b: Budget, k: string)
    requires IntersectionFrom(ctx, acc, ts, b).Ok?
    requires HasKey(acc, k)
    requires forall i :: 0 <= i < |ts| ==> !DefinesKey(MemberResolved(ctx, ts, i, b), k)
    ensures HasKey(IntersectionFrom(ctx, acc, ts, b).value, k)
    ensures ValueOf(IntersectionFrom(ctx, acc, ts, b).value, k) == ValueOf(acc, k)
    decreases ts
  {
    if ts != [] {
      MemberShift(ctx, ts, b);
      var r := Resolved(ctx, ts[0], b);
      var next := if r.value.Some? && r.value.value.ObjectNode? then Merge(acc, r.value.value.properties) else acc;
      assert MemberResolved(ctx, ts, 0, b) == r;
      assert !DefinesKey(r, k);
      if r.value.Some? && r.value.value.ObjectNode? {
        MergeKeepsValue(acc, r.value.value.properties, k);
      }
      forall i | 0 <= i < |ts[1..]| ensures !DefinesKey(MemberResolved(ctx, ts[1..], i, Resumed(b)), k) {
        assert MemberResolved(ctx, ts[1..], i, Resumed(b)) == MemberResolved(ctx, ts, i + 1, b);
      }
      IntersectionKeepsValue(ctx, next, ts[1..], Resumed(b), k);
    }
  }

  /** On a key defined by several members, the last of them wins. */
  lemma {:induction false} IntersectionLastWins(ctx: Context, acc: seq<Property>, ts: seq<TsType>, b: Budget, k: string, i: nat)
    requires IntersectionFrom(ctx, acc, ts, b).Ok?
    requires i < |ts| && DefinesKey(MemberResolved(ctx, ts, i, b), k)
    requires forall j :: i < j < |ts| ==> !DefinesKey(MemberResolved(ctx, ts, j, b), k)
    ensures HasKey(IntersectionFrom(ctx, acc, ts, b).value, k)
    ensures ValueOf(IntersectionFrom(ctx, acc, ts, b).value, k) == ValueOf(MemberResolved(ctx, ts, i, b).value.value.properties, k)
    decreases ts
  {
    MemberShift(ctx, ts, b);
    IntersectionStep(ctx, acc, ts, b);
    var r := Resolved(ctx, ts[0], b);
    var next := if r.value.Some? && r.value.value.ObjectNode? then Merge(acc, r.value.value.properties) else acc;
    if i == 0 {
      ResolvedObjectKeysUnique(ctx, ts[0], b);
      MergeTakesValue(acc, r.value.value.properties, k);
      forall j | 0 <= j < |ts[1..]| ensures !DefinesKey(MemberResolved(ctx, ts[1..], j, Resumed(b)), k) {
        assert MemberResolved(ctx, ts[1..], j, Resumed(b)) == MemberResolved(ctx, ts, j + 1, b);
      }
      IntersectionKeepsValue(ctx, next, ts[1..], Resumed(b), k);
    } else {
      assert MemberResolved(ctx, ts[1..], i - 1, Resumed(b)) == MemberResolved(ctx, ts, i, b);
      forall j | i - 1 < j < |ts[1..]| ensures !DefinesKey(MemberResolved(ctx, ts[1..], j, Resumed(b)), k) {
        assert MemberResolved(ctx, ts[1..], j, Resumed(b)) == MemberResolved(ctx, ts, j + 1, b);
      }
      IntersectionLastWins(ctx, next, ts[1..], Resumed(b), k, i - 1);
    }
  }

  /** resolveTsIntersectionType: always an object schema (unless a member
      throws), whose keys are those defined by the members that resolve to
      objects, each holding the value of the last member that defines it;
      other members contribute nothing. */
  lemma IntersectionMergesObjects(ctx: Context, ts: seq<TsType>, b: Budget)
    ensures Resolved(ctx, IntersectionType(ts), b).Fail? <==> exists i :: 0 <= i < |ts| && MemberResolved(ctx, ts, i, b).Fail?
    ensures Resolved(ctx, IntersectionType(ts), b).Ok? ==>
      var r := Resolved(ctx, IntersectionType(ts), b);
      && r.value.Some? && r.value.value.ObjectNode?
      && UniqueKeys(r.value.value.properties)
      && (forall k :: HasKey(r.value.value.properties, k) <==> exists i :: 0 <= i < |ts| && DefinesKey(MemberResolved(ctx, ts, i, b), k))
      && (forall k, i :: 0 <= i < |ts| && DefinesKey(MemberResolved(ctx, ts, i, b), k) && (forall j :: i < j < |ts| ==> !DefinesKey(MemberResolved(ctx, ts, j, b), k)) ==>
            HasKey(r.value.value.properties, k)
            && ValueOf(r.value.value.properties, k) == ValueOf(MemberResolved(ctx, ts, i, b).value.value.properties, k))
  {
    IntersectionFailure(ctx, [], ts, b);
    if IntersectionFrom(ctx, [], ts, b).Ok? {
      IntersectionKeepsKeysUnique(ctx, [], ts, b);
      var ps := IntersectionFrom(ctx, [], ts, b).value;
      forall k ensures HasKey(ps, k) <==> exists i :: 0 <= i < |ts| && DefinesKey(MemberResolved(ctx, ts, i, b), k) {
        IntersectionKeys(ctx, [], ts, b, k);
      }
      forall k, i | 0 <= i < |ts| && DefinesKey(MemberResolved(ctx, ts, i, b), k) && (forall j :: i < j < |ts| ==> !DefinesKey(MemberResolved(ctx, ts, j, b), k))
        ensures HasKey(ps, k) && ValueOf(ps, k) == ValueOf(MemberResolved(ctx, ts, i, b).value.value.properties, k)
      {
        IntersectionLastWins(ctx, [], ts, b, k, i);
      }
    }
  }

  /** For two members that resolve to objects, `A & B` holds the union of their
      keys, the value from B wherever B defines the key and from A elsewhere.
      B is resolved after A has been awaited, on a fresh stack. */
  lemma IntersectionOfTwoObjects(ctx: Context, t1: TsType, t2: TsType, b: Budget, pa: seq<Property>, pb: seq<Property>)
    requires Resolved(ctx, t1, b) == Ok(Some(ObjectNode(pa)))
    requires Resolved(ctx, t2, Resumed(b)) == Ok(Some(ObjectNode(pb)))
    ensures Resolved(ctx, IntersectionType([t1, t2]), b).Ok?
    ensures var r := Resolved(ctx, IntersectionType([t1, t2]), b).value;
      && r.Some? && r.value.ObjectNode?
      && (forall k :: HasKey(r.value.properties, k) <==> HasKey(pa, k) || HasKey(pb, k))
      && (forall k :: HasKey(pb, k) ==> ValueOf(r.value.properties, k) == ValueOf(pb, k))
      && (forall k :: HasKey(pa, k) && !HasKey(pb, k) ==> ValueOf(r.value.properties, k) == ValueOf(pa, k))
  {
    var ts := [t1, t2];
    IntersectionMergesObjects(ctx, ts, b);
    assert ts[0] == t1 && ts[1] == t2;
    var ps := Resolved(ctx, IntersectionType(ts), b).value.value.properties;
    forall k ensures HasKey(ps, k) <==> HasKey(pa, k) || HasKey(pb, k) {
      assert DefinesKey(MemberResolved(ctx, ts, 0, b), k) <==> HasKey(pa, k);
      assert DefinesKey(MemberResolved(ctx, ts, 1, b), k) <==> HasKey(pb, k);
    }
    forall k | HasKey(pb, k) ensures ValueOf(ps, k) == ValueOf(pb, k) {
      assert DefinesKey(MemberResolved(ctx, ts, 1, b), k);
    }
    forall k | HasKey(pa, k) && !HasKey(pb, k) ensures ValueOf(ps, k) == ValueOf(pa, k) {
      assert DefinesKey(MemberResolved(ctx, ts, 0, b), k);
      assert !DefinesKey(MemberResolved(ctx, ts, 1, b), k);
    }
  }

  /** For two members that resolve, `A | B` is the union of exactly their two
      schemas; B is resolved on a fresh stack. */
  lemma UnionOfTwo(ctx: Context, t1: TsType, t2: TsType, b: Budget, sa: Schema, sb: Schema)
    requires Resolved(ctx, t1, b) == Ok(Some(sa))
    requires Resolved(ctx, t2, Resumed(b)) == Ok(Some(sb))
    ensures Resolved(ctx, UnionType([t1, t2]), b) == Ok(Some(UnionNode([sa, sb])))
  {
    var ts := [t1, t2];
    assert ts[1..] == [t2] && [t2][1..] == [];
    assert [] + [sa] == [sa] && [sa] + [sb] == [sa, sb];
    assert EachFrom(ctx, [sa], [t2], Resumed(b)) == EachFrom(ctx, [sa, sb], [], Resumed(Resumed(b))) == Ok([sa, sb]);
    assert EachFrom(ctx, [], ts, b) == Ok([sa, sb]);
  }

  // ----- Leaves -----

  /** Every keyword other than string, number and boolean, a template literal
      type, a qualified reference and every form the resolver does not handle
      resolve to undefined. */
  lemma UnmodelledFormsAreUndefined(ctx: Context, t: TsType, b: Budget)
    requires || t.OtherType?
             || (t.KeywordType? && KeywordName(t.kind) !in {"string", "number", "boolean"})
             || (t.LiteralType? && t.literal.TemplateLit?)
             || (t.TypeReference? && t.typeName.QualifiedName?)
    ensures Resolved(ctx, t, b) == Ok(None)
  {
  }

  /** An array type is an array schema exactly when its element resolves. */
  lemma ArrayWrapsElement(ctx: Context, e: TsType, b: Budget)
    ensures Resolved(ctx, e, b).Fail? ==> Resolved(ctx, ArrayType(e), b) == Resolved(ctx, e, b)
    ensures Resolved(ctx, e, b) == Ok(None) ==> Resolved(ctx, ArrayType(e), b) == Ok(None)
    ensures forall s :: Resolved(ctx, e, b) == Ok(Some(s)) ==> Resolved(ctx, ArrayType(e), b) == Ok(Some(ArrayNode(s, [])))
  {
  }

  /** The type arguments of a reference play no part. */
  lemma TypeArgumentsIgnored(ctx: Context, n: TypeName, args1: seq<TsType>, args2: seq<TsType>, b: Budget)
    ensures Resolved(ctx, TypeReference(n, args1), b) == Resolved(ctx, TypeReference(n, args2), b)
  {
  }

  // ----- Lookup by name -----

  /** The statement settles a lookup of `name`: it imports the name, or declares
      it as an alias or interface, exported or not. */
  predicate DecidesReference(item: ModuleItem, name: string) {
    (item.ImportDecl? && ImportsName(item.specifiers, name)) || LocalDeclaration(item, name).Some?
  }

  lemma {:induction false} ReferenceSkips(ctx: Context, name: string, b: Budget, i: nat, j: nat)
    requires i <= j <= |ctx.home.body|
    requires forall k :: i <= k < j ==> !DecidesReference(ctx.home.body[k], name)
    ensures ReferenceFrom(ctx, name, b, i) == ReferenceFrom(ctx, name, b, j)
    decreases j - i
  {
    if i < j {
      ReferenceSkips(ctx, name, b, i + 1, j);
    }
  }

  /** resolveTsTypeReference: the first statement of the file that imports or
      declares the name decides; an import is followed into the imported file. */
  lemma ReferenceFirstMatch(ctx: Context, name: string, args: seq<TsType>, b: Budget, j: nat)
    requires j < |ctx.home.body| && DecidesReference(ctx.home.body[j], name)
    requires forall k :: 0 <= k < j ==> !DecidesReference(ctx.home.body[k], name)
    requires b.room > 0 && b.fuel > 0
    ensures var item := ctx.home.body[j];
      && (item.ImportDecl? ==>
            Resolved(ctx, TypeReference(SimpleName(name), args), b) == FileResolved(ctx, item.source, name, Deeper(b)))
      && (!item.ImportDecl? ==>
            Resolved(ctx, TypeReference(SimpleName(name), args), b) == DeclarationResolved(ctx, LocalDeclaration(item, name).value, Deeper(b)))
  {
    ReferenceSkips(ctx, name, Deeper(b), 0, j);
  }

  /** A name the file neither imports nor declares resolves to undefined. */
  lemma ReferenceNotFound(ctx: Context, name: string, args: seq<TsType>, b: Budget)
    requires forall k :: 0 <= k < |ctx.home.body| ==> !DecidesReference(ctx.home.body[k], name)
    requires b.room > 0 && b.fuel > 0
    ensures Resolved(ctx, TypeReference(SimpleName(name), args), b) == Ok(None)
  {
    ReferenceSkips(ctx, name, Deeper(b), 0, |ctx.home.body|);
  }

  /** The statement settles a lookup in an imported file: an exported alias or
      interface of the name, or any `export { … }`, whatever names it lists. */
  predicate DecidesExport(item: ModuleItem, name: string) {
    ExportedDeclaration(item, name).Some? || item.ExportNamed?
  }

  lemma {:induction false} ExportsSkip(ctx: Context, m: Module, name: string, b: Budget, i: nat, j: nat)
    requires i <= j <= |m.body|
    requires forall k :: i <= k < j ==> !DecidesExport(m.body[k], name)
    ensures ExportsFrom(ctx, m, name, b, i) == ExportsFrom(ctx, m, name, b, j)
    decreases j - i
  {
    if i < j {
      ExportsSkip(ctx, m, name, b, i + 1, j);
    }
  }

  /** resolveTypeFromFile: an unloadable specifier throws; otherwise the first
      exported declaration of the name or the first re-export decides, and a
      re-export is followed to its source whatever it re-exports (a re-export
      without a source throws); with neither, the name is undefined. All of it
      runs after the loader has been awaited, on a fresh stack. */
  lemma FileFirstMatch(ctx: Context, source: string, name: string, b: Budget, j: nat)
    requires source in ctx.loader
    requires j <= |ctx.loader[source].body|
    requires forall k :: 0 <= k < j ==> !DecidesExport(ctx.loader[source].body[k], name)
    requires j < |ctx.loader[source].body| ==> DecidesExport(ctx.loader[source].body[j], name)
    ensures var body := ctx.loader[source].body;
      && (j == |body| ==> FileResolved(ctx, source, name, b) == Ok(None))
      && (j < |body| && ExportedDeclaration(body[j], name).Some? ==>
            FileResolved(ctx, source, name, b) == DeclarationResolved(ctx, ExportedDeclaration(body[j], name).value, Resumed(b)))
      && (j < |body| && body[j] == ExportNamed(None) ==>
            FileResolved(ctx, source, name, b) == Fail(ReexportWithoutSource))
      && (forall s :: j < |body| && body[j] == ExportNamed(Some(s)) && b.fuel == 0 ==>
            FileResolved(ctx, source, name, b) == Fail(Unfinished))
      && (forall s :: j < |body| && body[j] == ExportNamed(Some(s)) && b.fuel > 0 ==>
            FileResolved(ctx, source, name, b) == FileResolved(ctx, s, name, Resumed(b).(fuel := b.fuel - 1)))
  {
    ExportsSkip(ctx, ctx.loader[source], name, Resumed(b), 0, j);
  }

  lemma FileNotLoaded(ctx: Context, source: string, name: string, b: Budget)
    requires source !in ctx.loader
    ensures FileResolved(ctx, source, name, b) == Fail(ModuleNotLoaded(source))
  {
  }

  // ----- Types that mention no declaration -----

  /** The type mentions no name to look up (a qualified name resolves to
      undefined wherever it appears). */
  predicate Closed(t: TsType)
    decreases t
  {
    match t
    case TypeReference(n, _) => n.QualifiedName?
    case TypeLiteral(ms) => forall i :: 0 <= i < |ms| ==> ClosedElement(ms[i])
    case ArrayType(e) => Closed(e)
    case TupleType(ts) => forall i :: 0 <= i < |ts| ==> Closed(ts[i])
    case UnionType(ts) => forall i :: 0 <= i < |ts| ==> Closed(ts[i])
    case IntersectionType(ts) => forall i :: 0 <= i < |ts| ==> Closed(ts[i])
    case _ => true
  }

  predicate ClosedElement(m: TypeElement)
    decreases m
  {
    m.PropertySignature? && m.annotation.Some? ==> Closed(m.annotation.value)
  }

  /** A closed type resolves the same in every file and with any b. */
  lemma {:induction false} ClosedIndependent(c1: Context, c2: Context, t: TsType, b1: Budget, b2: Budget)
    requires Closed(t)
    ensures Resolved(c1, t, b1) == Resolved(c2, t, b2)
    decreases t
  {
    match t
    case TypeLiteral(ms) =>
      ElementsIndependent(c1, c2, [], ms, b1, b2);
    case ArrayType(e) =>
      ClosedIndependent(c1, c2, e, b1, b2);
    case TupleType(ts) =>
      EachIndependent(c1, c2, [], ts, b1, b2);
    case UnionType(ts) =>
      EachIndependent(c1, c2, [], ts, b1, b2);
    case IntersectionType(ts) =>
      IntersectionIndependent(c1, c2, [], ts, b1, b2);
    case _ =>
  }

  lemma {:induction false} ElementsIndependent(c1: Context, c2: Context, acc: seq<Property>, ms: seq<TypeElement>, b1: Budget, b2: Budget)
    requires forall i :: 0 <= i < |ms| ==> ClosedElement(ms[i])
    ensures ElementsFrom(c1, acc, ms, b1) == ElementsFrom(c2, acc, ms, b2)
    decreases ms
  {
    if ms != [] {
      ElementIndependent(c1, c2, ms[0], b1, b2);
      var e := ElementResolved(c1, ms[0], b1);
      if e.Ok? {
        var next := if e.value.Some? then Put(acc, e.value.value.key, e.value.value.value) else acc;
        forall i | 0 <= i < |ms[1..]| ensures ClosedElement(ms[1..][i]) {
          assert ms[1..][i] == ms[i + 1];
        }
        ElementsIndependent(c1, c2, next, ms[1..], b1, b2);
      }
    }
  }

  lemma {:induction false} ElementIndependent(c1: Context, c2: Context, m: TypeElement, b1: Budget, b2: Budget)
    requires ClosedElement(m)
    ensures ElementResolved(c1, m, b1) == ElementResolved(c2, m, b2)
    decreases m
  {
    if m.PropertySignature? && m.annotation.Some? {
      ClosedIndependent(c1, c2, m.annotation.value, Resumed(b1), Resumed(b2));
    }
  }

  lemma {:induction false} EachIndependent(c1: Context, c2: Context, acc: seq<Schema>, ts: seq<TsType>, b1: Budget, b2: Budget)
    requires forall i :: 0 <= i < |ts| ==> Closed(ts[i])
    ensures EachFrom(c1, acc, ts, b1) == EachFrom(c2, acc, ts, b2)
    decreases ts
  {
    if ts != [] {
      ClosedIndependent(c1, c2, ts[0], b1, b2);
      var r := Resolved(c1, ts[0], b1);
      if r.Ok? {
        forall i | 0 <= i < |ts[1..]| ensures Closed(ts[1..][i]) {
          assert ts[1..][i] == ts[i + 1];
        }
        EachIndependent(c1, c2, if r.value.Some? then acc + [r.value.value] else acc, ts[1..], Resumed(b1), Resumed(b2));
      }
    }
  }

  lemma {:induction false} IntersectionIndependent(c1: Context, c2: Context, acc: seq<Property>, ts: seq<TsType>, b1: Budget, b2: Budget)
    requires forall i :: 0 <= i < |ts| ==> Closed(ts[i])
    ensures IntersectionFrom(c1, acc, ts, b1) == IntersectionFrom(c2, acc, ts, b2)
    decreases ts
  {
    if ts != [] {
      ClosedIndependent(c1, c2, ts[0], b1, b2);
      var r := Resolved(c1, ts[0], b1);
      if r.Ok? {
        forall i | 0 <= i < |ts[1..]| ensures Closed(ts[1..][i]) {
          assert ts[1..][i] == ts[i + 1];
        }
        IntersectionIndependent(c1, c2, if r.value.Some? && r.value.value.ObjectNode? then Merge(acc, r.value.value.properties) else acc, ts[1..], Resumed(b1), Resumed(b2));
      }
    }
  }

  /** A closed alias imported from the file that exports it resolves as if it
      were declared in the importing file: the import is the first statement
      of the importing file to decide the name, and the alias the first
      statement of the imported file to decide it. Only closed: the names an
      imported declaration mentions are looked up in the importing file
      (ImportedNamesResolveInImportingFile). */
  lemma ImportResolvesLikeLocalAlias(ctx: Context, local: Context, name: string, args: seq<TsType>, t: TsType, j: nat, k: nat, l: nat, b: Budget, b': Budget)
    requires Closed(t)
    requires j < |ctx.home.body| && ctx.home.body[j].ImportDecl? && ImportsName(ctx.home.body[j].specifiers, name)
    requires forall i :: 0 <= i < j ==> !DecidesReference(ctx.home.body[i], name)
    requires FirstExportIs(ctx, ctx.home.body[j].source, name, k, ExportDecl(TypeAliasDecl(name, t)))
    requires FirstLocalIs(local, name, l, StmtItem(TypeAliasDecl(name, t)))
    requires b.room > 0 && b.fuel > 0 && b'.room > 0 && b'.fuel > 0
    ensures Resolved(ctx, TypeReference(SimpleName(name), args), b)
         == Resolved(local, TypeReference(SimpleName(name), args), b')
  {
    var alias := TypeAliasDecl(name, t);
    ReferenceFirstMatch(ctx, name, args, b, j);
    FileFirstMatch(ctx, ctx.home.body[j].source, name, Deeper(b), k);
    ReferenceFirstMatch(local, name, args, b', l);
    ClosedIndependent(ctx, local, t, Resumed(Deeper(b)), Deeper(b'));
  }

  /** The same through a barrel file whose first statement to decide the name
      re-exports from the declaring file. */
  lemma BarrelResolvesLikeLocalAlias(ctx: Context, local: Context, name: string, args: seq<TsType>, t: TsType, barrel: string, j: nat, k: nat, l: nat, m: nat, b: Budget, b': Budget)
    requires Closed(t)
    requires j < |ctx.home.body| && ctx.home.body[j].ImportDecl? && ImportsName(ctx.home.body[j].specifiers, name)
    requires forall i :: 0 <= i < j ==> !DecidesReference(ctx.home.body[i], name)
    requires ctx.home.body[j].source == barrel && barrel in ctx.loader
    requires k < |ctx.loader[barrel].body| && ctx.loader[barrel].body[k].ExportNamed? && ctx.loader[barrel].body[k].reexportSource.Some?
    requires forall i :: 0 <= i < k ==> !DecidesExport(ctx.loader[barrel].body[i], name)
    requires FirstExportIs(ctx, ctx.loader[barrel].body[k].reexportSource.value, name, l, ExportDecl(TypeAliasDecl(name, t)))
    requires FirstLocalIs(local, name, m, StmtItem(TypeAliasDecl(name, t)))
    requires b.room > 0 && b.fuel > 1 && b'.room > 0 && b'.fuel > 0
    ensures Resolved(ctx, TypeReference(SimpleName(name), args), b)
         == Resolved(local, TypeReference(SimpleName(name), args), b')
  {
    var source := ctx.loader[barrel].body[k].reexportSource.value;
    var hop := Resumed(Deeper(b)).(fuel := Deeper(b).fuel - 1);
    ReferenceFirstMatch(ctx, name, args, b, j);
    FileFirstMatch(ctx, barrel, name, Deeper(b), k);
    FileFirstMatch(ctx, source, name, hop, l);
    ReferenceFirstMatch(local, name, args, b', m);
    ClosedIndependent(ctx, local, t, Resumed(hop), Deeper(b'));
  }

  /** Statement `k` of the loaded module `source` is `item`, and no statement
      before it decides `name`. */
  predicate FirstExportIs(ctx: Context, source: string, name: string, k: nat, item: ModuleItem) {
    && source in ctx.loader
    && k < |ctx.loader[source].body| && ctx.loader[source].body[k] == item
    && forall i :: 0 <= i < k ==> !DecidesExport(ctx.loader[source].body[i], name)
  }

  /** Statement `l` of the file being transformed is `item`, and no statement
      before it decides `name`. */
  predicate FirstLocalIs(ctx: Context, name: string, l: nat, item: ModuleItem) {
    && l < |ctx.home.body| && ctx.home.body[l] == item
    && forall i :: 0 <= i < l ==> !DecidesReference(ctx.home.body[i], name)
  }

  /** resolveTypeFromFile resolves the declaration it finds with the context of
      the file being transformed, so a name the imported alias mentions is
      looked up there and not in the file that declares it. With
      `import {A} from './c'; type B = number` here and
      `export type A = {x: B}; export type B = string` in './c', the key x of
      A is a number. */
  lemma ImportedNamesResolveInImportingFile(ctx: Context, key: Expr, b: Budget)
    requires b.room > 0 && b.fuel > 1 && b.stack > 0
    requires ctx.home.body == [ImportDecl([NamedSpecifier("A")], "./c"), StmtItem(TypeAliasDecl("B", KeywordType(KwNumber)))]
    requires "./c" in ctx.loader
    requires ctx.loader["./c"].body ==
      [ ExportDecl(TypeAliasDecl("A", TypeLiteral([PropertySignature(key, false, false, Some(TypeReference(SimpleName("B"), [])))]))),
        ExportDecl(TypeAliasDecl("B", KeywordType(KwString))) ]
    ensures Resolved(ctx, TypeReference(SimpleName("A"), []), b)
         == Ok(Some(ObjectNode([Property(PropertyKey(key), Some(NumberNode([])))])))
  {
    var m := PropertySignature(key, false, false, Some(TypeReference(SimpleName("B"), [])));
    var aliasA := TypeAliasDecl("A", TypeLiteral([m]));
    var entry := Property(PropertyKey(key), Some(NumberNode([])));
    assert ImportsName([NamedSpecifier("A")], "A");
    ReferenceFirstMatch(ctx, "A", [], b, 0);
    FileFirstMatch(ctx, "./c", "A", Deeper(b), 0);
    // the alias body resolves after the loader's await, its type after the key's
    var body := Resumed(Deeper(b));
    var inner := Resumed(body);
    assert !DecidesReference(ctx.home.body[0], "B") by {
      assert !ImportsName([NamedSpecifier("A")], "B");
    }
    assert LocalDeclaration(ctx.home.body[1], "B").Some?;
    ReferenceFirstMatch(ctx, "B", [], inner, 1);
    assert Resolved(ctx, TypeReference(SimpleName("B"), []), inner) == Ok(Some(NumberNode([])));
    assert ElementResolved(ctx, m, body) == Ok(Some(entry));
    assert Put([], entry.key, entry.value) == [entry];
    assert [m][1..] == [];
    assert ElementsFrom(ctx, [], [m], body) == ElementsFrom(ctx, [entry], [], body);
    assert BodyResolved(ctx, [m], body) == Ok(Some(ObjectNode([entry])));
    assert DeclarationResolved(ctx, aliasA, body) == Ok(Some(ObjectNode([entry])));
  }

  // ----- Fuel only cuts a resolution off -----

  /** `b` with `f` more hops of fuel. */
  function More(b: Budget, f: nat): (r: Budget)
    ensures r.fuel == b.fuel + f && r.stack == b.stack && r.room == b.room
  {
    b.(fuel := b.fuel + f)
  }

  /** A resolution that finishes within the fuel, with a result or with an
      exception, finishes the same way with more: the fuel decides only how
      long the model follows a resolution, never what it finds. */
  lemma {:induction false} ResolvedMoreFuel(ctx: Context, t: TsType, b: Budget, f: nat)
    requires Resolved(ctx, t, b) != Fail(Unfinished)
    ensures Resolved(ctx, t, More(b, f)) == Resolved(ctx, t, b)
    decreases b.fuel, 0, t
  {
    match t
    case TypeReference(n, _) =>
      if !n.QualifiedName? && b.room > 0 {
        assert Deeper(More(b, f)) == More(Deeper(b), f);
        ReferenceMoreFuel(ctx, n.name, Deeper(b), f, 0);
      }
    case TypeLiteral(ms) =>
      ElementsMoreFuel(ctx, [], ms, b, f);
    case ArrayType(e) =>
      ResolvedMoreFuel(ctx, e, b, f);
    case TupleType(ts) =>
      EachMoreFuel(ctx, [], ts, b, f);
    case UnionType(ts) =>
      EachMoreFuel(ctx, [], ts, b, f);
    case IntersectionType(ts) =>
      IntersectionMoreFuel(ctx, [], ts, b, f);
    case _ =>
  }

  lemma {:induction false} ElementMoreFuel(ctx: Context, m: TypeElement, b: Budget, f: nat)
    requires ElementResolved(ctx, m, b) != Fail(Unfinished)
    ensures ElementResolved(ctx, m, More(b, f)) == ElementResolved(ctx, m, b)
    decreases b.fuel, 0, m
  {
    if m.PropertySignature? && !m.computed && m.annotation.Some? {
      assert Resumed(More(b, f)) == More(Resumed(b), f);
      ResolvedMoreFuel(ctx, m.annotation.value, Resumed(b), f);
    }
  }

  lemma {:induction false} ElementsMoreFuel(ctx: Context, acc: seq<Property>, ms: seq<TypeElement>, b: Budget, f: nat)
    requires ElementsFrom(ctx, acc, ms, b) != Fail(Unfinished)
    ensures ElementsFrom(ctx, acc, ms, More(b, f)) == ElementsFrom(ctx, acc, ms, b)
    decreases b.fuel, 0, ms, 0
  {
    if ms != [] {
      var e := ElementResolved(ctx, ms[0], b);
      ElementMoreFuel(ctx, ms[0], b, f);
      if e.Ok? {
        ElementsMoreFuel(ctx, if e.value.Some? then Put(acc, e.value.value.key, e.value.value.value) else acc, ms[1..], b, f);
      }
    }
  }

  lemma {:induction false} EachMoreFuel(ctx: Context, acc: seq<Schema>, ts: seq<TsType>, b: Budget, f: nat)
    requires EachFrom(ctx, acc, ts, b) != Fail(Unfinished)
    ensures EachFrom(ctx, acc, ts, More(b, f)) == EachFrom(ctx, acc, ts, b)
    decreases b.fuel, 0, ts
  {
    if ts != [] {
      var r := Resolved(ctx, ts[0], b);
      ResolvedMoreFuel(ctx, ts[0], b, f);
      if r.Ok? {
        assert Resumed(More(b, f)) == More(Resumed(b), f);
        EachMoreFuel(ctx, if r.value.Some? then acc + [r.value.value] else acc, ts[1..], Resumed(b), f);
      }
    }
  }

  lemma {:induction false} IntersectionMoreFuel(ctx: Context, acc: seq<Property>, ts: seq<TsType>, b: Budget, f: nat)
    requires IntersectionFrom(ctx, acc, ts, b) != Fail(Unfinished)
    ensures IntersectionFrom(ctx, acc, ts, More(b, f)) == IntersectionFrom(ctx, acc, ts, b)
    decreases b.fuel, 0, ts
  {
    if ts != [] {
      var r := Resolved(ctx, ts[0], b);
      ResolvedMoreFuel(ctx, ts[0], b, f);
      if r.Ok? {
        assert Resumed(More(b, f)) == More(Resumed(b), f);
        IntersectionMoreFuel(ctx, if r.value.Some? && r.value.value.ObjectNode? then Merge(acc, r.value.value.properties) else acc, ts[1..], Resumed(b), f);
      }
    }
  }

  lemma {:induction false} DeclarationMoreFuel(ctx: Context, d: Stmt, b: Budget, f: nat)
    requires d.TypeAliasDecl? || d.InterfaceDecl?
    requires DeclarationResolved(ctx, d, b) != Fail(Unfinished)
    ensures DeclarationResolved(ctx, d, More(b, f)) == DeclarationResolved(ctx, d, b)
    decreases b.fuel, 0, d
  {
    if d.TypeAliasDecl? {
      ResolvedMoreFuel(ctx, d.typeAnnotation, b, f);
    } else {
      ElementsMoreFuel(ctx, [], d.interfaceBody, b, f);
    }
  }

  lemma {:induction false} ReferenceMoreFuel(ctx: Context, name: string, b: Budget, f: nat, i: nat)
    requires i <= |ctx.home.body|
    requires ReferenceFrom(ctx, name, b, i) != Fail(Unfinished)
    ensures ReferenceFrom(ctx, name, More(b, f), i) == ReferenceFrom(ctx, name, b, i)
    decreases b.fuel, 3, |ctx.home.body| - i
  {
    if i < |ctx.home.body| {
      var item := ctx.home.body[i];
      if item.ImportDecl? && ImportsName(item.specifiers, name) {
        FileMoreFuel(ctx, item.source, name, b, f);
      } else if LocalDeclaration(item, name).Some? {
        DeclarationMoreFuel(ctx, LocalDeclaration(item, name).value, b, f);
      } else {
        ReferenceMoreFuel(ctx, name, b, f, i + 1);
      }
    }
  }

  lemma {:induction false} FileMoreFuel(ctx: Context, source: string, name: string, b: Budget, f: nat)
    requires FileResolved(ctx, source, name, b) != Fail(Unfinished)
    ensures FileResolved(ctx, source, name, More(b, f)) == FileResolved(ctx, source, name, b)
    decreases b.fuel, 2
  {
    if source in ctx.loader {
      assert Resumed(More(b, f)) == More(Resumed(b), f);
      ExportsMoreFuel(ctx, ctx.loader[source], name, Resumed(b), f, 0);
    }
  }

  lemma {:induction false} ExportsMoreFuel(ctx: Context, m: Module, name: string, b: Budget, f: nat, i: nat)
    requires i <= |m.body|
    requires ExportsFrom(ctx, m, name, b, i) != Fail(Unfinished)
    ensures ExportsFrom(ctx, m, name, More(b, f), i) == ExportsFrom(ctx, m, name, b, i)
    decreases b.fuel, 1, |m.body| - i
  {
    if i < |m.body| {
      var item := m.body[i];
      if ExportedDeclaration(item, name).Some? {
        DeclarationMoreFuel(ctx, ExportedDeclaration(item, name).value, b, f);
      } else if item.ExportNamed? {
        if item.reexportSource.Some? {
          assert More(b, f).(fuel := More(b, f).fuel - 1) == More(b.(fuel := b.fuel - 1), f);
          FileMoreFuel(ctx, item.reexportSource.value, name, b.(fuel := b.fuel - 1), f);
        }
      } else {
        ExportsMoreFuel(ctx, m, name, b, f, i + 1);
      }
    }
  }

  // ----- No cycle detection -----

  /** `type T = { next: T }` never finishes and never throws: the property
      signature awaits its key before it resolves its type, so each turn of
      the cycle starts on a fresh stack and no bound on the number of hops is
      ever enough. */
  lemma {:induction false} SelfReferenceNeverFinishes(ctx: Context, name: string, key: Expr, j: nat, b: Budget)
    requires FirstLocalIs(ctx, name, j, StmtItem(TypeAliasDecl(name, TypeLiteral([PropertySignature(key, false, false, Some(TypeReference(SimpleName(name), [])))]))))
    requires b.stack > 0 && b.room > 0
    ensures Resolved(ctx, TypeReference(SimpleName(name), []), b) == Fail(Unfinished)
    decreases b.fuel
  {
    if b.fuel > 0 {
      var t := TypeReference(SimpleName(name), []);
      var m := PropertySignature(key, false, false, Some(t));
      SelfReferenceNeverFinishes(ctx, name, key, j, Resumed(Deeper(b)));
      assert ElementResolved(ctx, m, Deeper(b)) == Fail(Unfinished);
      assert ElementsFrom(ctx, [], [m], Deeper(b)) == Fail(Unfinished);
      assert Resolved(ctx, TypeLiteral([m]), Deeper(b)) == Fail(Unfinished);
      assert LocalDeclaration(ctx.home.body[j], name).Some?;
      ReferenceFirstMatch(ctx, name, [], b, j);
    }
  }

  /** `type T = T[]` recurses without suspending, so it overflows the stack:
      given fuel for at least as many hops as the stack has room for, the
      resolution throws a RangeError. */
  lemma {:induction false} SyncSelfReferenceOverflows(ctx: Context, name: string, j: nat, b: Budget)
    requires FirstLocalIs(ctx, name, j, StmtItem(TypeAliasDecl(name, ArrayType(TypeReference(SimpleName(name), [])))))
    requires b.fuel >= b.room
    ensures Resolved(ctx, TypeReference(SimpleName(name), []), b) == Fail(StackOverflow)
    decreases b.room
  {
    if b.room > 0 {
      var t := TypeReference(SimpleName(name), []);
      SyncSelfReferenceOverflows(ctx, name, j, Deeper(b));
      assert Resolved(ctx, ArrayType(t), Deeper(b)) == Fail(StackOverflow);
      assert LocalDeclaration(ctx.home.body[j], name).Some?;
      ReferenceFirstMatch(ctx, name, [], b, j);
    }
  }
}
