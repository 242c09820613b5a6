# swctypia core, modelled in Dafny

swctypia rewrites TypeScript files at compile time. The model covers:

- the collection of tracked names, `findSwcTypiaImports`;
- the walk over the syntax tree that finds the calls to those names, the `visit*` functions and `findSwcTypiaUsage`;
- the decision of `transformFile` between printing the rewritten tree and handing back the original text.

A tracked call is any call whose callee is one of those names, such as `is<T>(x)`. For each tracked call, `isProcessor` does three things:

1. It renames the callee in place, to `__swctypia.<name>`.
2. It resolves the call's first type argument into a type schema (`ASTNode`), following type aliases, interfaces, imports and re-exports across files.
3. It generates the text of a JavaScript validator for that schema and parses it.

The modules follow the source files:

| module | file | models |
|---|---|---|
| `Common` | common.dfy | `Option`, `Result` and the exceptions the pipeline can raise |
| `Syntax` | syntax.dfy | the part of the swc syntax tree the core reads; a callee identifier is a `class` because its `value` is assigned in place |
| `Schema` | schema.dfy | `ASTNode`, with a properties dictionary that behaves like a plain JavaScript object for the identifier keys the resolver produces (insertion order, overwrite in place) |
| `TypeResolver` | resolver.dfy | tsTypeResolver.ts: specification functions, and methods that follow the source's loops, each proved equal to its specification |
| `ResolverProperties` | resolver_props.dfy | what resolution guarantees: entry order, last-wins, unique keys, dropped members, cross-file lookup |
| `Validation` | validation.dfy | validation-ast.ts: the text generator as functions, and the source's string-building loops as methods proved equal to them |
| `ValidationProperties` | validation_props.dfy | when generation throws, the shape of every text, and read-back of the numbers and strings it prints |
| `JsModel` | js_model.dfy | enough of JavaScript to give the generated text a meaning: values, `typeof`, property reads that throw on null, a string's `length` in UTF-16 code units, `&&`/`||` with their precedence and short-circuiting, `Array.prototype.every` |
| `ValidatorSemantics` | validator_semantics.dfy | soundness of the generated validator, and the precedence bug under "## Findings" |
| `IsProcessor` | isprocessor.dfy | functionProcessors/is.ts |
| `Usage` | usage.dfy | the walk of index.ts as imperative methods, each proved against `Run` over the calls it reaches |
| `ReachProperties` | reach_props.dfy | which positions the walk searches and which it skips |
| `Transform` | transform.dfy | `findSwcTypiaImports` and `transformFile` |

Some modelling choices:

- **Exceptions.** An exception in the source is `Fail(e)` in the model. It propagates exactly as the JavaScript exception does, up to the catch of `transformFile`, which hands back the original text.
- **The walk.** The walk state is the `value` of the callee identifiers, written `Values(ids)`. Each `Visit*` method ensures `Walked(…, StmtReach(s), old(Values(ids)), Values(ids), r)`. That is, it does what `Run` does over the calls that position reaches, in source order.
- **The loader.** Context's loader is a map from specifier to parsed module. The parser is a function from text to what it yields.
- **Imported declarations.** A declaration found in another file is resolved with the context of the file being transformed (tsTypeResolver.ts:278-284 pass `ctx` on). The names it mentions are therefore looked up in the importing file, not in the file that declares them (`ResolverProperties.ImportedNamesResolveInImportingFile`).
- **Cycles and the stack.** Every resolver is an `async` function. It runs on its caller's stack until its first `await` suspends it, and resumes on a fresh stack. A self-referential type whose cycle passes an `await` that suspends never finishes and never throws. Such awaits are the key of a property signature (tsTypeResolver.ts:24, before its type at :26), a member of a union, tuple or intersection after the first, and the loader of a module hop (:273). An example is `type Node = {next: Node}`, and the call `is<Node>(x)` then never returns. A cycle that never suspends, such as `type T = T[]` or `type T = T | string`, overflows the stack. The RangeError is caught by `transformFile` like any other exception. The model threads a `Budget` through resolution:
  - `fuel` is a bound on declaration and module hops; running out of it is the outcome `Unfinished`;
  - `stack` is how many nested declaration hops one stack holds;
  - `room` is what the current synchronous stretch has left, and running out of it is `StackOverflow`.

  `Transform.Output` has a third outcome, `NeverReturns`, for a walk cut off by `Unfinished`.

## Where the code and the documented design differ

In each case below the model follows the code.

- **Failed load.** The design says a module that cannot be loaded resolves silently to "unresolved". In tsTypeResolver.ts:274, the loaded module's body is read before the `if (importedModule)` check, so a failed load throws (`ModuleNotLoaded`).
- **The loader of index.ts.** The loader built at index.ts:88-92 yields a path string, not a module. Following any import therefore throws at tsTypeResolver.ts:274. An empty loader map models this case (`ResolverProperties.FileNotLoaded`).
- **Error handling.** The design says resolution and synthesis errors are recovered locally as "unresolved". In the code they propagate to the catch of `transformFile`, and the whole file comes back unchanged. Each of the following has its own `Error` constructor:
  - a property signature without a type annotation;
  - `generateValidationCode(undefined)`;
  - `JSON.stringify` of a bigint;
  - a tuple schema;
  - a re-export without a source;
  - an empty generated program.
- **Re-exports.** The design follows a re-export only when it stands in for the name. The code follows the first `export { … } from` it meets, whatever names it lists (tsTypeResolver.ts:283-284).
- **Array spreads.** The design says spread elements are not searched. `visitExprOrSpread` (index.ts:127-129) searches array spreads. Object spreads are skipped (index.ts:358-366).
- **Throw and labeled statements.** The design lists throw arguments and labeled bodies as searched. A nested `throw` is not searched (index.ts:791-792), and neither is a top-level labeled statement (findSwcTypiaUsage).
- **Initializer position.** `await`, `yield` and class expressions are not searched when they are a variable initializer (index.ts:368-476). They are searched in expression position.

## Model

| member | source | states |
|---|---|---|
| `Schema.Keys` | validation-ast.ts:36 | the keys of a properties dictionary, one per entry, in enumeration order |
| `Schema.Put` | tsTypeResolver.ts:148 | `properties[k] = v`: an existing key keeps its position and takes the new value, a new key goes last, and every other key keeps its value |
| `Schema.PutKeepsKeysUnique` | tsTypeResolver.ts:148 | storing into a dictionary never duplicates a key |
| `TypeResolver.ResolveKeyword` | tsTypeResolver.ts:157-187 | only `string`, `number` and `boolean` resolve, each to the schema of the same tag without constraints |
| `TypeResolver.ResolveLiteral` | tsTypeResolver.ts:243-256 | every literal but a template literal resolves, to a literal schema holding the value it denotes |
| `TypeResolver.ResolveTsType` | tsTypeResolver.ts:318-366 | the dispatch on the type's kind gives the specification's resolution, `Resolved` |
| `TypeResolver.ResolveTsPropertySignature` | tsTypeResolver.ts:19-28 | a computed key gives undefined; a missing annotation throws; otherwise the entry under the key's name, its type resolved after the key's await, on a fresh stack |
| `TypeResolver.ResolveTsTypeElement` | tsTypeResolver.ts:124-141 | only property signatures contribute an entry |
| `TypeResolver.ResolveTsInterfaceBody` | tsTypeResolver.ts:258-270 | the member loop of interface bodies (and type literals) gives `BodyResolved` |
| `TypeResolver.ResolveTsArrayType` | tsTypeResolver.ts:219-227 | an array type gives an array schema only when its element resolves |
| `TypeResolver.ResolveEachTsType` | tsTypeResolver.ts:205-217 | the push loop of unions and tuples gives `EachFrom`, each member after the first resolving on a fresh stack |
| `TypeResolver.ResolveTsIntersectionType` | tsTypeResolver.ts:189-203 | the merge loop of intersections gives the specification's object schema, each member after the first resolving on a fresh stack |
| `TypeResolver.ResolveTypeFromFile` | tsTypeResolver.ts:272-288 | the scan of the loaded module, after the loader's await, gives `FileResolved`, throwing on an unloadable specifier |
| `TypeResolver.ResolveTsTypeReference` | tsTypeResolver.ts:290-316 | the scan of the file's own statements gives `ReferenceFrom`, one hop deeper on the same stack |
| `ResolverProperties.ResolvedObjectKeysUnique` | tsTypeResolver.ts:143-155 | every object schema resolution produces, by any path, holds each key once |
| `ResolverProperties.ElementsFailure` | tsTypeResolver.ts:258-270 | the member loop throws exactly when some member's resolution throws |
| `ResolverProperties.ElementKey` | tsTypeResolver.ts:19-28 | a member contributes an entry exactly when it is a non-computed property signature, under its own key |
| `ResolverProperties.ElementsKeys` | tsTypeResolver.ts:258-270 | the keys after the loop are the keys before plus those of the contributing members |
| `ResolverProperties.ElementsKeepValue` | tsTypeResolver.ts:258-270 | members that do not contribute a key leave its value alone |
| `ResolverProperties.ElementsLastWins` | tsTypeResolver.ts:143-155 | the value under a key is the resolution of the last signature with that key |
| `ResolverProperties.TypeLiteralEntries` | tsTypeResolver.ts:143-155 | a type literal is an object schema, with one entry per non-computed signature key holding the last such signature's type; it throws exactly when a member throws |
| `ResolverProperties.EachKeepsResolved` | tsTypeResolver.ts:205-217 | the loop keeps exactly the members that resolve, in source order, and throws exactly when a member throws |
| `ResolverProperties.UnionKeepsResolvedMembers` | tsTypeResolver.ts:205-217 | a union type is a union schema of its resolving members, in order |
| `ResolverProperties.EmptyUnionIsStillUnion` | tsTypeResolver.ts:213-216 | when no member resolves, the result is still a union schema, with no members |
| `ResolverProperties.TupleDropsUnresolved` | tsTypeResolver.ts:229-241 | a tuple keeps the resolving elements in order, and keeps its arity exactly when every element resolves |
| `ResolverProperties.MergeKeys` | tsTypeResolver.ts:194-196 | copying entries gives the union of the two key sets |
| `ResolverProperties.MergeKeepsValue` | tsTypeResolver.ts:194-196 | a key not copied keeps its value |
| `ResolverProperties.MergeTakesValue` | tsTypeResolver.ts:194-196 | a copied entry overwrites the value under its key |
| `ResolverProperties.IntersectionFailure` | tsTypeResolver.ts:189-203 | an intersection throws exactly when one of its members does |
| `ResolverProperties.IntersectionKeys` | tsTypeResolver.ts:189-203 | the keys are those of the members that resolve to objects |
| `ResolverProperties.IntersectionKeepsValue` | tsTypeResolver.ts:189-203 | members that do not define a key leave its value alone |
| `ResolverProperties.IntersectionLastWins` | tsTypeResolver.ts:191-198 | on a key several members define, the last of them wins |
| `ResolverProperties.IntersectionMergesObjects` | tsTypeResolver.ts:189-203 | an intersection is always an object schema (unless a member throws), holding each key defined by an object member, with the value of the last member that defines it; other members add nothing |
| `ResolverProperties.IntersectionOfTwoObjects` | tsTypeResolver.ts:189-203 | `A & B` of two objects has the union of their keys, with B's value wherever B defines the key |
| `ResolverProperties.UnionOfTwo` | tsTypeResolver.ts:205-217 | the union type of two resolving types is the union schema of exactly their two schemas |
| `ResolverProperties.UnmodelledFormsAreUndefined` | tsTypeResolver.ts:318-366 | every keyword but string, number and boolean, a template literal, a qualified name and every unhandled form resolve to undefined |
| `ResolverProperties.ArrayWrapsElement` | tsTypeResolver.ts:219-227 | an array type is an array schema without constraints exactly when its element resolves |
| `ResolverProperties.TypeArgumentsIgnored` | tsTypeResolver.ts:290-316 | the type arguments of a reference play no part in its resolution |
| `ResolverProperties.ReferenceSkips` | tsTypeResolver.ts:295-311 | statements that neither import nor declare the name are skipped |
| `ResolverProperties.ReferenceFirstMatch` | tsTypeResolver.ts:295-311 | the first statement that imports or declares the name decides; an import is followed into its file |
| `ResolverProperties.ReferenceNotFound` | tsTypeResolver.ts:290-316 | a name the file neither imports nor declares is undefined |
| `ResolverProperties.ExportsSkip` | tsTypeResolver.ts:276-286 | statements that neither export the name nor re-export are skipped |
| `ResolverProperties.FileFirstMatch` | tsTypeResolver.ts:272-288 | in an imported file, the first exported declaration of the name or the first re-export decides; a re-export is followed whatever it lists, and one without a source throws |
| `ResolverProperties.FileNotLoaded` | tsTypeResolver.ts:273-274 | a specifier the loader has no module for throws |
| `ResolverProperties.ClosedIndependent` | tsTypeResolver.ts:318-366 | a type that names nothing resolves the same in every file and with any budget |
| `ResolverProperties.ImportResolvesLikeLocalAlias` | tsTypeResolver.ts:272-300 | when the first statement to decide a name imports it and the first statement of the imported file to decide it exports an alias of a closed type, the reference resolves as if that alias were the first local declaration of the name; only for closed types, because the names an imported declaration mentions are looked up in the importing file |
| `ResolverProperties.BarrelResolvesLikeLocalAlias` | tsTypeResolver.ts:272-300 | the same holds when the first statement of the imported file to decide the name re-exports it from the file that declares it, given fuel for the extra hop; again only for closed types |
| `ResolverProperties.ImportedNamesResolveInImportingFile` | tsTypeResolver.ts:278-300 | a name inside an imported declaration is looked up in the importing file: with `type B = number` here and `B = string` in the declaring file, the imported `{x: B}` has x a number |
| `ResolverProperties.ResolvedMoreFuel` | tsTypeResolver.ts:318-366 | a resolution that finishes, with a schema, undefined or an exception, finishes the same way with more fuel: the bound only cuts resolutions off |
| `ResolverProperties.SelfReferenceNeverFinishes` | tsTypeResolver.ts:19-28 | `type T = {next: T}` is unfinished whatever the fuel and never overflows the stack, because each turn starts after the key's await |
| `ResolverProperties.SyncSelfReferenceOverflows` | tsTypeResolver.ts:219-227 | `type T = T[]` never suspends, so with fuel for as many hops as the stack has room for it throws a RangeError |
| `Validation.ConstraintHolds` | validation-ast.ts:2-15 | minLength and min hold when the measure is at least the bound, maxLength and max when it is at most the bound |
| `Validation.GenerateValidationCode` | validation-ast.ts:41-58 | the dispatch on the schema's tag gives the specification text `Gen` |
| `Validation.AppendConstraints` | validation-ast.ts:64-68 | the constraint loop appends one call per entry with a known key |
| `Validation.GenerateTypeValidation` | validation-ast.ts:61-71 | the typeof test followed by the constraint calls |
| `Validation.GenerateArrayValidation` | validation-ast.ts:77-88 | `Array.isArray`, the constraint calls, then `every` over the element's check |
| `Validation.GenerateObjectValidation` | validation-ast.ts:90-96 | the object header followed by one conjunct per property, or the exception a property raises |
| `Validation.GenerateUnionValidation` | validation-ast.ts:98-101 | the members' checks, each in parentheses, joined by the or-operator |
| `ValidationProperties.GenSucceedsIffGenerable` | validation-ast.ts:41-58 | generation succeeds exactly on schemas with no tuple, no unresolved property and no bigint literal, and otherwise raises one of those three exceptions |
| `ValidationProperties.PropertyChecksSucceedIffGenerable` | validation-ast.ts:92-94 | the property loop succeeds exactly when every property type is generable |
| `ValidationProperties.UnionPiecesSucceedIffGenerable` | validation-ast.ts:99 | the member map succeeds exactly when every member is generable, and gives one piece per member |
| `ValidationProperties.TupleRefused` | validation-ast.ts:56-57 | a tuple schema throws "Unsupported AST node type: tuple" |
| `ValidationProperties.GenShape` | validation-ast.ts:41-58 | every text starts as its kind dictates and ends with a line break |
| `ValidationProperties.ExactTexts` | validation-ast.ts:46-53 | a boolean's text is exactly its typeof test; an empty union's is a lone line break |
| `ValidationProperties.ConstraintCodeIsKnownCalls` | validation-ast.ts:61-71 | the constraint code is one call per known entry, in entry order; unknown keys contribute nothing |
| `ValidationProperties.UnknownConstraintsIgnored` | validation-ast.ts:63-67 | with no known key, a string or number check is the bare typeof test |
| `ValidationProperties.IntTextRoundTrip` | validation-ast.ts:66 | a bound or numeric literal, as printed by `JSON.stringify`, reads back as itself |
| `ValidationProperties.StringTextRoundTrip` | validation-ast.ts:103-105 | a string literal printed by `JSON.stringify` reads back as the same string |
| `ValidatorSemantics.TypeReadsAs` | validation-ast.ts:61-71 | the text of a string or number check is the chain typeof-then-calls |
| `ValidatorSemantics.WithCallsText` | validation-ast.ts:64-68 | the calls chain reads as the constraint code |
| `ValidatorSemantics.ArrayReadsAs` | validation-ast.ts:77-88 | the text of an array check is the chain isArray, calls, `every` |
| `ValidatorSemantics.PropertiesReadAs` | validation-ast.ts:92-94 | the text of the property loop is the chain of its conjuncts |
| `ValidatorSemantics.AlternativesReadAs` | validation-ast.ts:98-101 | the text of a non-empty union is the chain of its parenthesised alternatives |
| `ValidatorSemantics.ReadsAs` | validation-ast.ts:41-105 | the generated text for any expressible schema, whose keys hold no quote, backslash or line terminator, is the text of `Written(s, r, false)`, the expression a JavaScript parser would read |
| `ValidatorSemantics.CallsEval` | validation-ast.ts:64-68 | the constraint calls conjoin whether every known constraint holds on the measure the constraint function reads, `value.length` in UTF-16 code units or the number itself |
| `ValidatorSemantics.TypeSound` | validation-ast.ts:61-71 | a string or number check is true exactly when the typeof matches and the constraints hold, a string's length counted in UTF-16 code units as `value.length` counts it |
| `ValidatorSemantics.AstralCharCountsTwice` | validation-ast.ts:4-5 | `maxLength: 1` refuses a single character outside the Basic Multilingual Plane, whose `length` is 2, and `maxLength: 2` admits it |
| `ValidatorSemantics.ArraySound` | validation-ast.ts:77-88 | an array check is true exactly when the value is an array, its constraints hold and every element conforms |
| `ValidatorSemantics.EverySound` | validation-ast.ts:86 | `every` over the element check is true exactly when every element conforms |
| `ValidatorSemantics.ObjectSound` | validation-ast.ts:90-96 | an object check is true exactly when the value is a non-null object whose properties conform |
| `ValidatorSemantics.PropertiesSound` | validation-ast.ts:92-94 | the property conjuncts evaluate to whether every property conforms |
| `ValidatorSemantics.UnionSound` | validation-ast.ts:98-101 | a union check is true exactly when some member conforms |
| `ValidatorSemantics.AlternativesSound` | validation-ast.ts:98-101 | the alternatives evaluate to whether some member conforms |
| `ValidatorSemantics.WrittenSound` | validation-ast.ts:41-105 | with each property's check in parentheses, or with no union of two or more members as a property type, the validator evaluates without exception to whether the value conforms |
| `ValidatorSemantics.UnionPropertyAcceptsAnyB` | validation-ast.ts:93 | the validator as written for an object type with a union-typed property `a` and a string property `b` accepts every object whose `a` is a string, whatever its `b` |
| `ValidatorSemantics.UnionPropertyEscapes` | validation-ast.ts:93 | the validator as written accepts `{a: "x", b: 1}`, which does not conform; with the property checks in parentheses it refuses it |
| `ValidatorSemantics.NullThrowsOn` | validation-ast.ts:93 | on a null value the validator as written reads `null['a']` and throws |
| `ValidatorSemantics.NullInputThrows` | validation-ast.ts:91-93 | on `null` the validator as written throws a TypeError, while the grouped one returns false |
| `IsProcessor.Processed` | functionProcessors/is.ts:10-23 | no type argument gives undefined; an exception of the resolution propagates as it is; an unresolved type argument throws; a replacement is the generated text of the resolved type on `test1` |
| `IsProcessor.IsProcessor` | functionProcessors/is.ts:6-24 | an identifier callee gets the `__swctypia.` prefix in place, and the outcome is `Processed` |
| `IsProcessor.OnlyFirstTypeArgument` | functionProcessors/is.ts:10 | only the first type argument is read |
| `IsProcessor.EmptyUnionThrows` | functionProcessors/is.ts:20 | a type resolving to an empty union yields a program without statements, and reading its first statement throws |
| `Usage.RunAppend` | index.ts:844-936 | walking two lists of calls in turn is walking their concatenation; the second is walked only if the first raised nothing |
| `Usage.RunKeepsOthers` | index.ts:121-125 | only the callees of the walked calls change |
| `Usage.RunRenamesTracked` | index.ts:121-125 | with distinct callees and no exception, every tracked callee is renamed once and every other keeps its name |
| `Usage.RunSucceedsIff` | index.ts:121-125 | with distinct callees, the walk raises nothing exactly when no tracked call's processing raises |
| `Usage.RunFailsAtFirst` | index.ts:121-125 | with distinct callees, the walk raises an exception exactly when the first tracked call whose processing raises one raises it |
| `Usage.RunUntracked` | index.ts:121-125 | a walk that meets no tracked callee changes nothing and raises nothing |
| `Usage.VisitCallExpression` | index.ts:121-125 | a call whose identifier callee is tracked is processed and renamed; its exception propagates |
| `Usage.VisitExprOrSpread` | index.ts:127-129 | an array element, spread or not, is searched in expression position; a hole is skipped |
| `Usage.VisitArrayExpression` | index.ts:131-137 | the elements are searched in order |
| `Usage.VisitExpression` | index.ts:153-250 | only array, call, arrow-function, class, yield and await expressions are searched, and a call's arguments are not |
| `Usage.VisitBinaryExpression` | index.ts:270-273 | the left operand, then the right |
| `Usage.VisitOperand` | index.ts:262-292 | unary, update, assignment, member and new expressions search one operand in expression position |
| `Usage.VisitConditionalExpression` | index.ts:280-284 | the test, the consequent, the alternate |
| `Usage.VisitSequenceExpression` | index.ts:294-298 | the expressions in order |
| `Usage.VisitArrowFunctionExpression` | index.ts:300-308 | the block body or the expression body |
| `Usage.VisitProperty` | index.ts:336-356 | the value or body of each kind of object property |
| `Usage.VisitObjectExpression` | index.ts:358-366 | the properties in order, with spread elements skipped |
| `Usage.VisitInitializer` | index.ts:368-476 | the initializer switch searches more kinds than expression position, but not class, yield or await |
| `Usage.VisitDeclarator` | index.ts:368-476 | a declarator without an initializer is skipped |
| `Usage.VisitVariableDeclaration` | index.ts:368-476 | the declarators in order |
| `Usage.VisitWithStatement` | index.ts:478-481 | the object, then the body |
| `Usage.VisitIfStatement` | index.ts:493-499 | the test, the consequent, then the alternate if present |
| `Usage.VisitTryStatement` | index.ts:501-509 | the block, the handler's body, the finalizer |
| `Usage.VisitWhileStatement` | index.ts:511-514 | the test, then the body |
| `Usage.VisitDoWhileStatement` | index.ts:516-519 | the test before the body |
| `Usage.VisitForStatement` | index.ts:521-536 | the init, the test, the update, then the body |
| `Usage.VisitForInOrOfStatement` | index.ts:640-648 | the right side and the body; the left pattern is not searched |
| `Usage.VisitSwitchStatement` | index.ts:650-657 | the discriminant, then every case's consequent; case tests are not searched |
| `Usage.VisitMember` | index.ts:673-709 | constructor, method, property and static-block bodies; other members are left alone |
| `Usage.VisitClassMember` | index.ts:711-740 | the class members in order |
| `Usage.VisitStatement` | index.ts:746-815 | the nested-statement switch: a throw is not searched, a labeled statement's body is |
| `Usage.VisitBlockStatement` | index.ts:817-821 | the statements in order |
| `Usage.VisitModuleItem` | index.ts:846-934 | the top-level switch: a throw is searched, a labeled statement is not, and exports are searched |
| `Usage.FindSwcTypiaUsage` | index.ts:844-936 | the module items in order, stopping at the first exception |
| `Transform.TrackedImportsMembers` | index.ts:68-86 | a name is tracked exactly when a named specifier of an import from `./swctypia` binds it |
| `Transform.FindSwcTypiaImports` | index.ts:68-86 | the tracked names in source order, or undefined when there are none |
| `Transform.Transformed` | index.ts:94-119 | identifier keys are unchanged, and a printed output is the parsed tree |
| `Transform.TransformFile` | index.ts:94-119 | a parse exception, no tracked name, or an exception in the walk gives the original text; a resolution that does not finish leaves it without output; otherwise the rewritten tree is printed |
| `Transform.NoImportUnchanged` | index.ts:101-106 | without a named import from `./swctypia`, the original text comes back and no identifier changes |
| `Transform.PrintedIff` | index.ts:94-119 | the file is printed exactly when it imports a tracked name and no tracked call's processing throws |
| `Transform.NeverReturnsIff` | index.ts:94-119 | in a file with distinct callees, transformFile never returns exactly when it imports a tracked name and the first tracked call whose processing raises is one whose resolution does not finish |
| `Transform.TransformedMoreFuel` | index.ts:94-119 | every outcome but not returning, with the identifier values after it, is the same with more fuel: it is the outcome of the unbounded source |
| `Transform.SelfReferentialCallNeverReturns` | index.ts:94-119 | the file that imports `is`, declares `type Node = {next: Node}` and calls `is<Node>(x)` gets no output, whatever the budget |
| `Transform.SyncSelfReferentialCallUnchanged` | index.ts:114-117 | with `type Node = Node[]` instead, the RangeError is caught and the original text comes back |
| `Transform.PrintedRenames` | index.ts:94-119 | in a printed file every reached call with a tracked name is prefixed, and every other reached callee keeps its name |
| `ReachProperties.ArgumentsNeverSearched` | index.ts:121-125 | a call's arguments are never searched: only its own callee can change |
| `ReachProperties.LeafPositions` | index.ts:153-476 | object, function, unary, update, binary, assignment, member, conditional, new and sequence expressions are leaves in expression position; class, yield and await expressions are leaves as initializers |
| `ReachProperties.NeverSearchedInInitializer` | index.ts:270-366 | an assignment's left side, a member's property, `new`'s arguments and object spreads are never searched |
| `ReachProperties.ForPatternNeverSearched` | index.ts:538-648 | the pattern of for-in and for-of is not searched |
| `ReachProperties.CaseTestNeverSearched` | index.ts:650-657 | a switch case's test is not searched, its consequent is |
| `ReachProperties.TopLevelOnly` | index.ts:746-842 | a throw is searched only at the top level, export declarations and default-export expressions stand only there, and a labeled statement is searched only when nested |
| `ReachProperties.SourceOrder` | index.ts:493-519 | `if` searches its test, consequent and alternate in order; do-while its test before its body |
| `ReachProperties.PositionMatters` | index.ts:153-476 | `a && f<T>()` is rewritten as a variable initializer but not as an expression statement |

## Left out

- Parsing and printing are foreign calls. The file comes in as the parser's result, and a printed output is the tree it is printed from. An exception while printing is not modelled.
- Path resolution (index.ts:88-92) is left out. The loader is a map from specifier to module.
- The parse of the generated validator (functionProcessors/is.ts:15-22) is a function parameter. The replacement expression it yields is discarded by `visitCallExpression`, so only its outcome is kept.
- Logging (`console.log`, `console.error`) and the demo at validation-ast.ts:107-133 are left out.
- Async: every `await` is sequential, so the model is sequential. An `await` matters only for the stack it resumes on, which the `Budget` records.
- Generic type parameters (`typeParams`, tsTypeResolver.ts:294) are read but never used by the source. They are not modelled.
- Memory and the real stack size are left out. A cycle that suspends in the source grows its chain of pending promises until memory runs out; the model says only that it never finishes. The stack holds `stack` declaration hops, a parameter, and the frames of the type forms between two hops are not counted.
- `Transform.TransformFile`, `Transform.Transformed`: a resolution that is finite but needs more hops than the fuel allows is also reported as `NeverReturns`. `Transform.TransformedMoreFuel` shows that every other outcome is the source's own, and `Transform.SelfReferentialCallNeverReturns` that a call on a type whose cycle passes a property signature is `NeverReturns` with any fuel.
- `JSON.stringify` is modelled on integers (bounds and numeric literals) and strings. Non-integral numbers and floating-point formatting are left out.
- Members inherited from `Object.prototype` are only partly modelled. The generator's lookup in the constraint tables counts them as known constraints (`Validation.IsKnownConstraint`, so `swcTypiaConstraintFunctions.string.toString` emits a call). The JavaScript semantics leaves them out: `JsModel.Get` reads them as undefined, and a call to one is outside the semantics and evaluates to `None`, like an exception. `Schema.Put` does not model the special assignment to `__proto__`.
- Only the parts of the swc tree that the core reads are modelled. Every other node kind is a leaf (`OtherExpr`, `OtherType`, `OtherStmt`, `OtherModuleDecl`).
- `Transform.PrintedIff`, `Transform.PrintedRenames`, `Transform.NeverReturnsIff`, `Usage.RunRenamesTracked`, `Usage.RunSucceedsIff`, `Usage.RunFailsAtFirst`: stated for trees whose callee identifiers are distinct objects. Every tree the parser builds has this property. The walk methods themselves do not need it.
- `ValidatorSemantics.ReadsAs`, `ValidatorSemantics.WrittenSound`: keys are spliced into the text between single quotes without escaping (validation-ast.ts:93), so both are stated only for keys without a quote, backslash or line terminator (`KeySafe` in `Expressible`). The resolver's keys are identifier names or "undefined", which never hold one, but the model's identifiers take any string, so it does not prove that resolved schemas meet the condition.
- `ValidatorSemantics.CallsEval`, `ValidatorSemantics.WrittenSound`: the generated text calls `constraintFunctions`, but the table the generator consults is the non-exported `swcTypiaConstraintFunctions` (validation-ast.ts:2, :66, :82). Nothing binds that name, so a constraint call throws a ReferenceError unless the file being checked defines it. The semantics reads `constraintFunctions` as that table.
- `ValidatorSemantics.WrittenSound`: stated for schemas whose unions are non-empty. An empty union's text is a bare line break, not an expression; see `IsProcessor.EmptyUnionThrows`. The constraint keys must also not name inherited members.
- `Transform.Transformed`: its own ensures only state that keys are kept and that a printed output is the parsed tree. The full behaviour is stated by `Transform.NoImportUnchanged`, `Transform.PrintedIff`, `Transform.NeverReturnsIff` and `Transform.PrintedRenames`.

## Findings

| source | as written | input that shows it | evidently intended | confidence | as-written member | corrected member |
|---|---|---|---|---|---|---|
| validation-ast.ts:93 | each property's check is appended as ` && <check>` without parentheses, so a union property's alternatives, joined by the or-operator, split the whole conjunction at that operator | schema of an object with `a` a string-or-number union and `b` a string: the value `{a: "x", b: 1}` is accepted; value `null` throws a TypeError instead of giving false | each property's check grouped as one conjunct, ` && (<check>)`, so the validator is true exactly when the value conforms | not executed | `ValidatorSemantics.UnionPropertyEscapes` | `ValidatorSemantics.WrittenSound` |
