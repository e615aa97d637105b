# AnonymousInterfaces: builder and dispatch core, in Dafny

This project models the core of AnonymousInterfaces, a C# library. The library lets a caller implement an interface by registering delegates for only some of its methods. `Builder<TInterface>` does four things:

- it collects the interface's methods into a catalog;
- it matches each delegate to exactly one catalog method, by identity or by name and signature;
- it records the bindings in an implementations dictionary, where each method may be bound at most once;
- its `Create` builds a proxy whose interceptor runs the bound delegate. Otherwise the interceptor lets the call proceed, to the default target when there is one.

Reflection is replaced by descriptors:

- A `MethodInfo` becomes an `Op`, which holds an identity, a name, a return type and parameters. `ReferenceEquals` becomes equality of the `id` field.
- A `ParameterInfo` becomes a `Param`, which holds a name, a type and the In/Out/Optional flags. A by-ref parameter shows up in its type (`ByRef`), not in its flags.
- A delegate carries its own descriptor (`info`) and the function that invoking it computes.

Modules:

- `Signatures`: the descriptors, and `Match` (a loop) proved against the predicate `Matches`.
- `Catalog`: the static constructor's `AddRange` loop (`BuildCatalog`), proved against `Methods`, and the membership test `Contains`. `WellFormed` states what reflection guarantees about its input (each ancestor listed once, each method declared by one interface); the builder does not require it, and `CatalogIdsDistinct` proves that under it no method occurs twice.
- `MethodFinder`: what the expression visitor records. The walk itself is given as the sequence of references it meets.
- `Registry`: every registration form as a value-level function. `Resolve` runs the checks that do not look at the table, and `AddMatched` is `AddMatchedImplementation`. This module also holds the lemmas about matching, ambiguity and duplicate bindings.
- `Dispatch`: the shared `ImplementationTable` object, `DictionaryMethodSelector`, `Invocation`, `MethodInterceptor`, the routing functions `Route` and `Outcome`, and the `Proxy` that `Create` returns.
- `Builders`: the `Builder` class. Each public registration method is a `modifies` method tied to `Registry.Register`, and `Create` shares the table with the proxy's selector.
- `Scenarios`: client runs on the unit tests' interfaces (a hidden base method, an `out` parameter, a property) and on a greeter and a counter.

Some of the code's behaviour may surprise a reader; the model follows the code:

- The code does not de-duplicate catalog entries by signature. A `new` re-declaration and the base method it hides are two entries, so registering either of them by name is ambiguous.
- Method(MethodInfo, Delegate) is not a bare membership check. The delegate must first match the method under the method's own name (the identity shortcut applies), and only then come the membership and duplicate checks.
- The expression-based forms never fall back to matching by name. They fail unless exactly one catalog method is referenced.
- Matching by name compares the signature as well, unless the delegate wraps an interface method itself, which matches by identity whatever the name. Apart from that method, only entries that share both name and signature with the delegate make a name ambiguous (`Registry.AmbiguityNeedsTwinSignatures`).
- The table is not frozen by `Create`. The selector references the builder's dictionary, so a registration made after `Create` is seen by later calls (`Scenarios.LateRegistrationRun`).
- "Unimplemented" is not raised by the interceptor. A call that proceeds on a proxy without a target fails inside the proxy library, and the model reports it as `NotImplemented`.

## Model

| member | source | states |
|---|---|---|
| `Signatures.Match` | Source/AnonymousInterfaces/Util/Builder.cs:137-159 | true exactly when the two methods have the same identity, or the interface method has the requested name, the same return type and arity, and at every position the same parameter type and In/Out pair |
| `Signatures.OutNeverMatchesIn` | Source/AnonymousInterfaces/Util/Builder.cs:153-155 | two distinct methods whose Out flags differ at some position never match, whatever else agrees |
| `Catalog.BuildCatalog` | Source/AnonymousInterfaces/Util/Builder.cs:32-42 | the catalog is the interface's declared methods followed by each base interface's declared methods, in order |
| `Catalog.CatalogMembership` | Source/AnonymousInterfaces/Util/Builder.cs:34-41 | a method is in the catalog exactly when the interface or one of its base interfaces declares it |
| `Catalog.CatalogKeepsEveryDeclaration` | Source/AnonymousInterfaces/Util/Builder.cs:34-41 | no de-duplication: the catalog holds every declaration with its multiplicity, and its length is the sum of the group sizes |
| `Catalog.CatalogIdsDistinct` | Source/AnonymousInterfaces/Util/Builder.cs:34-39 | for an interface as reflection reports it (each ancestor listed once, each method declared by one interface), no method occurs twice in the catalog, a diamond's shared base included |
| `Catalog.DeclaredFirst` | Source/AnonymousInterfaces/Util/Builder.cs:34 | the interface's own methods form the prefix of the catalog |
| `MethodFinder.Referenced` | Source/AnonymousInterfaces/Util/Builder.cs:84-88 | only catalog members are recorded, and there are no more entries than visited nodes |
| `MethodFinder.CalledMethods` | Source/AnonymousInterfaces/Util/Builder.cs:123-128 | the list filled during the walk is exactly the recorded methods in visiting order |
| `MethodFinder.ReferencedExactly` | Source/AnonymousInterfaces/Util/Builder.cs:84-114 | a method is recorded exactly when it is a catalog member and some node hands it over: the setter of a property when setters are asked for, the getter otherwise |
| `MethodFinder.NoneReferenced` | Source/AnonymousInterfaces/Util/Builder.cs:84-114 | nothing is recorded exactly when no node of the walk hands over a catalog member |
| `MethodFinder.ReferencedMany` | Source/AnonymousInterfaces/Util/Builder.cs:84-114 | more than one method is recorded exactly when two distinct nodes hand over catalog members, even the same member twice: the list is not de-duplicated |
| `MethodFinder.ReferencedOne` | Source/AnonymousInterfaces/Util/Builder.cs:84-114 | exactly one method is recorded exactly when exactly one node hands over a catalog member, and it is that node's method |
| `Registry.Candidates` | Source/AnonymousInterfaces/Util/Builder.cs:195 | the filter keeps exactly the catalog entries the delegate matches under the name, and no more entries than the catalog has |
| `Registry.NoCandidates` | Source/AnonymousInterfaces/Util/Builder.cs:195-197 | the filter is empty exactly when no catalog position matches |
| `Registry.CandidatesMany` | Source/AnonymousInterfaces/Util/Builder.cs:195-199 | the filter has more than one entry exactly when two distinct catalog positions match |
| `Registry.UniqueCandidate` | Source/AnonymousInterfaces/Util/Builder.cs:195-200 | when exactly one position matches, the filter yields that entry alone |
| `Registry.AddMatched` | Source/AnonymousInterfaces/Util/Builder.cs:166-173 | fails with NotAMember off the catalog and with AlreadyImplemented on a bound method; succeeds exactly otherwise, and then the table gains exactly that key with the delegate while every other entry is kept |
| `Registry.RegisterOnlyAdds` | Source/AnonymousInterfaces/Util/Builder.cs:166-303 | no registration form bypasses the shared checks: success binds a catalog member that was unbound, adds exactly that key and keeps the table to catalog members |
| `Registry.ResolveByNameCases` | Source/AnonymousInterfaces/Util/Builder.cs:193-202 | by name: NoMatch exactly when nothing matches, MultipleMatches exactly when two entries match, otherwise the one matching entry is bound |
| `Registry.OwnSignatureResolves` | Source/AnonymousInterfaces/Util/Builder.cs:193-202 | a delegate with an entry's shape, offered under that entry's name, binds that entry when no other entry matches |
| `Registry.ByInfoIsGuardedAdd` | Source/AnonymousInterfaces/Util/Builder.cs:180-186 | Method(MethodInfo, Delegate) fails with DelegateMismatch unless the delegate matches under the method's own name, and otherwise is AddMatchedImplementation |
| `Registry.NameHelpersAreSugar` | Source/AnonymousInterfaces/Util/Builder.cs:254-303 | PropertySet(string), EventSubscribe and EventUnsubscribe are Method(string) with "set_", "add_" and "remove_" names; IndexGet and IndexSet reject a non-delegate and otherwise are Method("get_Item") and Method("set_Item") |
| `Registry.ByNameBindingIsDiscoverable` | Source/AnonymousInterfaces/Util/Builder.cs:193-202 | a method bound by name is in the catalog, matches under that name, carries that name unless it is the delegate's own method, and is the filter's only result |
| `Registry.SelectorBindsReferencedMethod` | Source/AnonymousInterfaces/Util/Builder.cs:210-246 | the expression forms bind the single referenced catalog method (the setter for PropertySet): exactly one node of the walk hands over a catalog member, and the delegate matches it under its own name |
| `Registry.SelectorUndetermined` | Source/AnonymousInterfaces/Util/Builder.cs:210-245 | an expression form fails with the kind's "Could not determine" error exactly when no node, or more than one node, of the walk hands over a catalog member |
| `Registry.AmbiguityNeedsTwinSignatures` | Source/AnonymousInterfaces/Util/Builder.cs:195-199 | for an interface as reflection reports it, "matched multiple interface methods" comes from two different methods, at least one with the requested name and the delegate's shape, both when the delegate's method is not an interface member |
| `Registry.SecondBindingFails` | Source/AnonymousInterfaces/Util/Builder.cs:170-171 | once any form has bound a method, any later registration that resolves to it fails with AlreadyImplemented |
| `Dispatch.DictionaryMethodSelector.constructor` | Source/AnonymousInterfaces/Util/DictionaryMethodSelector.cs:22-25 | the selector holds the given table object itself, not a copy |
| `Dispatch.DictionaryMethodSelector.GetMethod` | Source/AnonymousInterfaces/Util/DictionaryMethodSelector.cs:28-34 | the delegate stored under the method's identity when it is a key, null otherwise; a function, so the table is only read |
| `Dispatch.MethodInterceptor.Intercept` | Source/AnonymousInterfaces/Util/MethodInterceptor.cs:28-35 | queries the selector with the invoked method; a found delegate's result on the call's arguments becomes the return value and the call does not proceed; otherwise the call proceeds and the return value is untouched |
| `Dispatch.RouteCases` | Source/AnonymousInterfaces/Util/MethodInterceptor.cs:31-34 | exactly one routing happens: invoke exactly when the method is bound, forward exactly when it is unbound and a target exists, unimplemented otherwise |
| `Dispatch.PureForwarding` | Source/AnonymousInterfaces/Util/Builder.cs:315 | with no bindings and a default target, every call returns what the target returns |
| `Dispatch.NothingImplemented` | Source/AnonymousInterfaces/Util/Builder.cs:314 | with no bindings and no target, every call is unimplemented |
| `Dispatch.OverloadIsolation` | Source/AnonymousInterfaces/Util/DictionaryMethodSelector.cs:28-34 | binding one method leaves the dispatch of every other method, overloads included, unchanged |
| `Dispatch.Proxy.Call` | Source/AnonymousInterfaces/Util/Builder.cs:313-315 | a call on the proxy yields the routing of the table as it is at call time: the delegate's result, the target's result, or NotImplemented |
| `Builders.Builder.constructor` | Source/AnonymousInterfaces/Util/Builder.cs:48-52 | a fresh, empty table, the given default target and the catalog of the interface |
| `Builders.Builder.AddMatchedImplementation` | Source/AnonymousInterfaces/Util/Builder.cs:166-173 | the table becomes what AddMatched computes on success and stays unchanged on failure; only catalog methods are ever keys |
| `Builders.Builder.AddMethod` | Source/AnonymousInterfaces/Util/Builder.cs:180-186 | Method(MethodInfo, Delegate): success updates the table as Register computes, failure leaves it unchanged |
| `Builders.Builder.AddMethodByName` | Source/AnonymousInterfaces/Util/Builder.cs:193-202 | Method(string, Delegate): likewise, with the name filter |
| `Builders.Builder.AddMethodBySelector` | Source/AnonymousInterfaces/Util/Builder.cs:210-218 | Method<TMethod>: likewise, with the selector count and delegate checks first |
| `Builders.Builder.AddPropertyGet` | Source/AnonymousInterfaces/Util/Builder.cs:226-232 | PropertyGet: likewise, recording getters |
| `Builders.Builder.AddPropertySet` | Source/AnonymousInterfaces/Util/Builder.cs:240-246 | PropertySet by selector: likewise, recording setters |
| `Builders.Builder.AddPropertySetByName` | Source/AnonymousInterfaces/Util/Builder.cs:254-257 | PropertySet by name: likewise, under "set_" plus the property name |
| `Builders.Builder.AddIndexGet` | Source/AnonymousInterfaces/Util/Builder.cs:264-269 | IndexGet: NotADelegate for a non-delegate, else as Method("get_Item") |
| `Builders.Builder.AddIndexSet` | Source/AnonymousInterfaces/Util/Builder.cs:276-281 | IndexSet: NotADelegate for a non-delegate, else as Method("set_Item") |
| `Builders.Builder.AddEventSubscribe` | Source/AnonymousInterfaces/Util/Builder.cs:289-292 | EventSubscribe: as Method("add_" plus the event name) |
| `Builders.Builder.AddEventUnsubscribe` | Source/AnonymousInterfaces/Util/Builder.cs:300-303 | EventUnsubscribe: as Method("remove_" plus the event name) |
| `Builders.Builder.Create` | Source/AnonymousInterfaces/Util/Builder.cs:310-316 | a proxy with the default target if any, whose selector references this builder's own table |
| `Scenarios.GreeterRun` | Source/AnonymousInterfaces/Util/Builder.cs:193-202 | binding SayHi by name succeeds, a second binding fails with AlreadyImplemented, and the proxy answers "Hi, Ann" |
| `Scenarios.LateRegistrationRun` | Source/AnonymousInterfaces/Util/DictionaryMethodSelector.cs:22-25 | a registration made after Create is seen by the next call on the proxy |
| `Scenarios.HiddenBaseIsAmbiguousByName` | Source/AnonymousInterfaces/Util/Builder.cs:198-199 | a hidden base method and its re-declaration make their name ambiguous |
| `Scenarios.MethodGroupSelector` | Source/AnonymousInterfaces/Util/Builder.cs:90-101 | for a method-group selector, the CreateDelegate call is filtered out and the selected method is recorded |
| `Scenarios.HiddenBaseMethodRun` | Source/AnonymousInterfaces/Util/Builder.cs:210-218 | by name the hidden A is ambiguous; a selector naming the base A binds it, and only it |
| `Scenarios.OutParameterRun` | Source/AnonymousInterfaces/Util/Builder.cs:153-155 | an `out int` slot rejects a `ref int` delegate and accepts an `out int` one |
| `Scenarios.OverrideWithDefaultTargetRun` | Source/AnonymousInterfaces/Util/Builder.cs:313-315 | an overridden method runs the delegate while the rest is served by the default target |
| `Scenarios.PropertyRun` | Source/AnonymousInterfaces/Util/Builder.cs:103-114 | a property selector gives the getter to PropertyGet and the setter to PropertySet |

## Left out

- Castle DynamicProxy and `Proceed`: proxy generation, the `ProxyGenerator` argument of `Create` and the shared generator are not modelled. A call that proceeds is modelled only by its outcome: forwarded to the target, or NotImplemented.
- `Delegate.DynamicInvoke`: a delegate is a total function from arguments to a value. Exceptions it throws and the write-back of `ref`/`out` arguments are not modelled.
- Default targets are pure functions of the method and its arguments. A target with state, such as a counter, is shown only by the values it returns.
- Reflection: `GetMethods`, `GetInterfaces`, `GetParameters` and `ParameterAttributes` are not modelled. They become a given `InterfaceDecl` and descriptor fields. The `ExpressionVisitor` walk becomes the given sequence of references it meets.
- Generic interface methods and open generic parameter types are not modelled. A type is an opaque name.
- Null delegates passed where a `Delegate` is expected (a `NullReferenceException` in the source) are not modelled. Only the generic forms (`Method<TMethod>`, `IndexGet`, `IndexSet`) take a value that may not be a delegate.
- The builder's fluent return of itself becomes a `Status`, and an `InvalidOperationException` becomes `Fail` with an error naming its message.
- The static, per-interface caching of the catalog is not modelled. Each builder computes `Methods(decl)`, which is the same value for the same declaration.
- Thread safety is not modelled. The lock in the shared proxy generator belongs to code outside this model.
- Anonymous.cs is a one-line factory; `new Builder(decl, target)` stands for it. IMethodSelector.cs is the interface that `DictionaryMethodSelector` implements. Properties/AssemblyInfo.cs holds only metadata.
