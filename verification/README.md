# Verified models of agentic-kanban

agentic-kanban is a board that drives coding agents. This project models six pieces of it in Dafny and
proves what they promise. The centre is the static analyser that writes the server's OpenAPI document;
the rest are small protocols and list algorithms of the client and of the end-to-end set-up. `dafny verify
dfyconfig.toml` checks everything.

## What is modelled

**The OpenAPI generator** (`packages/server/scripts/generate-openapi.ts`).

- *Reading zod schemas.* `ZodReader` is the depth-bounded reader over parsed zod expressions, with schema
  constants, one import hop, generic predicate helpers and their type arguments; `TypeNodes` and
  `TypeSubstitution` are its reading of TypeScript types. `JsonSchema` gives validity under the emitted
  keywords from JSON Schema draft 2020-12 (with `nullable` read as "or null"), and `ZodMeaning` says which
  bodies an expression accepts, by unfolding constants and helpers. `ZodReadable` says which expressions
  are read and what each construct documents, `ZodSoundness` proves that the schema is never tighter than
  the validator, `ZodExactness` that on a core fragment it says exactly the same, `ZodDepth` what the
  depth bound costs, and `ZodCorners` states each family on which the emitted schema is wrong, with its
  exact condition.
- *Following throws.* `ThrowScopes`, `ThrowScan`, `ThrowWalk` and `ThrowMemo` model the interprocedural
  walk: a function is its syntax nodes with text positions, call resolution is a given map. The memo
  table, the active set and the three counters are fields of a class.
- *Finding routes.* `RouteDiscovery` is the walk over helper functions with one visited set.
- *Auditing and assembling.* `Coverage` collects, defers and classifies, `Assembly` sorts, filters and
  builds the paths object, `Paths` joins and converts paths, and `Generator` takes the calls that
  discovery finds all the way to the documented operations.

**The artifact viewer** (`Artifact`): detecting approval bookkeeping in a Markdown document and cutting
the document into segments.

**The question badge** (`QuestionBadge`): a generation counter against late answers, over every
interleaving of renders, effects, polls, refreshes, answers and failures.

**Column reordering** (`ColumnOrder`): integer midpoint placement against moving an element of a list.

**Duplicate statuses** (`StatusPruning`): the pruning loop against the server's own deletion guard, with
refused requests and with the columns that the board does not show.

**The flight recorder** (`FlightRecorder`): diffing workspace snapshots into status transitions, across
project changes.

## What turned out to differ from the documentation

- The schema comments say that bodies are described as the validator sees them. Documented too tightly are
  a string minimum above 1, a last string maximum that no maximum before the first `trim` implies,
  `nullish` over a schema without null, `catch` over a schema that rejects anything, unknown keys
  re-admitted after `strict` and not rejected again, a merged enum with an option that accepts null, a
  field that may be absent but is not read as optional (an optional union member, say), and a declared
  union whose first member does not cover the others. `Faithful` in `ZodSoundness` keeps clear of them,
  and `ZodCorners` has the exact condition of each family.
- The other way round, a string maximum of 1 or more and an `int` without safe bounds are documented too
  loosely, for supplementary characters and for unsafe integers (`StringMaximumExact`, `IntegerExact`).
- `strip` leaves the `x-unknown-keys` annotation of the modifier it undoes (`AnnotationExact`).
- A route whose whole path is `/:wildcard` is skipped as if it were a catch-all (`SkippedExactly`).
- A register function that can reach itself is walked twice (`SelfReachingRootRepeats`); the later filter
  by operation hides it.
- The audit keys sites by line, so two definitions on one line hide each other (`SharedLineMasks`).
- Columns numbered consecutively cannot be moved left between two neighbours (`DropMoves`).
- The pruning set-up does not always reach unique names: issues of an archived duplicate are not listed
  on the board, and the server then refuses the deletion (`UniqueExactly`). A second run repairs only what
  is no longer turned down (`SecondRunIdle`).
- The badge can show the previous project's answer until the effects of a render have run
  (`LateAnswerBeforeEffects`), and late snapshots of a previous project reach the flight recorder
  (`LateResponsesLeak`).

## Model

| member | source | states |
|---|---|---|
| `ZodSoundness.RequestSchemaSound` | packages/server/scripts/generate-openapi.ts:1298-1325 | For every readable expression a schema is documented, and it is never tighter than the validator: every body that the expression accepts, through constants, helpers, arrays, objects, unions and modifiers, is valid under it, unless the expression uses one of the constructs that `Faithful` names. A string under a minimum above 1 must count each character once; nothing else in the body is restricted. |
| `ZodSoundness.ReadSound` | packages/server/scripts/generate-openapi.ts:1298-1325 | The induction behind it: soundness at every depth, under any type arguments and under any outer `strict`, `passthrough` or `strip`. |
| `ZodSoundness.ObjectSound` | packages/server/scripts/generate-openapi.ts:1075-1114 | An accepted object body has every required field, and every field it has is valid under its property schema. |
| `ZodSoundness.PropSound` | packages/server/scripts/generate-openapi.ts:1085-1104 | A field that is present is valid; a field the validator lets the client leave out is not listed as required, unless its absence goes unread (`AbsenceIsRead`) - shorthand properties included. |
| `ZodSoundness.AbsenceTracked` | packages/server/scripts/generate-openapi.ts:1183-1193 | Whenever the validator accepts a missing field, the check `AdmitsAbsence` over the expression says so. |
| `ZodSoundness.ModifierSound` | packages/server/scripts/generate-openapi.ts:1183-1244 | One modifier step: bounds, `int`, `positive`, `nullable`, unknown-key modifiers and the wire-neutral ones never make the schema reject what the chain accepts. |
| `ZodSoundness.StrictKeysAreNamed` | packages/server/scripts/generate-openapi.ts:1196-1200 | Under an outer `strict` the validator accepts only keys that the emitted `properties` name, so `additionalProperties: false` rejects none of them. |
| `ZodSoundness.UnionSound` | packages/server/scripts/generate-openapi.ts:1154-1164 | Merging string enums, or listing the members under `anyOf`, loses no accepted value. |
| `ZodSoundness.BindingsAgree` | packages/server/scripts/generate-openapi.ts:1273-1280 | The types bound to a generic helper's parameters describe the values its call's type arguments mean. |
| `ZodReadable.ReadExactlyReadable` | packages/server/scripts/generate-openapi.ts:1048-1325 | An expression is read if and only if every name and helper on the way stands for an expression, nothing unreadable stands where it is needed, no union is empty, and it nests within ten levels; whatever cannot be read whole is not read at all. |
| `ZodReadable.VariableExact` | packages/server/scripts/generate-openapi.ts:1289-1295 | A schema constant is the one of its own file, and only without one there that of the imported file, one hop away. |
| `ZodReadable.HelperExact` | packages/server/scripts/generate-openapi.ts:1253-1267 | The same for predicate helpers. |
| `ZodReadable.ModifierDocumented` | packages/server/scripts/generate-openapi.ts:1183-1244 | One modifier step documents exactly the receiver's values that pass the check it can express, and null under `nullable`; the wire-neutral modifiers and computed bounds leave the documented values alone; only `optional`, `nullish` and `default` make a field omissible. |
| `ZodReadable.CollectionsDocumented` | packages/server/scripts/generate-openapi.ts:1145-1151 | An array documents its items exactly as far as they are readable, a record any object. |
| `ZodReadable.UnionDocumented` | packages/server/scripts/generate-openapi.ts:1152-1164 | A union of string enums is one string enum that lists each of their values once; any other union documents exactly what some of its options documents. |
| `ZodExactness.RequestSchemaExact` | packages/server/scripts/generate-openapi.ts:1298-1325 | On the core fragment schema and validator agree: a body is accepted if and only if it is valid. Only a string under a maximum of 1 or more, or under a minimum above 1, must count each character once, and only a number under an `int` without safe bounds must lie in the safe range; the rest of the body is arbitrary. |
| `ZodExactness.RequestSchemaExactAlways` | packages/server/scripts/generate-openapi.ts:1298-1325 | Where the schema has no such maximum, minimum or `int`, they agree on every body whatever. |
| `ZodExactness.RequestSchemaExactOnPlain` | packages/server/scripts/generate-openapi.ts:1298-1325 | On bodies of BMP strings and IEEE-exact numbers they agree under all bounds. |
| `ZodExactness.ReadExact` | packages/server/scripts/generate-openapi.ts:1298-1325 | The other half for the core fragment, at every depth: whatever is valid under the emitted schema, and measured alike where a maximum or `int` applies, is accepted. |
| `ZodExactness.AbsentExact` | packages/server/scripts/generate-openapi.ts:1186-1191 | A field documented as optional really may be left out. |
| `ZodExactness.BindingsExact` | packages/server/scripts/generate-openapi.ts:1273-1280 | What is valid under a helper's type arguments is what the bound parameters mean. |
| `ZodCorners.StringMinimumExact` | packages/server/scripts/generate-openapi.ts:1203-1216 | `z.string().min(n)` is documented truthfully if and only if n is at most 1: zod counts UTF-16 code units, JSON Schema counts characters. |
| `ZodCorners.StringMaximumExact` | packages/server/scripts/generate-openapi.ts:1203-1216 | Every string valid under the schema of `z.string().max(n)` is accepted if and only if n is below 1: n supplementary characters are valid and count 2n code units. |
| `ZodCorners.IntegerExact` | packages/server/scripts/generate-openapi.ts:1221-1222 | Every number valid under the schema of `z.number().min(lo).max(hi).int()` is accepted if and only if no integer between the bounds is unsafe. |
| `ZodCorners.UnboundedIntegerFails` | packages/server/scripts/generate-openapi.ts:1221-1222 | Without bounds the schema admits 9007199254740992, which `z.number().int()` rejects. |
| `ZodCorners.TrimmedMaximumExact` | packages/server/scripts/generate-openapi.ts:1203-1238 | `z.string()` under any sequence of `trim` and `max` is documented truthfully if and only if there is no maximum, or the last one is implied by a maximum checked before the first trim, or a negative one shuts out every string. So `max(a).trim().max(b)` is exactly for a <= b, and `trim().max(b)` never. |
| `ZodCorners.NullishExact` | packages/server/scripts/generate-openapi.ts:1186-1188 | `x.nullish()` is documented truthfully if and only if the schema of x already admits null. |
| `ZodCorners.CatchExact` | packages/server/scripts/generate-openapi.ts:1228-1238 | `x.catch(...)` is documented truthfully if and only if the schema of x admits every value. |
| `ZodCorners.CatchOverTypeFails` | packages/server/scripts/generate-openapi.ts:1228-1238 | No schema with a type does: one of the values that `catch` accepts is of another type. |
| `ZodCorners.UnionAdmitsAll` | packages/server/scripts/generate-openapi.ts:1154-1164 | A union of schemas admits every value as soon as one of its members does. |
| `ZodCorners.KeyChainExact` | packages/server/scripts/generate-openapi.ts:1194-1202 | For every list of `strict`, `passthrough` and `strip` over a faithful object literal: documented truthfully if and only if the list ends in `strict`, or has none, or the literal accepts nothing. |
| `ZodCorners.ReopenedObjectFails` | packages/server/scripts/generate-openapi.ts:1194-1202 | Where a `strict` is not the last of the list, every accepted body with any undeclared key added is accepted and documented as invalid. |
| `ZodCorners.AnnotationExact` | packages/server/scripts/generate-openapi.ts:1194-1202 | For every chain of unknown-key modifiers, `x-unknown-keys` says what zod does if and only if no `strip` comes last over an earlier `strict` or `passthrough`. |
| `ZodCorners.MergedEnumExact` | packages/server/scripts/generate-openapi.ts:1154-1164 | A union of faithful options that is merged into one string enum is documented truthfully if and only if none of the options accepts null. |
| `ZodCorners.OmissionExact` | packages/server/scripts/generate-openapi.ts:1075-1114 | A body that an object literal of faithful fields accepts is valid if and only if it has every field that is not read as optional. |
| `ZodCorners.ObjectOmissionExact` | packages/server/scripts/generate-openapi.ts:1100-1103 | With distinct field names, such a literal is documented truthfully if and only if no field documented as required accepts absence, as far as the literal accepts any body at all. |
| `ZodCorners.LoneFieldFails` | packages/server/scripts/generate-openapi.ts:1100-1103 | The object with that one field fails on the empty body. |
| `ZodCorners.UnionAbsenceUntracked` | packages/server/scripts/generate-openapi.ts:1154-1164 | A union with an optional member is such a field. |
| `ZodCorners.FlatUnionExact` | packages/server/scripts/generate-openapi.ts:952-975 | A declared union of keywords, string literals, null and undefined is documented truthfully if and only if its concrete members are several literals, or are all covered by the first of them. |
| `ZodDepth.SmallerDepthReadsMore` | packages/server/scripts/generate-openapi.ts:1048-1325 | A read that succeeds at some depth succeeds at every smaller depth, with the same optional flag and a schema that says at least as much. |
| `ZodDepth.TighterImplies` | packages/server/scripts/generate-openapi.ts:1145-1149 | Whatever is valid under the schema read at the smaller depth is valid under the one read at the larger depth. |
| `ZodDepth.DeepestArrayForgetsItems` | packages/server/scripts/generate-openapi.ts:1145-1149 | The reads differ: at the last depth an array's items become `{}`. |
| `ZodDepth.CyclicConstantUnread` | packages/server/scripts/generate-openapi.ts:1251-1325 | On any cycle of constants and helpers - through parentheses, casts, names, helper bodies, properties, shorthands, union options and chain receivers - and on whatever leads into one, nothing is readable, at any depth and with any type arguments; the reader still terminates. |
| `ZodDepth.OneUnreadProp` | packages/server/scripts/generate-openapi.ts:1100-1100 | One unreadable property makes the whole object unreadable, wherever it stands. |
| `TypeNodes.TypeSoundness` | packages/server/scripts/generate-openapi.ts:949-1019 | Every value of a faithfully described TypeScript type is valid under the schema read from it, under any bound type parameters. |
| `TypeNodes.UnionSoundness` | packages/server/scripts/generate-openapi.ts:952-975 | The same for unions: null and undefined members become `nullable`, several literals become one enum. |
| `TypeNodes.TypeExact` | packages/server/scripts/generate-openapi.ts:949-1019 | On the core types every value valid under the schema belongs to the type. |
| `TypeSubstitution.ReadIsReadSubstituted` | packages/server/scripts/generate-openapi.ts:995-1001 | Reading a type under a helper's parameter map equals reading it with the arguments substituted, through arrays, unions and nested type literals. |
| `TypeSubstitution.SubstitutionKeepsMeaning` | packages/server/scripts/generate-openapi.ts:995-1001 | Substituting the arguments describes the same values as binding the parameters to them. |
| `TypeSubstitution.NullArgumentDiffers` | packages/server/scripts/generate-openapi.ts:954-961 | For every union without a null or undefined member whose first member is not read as nullable: if some member turns null or undefined by substitution, the two readings differ. |
| `TypeSubstitution.LiteralArgumentDiffers` | packages/server/scripts/generate-openapi.ts:965-973 | For every union of several members, none of them null or undefined, that become all string literals only by substitution, the two readings differ. |
| `TypeSubstitution.UnionReadAlikeExactly` | packages/server/scripts/generate-openapi.ts:952-975 | So such a union over members that read alike is read alike if and only if no member turns null or undefined and the members do not become all literals. |
| `ThrowScopes.IsSwallowed` | packages/server/scripts/generate-openapi.ts:805-819 | The parent walk over text positions answers whether some enclosing try block, with a catch that contains no throw, has the node in it. |
| `ThrowScopes.PositionsTell` | packages/server/scripts/generate-openapi.ts:810-812 | In a well-formed tree, lying within the text of a try block is the same as being its descendant. |
| `ThrowScopes.RethrowsTold` | packages/server/scripts/generate-openapi.ts:814-816 | A catch clause rethrows if and only if a throw statement stands within its text. |
| `ThrowScan.ScanThrows` | packages/server/scripts/generate-openapi.ts:880-884 | The first pass collects the status of every unswallowed throw, in document order. |
| `ThrowScan.ScanParses` | packages/server/scripts/generate-openapi.ts:891-897 | The second pass adds a 400 for every unswallowed two-argument `parseJsonBody`. |
| `ThrowScan.ScanCalls` | packages/server/scripts/generate-openapi.ts:899-913 | The third pass keeps every unswallowed call: a function is among them if and only if an unswallowed call of a name, or of a method on a named receiver outside the 19 library ones, resolves to it. |
| `ThrowScan.SummarySays` | packages/server/scripts/generate-openapi.ts:880-921 | Together the passes list a status if and only if the function throws it, or it is the 400 of a two-argument `parseJsonBody`, unswallowed; and a callee if and only if an unswallowed call that is no library call resolves to it. |
| `ThrowMemo.HandlerStatusesExact` | packages/server/scripts/generate-openapi.ts:866-937 | A status is reported for a handler if and only if some chain of at most two resolved calls, none swallowed where it is made, ends in a function that throws it unswallowed; none is reported twice. |
| `ThrowMemo.ChainsAgree` | packages/server/scripts/generate-openapi.ts:805-921 | A chain of calls through the functions' syntax trees is a chain through their summaries, and the other way round. |
| `ThrowWalk.WalkIsPathSemantics` | packages/server/scripts/generate-openapi.ts:866-930 | The walk at a depth equals its path semantics with the remaining hops. |
| `ThrowMemo.ThrowAnalysis.constructor` | packages/server/scripts/generate-openapi.ts:863-863 | The memo table starts empty, with all counters at zero. |
| `ThrowMemo.ThrowAnalysis.CollectThrownStatuses` | packages/server/scripts/generate-openapi.ts:866-930 | With the shared memo table the result is the uncached walk; the active-set guard never fires; the counters grow by exactly the keys scanned. |
| `ThrowMemo.ThrowAnalysis.ScanAndRecord` | packages/server/scripts/generate-openapi.ts:876-929 | A scan fills the table with the uncached value, once per (function, depth), and leaves the active set as it was. |
| `ThrowMemo.ThrowAnalysis.FollowCalls` | packages/server/scripts/generate-openapi.ts:899-921 | Following the calls in order yields the concatenated results and counts each call as truncated, unfollowed or resolved. |
| `ThrowMemo.ThrowAnalysis.FollowCall` | packages/server/scripts/generate-openapi.ts:908-920 | One call is truncated at the depth bound, unfollowed without a target, and otherwise followed one hop deeper. |
| `ThrowMemo.ThrowAnalysis.ThrownStatusesForHandler` | packages/server/scripts/generate-openapi.ts:934-937 | A handler query between two others gets its uncached answer and keeps the table exact. |
| `ThrowMemo.ThrowAnalysis.AnalyseAll` | packages/server/scripts/generate-openapi.ts:863-937 | Over any sequence of queries every handler gets its uncached answer, and what was scanned is exactly what the handlers lead to, each (function, depth) once. |
| `ThrowMemo.CountersIgnoreOrder` | packages/server/scripts/generate-openapi.ts:666-666 | The counters of a whole run depend on the set of handlers only, not on their order or repetition. |
| `ThrowMemo.Deduplicate` | packages/server/scripts/generate-openapi.ts:924-927 | The loop keeps the first of each status and code. |
| `RouteDiscovery.Discovery.CollectRouteCalls` | packages/server/scripts/generate-openapi.ts:278-306 | The walk with its shared visited set computes `Collect`, and terminates on mutually recursive helpers. |
| `RouteDiscovery.Discovery.constructor` | packages/server/scripts/generate-openapi.ts:282-282 | A walk starts with nothing visited. |
| `RouteDiscovery.DiscoveryIsReachability` | packages/server/scripts/generate-openapi.ts:278-306 | From an empty visited set the result holds exactly the routes of the root and of every helper reachable by passing the router on, each helper once. |
| `RouteDiscovery.VisitsExactlyReachable` | packages/server/scripts/generate-openapi.ts:290-295 | The helpers visited are those already visited and those reachable while avoiding them. |
| `RouteDiscovery.ExpandsOnce` | packages/server/scripts/generate-openapi.ts:290-295 | Each newly visited helper is expanded exactly once. |
| `RouteDiscovery.FindsEveryRoute` | packages/server/scripts/generate-openapi.ts:299-305 | The routes found are, with multiplicity, those written in the scope and in the expanded helpers. |
| `RouteDiscovery.OwnRoutesExactly` | packages/server/scripts/generate-openapi.ts:299-303 | The routes written in a function are its calls of get, post, put, patch and delete on the router variable. |
| `RouteDiscovery.SelfReachingRootRepeats` | packages/server/scripts/generate-openapi.ts:1838-1843 | A register function that can reach itself has all its own routes found twice. |
| `Coverage.CollectRoutes` | packages/server/scripts/generate-openapi.ts:1762-1845 | Every factory under each mount, and every register function at the root, in order; unmounted factories are held back. |
| `Coverage.CollectedExactly` | packages/server/scripts/generate-openapi.ts:1796-1843 | A route is collected if and only if some unit, mount and call with a literal path that is no bare catch-all produce it, with the method, file and line of the call and the path of the mount followed by that of the call. |
| `Coverage.SkippedExactly` | packages/server/scripts/generate-openapi.ts:353-361 | A call yields no route if and only if its path is computed, is `*` or `/*`, or is a lone parameter named `wildcard`. |
| `Coverage.PathIsMountThenCall` | packages/server/scripts/generate-openapi.ts:360-366 | On brace-free paths the documented path, read back, has the segments of the mount followed by those of the call. |
| `Coverage.StarsReplaced` | packages/server/scripts/generate-openapi.ts:360-360 | In the path of a call each star is read as the parameter `wildcard`, and everything else as it stands. |
| `Coverage.FindUnmountedKeys` | packages/server/scripts/generate-openapi.ts:1869-1878 | The deferred decision keeps exactly the keys of unmounted factories that no emitted route has. |
| `Coverage.UnmountedKeysExactly` | packages/server/scripts/generate-openapi.ts:1864-1887 | A key counts as unmounted if and only if some call of a factory that nothing mounts has it and no emitted route does. |
| `Coverage.AuditIgnoresOrder` | packages/server/scripts/generate-openapi.ts:1762-1887 | Permuting files and factories changes neither key set, and the two sets are disjoint. |
| `Coverage.ClassifyRouteSites` | packages/server/scripts/generate-openapi.ts:1440-1464 | The loop puts every site into its class, in order, with the reason of the first exemption that covers it. |
| `Coverage.ClassificationExact` | packages/server/scripts/generate-openapi.ts:1445-1461 | What each class means: emitted first, then exempted by an exemption whose file ends the site's file and whose path, if any, is the site's, then inside an unmounted factory, else undeclared. |
| `Coverage.ClassesPartition` | packages/server/scripts/generate-openapi.ts:1440-1464 | The four classes partition the sites with multiplicity, and their sizes sum to the total. |
| `Coverage.PassingGateCovers` | packages/server/scripts/generate-openapi.ts:1864-1909 | When no site is undeclared, every site's line has a documented operation, or an exemption covers it, or it is a call of a factory nothing mounts. |
| `Coverage.SharedLineMasks` | packages/server/scripts/generate-openapi.ts:1447-1451 | Any emitted route of a line makes every other site on that line count as documented. |
| `Coverage.DistinctLinesExact` | packages/server/scripts/generate-openapi.ts:1447-1451 | With one site to a line, a site counts as documented if and only if its own definition was emitted. |
| `Generator.CollectedEndToEnd` | packages/server/scripts/generate-openapi.ts:1796-1843 | Discovery and collection together: a route is collected if and only if some factory or register function, or a helper its router reaches, writes the call with a literal path, under one of the mounts. |
| `Generator.DefinedIsDocumented` | packages/server/scripts/generate-openapi.ts:1796-1864 | Every route call with a readable path in a mounted root, or in a helper reachable from it, is on an emitted line, and the document has an operation of its method whose path, read back, is the mount followed by the path of that call. |
| `Assembly.DedupRoutes` | packages/server/scripts/generate-openapi.ts:1855-1861 | The filter with its set of seen keys keeps the first route of each operation. |
| `Assembly.KeyTextInjective` | packages/server/scripts/generate-openapi.ts:1857-1857 | Two routes share a key text if and only if they share method and path. |
| `Assembly.AssemblyConservesOperations` | packages/server/scripts/generate-openapi.ts:1850-1861 | After sorting and first-wins filtering the operations are strictly ascending in dictionary order, by path and then by method, and for every operation exactly the route collected first is documented. |
| `Assembly.RouteLeqIsOrder` | packages/server/scripts/generate-openapi.ts:1850-1851 | The comparator is a total preorder whose ties are the same operation. |
| `Assembly.LexExact` | packages/server/scripts/generate-openapi.ts:1850-1851 | Strings compare in dictionary order: a beginning comes first, otherwise the first different character decides. |
| `Assembly.BuildPaths` | packages/server/scripts/generate-openapi.ts:1475-1562 | The `paths` object holds exactly one operation per key, overwrites none, and its keys are inserted in dictionary order. |
| `Assembly.PathsAlreadyOrdered` | packages/server/scripts/generate-openapi.ts:1565-1566 | Ordering the path keys once more changes nothing. |
| `Paths.JoinPathsShape` | packages/server/scripts/generate-openapi.ts:1331-1337 | A joined path has one leading slash and no trailing slash, except the root. |
| `Paths.JoinPathsKeepsSegments` | packages/server/scripts/generate-openapi.ts:1331-1337 | The non-empty segments of the joined path are those of the parts, in order. |
| `Paths.JoinPathsFlattens` | packages/server/scripts/generate-openapi.ts:1331-1337 | Joining is associative and idempotent: a joined path among the parts can be replaced by its own parts. |
| `Paths.ConvertPath` | packages/server/scripts/generate-openapi.ts:1339-1346 | The replacing scan computes the converted path and pushes the parameters in order. |
| `Paths.NoParamLeft` | packages/server/scripts/generate-openapi.ts:1341-1344 | No colon is left before an ASCII letter, digit or underscore in a converted path. |
| `Paths.ParamsAreWords` | packages/server/scripts/generate-openapi.ts:1339-1346 | What becomes a parameter is a non-empty word of ASCII letters, digits and underscores. |
| `Paths.ConversionRoundTrip` | packages/server/scripts/generate-openapi.ts:1339-1346 | On brace-free paths, turning `{name}` back into `:name` restores the path, and the parameters are the placeholders in order. |
| `Paths.ConversionInjective` | packages/server/scripts/generate-openapi.ts:1339-1346 | Two different brace-free paths never become one documented path. |
| `Artifact.DetectGateBookkeeping` | packages/client/src/components/ArtifactViewer.tsx:73-131 | The loop with its skipping index, counters and in-place end line finds the blocks of `Detected`, and these are exactly the approval forms. |
| `Artifact.MakeBlock` | packages/client/src/components/ArtifactViewer.tsx:105-128 | The block of a form, extended over a folded feedback section. |
| `Artifact.ScanSection` | packages/client/src/components/ArtifactViewer.tsx:87-95 | The inner loop collects the items and counts the lines that are neither blank nor items. |
| `Artifact.TaskLineExact` | packages/client/src/components/ArtifactViewer.tsx:58-58 | A line matches the item pattern if and only if it is indent, bullet, blanks, box, blanks, caption and trailing blanks, and caption and mark are read from there. |
| `Artifact.DetectedExactly` | packages/client/src/components/ArtifactViewer.tsx:83-129 | A block is found if and only if it is the section of some heading with nothing but blank lines and at least two items, half of which mirror an action label - or, without labels, whose heading speaks of approval - together with the feedback section that follows when at most one parenthesised remark stands in it. |
| `Artifact.NothingElseHidden` | packages/client/src/components/ArtifactViewer.tsx:83-130 | Every line of a block is its heading, an item, a blank line, the folded feedback heading or its one parenthesised placeholder, and a block has at least two items. |
| `Artifact.DetectedArranged` | packages/client/src/components/ArtifactViewer.tsx:80-129 | Blocks are in range, sorted and disjoint. |
| `Artifact.SplitLines` | packages/client/src/lib/markdownNavigation.ts:21-23 | No line holds a line feed, and there is at least one line. |
| `Artifact.SplitLinesExact` | packages/client/src/lib/markdownNavigation.ts:21-23 | The lines are the only ones that, each ended by a line feed or by a carriage return and line feed, make up the text. |
| `Artifact.SegmentArtifact` | packages/client/src/components/ArtifactViewer.tsx:138-152 | The cursor loop and the final filter produce the shown segments of `Laid`, or the whole document when there is no block. |
| `Artifact.SegmentationLossless` | packages/client/src/components/ArtifactViewer.tsx:138-152 | Before filtering, the segments hold every line once and in order; the filter drops blank lines only; the blocks appear once each, in order. |
| `QuestionBadge.Badge.constructor` | packages/client/src/components/AgentQuestionsPanel.tsx:557-562 | A mounted badge shows 0, has issued nothing, and its effects are pending. |
| `QuestionBadge.Badge.StartLoad` | packages/client/src/components/AgentQuestionsPanel.tsx:564-568 | A load takes the next generation, and none without a project. |
| `QuestionBadge.Badge.FinishLoad` | packages/client/src/components/AgentQuestionsPanel.tsx:568-572 | An answer or a failure writes the count only under the generation it was issued for. |
| `QuestionBadge.Badge.RunEffect` | packages/client/src/components/AgentQuestionsPanel.tsx:575-584 | Without a project the generation advances and the count is cleared; with one, a load starts. |
| `QuestionBadge.Badge.Render` | packages/client/src/components/AgentQuestionsPanel.tsx:557-562 | A render with another project leaves its effects pending, after those of the render before it. |
| `QuestionBadge.Badge.Tick` | packages/client/src/components/AgentQuestionsPanel.tsx:582-582 | A poll loads for the project of the last effect. |
| `QuestionBadge.Badge.Refresh` | packages/client/src/components/AgentQuestionsPanel.tsx:590-598 | A refresh event loads for the rendered project while a subscription is alive. |
| `QuestionBadge.RunKeeps` | packages/client/src/components/AgentQuestionsPanel.tsx:557-598 | The protocol's invariant holds after every interleaving of renders, effects, polls, refreshes, answers and failures. |
| `QuestionBadge.WantedAnswerIsOurs` | packages/client/src/components/AgentQuestionsPanel.tsx:564-584 | At any point of any run, an in-flight request of the current generation was issued for the shown project if and only if the effects of the last render have run, or it is not for the project they ran for last. |
| `QuestionBadge.WritesIncrease` | packages/client/src/components/AgentQuestionsPanel.tsx:567-572 | The generations that write the count strictly increase over any run. |
| `QuestionBadge.QuiescentCount` | packages/client/src/components/AgentQuestionsPanel.tsx:557-598 | With nothing in flight the count is the answer to the last load, which was for the shown project; 0 if it failed or there is no project. |
| `QuestionBadge.AnsweredIsShown` | packages/client/src/components/AgentQuestionsPanel.tsx:564-572 | As long as no newer load is issued the badge shows what the request was answered with, and 0 if it failed, whatever happens in between. |
| `QuestionBadge.LateAnswerBeforeEffects` | packages/client/src/components/AgentQuestionsPanel.tsx:575-584 | A run that shows the failing half: between a render and its effects the old project's answer is written. |
| `ColumnOrder.Board.constructor` | packages/client/src/components/BoardKanbanView.tsx:177-178 | A sorted board with nothing dragged. |
| `ColumnOrder.Board.DragStart` | packages/client/src/components/BoardKanbanView.tsx:180-183 | The dragged column is remembered. |
| `ColumnOrder.Board.DragOver` | packages/client/src/components/BoardKanbanView.tsx:185-190 | The column dragged over is marked, unless nothing or that column itself is dragged. |
| `ColumnOrder.Board.DragLeave` | packages/client/src/components/BoardKanbanView.tsx:192-194 | Leaving a column unmarks that column only. |
| `ColumnOrder.Board.Drop` | packages/client/src/components/BoardKanbanView.tsx:196-221 | A drop ends the drag and reorders only for a dragged column over another active one; a failed save restores the board. |
| `ColumnOrder.Board.Reorder` | packages/client/src/hooks/useBoardIssueMovement.ts:228-242 | The renumbered board is sorted again, and taken back when saving fails. |
| `ColumnOrder.Board.DragEnd` | packages/client/src/components/BoardKanbanView.tsx:223-226 | Ending a drag forgets it. |
| `ColumnOrder.DropMoves` | packages/client/src/components/BoardKanbanView.tsx:196-221 | On any sorted board the active columns after a drop are the list with the source moved to the target index if and only if the gap at that place is at least 2 (moving left) or 1 (moving right); both ends always work, whatever inactive columns stand between. |
| `ColumnOrder.PlacementBetween` | packages/client/src/components/BoardKanbanView.tsx:211-218 | The new order is the midpoint of the new neighbours, rounded up and never outside them, or 100 beyond the outermost column. |
| `ColumnOrder.MovesLeft` | packages/client/src/components/BoardKanbanView.tsx:212-214 | Moving left, as an if-and-only-if on the gap. |
| `ColumnOrder.MovesRight` | packages/client/src/components/BoardKanbanView.tsx:215-218 | Moving right, as an if-and-only-if on the gap. |
| `ColumnOrder.TiedStaysRight` | packages/client/src/components/BoardKanbanView.tsx:212-214 | Tied with the target, the column stays behind it. |
| `ColumnOrder.TiedStaysLeft` | packages/client/src/components/BoardKanbanView.tsx:215-218 | Tied with the target and its right neighbour, the column stays before the target. |
| `ColumnOrder.ActiveOfSorted` | packages/client/src/hooks/useBoardIssueMovement.ts:230-234 | Sorting the whole board and looking at the active columns commute. |
| `Sorting.StableSortSorts` | packages/client/src/components/BoardKanbanView.tsx:204-204 | The stable sort yields a sorted permutation. |
| `StatusPruning.Project.constructor` | packages/e2e/global-setup.ts:151-157 | A project whose issues all point at existing statuses. |
| `StatusPruning.Project.PatchIssue` | packages/e2e/global-setup.ts:175-178 | A change of status is applied or refused, and no issue ever points at a missing status. |
| `StatusPruning.Project.DeleteStatus` | packages/server/src/repositories/project-status.repository.ts:75-106 | 404 for an unknown status, 409 while issues point at it, otherwise exactly that status goes. |
| `StatusPruning.Project.PruneDuplicateStatuses` | packages/e2e/global-setup.ts:147-186 | The loop with its growing set of seen names leaves the statuses and issues that the plan says, and after every single request no issue points at a deleted status. |
| `StatusPruning.Project.RemoveDuplicate` | packages/e2e/global-setup.ts:166-180 | One duplicate: its listed issues are moved, and the deletion is refused exactly when one is stuck. |
| `StatusPruning.Project.MoveIssues` | packages/e2e/global-setup.ts:175-179 | All listed and accepted issues of the duplicate end on the canonical status. |
| `StatusPruning.Plan.StaysExactly` | packages/e2e/global-setup.ts:161-180 | A status survives if and only if it is the first of its name, or an issue on it is refused, or its column is not shown and it has issues. |
| `StatusPruning.Plan.NamesKept` | packages/e2e/global-setup.ts:175-178 | Every issue survives under the same status name. |
| `StatusPruning.Plan.UniqueExactly` | packages/e2e/global-setup.ts:147-186 | The surviving names are unique if and only if every issue on a duplicate could be moved. |
| `StatusPruning.Plan.SecondRunIdle` | packages/e2e/global-setup.ts:147-186 | On every project, archived and refused duplicates included, a second run changes nothing if and only if every change of a listed issue that was turned down is turned down again. |
| `StatusPruning.ListedHas` | packages/server/src/services/project.service.ts:625-637 | The board shows all issues of a status that is not called Archived, and none of one that is. |
| `FlightRecorder.Recorder.constructor` | packages/client/src/components/AgentFlightRecorder.tsx:97-102 | Nothing observed yet. |
| `FlightRecorder.Recorder.Arrived` | packages/client/src/components/AgentFlightRecorder.tsx:144-169 | The diff loop updates the map of last statuses and appends the transitions found. |
| `FlightRecorder.Recorder.OpenProject` | packages/client/src/components/AgentFlightRecorder.tsx:219-233 | Opening another project resets map and transitions; closing one does not. |
| `FlightRecorder.ExactChanges` | packages/client/src/components/AgentFlightRecorder.tsx:150-153 | The transitions of a workspace are exactly the changes in the statuses it was seen in, however often it vanishes and returns. |
| `FlightRecorder.ChangesChain` | packages/client/src/components/AgentFlightRecorder.tsx:150-153 | They never step in place, and lead from its first status to its last. |
| `FlightRecorder.ReplayRebuilds` | packages/client/src/components/AgentFlightRecorder.tsx:150-153 | Replaying all transitions over the first observations rebuilds the map of latest statuses. |
| `FlightRecorder.RecordedExactly` | packages/client/src/components/AgentFlightRecorder.tsx:144-233 | Over any run with project changes and late responses, the record for a workspace is the changes in the statuses in which its own project's responses showed it, direct ones left out, since another project was last opened. |
| `FlightRecorder.LateResponsesLeak` | packages/client/src/components/AgentFlightRecorder.tsx:144-169 | Two late responses of the previous project put one of its transitions on the new project's record. |

## Left out

- Parsing, file walking, module loading and YAML output: parsed programs, resolved calls and outlines are inputs.
- Import aliases and default imports: an import map gives the declaring file for a name.
- The tables behind the status of a throw (`DOMAIN_CODE_STATUS`, refusal codes, error classes): a throw node carries the status they give it.
- Summaries, tags, operation ids, parameters, responses and request-body wrapping of an operation: formatting around the route that `Assembly` keeps.
- Warnings, printed reports, the drift gate and process flags.
- Which register functions are exported and not used by a factory: the roots of a file are given, and `Generator` derives their calls.
- What `refine`, `superRefine`, `transform`, `regex`, `pipe`, `record` entries and unreadable expressions accept: arbitrary meanings, the same on both sides of every theorem. A `transform` or `pipe` between checks is read as a filter on the value the client sent.
- Quoted and computed property names: names are taken with their quotes already removed, in object literals as in type literals.
- Numbers are mathematical reals; rounding of numeric literals is not modelled.
- ZodExactness.RequestSchemaExact: a string under a maximum, or under a minimum above 1, is required to lie in the BMP, where the two counts agree; a longer or shorter string outside it may agree as well.
- TypeSubstitution.ReadIsReadSubstituted: one direction; `UnionReadAlikeExactly` has both for unions without null or undefined members and with a first member that is not nullable. A union that is nullable already, such as `T | null` with null for T, can be read alike although it changes shape.
- Assembly.AssemblyConservesOperations: characters are compared as code points, where JavaScript compares UTF-16 code units; the two orders differ only between supplementary characters and the last BMP block.
- How labels are matched with gate actions, and which headings speak of approval: parameters of the detection.
- Artifact.SegmentArtifact: required to get blocks that are in order and disjoint, which detection guarantees; it has no other caller.
- Debounce windows, poll intervals and visibility gating of the badge: events may come in any order. Unmounting is not modelled.
- QuestionBadge.Badge.Refresh: the single-flight rule of the refresh controller is not modelled, so the theorems cover more interleavings than it allows.
- ColumnOrder.Board.Reorder: the refetch after a successful save, and concurrent changes of the board while saving, are not modelled.
- The early returns of the pruning set-up when a listing request fails, and its log line.
- Normalising, merging and capping recorder events: the model keeps the raw transitions.
- Merge-train and question events of the flight recorder, stall detection, and all rendering.
- Seeds, prompts, database and process plumbing, and the other components of the repository.
