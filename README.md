# typescript-eslint core, modelled in Dafny

This project models five pieces of typescript-eslint and proves properties of them:

- **adjacent-overload-signatures** (`overload.dfy`, module `AdjacentOverloadSignatures`).
  - The rule walks the members of a body once. It reports a member whose method was seen earlier but does not continue the run of that method directly before it.
  - The pass is a loop, `CheckBodyForOverloadMethods`. It is proved equal to a per-member reference definition (`IsReported`, `ReportsUpTo`).
  - Lemmas about that definition prove what the rule promises. First occurrences and contiguous runs are never reported. A separated run reports exactly its first member. The list of seen methods holds each method once.
- **no-unsafe-assignment** (`unsafe_assignment.dfy`, module `NoUnsafeAssignment`).
  - This covers the plain assignment check, the comparison modes, the message data and the handlers' call order.
  - It also covers the recursive array and object destructuring checks. These are two mutually recursive methods with loops. Each is proved equal to a prefix-by-prefix reference definition.
  - Lemmas about those definitions show the following:
    - reports land on the pattern's own nodes;
    - the reports are the concatenation, over the pattern's elements or properties, of each one's contribution: one report for an `any` slot, the nested check's reports for a nested pattern, nothing otherwise;
    - every `any` tuple position and every `any` property is reported;
    - positions past the tuple are ignored;
    - for arrays and objects alike, the returned flag is the outcome of the last element or property that has one. A concrete example shows a report followed by a `false` flag.
- **no-unused-expressions** (`unused_expressions.dfy`, module `NoUnusedExpressions`). The TypeScript wrapper decides whether an expression statement is "used". When it is not, the wrapper decides which statement to hand to the base rule.
- **typeFlagUtils** (`type_flags.dfy`, module `TypeFlagUtils`).
  - The loop that ORs the flags of a type's union constituents is proved equal to a fold. That fold is proved to be the least upper bound of the constituents and independent of their order.
  - The flag test is characterised per constituent.
- **the playground file system** (`file_system.dfy`, module `PlaygroundFileSystem`). This is the `FileSystem` class.
  - It holds a file table, its keys in insertion order, a watcher registry and an event log.
  - Its methods are the source's write, delete, remove, watch and close operations. Each method's contract states its whole new state. `triggerCallbacks` is a nested loop proved against the reference definition `Fired`.

`wrappers.dfy` holds the `Option` type shared by the modules.

The TypeScript type checker is represented by the answers the rules obtain from it. These are fields of the `Ty` datatype and the shared assignability helper `isUnsafeAssignment`, which is a function held in `Program`. The linter's `context.report` is represented by returned sequences of reports, in the order the source makes them.

The event kinds are the numbers `bridge.ts` passes: 1 for a deletion, 2 for an overwrite of non-empty contents, 0 otherwise. In the TypeScript compiler's `FileWatcherEventKind`, 1 is `Changed` and 2 is `Deleted`, so the numbers look swapped. The model keeps the numbers the source passes.

## Model

| member | source | states |
|---|---|---|
| AdjacentOverloadSignatures.GetMemberMethod | packages/eslint-plugin/src/rules/adjacent-overload-signatures.ts:51-99 | An export with no declaration and an unnamed function have no method. A named function is a normal, non-static, non-call method of its name. Call signatures are `"call"` with the call flag. Construct signatures are `"new"` without it. A class method or method signature is its helper-derived name and name kind, with `Some(static)` and no call flag. An export with a declaration has that declaration's method. Other members have none. |
| AdjacentOverloadSignatures.ExportIsTransparent | packages/eslint-plugin/src/rules/adjacent-overload-signatures.ts:55-64 | Wrapping a declaration in any number of export statements leaves its method unchanged. |
| AdjacentOverloadSignatures.StaticOnlyOnMethods | packages/eslint-plugin/src/rules/adjacent-overload-signatures.ts:65-83 | A method carries a static flag exactly when it comes from a class method or a method signature, exported or not. |
| AdjacentOverloadSignatures.IsSameMethod | packages/eslint-plugin/src/rules/adjacent-overload-signatures.ts:101-109 | The comparison holds exactly when the second method is present and equal to the first. |
| AdjacentOverloadSignatures.SameMethodIsEquivalence | packages/eslint-plugin/src/rules/adjacent-overload-signatures.ts:101-109 | On present methods the comparison is reflexive, symmetric and transitive. Nothing equals a missing method. |
| AdjacentOverloadSignatures.Label | packages/eslint-plugin/src/rules/adjacent-overload-signatures.ts:145-147 | The reported name is `"static " + name` exactly for static methods. Otherwise it is the plain name. |
| AdjacentOverloadSignatures.GetMembers | packages/eslint-plugin/src/rules/adjacent-overload-signatures.ts:111-123 | The blocks, class bodies, programs, interface bodies and module blocks give their `body`. A type literal gives its `members`. |
| AdjacentOverloadSignatures.FindIndex | packages/eslint-plugin/src/rules/adjacent-overload-signatures.ts:138-140 | The result is -1 exactly when the method is absent. Otherwise it is the position of the method's first occurrence. |
| AdjacentOverloadSignatures.FirstOccurrencesAreTheSeenMethods | packages/eslint-plugin/src/rules/adjacent-overload-signatures.ts:138-151 | The seen-methods list has no duplicates. It holds exactly the methods of earlier members. It grows by one exactly when a member brings a new method. |
| AdjacentOverloadSignatures.ReportsUpToCharacterized | packages/eslint-plugin/src/rules/adjacent-overload-signatures.ts:131-154 | Every report is for a reported member and carries its label. Reports come in strictly increasing member order. Every reported member has a report. |
| AdjacentOverloadSignatures.FirstOccurrenceNotReported | packages/eslint-plugin/src/rules/adjacent-overload-signatures.ts:138-151 | The first member of a method is never reported. |
| AdjacentOverloadSignatures.ContiguousRunNotReported | packages/eslint-plugin/src/rules/adjacent-overload-signatures.ts:131-154 | If all members of a method stand in one contiguous run, none of them is reported. |
| AdjacentOverloadSignatures.SeparatedRunReportsItsFirstMember | packages/eslint-plugin/src/rules/adjacent-overload-signatures.ts:131-154 | A later, separated run of an already-seen method reports its first member and no other. |
| AdjacentOverloadSignatures.CheckBodyForOverloadMethods | packages/eslint-plugin/src/rules/adjacent-overload-signatures.ts:125-155 | The loop's reports are the reference reports. A member is reported if and only if its method was seen earlier and the previous member's method differs. Reports carry the label and come in member order. |
| NoUnsafeAssignment.GetComparisonType | packages/eslint-plugin/src/rules/no-unsafe-assignment.ts:312-320 | The mode is Basic if and only if a type annotation is present. Otherwise it is None. |
| NoUnsafeAssignment.CreateData | packages/eslint-plugin/src/rules/no-unsafe-assignment.ts:322-337 | With a receiver, both types are printed in backticks. Without one, the sender is `error typed` exactly for the intrinsic error type, and `` `any` `` otherwise. |
| NoUnsafeAssignment.ReceiverType | packages/eslint-plugin/src/rules/no-unsafe-assignment.ts:251-256 | The Contextual mode uses the contextual type when there is one. Every other case uses the receiver's own type. |
| NoUnsafeAssignment.AnyMessage | packages/eslint-plugin/src/rules/no-unsafe-assignment.ts:265-278 | The message is the `this` variant exactly when `noImplicitThis` is off and the sender's `this` is typed `any`. |
| NoUnsafeAssignment.CheckAssignment | packages/eslint-plugin/src/rules/no-unsafe-assignment.ts:245-310 | It reports at most once and returns true exactly when it reported. An `any` sender into `unknown` gives nothing. An `any` sender into anything else gives one `any`-assignment report on the reporting node. A non-`any` sender under None is never reported. Under the other modes it is reported exactly when the assignability helper finds a mismatch. That report is one `unsafeAssignment` on the reporting node, whose data prints the sender and receiver types the helper returned. |
| NoUnsafeAssignment.KeyOf | packages/eslint-plugin/src/rules/no-unsafe-assignment.ts:185-207 | The lookup key of an object-pattern property. A plain identifier key gives its name. A literal key, computed or not, gives its value as a string. A computed template with one quasi gives its cooked text. Rest elements and other computed keys give none. |
| NoUnsafeAssignment.PropertyMap | packages/eslint-plugin/src/rules/no-unsafe-assignment.ts:175-182 | The table's keys are exactly the sender's property names. |
| NoUnsafeAssignment.PropertyMapLastEntryWins | packages/eslint-plugin/src/rules/no-unsafe-assignment.ts:175-182 | Of several properties with one name, the table keeps the type of the last. |
| NoUnsafeAssignment.CheckArrayDestructure | packages/eslint-plugin/src/rules/no-unsafe-assignment.ts:82-152 | The loop computes the reference result. An `any[]` sender gives one array-pattern report on the pattern and returns false. A non-tuple sender gives no report and returns true. For a tuple sender, the reports are the elements' contributions in pattern order, each once. An `any` position gives one report on its element. A nested pattern gives the nested check's reports. A hole, a rest element, a position past the tuple or a plain non-`any` target gives none. The flag is the outcome of the last element that has one. |
| NoUnsafeAssignment.CheckObjectDestructure | packages/eslint-plugin/src/rules/no-unsafe-assignment.ts:170-242 | The loop computes the reference result over the pattern's properties and the sender's property table. The reports are the properties' contributions in pattern order, each once. An `any` property gives one report on its value. A nested pattern gives the nested check's reports. A rest element, a key that cannot be named, a key the sender lacks or a plain non-`any` target gives none. The flag is the outcome of the last property that has one. |
| NoUnsafeAssignment.CheckArrayDestructureHelper | packages/eslint-plugin/src/rules/no-unsafe-assignment.ts:67-79 | A target that is not an array pattern gives false and no reports. Otherwise the helper is the array check. |
| NoUnsafeAssignment.CheckObjectDestructureHelper | packages/eslint-plugin/src/rules/no-unsafe-assignment.ts:155-167 | A target that is not an object pattern gives false and no reports. Otherwise the helper is the object check. |
| NoUnsafeAssignment.OnAssignmentLike | packages/eslint-plugin/src/rules/no-unsafe-assignment.ts:353-366 | The plain check's reports come first. The destructuring check for the target's kind follows, only when the plain check did not report. |
| NoUnsafeAssignment.OnAssignment | packages/eslint-plugin/src/rules/no-unsafe-assignment.ts:350-367 | Compound assignments are ignored. `=` and default values use the Basic mode with the sequence above. |
| NoUnsafeAssignment.OnVariableDeclarator | packages/eslint-plugin/src/rules/no-unsafe-assignment.ts:378-398 | A declarator without an initialiser is ignored. Otherwise the mode comes from the target's annotation, with the same sequence. |
| NoUnsafeAssignment.OnPropertyDefinition | packages/eslint-plugin/src/rules/no-unsafe-assignment.ts:368-377 | A class property or accessor (also lines 340-349) with a value is checked against its key in the mode its annotation gives. One without a value is ignored. |
| NoUnsafeAssignment.OnObjectProperty | packages/eslint-plugin/src/rules/no-unsafe-assignment.ts:399-410 | An object-literal property outside a pattern is checked in the Contextual mode. A default value and an empty-bodied function are skipped. |
| NoUnsafeAssignment.OnArraySpread | packages/eslint-plugin/src/rules/no-unsafe-assignment.ts:411-420 | A spread is reported, once, exactly when its parent is an array literal and its argument is `any` or `any[]`. |
| NoUnsafeAssignment.OnJSXAttribute | packages/eslint-plugin/src/rules/no-unsafe-assignment.ts:421-439 | Only an expression container with a non-empty expression is checked. The check uses the Contextual mode and reports on that expression. |
| NoUnsafeAssignment.ArrayReportsWithinPattern | packages/eslint-plugin/src/rules/no-unsafe-assignment.ts:89-148 | Every report of the array check is on a node of the receiving pattern and uses one of the two pattern messages. |
| NoUnsafeAssignment.ObjectReportsWithinPattern | packages/eslint-plugin/src/rules/no-unsafe-assignment.ts:185-239 | Every report of the object check is on a node of the receiving pattern and uses one of the two pattern messages. |
| NoUnsafeAssignment.AnyTupleElementReported | packages/eslint-plugin/src/rules/no-unsafe-assignment.ts:127-135 | Each `any` position of a tuple that faces a non-rest element is reported on that element. |
| NoUnsafeAssignment.ElementsPastTupleIgnored | packages/eslint-plugin/src/rules/no-unsafe-assignment.ts:122-125 | Pattern elements past the end of the tuple change neither the reports nor the flag. |
| NoUnsafeAssignment.ArrayReportsConcatenate | packages/eslint-plugin/src/rules/no-unsafe-assignment.ts:107-151 | After any prefix of the elements, the loop's reports are the concatenation of each element's contribution, in order. |
| NoUnsafeAssignment.ArrayDestructureReports | packages/eslint-plugin/src/rules/no-unsafe-assignment.ts:82-152 | For a tuple sender, the array check's reports are exactly the concatenated contributions of all elements. |
| NoUnsafeAssignment.SkippedElementsChangeNothing | packages/eslint-plugin/src/rules/no-unsafe-assignment.ts:112-125 | A stretch of holes, rest elements, positions past the tuple and plain non-`any` targets changes neither the reports nor the flag. |
| NoUnsafeAssignment.ArrayFlagIsLastOutcome | packages/eslint-plugin/src/rules/no-unsafe-assignment.ts:106-151 | The returned flag is the outcome of the last element that has one: an `any` element reports, and a nested pattern overwrites the flag with its own result. The flag is false when no element has an outcome. |
| NoUnsafeAssignment.ObjectReportsConcatenate | packages/eslint-plugin/src/rules/no-unsafe-assignment.ts:184-239 | After any prefix of the properties, the loop's reports are the concatenation of each property's contribution, in order. |
| NoUnsafeAssignment.ObjectDestructureReports | packages/eslint-plugin/src/rules/no-unsafe-assignment.ts:170-242 | The object check's reports are exactly the concatenated contributions of all properties against the sender's property table. |
| NoUnsafeAssignment.AnyPropertyReported | packages/eslint-plugin/src/rules/no-unsafe-assignment.ts:214-221 | A property whose name the sender has with type `any` is reported on the property's value, with the pattern-from-tuple message. |
| NoUnsafeAssignment.ObjectFlagIsLastOutcome | packages/eslint-plugin/src/rules/no-unsafe-assignment.ts:183-241 | The returned flag is the outcome of the last property that has one: an `any` property reports, and a nested pattern overwrites the flag with its own result. The flag is false when no property has an outcome. |
| NoUnsafeAssignment.SkippedPropertiesChangeNothing | packages/eslint-plugin/src/rules/no-unsafe-assignment.ts:185-212 | A stretch of rest elements, keys that cannot be named, keys the sender lacks and plain non-`any` targets changes neither the reports nor the flag. |
| NoUnsafeAssignment.ReportThenOverwritten | packages/eslint-plugin/src/rules/no-unsafe-assignment.ts:127-148 | For `[a, [b]]` against `[any, [number]]`, the check reports `a` and still returns false. |
| NoUnusedExpressions.ResolveOptions | packages/eslint-plugin/src/rules/no-unused-expressions.ts:39 | An option is on exactly when it is configured as true. |
| NoUnusedExpressions.DefaultsAreOff | packages/eslint-plugin/src/rules/no-unused-expressions.ts:16-22 | Both options are off, whether given as the defaults or left out. |
| NoUnusedExpressions.IsValidExpression | packages/eslint-plugin/src/rules/no-unused-expressions.ts:42-57 | An optional call or a dynamic import is always valid. With both options off, or for an expression that is neither logical nor conditional, validity is exactly being one of those two. |
| NoUnusedExpressions.ValidIffAllOutcomesEffectful | packages/eslint-plugin/src/rules/no-unused-expressions.ts:42-57 | An expression is valid exactly when every expression its value can come from is an optional call or a dynamic import. The options decide which sub-expressions count: the right operand of a logical expression, and both branches of a conditional. |
| NoUnusedExpressions.ShortCircuit | packages/eslint-plugin/src/rules/no-unused-expressions.ts:43-45 | A logical expression is valid exactly when short circuits are allowed and its right operand is valid. |
| NoUnusedExpressions.Ternary | packages/eslint-plugin/src/rules/no-unused-expressions.ts:46-51 | A conditional expression is valid exactly when ternaries are allowed and both branches are valid. |
| NoUnusedExpressions.DefaultsAcceptOnlyEffectful | packages/eslint-plugin/src/rules/no-unused-expressions.ts:52-56 | Under the default options, only optional calls and dynamic imports are valid. |
| NoUnusedExpressions.OptionsMonotone | packages/eslint-plugin/src/rules/no-unused-expressions.ts:42-57 | Enabling more options never makes a valid expression invalid. |
| NoUnusedExpressions.Unwrap | packages/eslint-plugin/src/rules/no-unused-expressions.ts:65-79 | The four TypeScript wrappers lose exactly their outer layer. Every other expression is unchanged. |
| NoUnusedExpressions.UnwrapIsOneLevel | packages/eslint-plugin/src/rules/no-unused-expressions.ts:74-77 | A wrapper inside a wrapper reaches the base rule still wrapped. |
| NoUnusedExpressions.OnExpressionStatement | packages/eslint-plugin/src/rules/no-unused-expressions.ts:60-82 | A statement is skipped exactly when it is a non-empty directive or its expression is valid. An empty directive, `"";`, is not skipped. Otherwise the base rule receives the statement with its expression unwrapped one level and its other fields kept. |
| NoUnusedExpressions.DelegatesOnlyUnused | packages/eslint-plugin/src/rules/no-unused-expressions.ts:61-81 | A statement with an invalid expression that is not a directive, or is the empty directive, is delegated. An unwrapped one is delegated unchanged. |
| TypeFlagUtils.GetTypeFlags | packages/type-utils/src/typeFlagUtils.ts:9-16 | The loop's result is the OR of all constituents' flags. It includes every constituent's flags, and it is 0 with no constituents. |
| TypeFlagUtils.UnionIsLeastUpperBound | packages/type-utils/src/typeFlagUtils.ts:9-16 | A mask includes the combined flags exactly when it includes every constituent's flags. |
| TypeFlagUtils.ConstituentIncluded | packages/type-utils/src/typeFlagUtils.ts:11-14 | Each constituent's flags are a subset of the combined flags. |
| TypeFlagUtils.OrderIndependent | packages/type-utils/src/typeFlagUtils.ts:11-14 | The combined flags depend only on which flag values occur, not on their order or on repetition. |
| TypeFlagUtils.UnionMeets | packages/type-utils/src/typeFlagUtils.ts:33-40 | The combined flags share a bit with a mask exactly when some constituent's flags do. |
| TypeFlagUtils.AnyOrUnknownIsEither | packages/type-utils/src/typeFlagUtils.ts:4 | The receiver mask is Any together with Unknown. A type's flags meet it exactly when they meet Any or meet Unknown. |
| TypeFlagUtils.IsTypeFlagSet | packages/type-utils/src/typeFlagUtils.ts:27-41 | A receiver whose flags include Any or Unknown passes. Per constituent, the test holds exactly when the receiver override applies or some constituent shares a bit with the flags to check. |
| TypeFlagUtils.NothingToCheck | packages/type-utils/src/typeFlagUtils.ts:40 | With no flags to check and no receiver override, the test fails. |
| TypeFlagUtils.MonotoneInFlagsToCheck | packages/type-utils/src/typeFlagUtils.ts:40 | Adding bits to the flags to check never turns a true answer false. |
| PlaygroundFileSystem.InitialFiles | packages/website/src/components/linter/bridge.ts:14-20 | The initial table holds the two configuration files with their contents. It holds the input file exactly when there is code, and nothing else. |
| PlaygroundFileSystem.InitialOrder | packages/website/src/components/linter/bridge.ts:14-20 | The initial keys are distinct and are exactly the initial table's keys. |
| PlaygroundFileSystem.InitialScriptFiles | packages/website/src/components/linter/bridge.ts:83-87 | Of the initial files, only the input file can be a script file. |
| PlaygroundFileSystem.FileSystem.constructor | packages/website/src/components/linter/bridge.ts:10-23 | The system starts with the initial table, an empty registry and no events. |
| PlaygroundFileSystem.FileSystem.WatchFile | packages/website/src/components/linter/bridge.ts:25-44 | The callback is wrapped in a new debounced function unless the polling interval (500 by default) is 0. That wrapper is in no earlier entry's listener set. A new pattern object is built for the path, and no existing entry has it. The registry gains one entry holding just this listener. Nothing else changes. |
| PlaygroundFileSystem.FileSystem.Close | packages/website/src/components/linter/bridge.ts:39-43 | Only the watcher's listener is removed, only from its own pattern's set. Other entries, the keys and the rest of the state are unchanged. |
| PlaygroundFileSystem.ClosedListenerFiresOnlyElsewhere | packages/website/src/components/linter/bridge.ts:39-55 | After a close, the listener is called only through other entries that hold it. Every other listener is called as before. |
| PlaygroundFileSystem.FileSystem.TriggerCallbacks | packages/website/src/components/linter/bridge.ts:46-55 | The events appended are the reference firing sequence: entries in registry order, listeners in set order. |
| PlaygroundFileSystem.FiredCharacterized | packages/website/src/components/linter/bridge.ts:46-55 | An event fires exactly for a listener in the set of an entry whose pattern matches the path, with that path and kind. |
| PlaygroundFileSystem.FileSystem.DeleteFile | packages/website/src/components/linter/bridge.ts:57-60 | The key is removed, present or not, and kind 1 fires. No other entry changes. |
| PlaygroundFileSystem.FileSystem.WriteFile | packages/website/src/components/linter/bridge.ts:62-73 | Missing or empty contents are stored as `""`. Writing the stored value changes nothing and fires nothing. Otherwise the entry is set, a new key goes last, and the event fires with kind 2 if the old contents were non-empty, 0 otherwise. No other entry changes. |
| PlaygroundFileSystem.FileSystem.RemoveFile | packages/website/src/components/linter/bridge.ts:75-77 | The key is removed and nothing fires. No other entry changes. |
| PlaygroundFileSystem.FileSystem.SearchFiles | packages/website/src/components/linter/bridge.ts:79-82 | The result is exactly the table's keys that match the pattern, each once. |
| PlaygroundFileSystem.FileSystem.GetScriptFileNames | packages/website/src/components/linter/bridge.ts:83-87 | The result is exactly the keys that do not start with `/lib.` and do not end with `/.eslintrc` or `.json`, each once. |

## Left out

- The scope and binding engine is not part of this model; none of its implementation is among the modelled files.
- TypeScript checker calls are not modelled; each rule takes their answers as inputs. These are `getTypeAtLocation`, `isTupleType`, `getTypeArguments`, `getProperties`, `getTypeOfSymbolAtLocation`, `typeToString`, `getContextualType`, `getThisExpression`, `getConstrainedTypeAtLocation` and `isIntrinsicErrorType`. `Ty` fields carry the answers, and `Sender.thisType` is the constrained type of the `this` a sender is rooted at.
- `isUnsafeAssignment` is not modelled; it is a function supplied in `Program`. It takes the sender and receiver types only. The sender node the source also passes is dropped, so in the model the helper's answer cannot depend on that node.
- `getNameFromMember` is not modelled; a method member carries the name and name kind it would compute.
- `unionConstituents` is not modelled; a type's flags are given as the sequence of its constituents' flags.
- Property types are taken as given. They do not depend on the sender node at which `getTypeOfSymbolAtLocation` evaluates them.
- `context.report` is modelled as returned report sequences. Report nodes are node identifiers; in the overload rule they are member positions.
- The ESLint base rule of no-unused-expressions is left out. That includes its `allowTaggedTemplates` option. The model stops at the decision of which statement the base rule receives.
- Rule registration, metadata, schemas and message texts are declarative configuration and are left out.
- ESLint's dispatch of nodes to handlers is not modelled. Each handler checks its selector's conditions itself: `operator = "="`, `init != null`, `value != null`, being outside an object pattern, a spread's parent being an array literal. For the same reason the `nullThrows` calls cannot fail.
- `vfs.createSystem` and the other members of the system object are outside the model.
- `FileSystem.WatchFile` does not model debounce timing. A debounced listener's event is logged when the wrapper is called; its delay and the coalescing of rapid calls are not modelled.
- `FileSystem.WatchFile` takes `getPathRegExp` to build a new regular expression on each call. Its source is not part of this model. The registry is keyed by object identity, as a JavaScript `Map` keyed by objects is. Matching is the abstract predicate `matches`, so a pattern's syntax is not modelled.
- `FileSystem.TriggerCallbacks` does not model listeners that run synchronously and change the registry or the table during the iteration; calls are only recorded.
- `TypeFlagUtils.IsTypeFlagSet` takes `isReceiver` as a boolean; an absent argument is `false`.
