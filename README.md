# A2UI graph interpreter — a Dafny model

A2UI describes a user interface as a flat list of nodes. Each node is `{id, component: {Type: props}}`, and children refer to other nodes by id. This project models the core that turns such a list into a rendered tree, plus the state logic around it:

- **Type registry** (`components/a2ui/ComponentRegistry.tsx`). This is a `ComponentRegistry` class. Its field is a map from type name to renderer, paired with the insertion order of the keys; the order is what `Map` iteration exposes.
  - `register` overwrites.
  - `registerSimple` is guarded. It registers a generic wrapper under the name, the lower-case alias and the kebab-case alias.
  - The constructor runs every registration call of `registerAllComponents`, in source order. The call tables in `registrations.dfy` are taken from the source.
  - Hand-written renderers are opaque tokens: `Curated(line)`, where `line` is the line of the `register` call. The generic wrapper is `Generic(component)`.
- **Renderer session and binding resolver** (`components/a2ui/A2UIRenderer.tsx`).
  - `resolveDataBinding` works over a `Json` datatype. Its path loop is a method, proved against a walking function.
  - The id→node index built with `Map.set` is a method.
  - `renderComponent` is a function into an abstract `Visual` value. It covers the three soft-failure diagnostics, the first-entry dispatch and the generic wrapper's `child` / `children.explicitList` handling. The two ways a render throws (a truthy `explicitList` that is not an array, and an object reaching React as a child reference) are marked in the tree, and `Render.Aborts` tells whether a tree holds one.
  - The whole session is the empty-state placeholder plus root selection.
- **Validation and acceptance of agent output** (`lib/agent.ts`).
  - `validateA2UI` is a method with one loop and a set of seen ids.
  - The acceptance stage of `generateA2UI` covers fence stripping, trimming, the non-empty-array check and the per-node check. Its loop is a method; `JSON.parse` is a parameter.
  - Also modelled: history preparation (keep plain messages, the last ten, role mapping) and the `safeName` sanitiser.
- **Workspace store** (`lib/store.ts`). An `AppStore` class holds the seven fields of the store. Each action is a method whose `ensures` gives the complete new state. The new project and screen lists are computed by pure `map`/`filter` functions with their own lemmas.
- **Catalog prompt** (`lib/a2ui-catalog.ts`). The 57 catalog entries are an enumeration, in declaration order, each with its name and description. `getCatalogForPrompt` is the formatter over it, with line-splitting lemmas.

Shared pieces:

| file | contents |
|---|---|
| `json.dfy` | JSON values, JavaScript truthiness, property reads and `Object.entries` order |
| `text.dfy` | `split`/`join`, `trim`, `toLowerCase`, `parseInt` and `String(n)`, with round-trip lemmas |
| `types.dfy` | the records of `lib/types.ts` |
| `wrappers.dfy` | `Option` |

Where the code and its documentation differ, the model follows the code:

- `resolveDataBinding` is documented as never raising. The code calls `split` on any truthy `path`, so a non-string `path` throws. The model returns `Throws` there (`Binding.ResolutionOfPlainValues`).
- `validateA2UI` is documented to return a report. The code reads `.id` of each element, so a `null` element throws a `TypeError`. The model returns `Throws` (`Agent.ValidateA2UI`).
- `updateScreenContent` compares the id of the screen it found with the id of the current screen. When neither exists (both are `undefined`), it still replaces the current component list (`Store.A2UIAfterContentCases`).
- `deleteScreen` decides whether the current screen was deleted by comparing only the screen id, not the project (`Store.AppStore.DeleteScreen`).

## Model

| member | source | states |
|---|---|---|
| Registry.ComponentRegistry.constructor | components/a2ui/ComponentRegistry.tsx:218-219 | a fresh registry holds exactly the state that all of `registerAllComponents`' calls produce, and its key order lists every key once |
| Registry.ComponentRegistry.RegisterAllComponents | components/a2ui/ComponentRegistry.tsx:226-1590 | the `register` calls run in source order, then the `registerSimple` calls in source order |
| Registry.ComponentRegistry.RegisterEach | components/a2ui/ComponentRegistry.tsx:226-1343 | a run of `register` calls leaves the registry that the table's puts, in order, define |
| Registry.ComponentRegistry.RegisterSimpleEach | components/a2ui/ComponentRegistry.tsx:1389-1590 | a run of `registerSimple` calls leaves the registry that the table's guarded registrations, in order, define |
| Registry.ComponentRegistry.Register | components/a2ui/ComponentRegistry.tsx:1596-1598 | after `register(t, f)`, `getRenderer(t)` is `f` and `hasRenderer(t)` holds; a new key goes to the end of the order, and an existing key keeps its place |
| Registry.ComponentRegistry.GetRenderer | components/a2ui/ComponentRegistry.tsx:1600-1606 | a renderer is returned exactly when `hasRenderer` holds |
| Registry.ComponentRegistry.GetRegisteredTypes | components/a2ui/ComponentRegistry.tsx:1608-1610 | the list has no repeats and holds exactly the registered types |
| Registry.ComponentRegistry.RegisterSimple | components/a2ui/ComponentRegistry.tsx:1352-1387 | the guard, then the name and each alias that differs from it and is unclaimed, all bound to one wrapper |
| Registry.Put | components/a2ui/ComponentRegistry.tsx:1597 | `Map.set` binds the key, keeps every other binding, and appends only a new key to the order |
| Registry.SimpleRegistration | components/a2ui/ComponentRegistry.tsx:1352-1387 | after `registerSimple`, the key order still lists every key exactly once |
| Registry.SimpleRegistrationGuard | components/a2ui/ComponentRegistry.tsx:1353-1354 | a missing component, or a name that already has a renderer, leaves the registry unchanged |
| Registry.SimpleRegistrationExtends | components/a2ui/ComponentRegistry.tsx:1352-1387 | `registerSimple` never overwrites a binding; the order only grows at the end |
| Registry.SimpleRegistrationOrder | components/a2ui/ComponentRegistry.tsx:1382-1386 | on a free name the new keys are the name, then each alias that differs from the name and is unclaimed; equal lower-case and kebab forms are added once |
| Registry.SimpleRegistrationKeys | components/a2ui/ComponentRegistry.tsx:1376-1386 | the keys after `registerSimple` on a free name are the old keys, the name, and each claimed alias |
| Registry.SimpleRegistrationValues | components/a2ui/ComponentRegistry.tsx:1356-1386 | every key it adds is bound to the one new wrapper, and old keys keep their renderers |
| Registry.SimpleRegistrationMap | components/a2ui/ComponentRegistry.tsx:1372-1386 | the bindings after `registerSimple` on a free name, written out |
| Registry.RunCurated | components/a2ui/ComponentRegistry.tsx:226-1343 | after a run of `register` calls, the key order still lists every key exactly once |
| Registry.RunGeneric | components/a2ui/ComponentRegistry.tsx:1389-1590 | after a run of `registerSimple` calls, the key order still lists every key exactly once |
| Registry.InitialRegistry | components/a2ui/ComponentRegistry.tsx:218-226 | in the registry a fresh instance holds, the key order lists every key exactly once |
| Registry.RunGenericPrefixExtends | components/a2ui/ComponentRegistry.tsx:1389-1590 | later `registerSimple` calls keep every binding that earlier ones made |
| Registry.RunGenericNoNewKey | components/a2ui/ComponentRegistry.tsx:1372-1386 | that pass adds a key only as the name, lower-case or kebab alias of an entry whose name was still free |
| Registry.RunCuratedKeeps | components/a2ui/ComponentRegistry.tsx:1597 | `register` calls that never name `k` leave the binding of `k` alone |
| Registry.RunCuratedKeys | components/a2ui/ComponentRegistry.tsx:1597 | the keys defined by a run of `register` calls are exactly the types in its table |
| Registry.RunCuratedLastWins | components/a2ui/ComponentRegistry.tsx:1597 | for a type registered twice, the later renderer is kept, and the type stays where its first registration placed it |
| Registry.OverwriteKeepsOrder | components/a2ui/ComponentRegistry.tsx:1596-1610 | overwriting an existing type leaves the iteration order unchanged |
| Registry.KebabIsLowerWithHyphens | components/a2ui/ComponentRegistry.tsx:1377-1380 | the kebab alias is the lower-case name with hyphens inserted, and is no shorter than the name |
| Registry.KebabIdempotent | components/a2ui/ComponentRegistry.tsx:1377-1380 | a name without upper-case letters is its own kebab form, so the rewrite is idempotent |
| Registry.HyphenateLowerUpperOnlyInsertsHyphens | components/a2ui/ComponentRegistry.tsx:1378 | the first rewrite only inserts hyphens |
| Registry.HyphenateAcronymOnlyInsertsHyphens | components/a2ui/ComponentRegistry.tsx:1379 | the second rewrite only inserts hyphens |
| Registry.HyphenateLowerUpperAppend | components/a2ui/ComponentRegistry.tsx:1378 | the first rewrite works piece by piece when no match crosses the boundary |
| Registry.HyphenateAcronymAppend | components/a2ui/ComponentRegistry.tsx:1379 | the second rewrite works piece by piece when the left piece does not end in an upper-case letter |
| Registry.HyphenateLowerUpperWords | components/a2ui/ComponentRegistry.tsx:1378 | on a PascalCase name, the first rewrite puts a hyphen after each capitalised word but the last |
| Registry.HyphenateAcronymWords | components/a2ui/ComponentRegistry.tsx:1379 | the second rewrite then separates an acronym from the word after it, giving the words joined by hyphens |
| Registry.KebabOfWords | components/a2ui/ComponentRegistry.tsx:1377-1380 | the kebab alias of a PascalCase name is its words, lower-cased and joined by hyphens, with an acronym as one word |
| Registry.KebabAcronymExample | components/a2ui/ComponentRegistry.tsx:1377-1380 | `InputOTPSlot` (registered at line 1585) becomes `input-otp-slot` |
| Registry.KebabWordsExample | components/a2ui/ComponentRegistry.tsx:1377-1380 | `AlertDialogAction` (registered at line 1481) becomes `alert-dialog-action` |
| Registry.CardContentAliases | components/a2ui/ComponentRegistry.tsx:1376-1382 | the aliases of `CardContent` are `cardcontent` and `card-content` |
| RegistryContents.CuratedCard | components/a2ui/ComponentRegistry.tsx:274 | after the `register` calls, `Card` is bound to its hand-written renderer |
| RegistryContents.CuratedTabs | components/a2ui/ComponentRegistry.tsx:923 | after the `register` calls, `Tabs` is bound to its hand-written renderer |
| RegistryContents.CuratedToggle | components/a2ui/ComponentRegistry.tsx:1298 | `Toggle` is registered twice (lines 692 and 1298), and the later renderer (line 1298) wins |
| RegistryContents.InitialCard | components/a2ui/ComponentRegistry.tsx:1390 | the hand-written `Card` of line 274 survives `registerSimple('Card', …)` |
| RegistryContents.InitialToggle | components/a2ui/ComponentRegistry.tsx:1298 | a fresh registry binds `Toggle` to the line-1298 renderer |
| RegistryContents.InitialLacksLowerCaseCard | components/a2ui/ComponentRegistry.tsx:1390 | the guard fires for `Card`, so no `card` alias is registered |
| RegistryContents.InitialLacksStepper | components/a2ui/ComponentRegistry.tsx:226-1590 | no call registers `Stepper` under any alias |
| RegistryContents.CardContentRegistration | components/a2ui/ComponentRegistry.tsx:1390-1391 | `registerSimple('Card')` adds nothing; `registerSimple('CardContent')` binds the name and both aliases to one wrapper |
| RegistryContents.InitialCardContent | components/a2ui/ComponentRegistry.tsx:1391 | a fresh registry binds `CardContent`, `cardcontent` and `card-content` to one generic wrapper |
| Render.BuildIndex | components/a2ui/A2UIRenderer.tsx:40-46 | the `forEach`/`map.set` loop builds the id index; a `null` list gives an empty map |
| Render.IndexKeys | components/a2ui/A2UIRenderer.tsx:40-46 | the index holds exactly the ids of the list |
| Render.IndexLastWins | components/a2ui/A2UIRenderer.tsx:40-46 | with duplicate ids, the last node wins |
| Render.WithoutChildKeysSpec | components/a2ui/ComponentRegistry.tsx:1361-1363 | after deleting `child` and `children`, a property read gives nothing for those two keys and the original value for every other key; exactly the entries with other keys remain |
| Render.WithoutChildKeysAppend | components/a2ui/ComponentRegistry.tsx:1361-1363 | deleting the keys distributes over concatenation, so the kept entries stay in written order |
| Render.WithoutChildKeysOne | components/a2ui/ComponentRegistry.tsx:1361-1363 | a single entry is dropped exactly when its key is `child` or `children` |
| Render.SafePropsOfObject | components/a2ui/ComponentRegistry.tsx:1361-1363 | for object props, the wrapper forwards every prop except `child` and `children`, unchanged |
| Render.RenderAll | components/a2ui/ComponentRegistry.tsx:1358 | `explicitList.map(renderComponent)` yields one visual per id, in order |
| Render.Diagnostics | components/a2ui/A2UIRenderer.tsx:100-130 | `Unknown(id)` exactly for an id missing from the index, `Empty` exactly for a node with no component entry, `Unsupported(type)` exactly for an unregistered type; none of them throws |
| Render.CuratedDispatch | components/a2ui/A2UIRenderer.tsx:121-144 | a hand-written renderer gets the first entry's props, the same id and the same data model; later entries are ignored |
| Render.GenericChildren | components/a2ui/ComponentRegistry.tsx:1356-1370 | the wrapper prefers a truthy `child` to `explicitList`, renders the list in order as a fragment, has no children when neither is truthy, and forwards the props without the two child keys |
| Render.NonStringReference | components/a2ui/A2UIRenderer.tsx:100-109 | a child reference that is not a string finds no node; its diagnostic shows the value as React prints it, and the render throws exactly when the value is or holds an object |
| Render.ChildTextExamples | components/a2ui/A2UIRenderer.tsx:106 | `true` and `null` show nothing, `["x", "y"]` shows `xy`, and an array holding an object is refused |
| Render.ObjectChildAborts | components/a2ui/ComponentRegistry.tsx:1357 | an object under `child` makes the generic wrapper's render throw |
| Render.A2UIRenderer | components/a2ui/A2UIRenderer.tsx:30-178 | a fresh registry, the index and the root selection give the session's output |
| Render.SessionRoot | components/a2ui/A2UIRenderer.tsx:151-177 | a `null` or empty list gives the placeholder; otherwise the root is a truthy `rootId`, else the first node's id |
| Render.MissingRootIsUnknown | components/a2ui/A2UIRenderer.tsx:171-175 | a truthy `rootId` that no node has gives `Unknown(rootId)`, with no fallback |
| Render.StepperIsUnsupported | components/a2ui/A2UIRenderer.tsx:122-130 | a `Stepper` node renders as `Unsupported("Stepper")` under the registry a fresh instance holds |
| Binding.ResolveDataBinding | components/a2ui/A2UIRenderer.tsx:57-90 | the method's result is the resolution function's value for every input |
| Binding.WalkPath | components/a2ui/A2UIRenderer.tsx:73-86 | the segment loop computes the walk of the data model along the segments |
| Binding.SegmentsShape | components/a2ui/A2UIRenderer.tsx:72 | every segment is non-empty and contains no slash |
| Binding.ResolutionOfPlainValues | components/a2ui/A2UIRenderer.tsx:58-72 | `undefined` and `null` give `undefined`; a string, number or boolean is returned as is; only a truthy non-string `path` throws |
| Binding.LiteralPriority | components/a2ui/A2UIRenderer.tsx:66-71 | the order is literalString, then literalNumber, then literalBoolean (a present field counts even when falsy), then path |
| Binding.NoBindingIsUndefined | components/a2ui/A2UIRenderer.tsx:66-89 | an object with none of the four fields, or with an empty `path`, gives `undefined` |
| Binding.SegmentsIgnoreEmptyRuns | components/a2ui/A2UIRenderer.tsx:72 | `/a/b`, `a/b`, `a//b` and `a/b/` have the same segments, and `/` has none |
| Binding.SegmentsOfJoin | components/a2ui/A2UIRenderer.tsx:72 | segments joined by slashes split back into those segments |
| Binding.ResolutionOfPath | components/a2ui/A2UIRenderer.tsx:70-89 | a bare non-empty path gives the walk of the data model along its segments |
| Binding.SameSegmentsSameResolution | components/a2ui/A2UIRenderer.tsx:72-89 | paths with the same segments resolve identically |
| Binding.SlashPathIsDataModel | components/a2ui/A2UIRenderer.tsx:72-89 | a path made only of slashes resolves to the whole data model |
| Binding.WalkAppend | components/a2ui/A2UIRenderer.tsx:75-84 | walking a path in two pieces is the same as walking it whole |
| Binding.WalkFromNothing | components/a2ui/A2UIRenderer.tsx:76-77 | once the value is `undefined` or `null`, the walk gives `undefined` without throwing |
| Binding.StepIndexesArrays | components/a2ui/A2UIRenderer.tsx:78-80 | an array is indexed by the number `parseInt` reads from the segment's front; out of range gives `undefined` |
| Binding.StepReadsObjects | components/a2ui/A2UIRenderer.tsx:81-83 | on an object, a segment is always a property name |
| Binding.NestedWalk | components/a2ui/A2UIRenderer.tsx:75-84 | object keys and an array index compose along a path |
| Binding.SampleResolution | components/a2ui/A2UIRenderer.tsx:57-90 | `/a/b/0/c` against `{a: {b: [{c: 42}]}}` gives 42 |
| Agent.ValidateA2UI | lib/agent.ts:497-523 | the loop's result is the validation function: a non-array gives exactly `A2UI must be an array`; a `null` element throws; otherwise all errors, in element order |
| Agent.CheckElement | lib/agent.ts:506-520 | one iteration gives that element's errors and the updated set of seen ids |
| Agent.ValidIffSound | lib/agent.ts:504-522 | `valid` holds exactly when the error list is empty, exactly when every element has a truthy id and component and no id repeats |
| Agent.NodeErrorsEmpty | lib/agent.ts:506-520 | an element contributes no errors exactly when it is sound and its id does not repeat |
| Agent.MissingIdIsOneError | lib/agent.ts:507-510 | a falsy id gives exactly one error, `Component at index i missing id` |
| Agent.ErrorsInOrder | lib/agent.ts:506-522 | errors appear in element-index order |
| Agent.DuplicateReported | lib/agent.ts:512-515 | every repeat of an earlier string id is reported as `Duplicate id` |
| Agent.EmptyComponentObjectIsValid | lib/agent.ts:519-521 | an empty `component` object passes `validateA2UI` |
| Agent.StripLeavesNoFence | lib/agent.ts:455 | no three backticks survive the fence replacement |
| Agent.StripKeepsPlainText | lib/agent.ts:455 | text without fences is left as it is |
| Agent.StripIdempotent | lib/agent.ts:455 | fence stripping is idempotent |
| Agent.CleanOutputShape | lib/agent.ts:455 | the cleaned text contains no fence and has no white space at either end |
| Agent.AcceptOutput | lib/agent.ts:453-478 | the acceptance method computes the acceptance function for every raw output and parser |
| Agent.FindRejection | lib/agent.ts:469-473 | the per-node loop stops at the first node that is `null` or badly shaped, and reports it |
| Agent.FirstRejectionSpec | lib/agent.ts:469-473 | no rejection exactly when every node is present and well shaped; otherwise the first bad node is named, by id or as `unknown` |
| Agent.AcceptanceSpec | lib/agent.ts:453-478 | accepted exactly when the cleaned text is non-empty and parses to a non-empty array of well-shaped nodes; success carries that array and `{}` |
| Agent.AcceptedIsValid | lib/agent.ts:464-475 | accepted output whose string ids are distinct also passes `validateA2UI` |
| Agent.EmptyComponentObjectRejected | lib/agent.ts:470 | acceptance is stricter than `validateA2UI`: an empty `component` object fails |
| Agent.PlainMessagesSpec | lib/agent.ts:289 | the filter keeps exactly the messages without components, and never lengthens the history |
| Agent.PlainMessagesAppend | lib/agent.ts:289 | the filter distributes over concatenation, so the kept messages stay in order |
| Agent.ModelHistorySpec | lib/agent.ts:287-294 | at most the last ten plain messages are sent, in order; role `user` stays `user` and every other role becomes `model` |
| Agent.ComponentMessagesAreSkipped | lib/agent.ts:287-294 | appending a message with components leaves the next request's history unchanged |
| Agent.PlainMessageEntersWindow | lib/agent.ts:289-294 | one more plain message is appended to the history sent; when ten plain messages were already kept, the oldest one drops out |
| Agent.LastNSnoc | lib/agent.ts:290 | `slice(-10)` of a list grown by one element: the whole list below ten, else the old window without its first element plus the new one |
| Agent.KeepSafeSpec | lib/agent.ts:350 | the character filter leaves only characters in `[a-z0-9-]`, keeps a text made only of them, never lengthens, and leaves nothing of a text with none |
| Agent.KeepSafeAppend | lib/agent.ts:350 | the filter works character by character: it distributes over concatenation |
| Agent.KeepSafeExample | lib/agent.ts:350 | `a!b` becomes `ab` |
| Agent.SafeNameSpec | lib/agent.ts:350 | the sanitised name uses only `[a-z0-9-]`, so it holds no `/` or `.`; a name already in that form is kept |
| Store.FindFirstSpec | lib/store.ts:112 | `find` yields the first element with the id, and nothing exactly when no element has it |
| Store.RemoveAllSpec | lib/store.ts:98 | the filter keeps exactly the elements with another id, never lengthens, and keeps a list with no such element whole |
| Store.RemoveAllAppend | lib/store.ts:98 | the filter distributes over concatenation, so the kept elements stay in order |
| Store.RemoveAllOne | lib/store.ts:98 | a single element is kept exactly when its id differs |
| Store.EditProjectsSpec | lib/store.ts:206-291 | an edit changes exactly the target screens inside the target projects; ids, names and creation dates stay |
| Store.SetComponentsOnlyTarget | lib/store.ts:206-233 | `updateScreenContent` sets `components` on exactly the matching screens, and every other screen keeps its components |
| Store.AddScreenSpec | lib/store.ts:129-161 | the new screen goes at the end of the matching projects only |
| Store.DropScreenSpec | lib/store.ts:165-174 | every project keeps its id, name and creation date; a matching project gets the new `updatedAt` and its screens filtered by the id, so exactly the screens with another id remain; other projects are unchanged |
| Store.A2UIAfterContentCases | lib/store.ts:231 | the current list becomes the new components when the found screen's id equals the current screen's id, including when neither exists |
| Store.AppStore.constructor | lib/store.ts:57-63 | the initial state: no projects, no selection, empty chat, not loading, no components, `{}` |
| Store.AppStore.CreateProject | lib/store.ts:69-94 | one project with the single screen `Screen 1` is appended and selected; chat, components and data model are reset |
| Store.AppStore.DeleteProject | lib/store.ts:96-109 | every project with the id is removed; the selection and session are cleared only when the current project had the id; the data model is kept |
| Store.AppStore.SelectProject | lib/store.ts:111-123 | no change for an unknown id; otherwise the first match and its first screen (or none) become current, with that screen's session |
| Store.AppStore.CreateScreen | lib/store.ts:129-161 | the screen is appended to the matching projects and always becomes current with an empty session |
| Store.AppStore.DeleteScreen | lib/store.ts:163-189 | when the current screen had the id, the project's first remaining screen (or none) becomes current and the session is cleared |
| Store.AppStore.SelectScreen | lib/store.ts:191-204 | no change unless both project and screen are found; otherwise they become current with the screen's session |
| Store.AppStore.UpdateScreenContent | lib/store.ts:206-234 | the matching screens get the components; the selection is refreshed; chat, data model and loading flag are unchanged |
| Store.AppStore.AddChatMessage | lib/store.ts:240-271 | appended to the session, the new history is written to the current screen, and components are replaced only when the message carries some |
| Store.AppStore.ClearChatHistory | lib/store.ts:273-291 | clears the session chat and the current screen's chat, and nothing else |
| Store.AppStore.SetLoading | lib/store.ts:297 | only `isLoading` changes |
| Store.AppStore.SetComponentList | lib/store.ts:299-322 | the current list and the current screen's components become the argument |
| Store.AppStore.UpdateDataModel | lib/store.ts:324-346 | the session data model and the current screen's data model become the argument |
| Store.SelectedScreenBelongs | lib/store.ts:191-204 | after `selectScreen` finds both, the current screen lies in the current project and carries the requested ids |
| Store.DeletedProjectIsGone | lib/store.ts:96-109 | after `deleteProject`, no project has the id, and every other project remains |
| Store.RecordMessageSpec | lib/store.ts:240-271 | a message without components changes no screen's components, and the current screen ends with the session history |
| Catalog.PromptSplitsIntoLines | lib/a2ui-catalog.ts:318-321 | for a non-empty table of single-line entries, the prompt splits on newlines into exactly one line per entry, in order, with no trailing newline |
| Catalog.PromptLineFormat | lib/a2ui-catalog.ts:320 | each line is `- **<Type>**: <description>` of its entry |
| Catalog.MultiLineEntrySplits | lib/a2ui-catalog.ts:321 | an entry with a newline in its description yields more lines than entries, so the single-line condition is needed |
| Catalog.StandardCatalogShape | lib/a2ui-catalog.ts:5-312 | the catalog has 57 entries, and its 40th is `Stepper`, whose line is the 40th |
| Catalog.StepperOfferedButUnsupported | lib/a2ui-catalog.ts:217-221 | `Stepper` is offered in the catalog, yet a fresh registry renders it as `Unsupported("Stepper")` |
| Text.JoinSplit | components/a2ui/A2UIRenderer.tsx:72 | `join` undoes `split` |
| Text.SplitJoin | lib/a2ui-catalog.ts:321 | `split` undoes `join` when no piece contains the separator |
| Text.TrimSpan | lib/agent.ts:455 | `trim` leaves exactly the span between the first and last non-space characters |
| Text.ParseIntOfIntToString | components/a2ui/A2UIRenderer.tsx:78 | `parseInt` reads back every rendered integer |
| Text.ParseIntOfNumericPrefix | components/a2ui/A2UIRenderer.tsx:78 | `parseInt` reads a number followed by a non-digit as that number |
| Text.LowerHasNoUpper | components/a2ui/ComponentRegistry.tsx:1376 | the lower-case form has no upper-case letter |
| Json.MinIndexEntry | components/a2ui/A2UIRenderer.tsx:121 | the entry with the smallest array-index key, and none exactly when no key is an array index |
| Json.FirstEntry | components/a2ui/A2UIRenderer.tsx:121 | `Object.entries(o)[0]` is one of the entries, and the first one written when no key is an array index |
| Registry.Kebab | components/a2ui/ComponentRegistry.tsx:1377-1380 | defines the kebab-case alias: the two hyphen rewrites, then lower case (its properties are the Kebab lemmas above) |
| Binding.Step | components/a2ui/A2UIRenderer.tsx:78-83 | defines one segment step: an array index when `parseInt` reads a number and the value is an array, a property read otherwise |
| Binding.Walk | components/a2ui/A2UIRenderer.tsx:73-86 | defines the path walk: `undefined` or `null` before a segment ends it as `undefined` |
| Binding.Resolution | components/a2ui/A2UIRenderer.tsx:57-90 | defines what `resolveDataBinding` returns, including `Throws` for a truthy non-string `path` |
| Render.Render | components/a2ui/A2UIRenderer.tsx:100-145 | defines `renderComponent`: the three diagnostics, then dispatch on the first entry, with fuel bounding the generic wrapper's recursion |
| Render.RenderRef | components/a2ui/ComponentRegistry.tsx:1357-1358 | defines `renderComponent` applied to a child reference that may not be a string |
| Render.RenderGeneric | components/a2ui/ComponentRegistry.tsx:1356-1370 | defines the generic wrapper's output; a truthy non-array `explicitList` throws |
| Render.Session | components/a2ui/A2UIRenderer.tsx:151-177 | defines the whole component's output from the list, `rootId` and data model |
| Agent.NodeErrors | lib/agent.ts:506-520 | defines the errors one element contributes, in the order the checks run |
| Agent.Validate | lib/agent.ts:494-523 | defines `validateA2UI`'s report, `Throws` for a `null` element |
| Agent.StripFences | lib/agent.ts:455 | defines the fence replacement, scanning left to right and trying the three-backtick-json alternative first |
| Agent.CleanOutput | lib/agent.ts:455 | defines the cleaned text: fences removed, then trimmed |
| Agent.Acceptance | lib/agent.ts:453-478 | defines the accepted response or the error message for a raw output and a parser |
| Agent.ModelHistory | lib/agent.ts:288-294 | defines the history sent to the model: plain messages, the last ten, roles mapped |
| Agent.SafeName | lib/agent.ts:350 | defines the sanitised file name: lower case, then the character filter |
| Store.EditProjects | lib/store.ts:208-222 | defines the nested `map` that edits the matching screens of the matching projects |
| Store.AddScreen | lib/store.ts:139-148 | defines createScreen's `map`: the new screen appended to every matching project |
| Store.DropScreen | lib/store.ts:165-174 | defines deleteScreen's `map`: the screens with the id filtered out of every matching project |
| Catalog.CatalogForPrompt | lib/a2ui-catalog.ts:318-322 | defines the prompt: one line per catalog entry, joined by newlines |
| Text.ParseInt | components/a2ui/A2UIRenderer.tsx:78 | defines `parseInt(s, 10)`: leading space, optional sign, the longest digit run; NaN when there is no digit |
| Json.Prop | components/a2ui/A2UIRenderer.tsx:81-83 | defines an own-property read of an object, array or string |
| Json.ToStr | lib/agent.ts:513 | defines `String(v)` as a template literal inserts it |

## Left out

- JSX bodies of the hand-written renderers (styling, shadcn/ui, React elements): a renderer is an opaque token, and its output is `Drawn(componentType, line, id, props, dataModel)`.
- `useMemo` caching: it has no semantic effect, so the registry and the index are built on every render.
- Floating-point numbers: JSON numbers are integers, and prop arithmetic is not modelled.
- The Gemini client, the tool-calling loop, the remote MCP fetch, file reads and logging in `lib/agent.ts`: these are network and I/O. `JSON.parse` is a parameter of the acceptance stage.
- Agent.RejectionOf: the message of the `TypeError` that reading `.id` of a `null` node raises (lib/agent.ts:470, caught at 478) is fixed as V8's wording, `NullIdMessage`; other engines word it differently.
- Ids and timestamps: `generateId()` and `new Date()` are parameters of the store actions. Zustand's `set` is a plain field assignment, and subscriptions are not modelled.
- `toLowerCase` covers ASCII letters only; other characters are unchanged.
- Inherited JavaScript properties: the model reads only own properties (for example, a data-model path `toString` is a missing key).
- Identity of objects and arrays: `validateA2UI` compares ids in its `Set` by value only when they are strings, numbers or booleans; other ids never repeat.
- Render.Render: cyclic child references overflow the stack in the source. The model's rendering takes a fuel bound that decreases per generic level, so a cycle ends at the bound.
- Render.SafeProps: `Spread` keeps the written key order of object props. JavaScript's `{...props}` over a `JSON.parse` object lists integer-like keys first, in ascending order; the model applies that order only to `Object.entries` of the `component` object (`Json.FirstEntry`).
- Strings are sequences of code points, not UTF-16 code units: `Json.Prop` of `length` or of an index on a string, and `Render.Spread` of a string, differ from JavaScript on characters outside the Basic Multilingual Plane (`"😀".length` is 2 in JavaScript and 1 here).
- Duplicate keys in a JSON object: an object's entries are assumed to have distinct keys. `Json.Get` returns the first match, while `JSON.parse` keeps the last value of a repeated key.
- Node shapes: a node's `component` is an object's entries and its `id` a string. Acceptance (lib/agent.ts:470) lets through a non-empty string or array as `component`, which `Object.entries` (components/a2ui/A2UIRenderer.tsx:112) reads as indexed entries, and a numeric id; such nodes are not representable in the renderer's input.
- The catalog's `props` and `shadcnMapping` fields: the prompt formatter reads neither.
- Catalog.PromptSplitsIntoLines: that the 57 concrete descriptions contain no newline is not proved; the lemma takes it as a requirement on the table.
- The `onAction` callbacks passed to renderers: they are forwarded unchanged and never inspected by the core.
- The workspace views, the HTTP route and the scripts, which are outside this core.
