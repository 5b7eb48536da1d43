# Observable store with controlled and uncontrolled keys

This project models the state store shared by the Base UI components. It also models the framework-independent part of the hooks that feed component props into that store.

- `Store<State>` holds a `state` object and a set of listeners.
  - `update` replaces the state.
  - `apply` shallow-merges a patch.
  - `set` writes one key.
  - Each of the three notifies every listener exactly once, and only when the state actually changes.
- `ControllableStore<State>` extends `Store` with two per-key side tables.
  - `controlledConfigs` holds the current configuration of each key.
  - `initialControlledStatus` holds the mode a key had the first time it was configured. It is written once and never overwritten.
  - A controlled key is owned by the application. Its value always wins when the key is configured. Direct `set`/`apply` writes to it are refused with a warning. Its generated setter forwards to `onChange`.
  - An uncontrolled key is owned by the store. Its default is written only on the first configuration. Its setter writes the state directly.
  - After every batch of configurations, each named key whose mode differs from its first mode is reported as a switch.
- `createEnhancedControllableStore` installs a setter `set<Key>` for each listed key, with the key's first letter capitalised.
- `useStoreWithProps` merges props into a store.
- `useStoreWithControlledProps` works in three steps:
  - it derives a configuration per listed key (a key is controlled iff its prop is not `undefined`);
  - it hands those configurations to `updateControlledConfigs`;
  - it merges the remaining defined props through the base `apply`, bypassing the controlled filter.

How the model is built:

- The state is a `map<Key, Js<T>>`. `Js<T>` is either `Undefined` or `Defined(v)`, and a missing key reads as `Undefined`.
- Value equality `==` stands for `Object.is` and `!==`.
- Listeners and `onChange` callbacks are opaque identifiers.
- Two ghost logs record what the store does to the outside world:
  - the listener calls (`notifications`);
  - the `console.error` and `console.warn` calls (`diagnostics`).
- Loops over sets and maps pick their elements in an arbitrary order. Each log is specified as "the new suffix is a permutation of this set" (`Logs.AppendsEachOnce`), so every result holds for any iteration order.
- `ControllableStore` extends `Store` in the source. In the model, the base store is a component `base`: every `super.set`/`super.apply` and the `Store.prototype.apply.call(store, ...)` call become calls on `store.base`.
- What one configuration step, or one batch, does to the state and the two side tables is given by the functions `Configure` and `ConfigureAll` over `Tables`. Each imperative method is proved against these functions.

Files:

- `js_values.dfy`: `undefined` and string truthiness.
- `logs.dfy`: the append-only logs of listener calls and diagnostics.
- `store.dfy`: `Store`.
- `controllable_store.dfy`: `ControllableStore` and `createEnhancedControllableStore`.
- `store_with_props.dfy`: the two hooks' configuration derivation, regular-props filter and effect bodies.

## Model

| member | source | states |
|---|---|---|
| JsValues.OrElse | packages/utils/src/store/useStoreWithProps.ts:126 | `s \|\| fallback` is `s` when `s` is a non-empty string and `fallback` otherwise. It is empty only when the fallback is. |
| Stores.DeliveriesCount | packages/utils/src/store/Store.ts:45 | One notification pass makes exactly as many calls as there are listeners. |
| Stores.NotifiedExactlyOnce | packages/utils/src/store/Store.ts:45 | After a pass, each subscribed listener has been called exactly once with the new state, and nobody else has been called. |
| Stores.ApplyReadsAsMerge | packages/utils/src/store/Store.ts:54-61 | After `apply(changes)`, every key reads as in `{ ...state, ...changes }`. A key not in `changes` keeps its value. |
| Stores.ApplyUnchangedIff | packages/utils/src/store/Store.ts:54-61 | `apply` leaves the state as it was if and only if every key of `changes` already holds its value. |
| Stores.ApplyIdempotent | packages/utils/src/store/Store.ts:54-61 | Applying the same changes a second time changes nothing. |
| Stores.SetIsSingletonApply | packages/utils/src/store/Store.ts:69-73 | `set(k, v)` has the same effect on the state as `apply({ [k]: v })`. |
| Stores.SetWritesOneKey | packages/utils/src/store/Store.ts:69-73 | After `set(k, v)`, `k` reads `v` and every other key is unchanged. |
| Stores.Store.constructor | packages/utils/src/store/Store.ts:12-15 | A new store holds the given state, no listeners, and has made no calls. |
| Stores.Store.Subscribe | packages/utils/src/store/Store.ts:23-28 | Adds `fn` to the listener set; subscribing twice leaves one entry. The returned unsubscribe function names `fn`. |
| Stores.Store.RunUnsubscribe | packages/utils/src/store/Store.ts:25-27 | Removes exactly that listener and no other. |
| Stores.Store.GetSnapshot | packages/utils/src/store/Store.ts:33-35 | Returns the current state. |
| Stores.Store.Notify | packages/utils/src/store/Store.ts:45 | The `forEach` calls each listener once with the new state, in some order. |
| Stores.Store.Update | packages/utils/src/store/Store.ts:42-47 | The state becomes `newState`. Listeners are notified exactly once each when it differs from the old state, and not at all when it is equal. |
| Stores.Store.Apply | packages/utils/src/store/Store.ts:54-61 | The state becomes the merge when some key differs, and then every listener is called once with it. Otherwise nothing changes and nobody is called. The early exit of the key scan is modelled. |
| Stores.Store.Set | packages/utils/src/store/Store.ts:69-73 | Writes the key only when its value differs, and notifies only then. |
| ControllableStores.Configure | packages/utils/src/store/Store.ts:119-140 | One configuration step keeps the side tables in step: every configured key has a first status. |
| ControllableStores.ConfigureAll | packages/utils/src/store/Store.ts:145-150 | A batch of configurations keeps the side tables in step. |
| ControllableStores.ShapedEntries | packages/utils/src/store/Store.ts:146-149 | Exactly the entries with a boolean `controlled` are configured; the others are skipped silently. |
| ControllableStores.Uncontrolled | packages/utils/src/store/Store.ts:202-218 | `filteredChanges` holds exactly the entries of `changes` whose key is not configured as controlled, with their values. |
| ControllableStores.ConfigureSpec | packages/utils/src/store/Store.ts:119-140 | After `configureControlled(k, cfg)`: the config is stored; the first status is recorded only if absent; a controlled defined value is written; a default is written only on the first configuration; every other key's value, config and first status are unchanged. |
| ControllableStores.FirstStatusIsPermanent | packages/utils/src/store/Store.ts:126-128 | A recorded first status survives every later configuration. |
| ControllableStores.DefaultNotReapplied | packages/utils/src/store/useStoreWithProps.test.tsx:133-169 | Configure an uncontrolled key, write it internally, and configure it again as uncontrolled: the internal value stays. |
| ControllableStores.ConfigureWritesOnlyKey | packages/utils/src/store/Store.ts:133-139 | A configuration step changes the state only by giving its own key a new value. |
| ControllableStores.ChangedAmongStep | packages/utils/src/store/Store.ts:146-150 | After a step that writes only a not-yet-visited key, a key that already differed from the start still differs. If the step changed anything, the newly visited key now differs. |
| ControllableStores.ConfigureNextStep | packages/utils/src/store/Store.ts:146-150 | One turn of the `forEach`, on the tables: the batch grows by its key. A key that already differed from the start still differs. If the turn changed the state, its key now differs. |
| ControllableStores.ConfigureIsolated | packages/utils/src/store/Store.ts:119-140 | Configuring one key never changes another key's mode or value (a shared store). |
| ControllableStores.ConfigureNothing | packages/utils/src/store/Store.ts:145-150 | An empty batch changes nothing. |
| ControllableStores.ShapedEntriesStep | packages/utils/src/store/Store.ts:146-150 | Visiting one more entry adds its config when it passes the shape test, and adds nothing otherwise. |
| ControllableStores.WriteMapStep | packages/utils/src/store/Store.ts:133-139 | Adding a key to a batch adds that key's write, if it makes one, and nothing else. |
| ControllableStores.ConfigureAllStep | packages/utils/src/store/Store.ts:146-150 | Configuring one more fresh key after a batch equals configuring it within the batch. So the `forEach` gives the same tables in every visiting order. |
| ControllableStores.StepStateAll | packages/utils/src/store/Store.ts:133-139 | The state part of that step. |
| ControllableStores.StepInitialAll | packages/utils/src/store/Store.ts:126-128 | The first-status part of that step. |
| ControllableStores.StepInitial | packages/utils/src/store/Store.ts:126-128 | Recording a first status after a batch equals recording it within the batch. |
| ControllableStores.FirstStatusesStep | packages/utils/src/store/Store.ts:126-128 | A batch records a key's first status only when the key has none yet. |
| ControllableStores.StepState | packages/utils/src/store/Store.ts:69-73 | Writing a defined value after a merge equals merging the extended patch. |
| ControllableStores.ConfigureAllIsolated | packages/utils/src/store/Store.ts:145-150 | A batch leaves the value and the mode of every key it does not configure unchanged. |
| ControllableStores.ConfigureAllControlledWins | packages/utils/src/store/Store.ts:133-135 | After a batch, every controlled key with a defined value reads that value and is controlled. |
| ControllableStores.SwitchDiagnosticsIff | packages/utils/src/store/Store.ts:153-175 | The report names a key if and only if all of these hold: the key is configured; its `name` is truthy; its current mode differs from its first mode. The report carries the first mode as origin, `state \|\| key` as property, and `name` as component. |
| ControllableStores.SwitchMeasuredAgainstFirstMode | packages/utils/src/store/Store.ts:154-158 | A key first configured in one mode and later in the other is reported with that direction. Configured again in its first mode, it is no longer reported. |
| ControllableStores.ConfigureOne | packages/utils/src/store/Store.ts:123-130 | Configuring a single key stores its config and keeps a first status already recorded, or records the current mode. |
| ControllableStores.NoDiagnosticWithoutName | packages/utils/src/store/Store.ts:158 | A key whose `name` is absent or empty is never reported, yet takes the new mode. |
| ControllableStores.SetterNameEqualIff | packages/utils/src/store/Store.ts:295 | Two keys get the same setter name if and only if they are equal, or they differ only in the case of their first letter. |
| ControllableStores.SetterNameShape | packages/utils/src/store/Store.ts:295 | The name is `set` followed by the key, with its first character upper-cased and the rest unchanged. |
| ControllableStores.SetterNamesCanCollide | packages/utils/src/store/Store.ts:293-297 | `open` and `Open` compete for `setOpen`. |
| ControllableStores.SetterTableNames | packages/utils/src/store/Store.ts:293-297 | The installed setter names are exactly the setter names of the listed keys. |
| ControllableStores.SetterTableLookup | packages/utils/src/store/Store.ts:293-297 | A name is bound to the setter of the last listed key that has that name. |
| ControllableStores.SetterTableConsistent | packages/utils/src/store/Store.ts:293-297 | Every installed setter sits under its own key's setter name, and its key is one of the listed keys. |
| ControllableStores.SetterNamedSet | packages/utils/src/store/Store.ts:295-296 | A setter is installed under the name `set`, where it shadows the store's own `set`, exactly when the empty key is listed; it is then the empty key's setter. |
| ControllableStores.SetterTableDistinctNames | packages/utils/src/store/Store.ts:293-297 | When no two listed keys share a name, each key's setter is its own. |
| ControllableStores.CreateSetter | packages/utils/src/store/Store.ts:228-231 | The setter captures its key and nothing else; the config is read when it is called. |
| ControllableStores.ControllableStore.constructor | packages/utils/src/store/Store.ts:111-114 | A new controllable store has empty side tables and has emitted no diagnostics. |
| ControllableStores.ControllableStore.IsControlled | packages/utils/src/store/Store.ts:247-249 | A configured key reports its `controlled` flag; an unconfigured key counts as uncontrolled. |
| ControllableStores.ControllableStore.GetConfig | packages/utils/src/store/Store.ts:254-256 | Returns the stored config, or `undefined` exactly when the key is not configured. |
| ControllableStores.ControllableStore.ConfigureControlled | packages/utils/src/store/Store.ts:119-140 | The store's tables become `Configure` of the old ones, and listeners are notified only on a state change. |
| ControllableStores.ControllableStore.UpdateControlledConfigs | packages/utils/src/store/Store.ts:145-176 | The tables become `ConfigureAll` of the well-shaped entries. Then one `console.error` is issued per switched key, each exactly once. Listeners are called only if the state ends up different. |
| ControllableStores.ControllableStore.ConfigureEach | packages/utils/src/store/Store.ts:146-150 | The first `forEach`, in any order, yields `ConfigureAll` of the well-shaped entries. Each key is written at most once, so listeners are called only if the state ends up different. |
| ControllableStores.ControllableStore.ConfigureNext | packages/utils/src/store/Store.ts:146-150 | One turn of that `forEach` extends the batch by its key. Once any listener has been called, some visited key differs from its value at the start. |
| ControllableStores.ControllableStore.ConfigureIfShaped | packages/utils/src/store/Store.ts:147-149 | The callback configures an entry only when it passes the shape test. It calls each listener once exactly when the state changes, and no listener otherwise. |
| ControllableStores.ControllableStore.ReportSwitches | packages/utils/src/store/Store.ts:153-175 | The second `forEach` issues exactly the switch diagnostics of the current tables. |
| ControllableStores.ControllableStore.Set | packages/utils/src/store/Store.ts:181-196 | A controlled key: one warning, with state and notifications unchanged. Any other key: exactly the base `set`. |
| ControllableStores.ControllableStore.Apply | packages/utils/src/store/Store.ts:201-223 | Controlled keys are dropped with one warning each. The base `apply` sees exactly the rest, and when none remain the state is unchanged. |
| ControllableStores.ControllableStore.FilterControlled | packages/utils/src/store/Store.ts:202-218 | The `forEach` builds exactly the uncontrolled part of `changes` and issues one warning per controlled key, in any visiting order. |
| ControllableStores.FilterStep | packages/utils/src/store/Store.ts:204-218 | Each visited key is either warned about (controlled) or forwarded with its value (otherwise), never both. |
| ControllableStores.ControllableStore.InvokeSetter | packages/utils/src/store/Store.ts:231-241 | A controlled key calls `onChange(value, details)` when present, with the state untouched. Any other key is written directly with the base `set`, past the controlled guard. |
| ControllableStores.CreateEnhancedControllableStore | packages/utils/src/store/Store.ts:282-301 | Returns a fresh store with the initial state and empty tables. Its installed setters are `SetterTable` of the listed keys, or none when no list is given. |
| StoreWithProps.DeriveConfig | packages/utils/src/store/useStoreWithProps.ts:117-127 | Controlled iff the prop is not `undefined`. A controlled config carries the prop as value and no default. An uncontrolled one carries the given default and no value. `onChange` and `name` are copied. The label is `state` when truthy, else the key. |
| StoreWithProps.DeriveConfigs | packages/utils/src/store/useStoreWithProps.ts:110-132 | Exactly the keys with a defined entry get a derived config. |
| StoreWithProps.AsEntries | packages/utils/src/store/useStoreWithProps.ts:137 | Every derived config passes the shape test of `updateControlledConfigs`, so all of them are configured. |
| StoreWithProps.RegularProps | packages/utils/src/store/useStoreWithProps.ts:140-147 | Exactly the props whose key is not listed and whose value is not `undefined`, with their values. |
| StoreWithProps.RegularWriteIsVisible | packages/utils/src/store/useStoreWithProps.ts:149-152 | When the regular props' `apply` changes the configured state, the final state also differs from the state before the effect, because regular keys are never configured. |
| StoreWithProps.PropsPartition | packages/utils/src/store/useStoreWithProps.ts:140-147 | No key is both configured and merged. A defined prop is merged exactly when its key is not listed. |
| StoreWithProps.DerivedLabel | packages/utils/src/store/useStoreWithProps.ts:126 | The switch report for a derived config uses `config.state \|\| key`. |
| StoreWithProps.ControlledPropsPerKey | packages/utils/src/store/useStoreWithProps.ts:135-153 | For each key after the effect: a listed key with a defined prop is controlled and holds the prop. A listed key without one is uncontrolled. It takes its default when it was never configured and has one, and otherwise keeps its value. An unlisted defined prop is merged with its mode unchanged. Every other key keeps its value and mode, including a key listed with an `undefined` entry, whatever its prop. |
| StoreWithProps.ModeSwitchAcrossRenders | packages/utils/src/store/useStoreWithProps.test.tsx:171-221 | Two renders over a fresh named key, one with the prop `undefined` and one with it defined, report the switch with its direction. |
| StoreWithProps.StoreWithPropsEffect | packages/utils/src/store/useStoreWithProps.ts:40-42 | After the effect every key reads as in `{ ...state, ...props }`. Listeners are called once each if anything changed, and not at all otherwise. |
| StoreWithProps.ControlledPropsEffect | packages/utils/src/store/useStoreWithProps.ts:135-153 | The tables become `ConfigureAll` of the derived configs, followed by the base `apply` of the regular props. The switch diagnostics are issued once each. When the state ends up as it was, no listener has been called. |

## Left out

- React machinery is not modelled: `useIsoLayoutEffect`, `React.useMemo`, dependency arrays, and render and commit timing. Each effect body is a method called with one props snapshot.
- Listeners and `onChange` callbacks are identifiers, not closures. A listener that subscribes, unsubscribes or writes to the store while it is being notified is not modelled. Neither is the way a JavaScript `Set.forEach` visits listeners added during the iteration.
- The `Object.is` corner cases (`NaN`, `+0`/`-0`) are not modelled: value equality is `==`.
- Stores.Store.Update: compares states by value. The source compares object identity, so a structurally equal but freshly built object notifies the listeners in JavaScript and not in the model.
- The text of the `console.error`/`console.warn` messages is not modelled, and neither is their `process.env.NODE_ENV` gating. Diagnostics are recorded as key, direction, property and component; the model behaves as a development build.
- ControllableStores.SetterName, ControllableStores.SetterNameEqualIff, ControllableStores.SetterNameShape: capitalise ASCII `a`–`z` only. `toUpperCase` on other scripts, and on characters that upper-case to two characters, is not modelled.
- The order in which `Object.entries`, `for...in`, `Map.forEach` and `Set.forEach` visit keys is not modelled. Logs are specified as multisets of their new suffix, and every result on the state is proved order independent.
- ControllableStores.ControllableStore.UpdateControlledConfigs: states only that earlier listener calls are kept, and that no listener is called when the state ends up unchanged. It does not state which listener calls the individual `configureControlled` steps add.
- ControllableStores.ControllableStore.ConfigureEach: the same gap. It states that earlier listener calls are kept and that none are added when the state ends up unchanged, but not the calls of each step.
- StoreWithProps.ControlledPropsEffect: the same gap. It also does not state that the regular props' `apply` adds at most one notification pass after the configuration steps.
- ControllableStores.CreateEnhancedControllableStore: keeps the installed setters in a table separate from the store's methods. In JavaScript the setter of the empty key is assigned to the property `set` and shadows the guarded `ControllableStore.set`. After that, `store.set(k, v)` calls the setter of `""` with `k` as its value, bypassing the controlled guard. The model does not capture this shadowing; `SetterNamedSet` states when it happens.
- StoreWithProps.StoreWithPropsEffect: is modelled for a plain `Store`. When the argument is a `ControllableStore`, JavaScript dispatches to the overriding `apply`, which is modelled separately as `ControllableStore.Apply`; the model does not dispatch dynamically.
- Calling a setter name that `createEnhancedControllableStore` did not install is left out: it is a TypeScript-level type error and a JavaScript `TypeError`. The model keeps the `setters` table; a setter is invoked through `InvokeSetter`.
- The TypeScript-only type utilities (`SetterMethodName`, `SetterMethods`, `EnhancedControllableStore`) are not modelled, apart from the capitalisation rule they describe.
