/**
 * `ControllableStore<State>`: a `Store` whose keys can each be declared
 * controlled (owned by the application, which supplies the value and is told
 * of change requests through `onChange`) or uncontrolled (owned by the store,
 * seeded once from a default). The JavaScript class extends `Store`; here the
 * base store is a component `base`, and every `super.x(...)` of the source is
 * `base.X(...)`.
 */
module ControllableStores {
  import opened JsValues
  import opened Logs
  import opened Stores

  /** An `onChange` callback, identified by reference. */
  type CallbackId = nat

  /** The optional `details` argument a setter forwards to `onChange`. */
  type DetailsToken = nat

  /** `ControlledPropertyConfig`: the configuration of one key. */
  datatype Config<T> = Config(
    controlled: bool,
    value: Js<T>,
    defaultValue: Js<T>,
    onChange: Js<CallbackId>,
    name: Js<string>,   // component name, for diagnostics
    state: Js<string>)  // property name, for diagnostics

  /**
   * One entry handed to `updateControlledConfigs`: either an object with a
   * boolean `controlled` field, or anything else (skipped without a word).
   */
  datatype ConfigEntry<T> = Shaped(config: Config<T>) | Unshaped

  /** What the store writes to the console in development builds. */
  datatype Diagnostic =
    | ModeSwitch(key: Key, wasControlled: bool, property: string, component: string)  // console.error
    | ControlledWrite(key: Key)                                                     // console.warn

  /** A call `onChange(value, details)` made by a generated setter. */
  datatype OnChangeCall<T> = OnChangeCall(callback: CallbackId, value: Js<T>, details: Js<DetailsToken>)

  /** The function `createSetter(key)` returns; it captures the key and nothing else. */
  datatype Setter = Setter(key: Key)

  /** The state and the two per-key side tables of a controllable store. */
  datatype Tables<T> = Tables(state: State<T>, configs: map<Key, Config<T>>, initial: map<Key, bool>)

  /** Every configured key has a recorded first status, and vice versa. */
  predicate WellFormed<T>(t: Tables<T>) {
    t.configs.Keys == t.initial.Keys
  }

  /** `controlledConfigs.get(key)?.controlled ?? false` */
  predicate ControlledIn<T>(configs: map<Key, Config<T>>, k: Key) {
    k in configs && configs[k].controlled
  }

  /**
   * The value `configureControlled(k, cfg)` writes into the state, or
   * `Undefined` when it writes nothing: a controlled value always, a default
   * only when the key was not configured before.
   */
  function Written<T>(t: Tables<T>, k: Key, cfg: Config<T>): Js<T> {
    if cfg.controlled then cfg.value
    else if k !in t.configs then cfg.defaultValue
    else Undefined
  }

  /** The tables after `configureControlled(k, cfg)`. */
  function Configure<T(==)>(t: Tables<T>, k: Key, cfg: Config<T>): (r: Tables<T>)
    ensures WellFormed(t) ==> WellFormed(r)
  {
    var w := Written(t, k, cfg);
    Tables(
      if w != Undefined then SetResult(t.state, k, w) else t.state,
      t.configs[k := cfg],
      if k in t.initial then t.initial else t.initial[k := cfg.controlled])
  }

  /**
   * The tables after configuring every key of `m` (in any order): each key
   * of `m` is configured against the tables as they were before the batch.
   */
  function ConfigureAll<T(==)>(t: Tables<T>, m: map<Key, Config<T>>): (r: Tables<T>)
    ensures WellFormed(t) ==> WellFormed(r)
  {
    Tables(
      t.state + WriteMap(t, m),
      t.configs + m,
      t.initial + FirstStatuses(t.initial, m))
  }

  /** The values a batch writes into the state, key by key. */
  function WriteMap<T>(t: Tables<T>, m: map<Key, Config<T>>): map<Key, Js<T>> {
    map k | k in m && Written(t, k, m[k]) != Undefined :: Written(t, k, m[k])
  }

  /** The first statuses a batch records: those of the keys never configured before. */
  function FirstStatuses<T>(initial: map<Key, bool>, m: map<Key, Config<T>>): map<Key, bool> {
    map k | k in m && k !in initial :: m[k].controlled
  }

  /** The well-shaped entries of a batch, restricted to the keys in `done`. */
  function ShapedEntries<T>(configs: map<Key, ConfigEntry<T>>, done: set<Key>): (r: map<Key, Config<T>>)
    ensures forall k :: k in r <==> k in configs && k in done && configs[k].Shaped?
  {
    map k | k in configs && k in done && configs[k].Shaped? :: configs[k].config
  }

  /** The key is configured with a truthy `name` and its current mode differs from its first one. */
  predicate Switched<T>(t: Tables<T>, k: Key) {
    k in t.configs && k in t.initial && t.initial[k] != t.configs[k].controlled && Truthy(t.configs[k].name)
  }

  /** The `console.error` emitted for a switched key, naming the direction against the first mode. */
  function SwitchDiagnostic<T>(t: Tables<T>, k: Key): Diagnostic
    requires Switched(t, k)
  {
    ModeSwitch(k, t.initial[k], OrElse(t.configs[k].state, k), t.configs[k].name.value)
  }

  /** The diagnostics the check after a batch emits: one per switched key. */
  ghost function SwitchDiagnostics<T>(t: Tables<T>): set<Diagnostic> {
    SwitchDiagnosticsAmong(t, t.configs.Keys)
  }

  /** The diagnostics for the switched keys among `keys`. */
  ghost function SwitchDiagnosticsAmong<T>(t: Tables<T>, keys: set<Key>): set<Diagnostic> {
    set k | k in keys && Switched(t, k) :: SwitchDiagnostic(t, k)
  }

  /** The warnings `apply(changes)` emits: one per controlled key of `changes`. */
  ghost function RejectedWrites<T>(configs: map<Key, Config<T>>, changes: State<T>): set<Diagnostic> {
    set k | k in changes && ControlledIn(configs, k) :: ControlledWrite(k)
  }

  /** The part of `changes` that the overriding `apply` forwards to the base `apply`. */
  function Uncontrolled<T>(configs: map<Key, Config<T>>, changes: State<T>): (r: State<T>)
    ensures forall k :: k in r <==> k in changes && !ControlledIn(configs, k)
    ensures forall k :: k in r ==> r[k] == changes[k]
  {
    map k | k in changes && !ControlledIn(configs, k) :: changes[k]
  }

  /** `"set" + key.charAt(0).toUpperCase() + key.slice(1)`, for ASCII letters. */
  function SetterName(key: Key): string {
    if |key| == 0 then "set" else "set" + [Upper(key[0])] + key[1..]
  }

  /** `toUpperCase` on one character: `a`..`z` become `A`..`Z`. */
  function Upper(c: char): char {
    if 'a' <= c <= 'z' then (c as int - 32) as char else c
  }

  /** The setters installed by `createEnhancedControllableStore`, a later key winning a shared name. */
  function SetterTable(keys: seq<Key>): map<string, Setter>
    decreases |keys|
  {
    if keys == [] then map[]
    else SetterTable(keys[..|keys| - 1])[SetterName(keys[|keys| - 1]) := Setter(keys[|keys| - 1])]
  }

  // ---------------------------------------------------------------------------
  // Properties of one configuration step

  /**
   * `configureControlled(k, cfg)`: the config is stored, the first status is
   * written only once, a controlled value wins, a default is written only on
   * the first configuration, and no other key changes.
   */
  lemma ConfigureSpec<T>(t: Tables<T>, k: Key, cfg: Config<T>, other: Key)
    ensures var r := Configure(t, k, cfg);
      && r.configs[k] == cfg
      && k in r.initial
      && (k in t.initial ==> r.initial[k] == t.initial[k])
      && (k !in t.initial ==> r.initial[k] == cfg.controlled)
      && (cfg.controlled && cfg.value != Undefined ==> Read(r.state, k) == cfg.value)
      && (cfg.controlled && cfg.value == Undefined ==> r.state == t.state)
      && (!cfg.controlled && k !in t.configs && cfg.defaultValue != Undefined ==> Read(r.state, k) == cfg.defaultValue)
      && (!cfg.controlled && (k in t.configs || cfg.defaultValue == Undefined) ==> r.state == t.state)
      && (other != k ==>
            && Read(r.state, other) == Read(t.state, other)
            && (other in r.configs <==> other in t.configs)
            && (other in t.configs ==> r.configs[other] == t.configs[other])
            && (other in r.initial <==> other in t.initial)
            && (other in t.initial ==> r.initial[other] == t.initial[other]))
  {
    var w := Written(t, k, cfg);
    if w != Undefined {
      SetWritesOneKey(t.state, k, w, other);
    }
  }

  /** Once recorded, the first status of a key survives any later configuration. */
  lemma FirstStatusIsPermanent<T>(t: Tables<T>, k: Key, cfg: Config<T>, key: Key)
    requires key in t.initial
    ensures key in Configure(t, k, cfg).initial
    ensures Configure(t, k, cfg).initial[key] == t.initial[key]
  {
  }

  /**
   * An uncontrolled default is applied once: configure a fresh key as
   * uncontrolled, write it internally, configure it again as uncontrolled:
   * the internal value stays.
   */
  lemma DefaultNotReapplied<T>(t: Tables<T>, k: Key, first: Config<T>, y: Js<T>, again: Config<T>)
    requires k !in t.configs
    requires !first.controlled && !again.controlled
    ensures var t1 := Configure(t, k, first);
      var t2 := t1.(state := SetResult(t1.state, k, y));
      Read(Configure(t2, k, again).state, k) == y
  {
    var t1 := Configure(t, k, first);
    var t2 := t1.(state := SetResult(t1.state, k, y));
    assert k in t2.configs;
    assert Written(t2, k, again) == Undefined;
    SetWritesOneKey(t1.state, k, y, k);
  }

  /** Configuring one key never alters the status or the value of another (a shared store). */
  lemma ConfigureIsolated<T>(t: Tables<T>, a: Key, cfg: Config<T>, b: Key)
    requires a != b
    ensures ControlledIn(Configure(t, a, cfg).configs, b) == ControlledIn(t.configs, b)
    ensures Read(Configure(t, a, cfg).state, b) == Read(t.state, b)
  {
    ConfigureSpec(t, a, cfg, b);
  }

  /** An empty batch changes nothing. */
  lemma ConfigureNothing<T>(t: Tables<T>)
    ensures ConfigureAll(t, map[]) == t
  {
    var none: map<Key, Config<T>> := map[];
    assert WriteMap(t, none) == map[];
    assert FirstStatuses(t.initial, none) == map[];
  }

  /** Taking one more entry of a batch adds its config when it is well shaped. */
  lemma ShapedEntriesStep<T>(configs: map<Key, ConfigEntry<T>>, done: set<Key>, k: Key)
    requires k in configs && k !in done
    ensures k !in ShapedEntries(configs, done)
    ensures configs[k].Shaped? ==> ShapedEntries(configs, done + {k}) == ShapedEntries(configs, done)[k := configs[k].config]
    ensures configs[k].Unshaped? ==> ShapedEntries(configs, done + {k}) == ShapedEntries(configs, done)
  {
  }

  /** Adding one key to a batch adds at most that key's write. */
  lemma WriteMapStep<T>(t: Tables<T>, m: map<Key, Config<T>>, k: Key, cfg: Config<T>)
    requires k !in m
    ensures Written(t, k, cfg) != Undefined ==> WriteMap(t, m[k := cfg]) == WriteMap(t, m)[k := Written(t, k, cfg)]
    ensures Written(t, k, cfg) == Undefined ==> WriteMap(t, m[k := cfg]) == WriteMap(t, m)
  {
  }

  /** Configuring the keys of a batch one at a time, in any order, gives `ConfigureAll`. */
  lemma ConfigureAllStep<T>(t: Tables<T>, m: map<Key, Config<T>>, k: Key, cfg: Config<T>)
    requires k !in m
    ensures Configure(ConfigureAll(t, m), k, cfg) == ConfigureAll(t, m[k := cfg])
  {
    var lhs := Configure(ConfigureAll(t, m), k, cfg);
    var rhs := ConfigureAll(t, m[k := cfg]);
    StepStateAll(t, m, k, cfg);
    StepInitialAll(t, m, k, cfg);
    MergeThenWrite(t.configs, m, k, cfg);
    assert lhs.state == rhs.state && lhs.configs == rhs.configs && lhs.initial == rhs.initial;
  }

  /** Writing a key after a merge is merging the patch with that key written. */
  lemma MergeThenWrite<V>(a: map<Key, V>, b: map<Key, V>, k: Key, v: V)
    ensures (a + b)[k := v] == a + b[k := v]
  {
  }

  /** The state part of `ConfigureAllStep`. */
  lemma StepStateAll<T>(t: Tables<T>, m: map<Key, Config<T>>, k: Key, cfg: Config<T>)
    requires k !in m
    ensures Configure(ConfigureAll(t, m), k, cfg).state == ConfigureAll(t, m[k := cfg]).state
  {
    var mid := ConfigureAll(t, m);
    var w := Written(t, k, cfg);
    assert Written(mid, k, cfg) == w;
    WriteMapStep(t, m, k, cfg);
    StepState(t.state, WriteMap(t, m), k, w);
  }

  /** The first-status part of `ConfigureAllStep`. */
  lemma StepInitialAll<T>(t: Tables<T>, m: map<Key, Config<T>>, k: Key, cfg: Config<T>)
    requires k !in m
    ensures Configure(ConfigureAll(t, m), k, cfg).initial == ConfigureAll(t, m[k := cfg]).initial
  {
    StepInitial(t.initial, m, k, cfg);
  }

  /** Recording a first status after a batch is recording it within the batch. */
  lemma StepInitial<T>(initial: map<Key, bool>, m: map<Key, Config<T>>, k: Key, cfg: Config<T>)
    requires k !in m
    ensures var mid := initial + FirstStatuses(initial, m);
      (if k in mid then mid else mid[k := cfg.controlled]) == initial + FirstStatuses(initial, m[k := cfg])
  {
    FirstStatusesStep(initial, m, k, cfg);
    if k !in initial {
      assert (initial + FirstStatuses(initial, m))[k := cfg.controlled]
          == initial + FirstStatuses(initial, m)[k := cfg.controlled];
    }
  }

  /** A batch records the first status of a key only when the key has none yet. */
  lemma FirstStatusesStep<T>(initial: map<Key, bool>, m: map<Key, Config<T>>, k: Key, cfg: Config<T>)
    requires k !in m
    ensures k in initial ==> FirstStatuses(initial, m[k := cfg]) == FirstStatuses(initial, m)
    ensures k !in initial ==> FirstStatuses(initial, m[k := cfg]) == FirstStatuses(initial, m)[k := cfg.controlled]
  {
  }

  /** Writing a defined value after a merge is merging the extended patch. */
  lemma StepState<T>(s: State<T>, writes: map<Key, Js<T>>, k: Key, w: Js<T>)
    ensures w != Undefined ==> SetResult(s + writes, k, w) == s + writes[k := w]
  {
    if w != Undefined {
      MergeThenWrite(s, writes, k, w);
    }
  }

  /** The batch leaves alone every key it does not configure. */
  lemma ConfigureAllIsolated<T>(t: Tables<T>, m: map<Key, Config<T>>, other: Key)
    requires other !in m
    ensures Read(ConfigureAll(t, m).state, other) == Read(t.state, other)
    ensures ControlledIn(ConfigureAll(t, m).configs, other) == ControlledIn(t.configs, other)
  {
  }

  /** After a batch, every configured controlled key with a value reads that value. */
  lemma ConfigureAllControlledWins<T>(t: Tables<T>, m: map<Key, Config<T>>, k: Key)
    requires k in m && m[k].controlled && m[k].value != Undefined
    ensures Read(ConfigureAll(t, m).state, k) == m[k].value
    ensures ControlledIn(ConfigureAll(t, m).configs, k)
  {
    assert Written(t, k, m[k]) == m[k].value;
  }

  /** Some key of `keys` reads differently in `now` than in `start`. */
  predicate ChangedAmong<T(==)>(start: State<T>, now: State<T>, keys: set<Key>) {
    exists k :: k in keys && Read(now, k) != Read(start, k)
  }

  /**
   * A step that writes only `key`, which still read as at the start, keeps a
   * changed key changed and, if it changes anything, adds `key` as one.
   */
  lemma ChangedAmongStep<T>(start: State<T>, before: State<T>, after: State<T>, keys: set<Key>, key: Key)
    requires Read(before, key) == Read(start, key)
    requires forall k :: k != key ==> Read(after, k) == Read(before, k)
    requires after != before ==> Read(after, key) != Read(before, key)
    ensures ChangedAmong(start, before, keys) ==> ChangedAmong(start, after, keys + {key})
    ensures after != before ==> ChangedAmong(start, after, keys + {key})
  {
    if ChangedAmong(start, before, keys) {
      var k :| k in keys && Read(before, k) != Read(start, k);
      if k != key {
        assert Read(after, k) != Read(start, k);
      }
    }
  }

  /**
   * One turn of the configuration `forEach` on the tables: the batch grows by
   * `key`, a key that already differed from the start still differs, and if
   * the turn changed the state, `key` now differs.
   */
  lemma ConfigureNextStep<T>(configs: map<Key, ConfigEntry<T>>, t0: Tables<T>, done: set<Key>, key: Key,
                             before: Tables<T>, after: Tables<T>)
    requires key in configs && key !in done
    requires before == ConfigureAll(t0, ShapedEntries(configs, done))
    requires after == if configs[key].Shaped? then Configure(before, key, configs[key].config) else before
    ensures after == ConfigureAll(t0, ShapedEntries(configs, done + {key}))
    ensures ChangedAmong(t0.state, before.state, done) ==> ChangedAmong(t0.state, after.state, done + {key})
    ensures after.state != before.state ==> ChangedAmong(t0.state, after.state, done + {key})
  {
    var entries := ShapedEntries(configs, done);
    ShapedEntriesStep(configs, done, key);
    ConfigureAllIsolated(t0, entries, key);
    if configs[key].Shaped? {
      ConfigureAllStep(t0, entries, key, configs[key].config);
      ConfigureWritesOnlyKey(before, key, configs[key].config);
    }
    ChangedAmongStep(t0.state, before.state, after.state, done, key);
  }

  /** A configuration step changes the state only by giving its own key a new value. */
  lemma ConfigureWritesOnlyKey<T>(t: Tables<T>, k: Key, cfg: Config<T>)
    ensures forall other :: other != k ==> Read(Configure(t, k, cfg).state, other) == Read(t.state, other)
    ensures Configure(t, k, cfg).state != t.state ==> Read(Configure(t, k, cfg).state, k) != Read(t.state, k)
  {
  }

  // ---------------------------------------------------------------------------
  // Properties of the mode-switch check

  /** A diagnostic names a key exactly when that key switched, with its first mode as the origin. */
  lemma SwitchDiagnosticsIff<T>(t: Tables<T>, k: Key, wasControlled: bool, property: string, component: string)
    ensures ModeSwitch(k, wasControlled, property, component) in SwitchDiagnostics(t) <==>
              && Switched(t, k)
              && wasControlled == t.initial[k]
              && property == OrElse(t.configs[k].state, k)
              && component == t.configs[k].name.value
  {
    if Switched(t, k) && wasControlled == t.initial[k] && property == OrElse(t.configs[k].state, k)
       && component == t.configs[k].name.value {
      assert SwitchDiagnostic(t, k) == ModeSwitch(k, wasControlled, property, component);
    }
  }

  /**
   * A key first configured in one mode and later in the other, with a
   * component name, is reported with the direction of the switch; configured
   * again in its first mode, it is no longer reported, whatever it was in between.
   */
  lemma SwitchMeasuredAgainstFirstMode<T>(t: Tables<T>, k: Key, first: Config<T>, second: Config<T>, third: Config<T>)
    requires WellFormed(t) && k !in t.configs
    requires second.controlled != first.controlled && Truthy(second.name)
    requires third.controlled == first.controlled
    ensures var t2 := ConfigureAll(ConfigureAll(t, map[k := first]), map[k := second]);
      ModeSwitch(k, first.controlled, OrElse(second.state, k), second.name.value) in SwitchDiagnostics(t2)
    ensures var t3 := ConfigureAll(ConfigureAll(ConfigureAll(t, map[k := first]), map[k := second]), map[k := third]);
      !Switched(t3, k)
  {
    var t1 := ConfigureAll(t, map[k := first]);
    var t2 := ConfigureAll(t1, map[k := second]);
    var t3 := ConfigureAll(t2, map[k := third]);
    ConfigureOne(t, k, first);
    ConfigureOne(t1, k, second);
    ConfigureOne(t2, k, third);
    SwitchDiagnosticsIff(t2, k, first.controlled, OrElse(second.state, k), second.name.value);
  }

  /** A batch of one key stores its config and records its first status only if absent. */
  lemma ConfigureOne<T>(t: Tables<T>, k: Key, cfg: Config<T>)
    requires WellFormed(t)
    ensures var r := ConfigureAll(t, map[k := cfg]);
      && WellFormed(r) && k in r.configs && r.configs[k] == cfg
      && r.initial[k] == if k in t.initial then t.initial[k] else cfg.controlled
  {
  }

  /** The check emits nothing for a key whose `name` is absent or empty, while the new mode is still in force. */
  lemma NoDiagnosticWithoutName<T>(t: Tables<T>, k: Key, cfg: Config<T>)
    requires !Truthy(cfg.name)
    ensures var r := ConfigureAll(t, map[k := cfg]);
      !Switched(r, k) && ControlledIn(r.configs, k) == cfg.controlled
  {
  }

  /** Visiting one more key of `changes` either warns about it or forwards it, never both. */
  lemma FilterStep<T>(configs: map<Key, Config<T>>, changes: State<T>, pending: set<Key>, key: Key)
    requires key in pending && pending <= changes.Keys
    ensures ControlledIn(configs, key) ==>
              && Uncontrolled(configs, changes - (pending - {key})) == Uncontrolled(configs, changes - pending)
              && ControlledWrite(key) !in RejectedWrites(configs, changes - pending)
              && RejectedWrites(configs, changes - (pending - {key}))
                 == RejectedWrites(configs, changes - pending) + {ControlledWrite(key)}
    ensures !ControlledIn(configs, key) ==>
              && Uncontrolled(configs, changes - (pending - {key}))
                 == Uncontrolled(configs, changes - pending)[key := changes[key]]
              && RejectedWrites(configs, changes - (pending - {key})) == RejectedWrites(configs, changes - pending)
  {
    assert changes - (pending - {key}) == (changes - pending)[key := changes[key]];
  }

  // ---------------------------------------------------------------------------
  // Properties of setter names

  /** Two keys get the same setter name exactly when they agree after their first letter is capitalised. */
  lemma SetterNameEqualIff(a: Key, b: Key)
    ensures SetterName(a) == SetterName(b) <==>
              a == b || (|a| > 0 && |b| > 0 && Upper(a[0]) == Upper(b[0]) && a[1..] == b[1..])
  {
    if SetterName(a) == SetterName(b) && a != b {
      assert |a| == |SetterName(a)| - 3 == |b|;
      if |a| > 0 {
        assert SetterName(a)[3] == Upper(a[0]);
        assert SetterName(b)[3] == Upper(b[0]);
        assert SetterName(a)[4..] == a[1..];
        assert SetterName(b)[4..] == b[1..];
      }
    }
  }

  /** The name starts with `set`, keeps the key's length and all but its first character. */
  lemma SetterNameShape(key: Key)
    ensures |SetterName(key)| == |key| + 3 && SetterName(key)[..3] == "set"
    ensures |key| > 0 ==> SetterName(key)[3] == Upper(key[0]) && SetterName(key)[4..] == key[1..]
    ensures |key| > 0 && 'a' <= key[0] <= 'z' ==> 'A' <= SetterName(key)[3] <= 'Z'
  {
  }

  /** `open` and `Open` compete for the setter name `setOpen`. */
  lemma SetterNamesCanCollide()
    ensures SetterName("open") == SetterName("Open") == "setOpen"
  {
    assert Upper('o') == 'O';
  }

  /** The installed setter names are exactly the setter names of the listed keys. */
  lemma {:induction false} SetterTableNames(keys: seq<Key>)
    ensures SetterTable(keys).Keys == set k | k in keys :: SetterName(k)
    decreases |keys|
  {
    if keys != [] {
      var init := keys[..|keys| - 1];
      SetterTableNames(init);
      assert keys == init + [keys[|keys| - 1]];
      assert (set k | k in keys :: SetterName(k)) == (set k | k in init :: SetterName(k)) + {SetterName(keys[|keys| - 1])};
    }
  }

  /** Every installed setter sits under its own key's setter name. */
  lemma {:induction false} SetterTableConsistent(keys: seq<Key>, name: string)
    requires name in SetterTable(keys)
    ensures SetterName(SetterTable(keys)[name].key) == name
    ensures SetterTable(keys)[name].key in keys
    decreases |keys|
  {
    var init := keys[..|keys| - 1];
    var k := keys[|keys| - 1];
    if name != SetterName(k) {
      SetterTableConsistent(init, name);
      assert keys == init + [k];
    }
  }

  /**
   * A generated setter is installed under the name `set`, where it would
   * shadow the store's own guarded `set`, exactly when the empty key is
   * listed, and it is then the setter of the empty key.
   */
  lemma SetterNamedSet(keys: seq<Key>)
    ensures "set" in SetterTable(keys) <==> "" in keys
    ensures "set" in SetterTable(keys) ==> SetterTable(keys)["set"] == Setter("")
  {
    SetterTableNames(keys);
    assert SetterName("") == "set";
    forall k | k in keys && SetterName(k) == "set" ensures k == "" {
      SetterNameShape(k);
    }
    if "set" in SetterTable(keys) {
      SetterTableConsistent(keys, "set");
      SetterNameShape(SetterTable(keys)["set"].key);
    }
  }

  /** The setter under a key's name is that key's, unless a later key has the same name. */
  lemma {:induction false} SetterTableLookup(keys: seq<Key>, i: nat)
    requires i < |keys|
    requires forall j :: i < j < |keys| ==> SetterName(keys[j]) != SetterName(keys[i])
    ensures SetterName(keys[i]) in SetterTable(keys)
    ensures SetterTable(keys)[SetterName(keys[i])] == Setter(keys[i])
    decreases |keys|
  {
    if i < |keys| - 1 {
      var init := keys[..|keys| - 1];
      assert init[i] == keys[i];
      forall j | i < j < |init| ensures SetterName(init[j]) != SetterName(init[i]) {
        assert init[j] == keys[j];
      }
      SetterTableLookup(init, i);
    }
  }

  /** When no two listed keys share a setter name, each key's setter is its own. */
  lemma SetterTableDistinctNames(keys: seq<Key>, k: Key)
    requires forall i, j :: 0 <= i < j < |keys| ==> SetterName(keys[i]) != SetterName(keys[j])
    requires k in keys
    ensures SetterName(k) in SetterTable(keys)
    ensures SetterTable(keys)[SetterName(k)] == Setter(k)
  {
    var i :| 0 <= i < |keys| && keys[i] == k;
    SetterTableLookup(keys, i);
  }

  // ---------------------------------------------------------------------------

  /** `createSetter(key)` */
  function CreateSetter(key: Key): (setter: Setter)
    ensures setter.key == key
  {
    Setter(key)
  }

  class ControllableStore<T(==)> {
    const base: Store<T>
    var controlledConfigs: map<Key, Config<T>>
    /** The `controlled` flag a key had when it was first configured. */
    var initialControlledStatus: map<Key, bool>
    /** The setter functions installed as properties by `createEnhancedControllableStore`. */
    var setters: map<string, Setter>
    /** Every `console.error` / `console.warn` issued so far, in order. */
    ghost var diagnostics: seq<Diagnostic>

    ghost predicate Valid()
      reads this
    {
      controlledConfigs.Keys == initialControlledStatus.Keys
    }

    /** The state and the side tables. */
    ghost function Current(): Tables<T>
      reads this, base
    {
      Tables(base.state, controlledConfigs, initialControlledStatus)
    }

    constructor (initial: State<T>)
      ensures Valid() && fresh(base)
      ensures base.state == initial && base.listeners == {} && base.notifications == []
      ensures controlledConfigs == map[] && initialControlledStatus == map[]
      ensures setters == map[] && diagnostics == []
    {
      base := new Store(initial);
      controlledConfigs := map[];
      initialControlledStatus := map[];
      setters := map[];
      diagnostics := [];
    }

    /** `isControlled(key)`: an unconfigured key counts as uncontrolled. */
    function IsControlled(key: Key): (r: bool)
      reads this
      ensures r ==> key in controlledConfigs
      ensures key in controlledConfigs ==> r == controlledConfigs[key].controlled
    {
      ControlledIn(controlledConfigs, key)
    }

    /** `getConfig(key)` */
    function GetConfig(key: Key): (r: Js<Config<T>>)
      reads this
      ensures r.Defined? <==> key in controlledConfigs
      ensures r.Defined? ==> r.value == controlledConfigs[key]
    {
      if key in controlledConfigs then Defined(controlledConfigs[key]) else Undefined
    }

    /** `configureControlled(key, config)` */
    method ConfigureControlled(key: Key, config: Config<T>)
      requires Valid()
      modifies this`controlledConfigs, this`initialControlledStatus, base`state, base`notifications
      ensures Valid()
      ensures Current() == Configure(old(Current()), key, config)
      ensures base.state == old(base.state) ==> base.notifications == old(base.notifications)
      ensures base.state != old(base.state) ==>
                AppendsEachOnce(old(base.notifications), base.notifications, Deliveries(base.listeners, base.state))
    {
      var wasAlreadyConfigured := key in controlledConfigs;
      if key !in initialControlledStatus {
        initialControlledStatus := initialControlledStatus[key := config.controlled];
      }
      controlledConfigs := controlledConfigs[key := config];
      if config.controlled && config.value != Undefined {
        base.Set(key, config.value);
      } else if !config.controlled && config.defaultValue != Undefined && !wasAlreadyConfigured {
        base.Set(key, config.defaultValue);
      }
    }

    /**
     * `updateControlledConfigs(configs)`: configures every well-shaped entry,
     * then reports every configured key whose mode differs from its first one.
     */
    method UpdateControlledConfigs(configs: map<Key, ConfigEntry<T>>)
      requires Valid()
      modifies this`controlledConfigs, this`initialControlledStatus, this`diagnostics
      modifies base`state, base`notifications
      ensures Valid()
      ensures Current() == ConfigureAll(old(Current()), ShapedEntries(configs, configs.Keys))
      ensures AppendsEachOnce(old(diagnostics), diagnostics, SwitchDiagnostics(Current()))
      ensures old(base.notifications) <= base.notifications
      ensures base.state == old(base.state) ==> base.notifications == old(base.notifications)
    {
      ConfigureEach(configs);
      ReportSwitches();
    }

    /**
     * The first `forEach` of `updateControlledConfigs`: the duck-typed filter
     * and the configuration. Each key is written at most once, so listeners
     * are called only if the state ends up different.
     */
    method ConfigureEach(configs: map<Key, ConfigEntry<T>>)
      requires Valid()
      modifies this`controlledConfigs, this`initialControlledStatus, base`state, base`notifications
      ensures Valid()
      ensures Current() == ConfigureAll(old(Current()), ShapedEntries(configs, configs.Keys))
      ensures old(base.notifications) <= base.notifications
      ensures base.state == old(base.state) ==> base.notifications == old(base.notifications)
    {
      ghost var t0 := Current();
      var pending := configs.Keys;
      ConfigureNothing(t0);
      assert configs.Keys - pending == {};
      assert ShapedEntries(configs, {}) == map[];
      while pending != {}
        invariant Valid()
        invariant pending <= configs.Keys
        invariant Current() == ConfigureAll(t0, ShapedEntries(configs, configs.Keys - pending))
        invariant old(base.notifications) <= base.notifications
        invariant base.notifications != old(base.notifications) ==> ChangedAmong(t0.state, base.state, configs.Keys - pending)
        decreases pending
      {
        var key :| key in pending;
        ConfigureNext(configs, t0, configs.Keys - pending, old(base.notifications), key);
        assert configs.Keys - (pending - {key}) == (configs.Keys - pending) + {key};
        pending := pending - {key};
      }
      assert configs.Keys - pending == configs.Keys;
    }

    /**
     * One turn of that `forEach`, after the keys `done`: the batch grows by
     * `key`, and once the listeners have been called some visited key reads
     * differently than at the start.
     */
    method ConfigureNext(configs: map<Key, ConfigEntry<T>>, ghost t0: Tables<T>, ghost done: set<Key>,
                         ghost log0: seq<Notification<T>>, key: Key)
      requires Valid() && key in configs && key !in done
      requires Current() == ConfigureAll(t0, ShapedEntries(configs, done))
      requires log0 <= base.notifications
      requires base.notifications != log0 ==> ChangedAmong(t0.state, base.state, done)
      modifies this`controlledConfigs, this`initialControlledStatus, base`state, base`notifications
      ensures Valid()
      ensures Current() == ConfigureAll(t0, ShapedEntries(configs, done + {key}))
      ensures log0 <= base.notifications
      ensures base.notifications != log0 ==> ChangedAmong(t0.state, base.state, done + {key})
    {
      ghost var before := Current();
      ConfigureIfShaped(key, configs[key]);
      ConfigureNextStep(configs, t0, done, key, before, Current());
    }

    /** The callback of that `forEach`: configures one entry if it passes the shape test. */
    method ConfigureIfShaped(key: Key, entry: ConfigEntry<T>)
      requires Valid()
      modifies this`controlledConfigs, this`initialControlledStatus, base`state, base`notifications
      ensures Valid()
      ensures Current() == if entry.Shaped? then Configure(old(Current()), key, entry.config) else old(Current())
      ensures base.state == old(base.state) ==> base.notifications == old(base.notifications)
      ensures base.state != old(base.state) ==>
                AppendsEachOnce(old(base.notifications), base.notifications, Deliveries(base.listeners, base.state))
    {
      if entry.Shaped? {
        ConfigureControlled(key, entry.config);
      }
    }

    /** The second `forEach` of `updateControlledConfigs`: one `console.error` per switched key. */
    method ReportSwitches()
      requires Valid()
      modifies this`diagnostics
      ensures AppendsEachOnce(old(diagnostics), diagnostics, SwitchDiagnostics(Current()))
    {
      var unchecked := controlledConfigs.Keys;
      AppendsNothing(diagnostics);
      while unchecked != {}
        invariant unchecked <= controlledConfigs.Keys
        invariant AppendsEachOnce(old(diagnostics), diagnostics,
                                  SwitchDiagnosticsAmong(Current(), controlledConfigs.Keys - unchecked))
        decreases unchecked
      {
        var key :| key in unchecked;
        var config := controlledConfigs[key];
        var wasControlled := initialControlledStatus[key];
        ghost var before := controlledConfigs.Keys - unchecked;
        ghost var after := controlledConfigs.Keys - (unchecked - {key});
        assert after == before + {key};
        if wasControlled != config.controlled && Truthy(config.name) {
          var d := ModeSwitch(key, wasControlled, OrElse(config.state, key), config.name.value);
          assert d == SwitchDiagnostic(Current(), key);
          assert SwitchDiagnosticsAmong(Current(), after) == SwitchDiagnosticsAmong(Current(), before) + {d};
          assert d !in SwitchDiagnosticsAmong(Current(), before);
          AppendsEachOnceStep(old(diagnostics), diagnostics, SwitchDiagnosticsAmong(Current(), before), d);
          diagnostics := diagnostics + [d];
        } else {
          assert SwitchDiagnosticsAmong(Current(), after) == SwitchDiagnosticsAmong(Current(), before);
        }
        unchecked := unchecked - {key};
      }
      assert controlledConfigs.Keys - {} == controlledConfigs.Keys;
    }

    /** The overriding `set(key, value)`: refuses a controlled key. */
    method Set(key: Key, value: Js<T>)
      modifies this`diagnostics, base`state, base`notifications
      ensures IsControlled(key) ==>
                && base.state == old(base.state)
                && base.notifications == old(base.notifications)
                && diagnostics == old(diagnostics) + [ControlledWrite(key)]
      ensures !IsControlled(key) ==>
                && base.state == SetResult(old(base.state), key, value)
                && diagnostics == old(diagnostics)
      ensures base.state == old(base.state) ==> base.notifications == old(base.notifications)
      ensures base.state != old(base.state) ==>
                AppendsEachOnce(old(base.notifications), base.notifications, Deliveries(base.listeners, base.state))
    {
      if IsControlled(key) {
        diagnostics := diagnostics + [ControlledWrite(key)];
        return;
      }
      base.Set(key, value);
    }

    /**
     * The overriding `apply(changes)`: drops the controlled keys, warning
     * once for each, and forwards the rest to the base `apply` when any remain.
     */
    method Apply(changes: State<T>)
      modifies this`diagnostics, base`state, base`notifications
      ensures base.state == ApplyResult(old(base.state), Uncontrolled(controlledConfigs, changes))
      ensures AppendsEachOnce(old(diagnostics), diagnostics, RejectedWrites(controlledConfigs, changes))
      ensures base.state == old(base.state) ==> base.notifications == old(base.notifications)
      ensures base.state != old(base.state) ==>
                AppendsEachOnce(old(base.notifications), base.notifications, Deliveries(base.listeners, base.state))
    {
      var filteredChanges := FilterControlled(changes);
      if |filteredChanges| > 0 {
        base.Apply(filteredChanges);
      } else {
        assert filteredChanges == map[];
        assert !Differs(base.state, filteredChanges);
      }
    }

    /** The `forEach` of the overriding `apply`: builds `filteredChanges` and warns per controlled key. */
    method FilterControlled(changes: State<T>) returns (filteredChanges: State<T>)
      modifies this`diagnostics
      ensures filteredChanges == Uncontrolled(controlledConfigs, changes)
      ensures AppendsEachOnce(old(diagnostics), diagnostics, RejectedWrites(controlledConfigs, changes))
    {
      filteredChanges := map[];
      var pending := changes.Keys;
      AppendsNothing(diagnostics);
      assert changes - pending == map[];
      while pending != {}
        invariant pending <= changes.Keys
        invariant filteredChanges == Uncontrolled(controlledConfigs, changes - pending)
        invariant AppendsEachOnce(old(diagnostics), diagnostics, RejectedWrites(controlledConfigs, changes - pending))
        decreases pending
      {
        var key :| key in pending;
        var value := changes[key];
        FilterStep(controlledConfigs, changes, pending, key);
        if IsControlled(key) {
          AppendsEachOnceStep(old(diagnostics), diagnostics, RejectedWrites(controlledConfigs, changes - pending), ControlledWrite(key));
          diagnostics := diagnostics + [ControlledWrite(key)];
        } else {
          filteredChanges := filteredChanges[key := value];
        }
        pending := pending - {key};
      }
      assert changes - pending == changes;
    }

    /**
     * Calling the function `createSetter(setter.key)` returned: the config is
     * read at call time; a controlled key is handed to `onChange` (when there
     * is one) and the state is left alone, an uncontrolled or unconfigured
     * key is written directly, past the controlled guard.
     */
    method InvokeSetter(setter: Setter, value: Js<T>, details: Js<DetailsToken>) returns (call: Js<OnChangeCall<T>>)
      modifies base`state, base`notifications
      ensures IsControlled(setter.key) ==>
                && base.state == old(base.state)
                && base.notifications == old(base.notifications)
                && call == (var cb := controlledConfigs[setter.key].onChange;
                            if cb.Defined? then Defined(OnChangeCall(cb.value, value, details)) else Undefined)
      ensures !IsControlled(setter.key) ==>
                && base.state == SetResult(old(base.state), setter.key, value)
                && call == Undefined
      ensures base.state == old(base.state) ==> base.notifications == old(base.notifications)
      ensures base.state != old(base.state) ==>
                AppendsEachOnce(old(base.notifications), base.notifications, Deliveries(base.listeners, base.state))
    {
      var config := GetConfig(setter.key);
      if config.Defined? && config.value.controlled {
        var onChange := config.value.onChange;
        call := if onChange.Defined? then Defined(OnChangeCall(onChange.value, value, details)) else Undefined;
      } else {
        base.Set(setter.key, value);
        call := Undefined;
      }
    }
  }

  /**
   * `createEnhancedControllableStore(initialState, controlledKeys)`: a fresh
   * store with a generated setter `set<Key>` for every listed key.
   */
  method CreateEnhancedControllableStore<T(==)>(initialState: State<T>, controlledKeys: Js<seq<Key>>)
    returns (store: ControllableStore<T>)
    ensures fresh(store) && fresh(store.base) && store.Valid()
    ensures store.base.state == initialState && store.base.listeners == {} && store.base.notifications == []
    ensures store.controlledConfigs == map[] && store.initialControlledStatus == map[] && store.diagnostics == []
    ensures store.setters == if controlledKeys.Defined? then SetterTable(controlledKeys.value) else map[]
  {
    store := new ControllableStore(initialState);
    if controlledKeys.Defined? {
      var keys := controlledKeys.value;
      for i := 0 to |keys|
        invariant store.setters == SetterTable(keys[..i])
        invariant store.Valid() && store.controlledConfigs == map[] && store.initialControlledStatus == map[]
        invariant store.diagnostics == [] && store.base.state == initialState
        invariant store.base.listeners == {} && store.base.notifications == []
      {
        assert keys[..i + 1][..i] == keys[..i];
        store.setters := store.setters[SetterName(keys[i]) := CreateSetter(keys[i])];
      }
      assert keys[..|keys|] == keys;
    }
  }
}
