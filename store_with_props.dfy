/**
 * The framework-independent part of the two hooks that feed component props
 * into a store: `useStoreWithProps` merges the props into a plain store, and
 * `useStoreWithControlledProps` derives a configuration per declared key from
 * the props, hands it to `updateControlledConfigs`, and merges the remaining
 * defined props through the base `apply`. The hooks' effects are methods
 * called with one props snapshot; render and commit timing are not modelled.
 */
module StoreWithProps {
  import opened JsValues
  import opened Logs
  import opened Stores
  import opened ControllableStores

  /** One entry of the `controlledConfig` argument. */
  datatype PropConfig<T> = PropConfig(
    defaultValue: Js<T>,
    onChange: Js<CallbackId>,
    name: Js<string>,
    state: Js<string>)

  /** `controlledConfig`: a key may be listed with an `undefined` entry. */
  type ControlledPropsConfig<T> = map<Key, Js<PropConfig<T>>>

  /** The configuration derived for one listed key from the current props. */
  function DeriveConfig<T>(props: State<T>, key: Key, pc: PropConfig<T>): (cfg: Config<T>)
    ensures cfg.controlled <==> Read(props, key) != Undefined
    ensures cfg.controlled <==> cfg.value != Undefined
    ensures cfg.controlled ==> cfg.value == Read(props, key) && cfg.defaultValue == Undefined
    ensures !cfg.controlled ==> cfg.defaultValue == pc.defaultValue
    ensures cfg.onChange == pc.onChange && cfg.name == pc.name
    ensures cfg.state.Defined? && (Truthy(pc.state) ==> cfg.state == pc.state)
    ensures !Truthy(pc.state) ==> cfg.state == Defined(key)
  {
    var isControlled := Read(props, key) != Undefined;
    Config(
      isControlled,
      if isControlled then Read(props, key) else Undefined,
      if !isControlled then pc.defaultValue else Undefined,
      pc.onChange,
      pc.name,
      Defined(OrElse(pc.state, key)))
  }

  /** The `storeConfigs` memo: one derived configuration per key with a defined entry. */
  function DeriveConfigs<T>(props: State<T>, controlledConfig: ControlledPropsConfig<T>): (r: map<Key, Config<T>>)
    ensures forall k :: k in r <==> k in controlledConfig && controlledConfig[k].Defined?
    ensures forall k :: k in r ==> r[k] == DeriveConfig(props, k, controlledConfig[k].value)
  {
    map k | k in controlledConfig && controlledConfig[k].Defined? :: DeriveConfig(props, k, controlledConfig[k].value)
  }

  /** The derived configurations as entries of `updateControlledConfigs`; all pass the shape test. */
  function AsEntries<T>(m: map<Key, Config<T>>): (r: map<Key, ConfigEntry<T>>)
    ensures ShapedEntries(r, r.Keys) == m
  {
    var r := map k | k in m :: Shaped(m[k]);
    assert ShapedEntries(r, r.Keys) == m;
    r
  }

  /** `regularProps`: the defined props whose key is not listed in `controlledConfig`. */
  function RegularProps<T>(props: State<T>, controlledConfig: ControlledPropsConfig<T>): (r: State<T>)
    ensures forall k :: k in r <==> k in props && k !in controlledConfig && props[k] != Undefined
    ensures forall k :: k in r ==> r[k] == props[k]
  {
    map k | k in props && k !in controlledConfig && props[k] != Undefined :: props[k]
  }

  /** The tables after the effect of `useStoreWithControlledProps`. */
  ghost function ControlledPropsOutcome<T>(t: Tables<T>, props: State<T>, controlledConfig: ControlledPropsConfig<T>): Tables<T> {
    var configured := ConfigureAll(t, DeriveConfigs(props, controlledConfig));
    configured.(state := ApplyResult(configured.state, RegularProps(props, controlledConfig)))
  }

  /** Which keys report a mode switch does not depend on the state. */
  lemma DiagnosticsIgnoreState<T>(t: Tables<T>, s: State<T>)
    ensures SwitchDiagnostics(t.(state := s)) == SwitchDiagnostics(t)
  {
  }

  /**
   * The regular props never touch a configured key, so when their `apply`
   * changes the configured state, the result also differs from the state
   * before the configuration.
   */
  lemma RegularWriteIsVisible<T>(t: Tables<T>, derived: map<Key, Config<T>>, regular: State<T>)
    requires derived.Keys !! regular.Keys
    requires Differs(ConfigureAll(t, derived).state, regular)
    ensures ApplyResult(ConfigureAll(t, derived).state, regular) != t.state
  {
    var configured := ConfigureAll(t, derived);
    var k :| k in regular && Read(configured.state, k) != regular[k];
    ConfigureAllIsolated(t, derived, k);
    ApplyReadsAsMerge(configured.state, regular, k);
    assert Read(ApplyResult(configured.state, regular), k) != Read(t.state, k);
  }

  /** No prop is both configured and merged as a regular prop. */
  lemma PropsPartition<T>(props: State<T>, controlledConfig: ControlledPropsConfig<T>)
    ensures DeriveConfigs(props, controlledConfig).Keys !! RegularProps(props, controlledConfig).Keys
    ensures forall k :: Read(props, k) != Undefined ==>
              (k in RegularProps(props, controlledConfig) <==> k !in controlledConfig)
  {
  }

  /** The label the switch diagnostic uses for a derived configuration is `config.state || key`. */
  lemma DerivedLabel<T>(props: State<T>, key: Key, pc: PropConfig<T>)
    ensures OrElse(DeriveConfig(props, key, pc).state, key) == OrElse(pc.state, key)
  {
  }

  /**
   * What one run of the effect of `useStoreWithControlledProps` does to each
   * key: a listed key with a defined prop becomes controlled and takes the
   * prop; a listed key without one becomes uncontrolled and takes its
   * default only if it was never configured and has one, and otherwise
   * keeps its value; an unlisted defined prop is
   * merged; every other key, including a key listed with an `undefined`
   * entry whatever its prop, keeps its value and its mode.
   */
  lemma ControlledPropsPerKey<T>(t: Tables<T>, props: State<T>, controlledConfig: ControlledPropsConfig<T>, k: Key)
    ensures var r := ControlledPropsOutcome(t, props, controlledConfig);
      && (k in controlledConfig && controlledConfig[k].Defined? && Read(props, k) != Undefined ==>
            Read(r.state, k) == Read(props, k) && ControlledIn(r.configs, k))
      && (k in controlledConfig && controlledConfig[k].Defined? && Read(props, k) == Undefined ==>
            && !ControlledIn(r.configs, k)
            && Read(r.state, k) ==
                 if k !in t.configs && controlledConfig[k].value.defaultValue != Undefined
                 then controlledConfig[k].value.defaultValue
                 else Read(t.state, k))
      && (k !in controlledConfig && Read(props, k) != Undefined ==>
            Read(r.state, k) == Read(props, k) && ControlledIn(r.configs, k) == ControlledIn(t.configs, k))
      && ((k !in controlledConfig || controlledConfig[k].Undefined?) && Read(props, k) == Undefined ==>
            Read(r.state, k) == Read(t.state, k) && ControlledIn(r.configs, k) == ControlledIn(t.configs, k))
      && (k in controlledConfig && controlledConfig[k].Undefined? && Read(props, k) != Undefined ==>
            Read(r.state, k) == Read(t.state, k) && ControlledIn(r.configs, k) == ControlledIn(t.configs, k))
  {
    var derived := DeriveConfigs(props, controlledConfig);
    var regular := RegularProps(props, controlledConfig);
    var configured := ConfigureAll(t, derived);
    var r := ControlledPropsOutcome(t, props, controlledConfig);
    assert r.state == ApplyResult(configured.state, regular) && r.configs == configured.configs;
    ApplyReadsAsMerge(configured.state, regular, k);
    if k in derived {
      assert k !in regular;
      assert Read(r.state, k) == Read(configured.state, k);
      var cfg := derived[k];
      if cfg.controlled {
        ConfigureAllControlledWins(t, derived, k);
      } else {
        assert Written(t, k, cfg) == if k in t.configs then Undefined else cfg.defaultValue;
        assert Read(configured.state, k) == if Written(t, k, cfg) != Undefined then Written(t, k, cfg) else Read(t.state, k);
      }
    } else {
      ConfigureAllIsolated(t, derived, k);
    }
  }

  /**
   * Rendering a component twice over a fresh key, once with the prop
   * `undefined` and once with it defined (or the other way round), reports
   * the switch with its direction when the entry has a `name`.
   */
  lemma ModeSwitchAcrossRenders<T>(t: Tables<T>, k: Key, pc: PropConfig<T>,
                                   controlledConfig: ControlledPropsConfig<T>, first: State<T>, second: State<T>)
    requires WellFormed(t) && k !in t.configs
    requires k in controlledConfig && controlledConfig[k] == Defined(pc) && Truthy(pc.name)
    requires (Read(first, k) == Undefined) != (Read(second, k) == Undefined)
    ensures var t2 := ControlledPropsOutcome(ControlledPropsOutcome(t, first, controlledConfig), second, controlledConfig);
      ModeSwitch(k, Read(first, k) != Undefined, OrElse(pc.state, k), pc.name.value) in SwitchDiagnostics(t2)
  {
    var t1 := ControlledPropsOutcome(t, first, controlledConfig);
    var t2 := ControlledPropsOutcome(t1, second, controlledConfig);
    var c1 := DeriveConfigs(first, controlledConfig)[k];
    var c2 := DeriveConfigs(second, controlledConfig)[k];
    assert t1.initial[k] == c1.controlled;
    assert t2.initial[k] == c1.controlled;
    assert t2.configs[k] == c2;
    DerivedLabel(second, k, pc);
    SwitchDiagnosticsIff(t2, k, Read(first, k) != Undefined, OrElse(pc.state, k), pc.name.value);
  }

  /** The effect of `useStoreWithProps`: `store.apply(props)`. */
  method StoreWithPropsEffect<T(==)>(store: Store<T>, props: State<T>)
    modifies store`state, store`notifications
    ensures store.state == ApplyResult(old(store.state), props)
    ensures forall k :: Read(store.state, k) == Read(old(store.state) + props, k)
    ensures !Differs(old(store.state), props) ==> store.notifications == old(store.notifications)
    ensures Differs(old(store.state), props) ==>
              AppendsEachOnce(old(store.notifications), store.notifications, Deliveries(store.listeners, store.state))
  {
    store.Apply(props);
    forall k ensures Read(store.state, k) == Read(old(store.state) + props, k) {
      ApplyReadsAsMerge(old(store.state), props, k);
    }
  }

  /**
   * The effect of `useStoreWithControlledProps`: configure the derived keys,
   * then merge the regular props through the base `apply`, bypassing the
   * controlled filter, when there are any.
   */
  method ControlledPropsEffect<T(==)>(store: ControllableStore<T>, props: State<T>, controlledConfig: ControlledPropsConfig<T>)
    requires store.Valid()
    modifies store`controlledConfigs, store`initialControlledStatus, store`diagnostics
    modifies store.base`state, store.base`notifications
    ensures store.Valid()
    ensures store.Current() == ControlledPropsOutcome(old(store.Current()), props, controlledConfig)
    ensures AppendsEachOnce(old(store.diagnostics), store.diagnostics, SwitchDiagnostics(store.Current()))
    ensures old(store.base.notifications) <= store.base.notifications
    ensures store.base.state == old(store.base.state) ==> store.base.notifications == old(store.base.notifications)
  {
    ghost var t0 := store.Current();
    var storeConfigs := DeriveConfigs(props, controlledConfig);
    store.UpdateControlledConfigs(AsEntries(storeConfigs));
    ghost var configured := store.Current();
    assert configured == ConfigureAll(t0, storeConfigs);
    var regularProps := RegularProps(props, controlledConfig);
    if |regularProps| > 0 {
      store.base.Apply(regularProps);
      if Differs(configured.state, regularProps) {
        assert store.base.state != t0.state by {
          PropsPartition(props, controlledConfig);
          RegularWriteIsVisible(t0, storeConfigs, regularProps);
        }
      }
    } else {
      assert !Differs(store.base.state, regularProps) by {
        assert regularProps == map[];
      }
    }
    assert store.Current() == configured.(state := ApplyResult(configured.state, regularProps));
    DiagnosticsIgnoreState(configured, store.base.state);
  }
}
