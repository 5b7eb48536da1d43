/**
 * The observable state container `Store<State>`: a state object, a set of
 * listeners, and three ways to change the state (replace it, shallow-merge a
 * patch into it, write one key), each of which notifies the listeners only
 * when the state actually changes.
 */
module Stores {
  import opened JsValues
  import opened Logs

  /** A state object: property name to value. A missing key reads as `undefined`. */
  type State<T> = map<Key, Js<T>>

  /** Listeners are opaque callbacks, identified by reference. */
  type ListenerId = nat

  /** One call `listener(state)` made by a notification pass. */
  datatype Notification<T> = Notification(listener: ListenerId, state: State<T>)

  /** The function returned by `subscribe(fn)`; calling it removes `fn`. */
  datatype Unsubscribe = Unsubscribe(listener: ListenerId)

  /** `state[key]` */
  function Read<T>(s: State<T>, k: Key): Js<T> {
    if k in s then s[k] else Undefined
  }

  /** Some key of `changes` holds a value different from the state's. */
  predicate Differs<T(==)>(s: State<T>, changes: State<T>) {
    exists k :: k in changes && Read(s, k) != changes[k]
  }

  /** The state after `apply(changes)`: one merged update if any key differs. */
  function ApplyResult<T(==)>(s: State<T>, changes: State<T>): State<T> {
    if Differs(s, changes) then s + changes else s
  }

  /** The state after `set(k, v)`. */
  function SetResult<T(==)>(s: State<T>, k: Key, v: Js<T>): State<T> {
    if Read(s, k) != v then s[k := v] else s
  }

  /** The calls of one notification pass: each listener is called once with `s`. */
  ghost function Deliveries<T>(listeners: set<ListenerId>, s: State<T>): set<Notification<T>> {
    set l | l in listeners :: Notification(l, s)
  }

  /** A pass makes exactly as many calls as there are listeners. */
  lemma {:induction false} DeliveriesCount<T>(listeners: set<ListenerId>, s: State<T>)
    ensures |Deliveries(listeners, s)| == |listeners|
    decreases listeners
  {
    if listeners != {} {
      var l :| l in listeners;
      var rest := listeners - {l};
      DeliveriesCount(rest, s);
      assert Deliveries(listeners, s) == Deliveries(rest, s) + {Notification(l, s)};
      assert Notification(l, s) !in Deliveries(rest, s);
    }
  }

  /** Every listener is called exactly once, and nobody else is called. */
  lemma NotifiedExactlyOnce<T>(before: seq<Notification<T>>, after: seq<Notification<T>>,
                               listeners: set<ListenerId>, s: State<T>, l: ListenerId)
    requires AppendsEachOnce(before, after, Deliveries(listeners, s))
    ensures |after| == |before| + |listeners|
    ensures multiset(after[|before|..])[Notification(l, s)] == if l in listeners then 1 else 0
    ensures forall n :: n in after[|before|..] ==> n.listener in listeners && n.state == s
  {
    AppendsEachOnceLength(before, after, Deliveries(listeners, s));
    DeliveriesCount(listeners, s);
    forall n | n in after[|before|..]
      ensures n.listener in listeners && n.state == s
    {
      assert n in multiset(after[|before|..]);
    }
  }

  /** Reading any key after `apply(changes)` gives the value of the merged object. */
  lemma ApplyReadsAsMerge<T>(s: State<T>, changes: State<T>, k: Key)
    ensures Read(ApplyResult(s, changes), k) == Read(s + changes, k)
    ensures k !in changes ==> Read(ApplyResult(s, changes), k) == Read(s, k)
  {
    if !Differs(s, changes) && k in changes {
      assert Read(s, k) == changes[k];
    }
  }

  /** `apply` leaves the state untouched exactly when no key of `changes` differs. */
  lemma ApplyUnchangedIff<T>(s: State<T>, changes: State<T>)
    ensures ApplyResult(s, changes) == s <==> !Differs(s, changes)
  {
    if Differs(s, changes) {
      var k :| k in changes && Read(s, k) != changes[k];
      assert Read(s + changes, k) == changes[k];
    }
  }

  /** Applying the same changes twice is the same as applying them once. */
  lemma ApplyIdempotent<T>(s: State<T>, changes: State<T>)
    ensures ApplyResult(ApplyResult(s, changes), changes) == ApplyResult(s, changes)
  {
    var r := ApplyResult(s, changes);
    if Differs(r, changes) {
      var k :| k in changes && Read(r, k) != changes[k];
      ApplyReadsAsMerge(s, changes, k);
      assert false;
    }
  }

  /** `set(k, v)` is `apply({ [k]: v })`. */
  lemma SetIsSingletonApply<T>(s: State<T>, k: Key, v: Js<T>)
    ensures SetResult(s, k, v) == ApplyResult(s, map[k := v])
  {
    if Read(s, k) != v {
      assert Differs(s, map[k := v]);
    } else {
      assert !Differs(s, map[k := v]);
    }
  }

  /** After `set(k, v)` the key reads `v` and no other key changes. */
  lemma SetWritesOneKey<T>(s: State<T>, k: Key, v: Js<T>, other: Key)
    ensures Read(SetResult(s, k, v), k) == v
    ensures other != k ==> Read(SetResult(s, k, v), other) == Read(s, other)
    ensures v != Undefined ==> SetResult(s, k, v) == s[k := v]
  {
  }

  class Store<T(==)> {
    var state: State<T>
    var listeners: set<ListenerId>
    /** Every listener call made so far, in order. */
    ghost var notifications: seq<Notification<T>>

    constructor (initial: State<T>)
      ensures state == initial && listeners == {} && notifications == []
    {
      state := initial;
      listeners := {};
      notifications := [];
    }

    /** `subscribe(fn)`; a listener already subscribed stays a single entry. */
    method Subscribe(fn: ListenerId) returns (unsubscribe: Unsubscribe)
      modifies this`listeners
      ensures listeners == old(listeners) + {fn}
      ensures unsubscribe.listener == fn
    {
      listeners := listeners + {fn};
      unsubscribe := Unsubscribe(fn);
    }

    /** Calling the function returned by `subscribe(fn)`: removes `fn` and nothing else. */
    method RunUnsubscribe(unsubscribe: Unsubscribe)
      modifies this`listeners
      ensures listeners == old(listeners) - {unsubscribe.listener}
    {
      listeners := listeners - {unsubscribe.listener};
    }

    /** `getSnapshot()` */
    method GetSnapshot() returns (s: State<T>)
      ensures s == state
    {
      s := state;
    }

    /** The `forEach` over the listeners: calls each of them once with `s`. */
    method Notify(s: State<T>)
      modifies this`notifications
      ensures AppendsEachOnce(old(notifications), notifications, Deliveries(listeners, s))
    {
      var pending := listeners;
      AppendsNothing(notifications);
      while pending != {}
        invariant pending <= listeners
        invariant AppendsEachOnce(old(notifications), notifications, Deliveries(listeners - pending, s))
        decreases pending
      {
        var l :| l in pending;
        AppendsEachOnceStep(old(notifications), notifications, Deliveries(listeners - pending, s), Notification(l, s));
        assert Deliveries(listeners - (pending - {l}), s) == Deliveries(listeners - pending, s) + {Notification(l, s)};
        notifications := notifications + [Notification(l, s)];
        pending := pending - {l};
      }
    }

    /** `update(newState)`: replaces the state and notifies only on a change. */
    method Update(newState: State<T>)
      modifies this`state, this`notifications
      ensures state == newState
      ensures old(state) == newState ==> notifications == old(notifications)
      ensures old(state) != newState ==>
                AppendsEachOnce(old(notifications), notifications, Deliveries(listeners, newState))
    {
      if state != newState {
        state := newState;
        Notify(newState);
      }
    }

    /** `apply(changes)`: stops scanning at the first differing key and merges all of `changes`. */
    method Apply(changes: State<T>)
      modifies this`state, this`notifications
      ensures state == ApplyResult(old(state), changes)
      ensures !Differs(old(state), changes) ==> notifications == old(notifications)
      ensures Differs(old(state), changes) ==>
                AppendsEachOnce(old(notifications), notifications, Deliveries(listeners, state))
    {
      var pending := changes.Keys;
      while pending != {}
        invariant pending <= changes.Keys
        invariant forall k :: k in changes && k !in pending ==> Read(state, k) == changes[k]
        invariant state == old(state) && notifications == old(notifications)
        decreases pending
      {
        var key :| key in pending;
        if Read(state, key) != changes[key] {
          Update(state + changes);
          return;
        }
        pending := pending - {key};
      }
    }

    /** `set(key, value)` */
    method Set(key: Key, value: Js<T>)
      modifies this`state, this`notifications
      ensures state == SetResult(old(state), key, value)
      ensures Read(old(state), key) == value ==> notifications == old(notifications)
      ensures Read(old(state), key) != value ==>
                AppendsEachOnce(old(notifications), notifications, Deliveries(listeners, state))
    {
      if Read(state, key) != value {
        Update(state[key := value]);
      }
    }
  }
}
