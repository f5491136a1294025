/**
 * The publish-subscribe primitive of the board (resources/js/Observable.js):
 * a registry from event-type strings to ordered lists of callbacks, and a
 * synchronous dispatch that calls every callback registered for an event's
 * type. Callbacks are opaque identifiers here; dispatch yields the ordered
 * trace of the calls the source makes.
 */
module Observable {
  import opened Wrappers

  /** An opaque stand-in for a callback function. */
  type HandlerId = nat

  /**
   * The source's `Event`: a type tag, plus the payload a subclass adds
   * (`type` is a Dafny keyword, so the tag is called `kind`).
   */
  datatype Event<+P> = Event(kind: string, payload: P)

  /** One callback call made by dispatch: which handler, with which event. */
  datatype Invocation<+P> = Invocation(handler: HandlerId, event: Event<P>)

  /** The `listeners` object: each event type's callbacks in registration order. */
  datatype Registry = Registry(listeners: map<string, seq<HandlerId>>)

  /** The callbacks registered for `kind`; a type never registered has none. */
  function Listeners(r: Registry, kind: string): seq<HandlerId>
  {
    if kind in r.listeners then r.listeners[kind] else []
  }

  /** A registry as a constructor that initialises `listeners` leaves it. */
  function New(): (r: Registry)
    ensures forall kind :: Listeners(r, kind) == []
  {
    Registry(map[])
  }

  /**
   * `addEventListener`: creates the type's list on its first registration and
   * appends the callback at its end, with no duplicate check.
   */
  function AddEventListener(r: Registry, kind: string, h: HandlerId): (r': Registry)
    ensures Listeners(r', kind) == Listeners(r, kind) + [h]
    ensures forall other :: other != kind ==> Listeners(r', other) == Listeners(r, other)
    ensures r'.listeners.Keys == r.listeners.Keys + {kind}
  {
    Registry(r.listeners[kind := Listeners(r, kind) + [h]])
  }

  /** Calls each of `handlers` once, in order, with the same event. */
  function Dispatch<P>(handlers: seq<HandlerId>, e: Event<P>): (trace: seq<Invocation<P>>)
    ensures |trace| == |handlers|
    ensures forall i :: 0 <= i < |trace| ==> trace[i].handler == handlers[i] && trace[i].event == e
  {
    if handlers == [] then [] else [Invocation(handlers[0], e)] + Dispatch(handlers[1..], e)
  }

  /**
   * `notifyAll`: every callback registered for `e.kind` is called exactly once,
   * in registration order, with `e`; a type without callbacks calls nothing.
   * The registry is an argument, not a result: dispatch never changes it.
   */
  function NotifyAll<P>(r: Registry, e: Event<P>): (trace: seq<Invocation<P>>)
    ensures |trace| == |Listeners(r, e.kind)|
    ensures forall i :: 0 <= i < |trace| ==> trace[i].handler == Listeners(r, e.kind)[i]
    ensures forall i :: 0 <= i < |trace| ==> trace[i].event == e
    ensures e.kind !in r.listeners ==> trace == []
  {
    Dispatch(Listeners(r, e.kind), e)
  }

  /** The handlers a trace calls, in order. */
  function Handlers<P>(trace: seq<Invocation<P>>): (hs: seq<HandlerId>)
    ensures |hs| == |trace|
    ensures forall i :: 0 <= i < |hs| ==> hs[i] == trace[i].handler
  {
    if trace == [] then [] else [trace[0].handler] + Handlers(trace[1..])
  }

  /** Registers `hs` for `kind` one after another. */
  function RegisterAll(r: Registry, kind: string, hs: seq<HandlerId>): Registry
    decreases |hs|
  {
    if hs == [] then r else RegisterAll(AddEventListener(r, kind, hs[0]), kind, hs[1..])
  }

  /**
   * Registering one more callback adds exactly one call at the end of the
   * trace for its own type and changes nothing for any other type.
   */
  lemma AddThenNotify<P>(r: Registry, kind: string, h: HandlerId, e: Event<P>)
    ensures e.kind == kind ==>
      NotifyAll(AddEventListener(r, kind, h), e) == NotifyAll(r, e) + [Invocation(h, e)]
    ensures e.kind != kind ==>
      NotifyAll(AddEventListener(r, kind, h), e) == NotifyAll(r, e)
  {
    var before := NotifyAll(r, e);
    var after := NotifyAll(AddEventListener(r, kind, h), e);
    if e.kind == kind {
      assert |after| == |before| + 1;
      forall i | 0 <= i < |after|
        ensures after[i] == (before + [Invocation(h, e)])[i]
      {
        assert after[i].handler == (Listeners(r, kind) + [h])[i];
      }
    }
  }

  /**
   * No duplicate check: the same callback registered twice for a type is
   * called twice on every notification of that type.
   */
  lemma DuplicateRegistrationCallsTwice<P>(r: Registry, h: HandlerId, e: Event<P>)
    ensures NotifyAll(AddEventListener(AddEventListener(r, e.kind, h), e.kind, h), e)
         == NotifyAll(r, e) + [Invocation(h, e), Invocation(h, e)]
  {
    AddThenNotify(r, e.kind, h, e);
    AddThenNotify(AddEventListener(r, e.kind, h), e.kind, h, e);
  }

  /** Registering a list of callbacks appends them, in order, to the type's list. */
  lemma {:induction false} RegisterAllAppends(r: Registry, kind: string, hs: seq<HandlerId>)
    ensures Listeners(RegisterAll(r, kind, hs), kind) == Listeners(r, kind) + hs
    ensures forall other :: other != kind ==>
      Listeners(RegisterAll(r, kind, hs), other) == Listeners(r, other)
    decreases |hs|
  {
    if hs != [] {
      var r1 := AddEventListener(r, kind, hs[0]);
      RegisterAllAppends(r1, kind, hs[1..]);
      assert Listeners(r, kind) + [hs[0]] + hs[1..] == Listeners(r, kind) + hs;
    }
  }

  /**
   * Callbacks registered one after another on a fresh registry are called in
   * exactly their registration order, each once, with the same event.
   */
  lemma {:induction false} NotifyFollowsRegistrationOrder<P>(hs: seq<HandlerId>, e: Event<P>)
    ensures Handlers(NotifyAll(RegisterAll(New(), e.kind, hs), e)) == hs
    ensures forall i :: 0 <= i < |hs| ==> NotifyAll(RegisterAll(New(), e.kind, hs), e)[i].event == e
  {
    RegisterAllAppends(New(), e.kind, hs);
    assert Listeners(New(), e.kind) + hs == hs;
  }

  /*
   * The source as written: the constructor assigns `this.listener = {}`, but
   * `addEventListener` and `notifyAll` read `this.listeners`, which stays
   * undefined unless a subclass sets it (the view class does; the board does
   * not). Reading a property of undefined throws a TypeError, shown as `None`.
   */

  /** The two fields a fresh object can carry; `None` is `undefined`. */
  datatype FieldsAsWritten = FieldsAsWritten(
    listener: Option<map<string, seq<HandlerId>>>,
    listeners: Option<map<string, seq<HandlerId>>>)

  /** The constructor as written: only `listener` is initialised; `listeners` stays undefined. */
  function ConstructAsWritten(): (o: FieldsAsWritten)
    ensures o.listener == Some(map[])
    ensures o.listeners.None?
  {
    FieldsAsWritten(Some(map[]), None)
  }

  /**
   * `addEventListener` as written, reading `this.listeners`: it throws exactly
   * when `listeners` is undefined, and otherwise appends the callback to its
   * type's list, leaves every other type's list and the `listener` field alone.
   */
  function AddEventListenerAsWritten(o: FieldsAsWritten, kind: string, h: HandlerId): (r: Option<FieldsAsWritten>)
    ensures r.None? <==> o.listeners.None?
    ensures r.Some? ==> r.value.listener == o.listener && r.value.listeners.Some?
    ensures r.Some? ==>
      Listeners(Registry(r.value.listeners.value), kind) == Listeners(Registry(o.listeners.value), kind) + [h]
    ensures r.Some? ==> forall other :: other != kind ==>
      Listeners(Registry(r.value.listeners.value), other) == Listeners(Registry(o.listeners.value), other)
  {
    match o.listeners
    case None => None
    case Some(m) => Some(o.(listeners := Some(AddEventListener(Registry(m), kind, h).listeners)))
  }

  /**
   * `notifyAll` as written, reading `this.listeners`: it throws exactly when
   * `listeners` is undefined, and otherwise calls every callback registered for
   * the event's type once, in order, with the event.
   */
  function NotifyAllAsWritten<P>(o: FieldsAsWritten, e: Event<P>): (r: Option<seq<Invocation<P>>>)
    ensures r.None? <==> o.listeners.None?
    ensures r.Some? ==> |r.value| == |Listeners(Registry(o.listeners.value), e.kind)|
    ensures r.Some? ==> forall i :: 0 <= i < |r.value| ==>
      r.value[i] == Invocation(Listeners(Registry(o.listeners.value), e.kind)[i], e)
  {
    match o.listeners
    case None => None
    case Some(m) => Some(NotifyAll(Registry(m), e))
  }

  /**
   * On an object built by the constructor as written, registering any
   * callback and notifying any event both throw.
   */
  lemma AsWrittenConstructorBreaksDispatch<P>(kind: string, h: HandlerId, e: Event<P>)
    ensures AddEventListenerAsWritten(ConstructAsWritten(), kind, h) == None
    ensures NotifyAllAsWritten(ConstructAsWritten(), e) == None
  {
  }

  /**
   * Once `listeners` has been initialised to any map `m` (the view's own
   * constructor sets it to `{}`), the as-written methods behave exactly as the
   * registry model on `m`; in particular a callback added to the empty map is
   * called exactly once for its type.
   */
  lemma AsWrittenAgreesOnceInitialised<P>(
    listener: Option<map<string, seq<HandlerId>>>, m: map<string, seq<HandlerId>>,
    kind: string, h: HandlerId, e: Event<P>)
    ensures AddEventListenerAsWritten(FieldsAsWritten(listener, Some(m)), kind, h)
         == Some(FieldsAsWritten(listener, Some(AddEventListener(Registry(m), kind, h).listeners)))
    ensures NotifyAllAsWritten(FieldsAsWritten(listener, Some(m)), e) == Some(NotifyAll(Registry(m), e))
    ensures
      var o := FieldsAsWritten(listener, Some(New().listeners));
      NotifyAllAsWritten(AddEventListenerAsWritten(o, e.kind, h).value, e) == Some([Invocation(h, e)])
  {
    var o := FieldsAsWritten(listener, Some(New().listeners));
    AddThenNotify(New(), e.kind, h, e);
    assert NotifyAll(New(), e) == [];
    var r1 := AddEventListener(New(), e.kind, h);
    assert AddEventListenerAsWritten(o, e.kind, h) == Some(o.(listeners := Some(r1.listeners)));
    assert Registry(r1.listeners) == r1;
    assert NotifyAll(r1, e) == [Invocation(h, e)];
  }

  /**
   * The corrected registry: after one registration on a fresh registry the
   * callback is called exactly once for its type and never for another.
   */
  lemma NewRegistryDispatches<P>(kind: string, h: HandlerId, e: Event<P>)
    ensures e.kind == kind ==> NotifyAll(AddEventListener(New(), kind, h), e) == [Invocation(h, e)]
    ensures e.kind != kind ==> NotifyAll(AddEventListener(New(), kind, h), e) == []
  {
    AddThenNotify(New(), kind, h, e);
    assert NotifyAll(New(), e) == [];
  }
}
