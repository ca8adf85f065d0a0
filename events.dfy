/** Event types, events and the kinds of handler closure Subbus stores. */
module Events {
  import opened Wrappers

  type HandlerId = nat
  type EventId = nat

  /** The type string `String(reflecting: T.self)` as a tag. `ScopedOf(t)` is
      the envelope type `ScopedEvent<t>` the scope layer posts on. */
  datatype EventType = Named(name: string) | ScopedOf(inner: EventType)

  /** A posted event: a plain event of a named type, or a scope envelope
      around another event. */
  datatype Event =
    | Posted(eid: EventId, name: string)
    | Envelope(scope: string, inner: Event)

  function TypeOf(e: Event): EventType {
    match e
    case Posted(_, n) => Named(n)
    case Envelope(_, inner) => ScopedOf(TypeOf(inner))
  }

  /** A stored handler closure, identified by the caller's callback:
      a `(T) -> Void` callback, a persistent `(T) -> HandlerResult` callback,
      or the closure the scope layer registers around a callback, which
      forwards only envelopes carrying its scope key. */
  datatype Handler =
    | Callback(hid: HandlerId)
    | Persistent(hid: HandlerId)
    | ScopeFilter(scope: string, hid: HandlerId)

  /** A caller's callback receiving an event. */
  datatype Delivery = Delivery(hid: HandlerId, event: Event)

  /** What invoking a stored closure from the plain `post` delivers: a plain
      callback receives the event; the scope closure unwraps an envelope with
      its exact scope and hands the inner event on, and does nothing
      otherwise; a persistent callback does not have the `(T) -> Void` shape,
      so `post` skips it. */
  function Invoke(h: Handler, e: Event): Option<Delivery> {
    match h
    case Callback(id) => Some(Delivery(id, e))
    case Persistent(_) => None
    case ScopeFilter(scope, id) =>
      if e.Envelope? && e.scope == scope then Some(Delivery(id, e.inner)) else None
  }
}
