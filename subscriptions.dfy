/** `Subscription`: one registry entry and the `matches` family used to find
    entries to replace and to remove. */
module Subscriptions {
  import opened Wrappers
  import opened Identifiers
  import opened Events

  /** An entry: resolved identity, event type and handler closure. */
  datatype Sub = Sub(id: Identity, eventType: EventType, handler: Handler)

  /** `Subscription.init?`: resolves the identifier once; no entry exists for
      an identifier `parseId` rejects. */
  function NewSubscription(v: Value, t: EventType, h: Handler): (r: Option<Sub>)
    ensures r.None? <==> ParseId(v).Err?
    ensures r.Some? ==> ParseId(v) == Ok(r.value.id) && r.value.eventType == t && r.value.handler == h
    ensures Unwrapped(v).None? ==> r.None?
  {
    match ParseId(v)
    case Err(_) => None
    case Ok(id) => Some(Sub(id, t, h))
  }

  /** `matches(identifier:)`. */
  predicate MatchesIdentifier(s: Sub, v: Value, dead: set<Address>) {
    MatchesValue(s.id, v, dead)
  }

  /** `matches(eventType:)`: exact equality of the type strings. */
  predicate MatchesEventType(s: Sub, t: EventType) {
    s.eventType == t
  }

  /** `matches(identifier:eventType:)`. */
  predicate MatchesIdentifierAndType(s: Sub, v: Value, t: EventType, dead: set<Address>) {
    MatchesIdentifier(s, v, dead) && MatchesEventType(s, t)
  }

  /** `matches(_:)`: the other entry's identifier and event type, never its
      handler. */
  predicate Matches(s: Sub, other: Sub, dead: set<Address>) {
    MatchesIdentity(s.id, other.id, dead) && MatchesEventType(s, other.eventType)
  }

  /** `matches(_:)` never looks at the other entry's handler. */
  lemma MatchesIgnoresHandler(s: Sub, other: Sub, h: Handler, dead: set<Address>)
    ensures Matches(s, other, dead) == Matches(s, other.(handler := h), dead)
  {
  }

  /** `matches(identifier:eventType:)` holds exactly when both component
      matches hold, and for a live entry it is equality of the resolved
      identity and of the type. */
  lemma MatchesIdentifierAndTypeIff(s: Sub, v: Value, t: EventType, dead: set<Address>)
    ensures MatchesIdentifierAndType(s, v, t, dead) <==>
              MatchesIdentifier(s, v, dead) && MatchesEventType(s, t)
    ensures Alive(s.id, dead) ==>
              (MatchesIdentifierAndType(s, v, t, dead) <==> ParseId(v) == Ok(s.id) && s.eventType == t)
  {
    MatchesValueIff(s.id, v, dead);
  }

  /** The entries `replace` removes for a new subscription built from `v` are
      exactly those `unsubscribe(id: v, event: t)` removes. */
  lemma ReplaceAgreesWithUnsubscribe(s: Sub, v: Value, t: EventType, h: Handler, dead: set<Address>)
    requires NewSubscription(v, t, h).Some?
    requires Alive(NewSubscription(v, t, h).value.id, dead)
    ensures Matches(s, NewSubscription(v, t, h).value, dead) <==> MatchesIdentifierAndType(s, v, t, dead)
  {
    var n := NewSubscription(v, t, h).value;
    MatchesValueIff(s.id, v, dead);
    if Alive(s.id, dead) {
      MatchesIdentityOfLive(s.id, n.id, dead);
    }
  }

  /** `matches(_:)` is an equivalence relation on entries. */
  lemma MatchesIsEquivalence(a: Sub, b: Sub, c: Sub, dead: set<Address>)
    ensures Matches(a, a, dead)
    ensures Matches(a, b, dead) ==> Matches(b, a, dead)
    ensures Matches(a, b, dead) && Matches(b, c, dead) ==> Matches(a, c, dead)
  {
    MatchesIdentityIsEquivalence(a.id, b.id, c.id, dead);
  }
}
