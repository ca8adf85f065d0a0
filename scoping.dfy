/** The scope layer: a scope value becomes a string key, subscriptions are
    stored on the envelope type `ScopedEvent<T>` with a closure that forwards
    only envelopes carrying that key, and scoped posts wrap the event. */
module Scoping {
  import opened Wrappers
  import opened Identifiers
  import opened Events
  import opened Subscriptions
  import opened Registry

  /** The scope key: an optional scope, and a scope whose description is
      empty or "nil", are refused; otherwise the same type-qualified string
      that identifiers use. */
  function ScopeKey(scope: Value): (r: Option<string>)
    ensures r.None? <==> scope.Optional? || Rendering(scope) == "" || Rendering(scope) == "nil"
    ensures r.Some? ==> !scope.Optional? && r == StringFor(scope)
  {
    if scope.Optional? then None else StringFor(scope)
  }

  /** Two scopes with the same description but different type names (the
      unqualified `type(of:)` text) never share a key. Types that print the
      same name do share one. */
  lemma ScopesOfDifferentTypesNeverMatch(a: Value, b: Value)
    requires Rendering(a) == Rendering(b) && TypeName(a) != TypeName(b)
    ensures ScopeKey(a).None? || ScopeKey(a) != ScopeKey(b)
  {
    if ScopeKey(a).Some? && ScopeKey(a) == ScopeKey(b) {
      StringForSeparatesTypes(a, b);
    }
  }

  /** A class instance used as a scope is accepted and keys by reference: two
      instances share a key only when they are the same instance. */
  lemma ObjectScopesFollowReference(t: string, a: Address, u: string, b: Address)
    ensures ScopeKey(Object(t, a)).Some?
    ensures ScopeKey(Object(t, a)) == ScopeKey(Object(u, b)) ==> t == u && a == b
  {
    ObjectKeysAreReferenceIdentity(t, a, u, b);
  }

  /** Within a scoped post, the scope closure of a live subscription on the
      event's type contributes, at its own position in the registry, one
      delivery of the inner event when the post carries its key, and
      nothing otherwise. */
  lemma ScopeFilterForwardsOnlyItsScope(ss: seq<Sub>, i: nat, key: string, e: Event, dead: set<Address>)
    requires i < |ss| && Alive(ss[i].id, dead)
    requires ss[i].eventType == ScopedOf(TypeOf(e)) && ss[i].handler.ScopeFilter?
    ensures Dispatch(ss, Envelope(key, e), dead) ==
              Dispatch(ss[..i], Envelope(key, e), dead) +
              (if key == ss[i].handler.scope then [Delivery(ss[i].handler.hid, e)] else []) +
              Dispatch(ss[i + 1..], Envelope(key, e), dead)
  {
    var envelope := Envelope(key, e);
    assert ss == ss[..i] + [ss[i]] + ss[i + 1..];
    DispatchSplit(ss[..i] + [ss[i]], ss[i + 1..], envelope, dead);
    DispatchSplit(ss[..i], [ss[i]], envelope, dead);
    DispatchSingle(ss[i], envelope, dead);
  }

  /** Scoped subscriptions are the entries on envelope types, and only they
      carry the scope closure (the envelope type is internal to the library,
      so no caller subscribes to it directly). */
  predicate EnvelopesGuarded(ss: seq<Sub>) {
    forall s :: s in ss ==> (s.eventType.ScopedOf? <==> s.handler.ScopeFilter?)
  }

  /** Adding a subscription that respects the pairing keeps the whole
      registry paired: purging and replacing only remove entries. */
  lemma AddingKeepsEnvelopesGuarded(ss: seq<Sub>, sub: Sub, replace: bool, dead: set<Address>)
    requires EnvelopesGuarded(ss)
    requires sub.eventType.ScopedOf? <==> sub.handler.ScopeFilter?
    ensures EnvelopesGuarded(Added(ss, sub, replace, dead))
  {
    forall x | x in Added(ss, sub, replace, dead)
      ensures x.eventType.ScopedOf? <==> x.handler.ScopeFilter?
    {
      SelectMembership(ss, Live(dead), x);
      SelectMembership(Purged(ss, dead), Not(SameEntry(sub, dead)), x);
    }
  }

  /** A scoped post of `e` with key `key` reaches exactly the callbacks of the
      live scoped subscriptions to the type of `e` with that same key, and
      each receives `e` itself. */
  lemma ScopedPostReachesOnlyItsScope(ss: seq<Sub>, key: string, e: Event, dead: set<Address>, d: Delivery)
    requires EnvelopesGuarded(ss)
    ensures d in Dispatch(ss, Envelope(key, e), dead) <==>
              d.event == e &&
              exists s :: s in ss && Alive(s.id, dead) && s.eventType == ScopedOf(TypeOf(e)) &&
                          s.handler == ScopeFilter(key, d.hid)
  {
    var envelope := Envelope(key, e);
    DispatchMembership(ss, envelope, dead, d);
    forall s | s in ss && s.eventType == ScopedOf(TypeOf(e))
      ensures Invoke(s.handler, envelope) == Some(d) <==> d.event == e && s.handler == ScopeFilter(key, d.hid)
    {
      assert s.handler.ScopeFilter?;
    }
  }

  /** A plain post reaches exactly the plain callbacks of live subscriptions
      to its type: scoped subscribers never see it. */
  lemma PlainPostSkipsScopedSubscribers(ss: seq<Sub>, eid: EventId, name: string, dead: set<Address>, d: Delivery)
    ensures d in Dispatch(ss, Posted(eid, name), dead) <==>
              d.event == Posted(eid, name) &&
              exists s :: s in ss && Alive(s.id, dead) && s.eventType == Named(name) && s.handler == Callback(d.hid)
  {
    DispatchMembership(ss, Posted(eid, name), dead, d);
  }

  /** As documented, a scoped subscription is torn down with
      `unsubscribe(id: scope, MyEvent.self)`. That call removes entries on
      the type `MyEvent`, but the scoped entry is stored on
      `ScopedEvent<MyEvent>`: it stays and keeps receiving scoped posts. */
  lemma DocumentedScopedTeardownLeavesEntry(ss: seq<Sub>, sub: Sub, v: Value, name: string, eid: EventId, dead: set<Address>)
    requires sub in ss && Alive(sub.id, dead)
    requires sub.eventType == ScopedOf(Named(name)) && sub.handler.ScopeFilter?
    ensures sub in WithoutIdentifierAndType(ss, v, Named(name), dead)
    ensures Delivery(sub.handler.hid, Posted(eid, name)) in
              Dispatch(WithoutIdentifierAndType(ss, v, Named(name), dead), Envelope(sub.handler.scope, Posted(eid, name)), dead)
  {
    var rest := WithoutIdentifierAndType(ss, v, Named(name), dead);
    var envelope := Envelope(sub.handler.scope, Posted(eid, name));
    UnsubscribeIdentifierAndTypeExact(ss, v, Named(name), dead);
    assert sub in rest;
    assert sub.eventType == TypeOf(envelope);
    assert Invoke(sub.handler, envelope) == Some(Delivery(sub.handler.hid, Posted(eid, name)));
    DispatchMembership(rest, envelope, dead, Delivery(sub.handler.hid, Posted(eid, name)));
  }

  /** The teardown that does what the documentation intends: with the scope
      used as the identifier, `unsubscribe(id: scope)` removes the live scoped
      entry, while unrelated identifiers keep theirs; once removed, a scoped
      post with its key no longer reaches its callback, provided that
      callback was subscribed under this identity only. */
  lemma IdentifierTeardownRemovesScopedEntry(ss: seq<Sub>, sub: Sub, v: Value, name: string, eid: EventId, dead: set<Address>)
    requires sub in ss && Alive(sub.id, dead)
    requires sub.eventType == ScopedOf(Named(name)) && sub.handler.ScopeFilter?
    requires forall s :: s in ss && s.handler.hid == sub.handler.hid ==> s.id == sub.id
    ensures sub in WithoutIdentifier(ss, v, dead) <==> ParseId(v) != Ok(sub.id)
    ensures ParseId(v) == Ok(sub.id) ==>
              Delivery(sub.handler.hid, Posted(eid, name)) !in
              Dispatch(WithoutIdentifier(ss, v, dead), Envelope(sub.handler.scope, Posted(eid, name)), dead)
  {
    var rest := WithoutIdentifier(ss, v, dead);
    var envelope := Envelope(sub.handler.scope, Posted(eid, name));
    var d := Delivery(sub.handler.hid, Posted(eid, name));
    UnsubscribeIdentifierRemovesAllTypes(ss, v, ScopedOf(Named(name)), dead);
    MatchesValueIff(sub.id, v, dead);
    if ParseId(v) == Ok(sub.id) {
      DispatchMembership(rest, envelope, dead, d);
      forall s | s in rest && Alive(s.id, dead) && s.eventType == TypeOf(envelope)
        ensures Invoke(s.handler, envelope) != Some(d)
      {
        MatchesValueIff(s.id, v, dead);
      }
    }
  }
}
