/** The `Subbus` state: the subscription registry and the buffer of
    unhandled persistent events, with every operation that reads or changes
    them. The library keeps these as static variables; here they are the
    fields of one object. */
module EventBus {
  import opened Wrappers
  import opened Identifiers
  import opened Events
  import opened Subscriptions
  import opened Registry
  import opened Persistence
  import opened Scoping

  class Subbus {
    var subscriptions: seq<Sub>
    var unhandledEvents: seq<PersistentEvent>

    constructor ()
      ensures subscriptions == [] && unhandledEvents == []
    {
      subscriptions := [];
      unhandledEvents := [];
    }

    /** `clearInvalidSubscriptions`: drops the entries whose weak identifier
        has been reclaimed (`dead` holds the reclaimed instances). */
    method ClearInvalidSubscriptions(dead: set<Address>)
      modifies this`subscriptions
      ensures subscriptions == Purged(old(subscriptions), dead)
    {
      subscriptions := Select(subscriptions, Live(dead));
    }

    /** `addSubscription(_:replace:)`: purge, optionally remove every entry
        matching the new one, then append it. */
    method AddSubscription(sub: Sub, replace: bool, dead: set<Address>)
      modifies this`subscriptions
      ensures subscriptions == Added(old(subscriptions), sub, replace, dead)
    {
      ClearInvalidSubscriptions(dead);
      if replace {
        subscriptions := Select(subscriptions, Not(SameEntry(sub, dead)));
      }
      subscriptions := subscriptions + [sub];
    }

    /** `addSubscription(id:event:replace:callback:)` for a plain callback
        `h` on the type named `name`; an identifier that cannot be resolved
        changes nothing. */
    method Subscribe(v: Value, name: string, replace: bool, h: HandlerId, dead: set<Address>)
      modifies this`subscriptions
      ensures NewSubscription(v, Named(name), Callback(h)).None? ==> subscriptions == old(subscriptions)
      ensures NewSubscription(v, Named(name), Callback(h)).Some? ==>
                subscriptions == Added(old(subscriptions), NewSubscription(v, Named(name), Callback(h)).value, replace, dead)
    {
      var subscription := NewSubscription(v, Named(name), Callback(h));
      if subscription.None? {
        return;
      }
      AddSubscription(subscription.value, replace, dead);
    }

    /** `post(event:)`. The entries of the posted type are selected once,
        after the purge, and their closures run in order; `reaction(h)` are
        the subscriptions callback `h` adds while it runs. What is delivered
        depends only on the registry before the post: entries added during
        the post wait for the next one. */
    method Post(e: Event, dead: set<Address>, reaction: HandlerId -> seq<Sub>) returns (delivered: seq<Delivery>)
      modifies this`subscriptions
      ensures delivered == Dispatch(old(subscriptions), e, dead)
      ensures subscriptions == AddedAll(Purged(old(subscriptions), dead), Reactions(delivered, reaction), dead)
    {
      ClearInvalidSubscriptions(dead);
      ghost var start := subscriptions;
      var snapshot := Select(subscriptions, OfType(TypeOf(e)));
      delivered := [];
      for i := 0 to |snapshot|
        invariant delivered == Deliveries(snapshot[..i], e)
        invariant subscriptions == AddedAll(start, Reactions(delivered, reaction), dead)
      {
        DeliveriesStep(snapshot, i, e);
        match Invoke(snapshot[i].handler, e)
        case None =>
        case Some(d) =>
          ghost var before := Reactions(delivered, reaction);
          ReactionsStep(delivered, d, reaction);
          delivered := delivered + [d];
          var adds := reaction(d.hid);
          assert before + adds[..0] == before;
          for j := 0 to |adds|
            invariant subscriptions == AddedAll(start, before + adds[..j], dead)
          {
            AddedAllStep(start, before, adds, j, dead);
            AddSubscription(adds[j], false, dead);
          }
          assert adds[..|adds|] == adds;
      }
      assert snapshot[..|snapshot|] == snapshot;
    }

    /** `unsubscribe(id:event:)`. */
    method UnsubscribeIdentifierAndType(v: Value, name: string, dead: set<Address>)
      modifies this`subscriptions
      ensures subscriptions == WithoutIdentifierAndType(old(subscriptions), v, Named(name), dead)
    {
      subscriptions := Select(subscriptions, Not(SameIdentifierAndType(v, Named(name), dead)));
    }

    /** `unsubscribe(id:)`. */
    method UnsubscribeIdentifier(v: Value, dead: set<Address>)
      modifies this`subscriptions
      ensures subscriptions == WithoutIdentifier(old(subscriptions), v, dead)
    {
      subscriptions := Select(subscriptions, Not(SameIdentifier(v, dead)));
    }

    /** `unsubscribe(event:)`. */
    method UnsubscribeEventType(name: string)
      modifies this`subscriptions
      ensures subscriptions == WithoutEventType(old(subscriptions), Named(name))
    {
      subscriptions := Select(subscriptions, Not(OfType(Named(name))));
    }

    /** `clearHistory`: empties the buffer of unhandled persistent events. */
    method ClearHistory()
      modifies this`unhandledEvents
      ensures unhandledEvents == []
    {
      unhandledEvents := [];
    }

    /** `clearSubscribers`: empties the registry. */
    method ClearSubscribers()
      modifies this`subscriptions
      ensures subscriptions == []
    {
      subscriptions := [];
    }

    /** The persistent `addSubscription`: registers persistent callback `h`
        on the class named `name`, then walks the buffer from its last index
        down to 0, hands every event that is an instance of that class to the
        callback and removes those it handled unless their rule is
        `neverClear`. Returns the events replayed, in replay order. */
    method SubscribePersistent(v: Value, name: string, replace: bool, h: HandlerId, dead: set<Address>, result: Results)
      returns (replayed: seq<EventId>)
      modifies this`subscriptions, this`unhandledEvents
      ensures NewSubscription(v, Named(name), Persistent(h)).None? ==>
                subscriptions == old(subscriptions) && unhandledEvents == old(unhandledEvents) && replayed == []
      ensures NewSubscription(v, Named(name), Persistent(h)).Some? ==>
                subscriptions == Added(old(subscriptions), NewSubscription(v, Named(name), Persistent(h)).value, replace, dead) &&
                unhandledEvents == Kept(old(unhandledEvents), name, h, result) &&
                replayed == Replayed(old(unhandledEvents), name)
    {
      replayed := [];
      var subscription := NewSubscription(v, Named(name), Persistent(h));
      if subscription.None? {
        return;
      }
      AddSubscription(subscription.value, replace, dead);
      ghost var registered := subscriptions;
      ghost var buffer := unhandledEvents;
      for index := |unhandledEvents| downto 0
        invariant subscriptions == registered
        invariant unhandledEvents == buffer[..index] + Kept(buffer[index..], name, h, result)
        invariant replayed == Replayed(buffer[index..], name)
      {
        ReplayStep(buffer, index, name, h, result);
        VisitedSplit(buffer, index, name, h, result);
        var unhandledEvent := unhandledEvents[index];
        if !IsA(unhandledEvent, name) {
          continue;
        }
        var outcome := result(h, unhandledEvent.eid);
        replayed := replayed + [unhandledEvent.eid];
        if outcome == HandledSuccessfully {
          match unhandledEvent.rule
          case ClearImmediately | ClearAfterAllCurrentSubscribersNotified =>
            unhandledEvents := unhandledEvents[..index] + unhandledEvents[index + 1..];
          case NeverClear =>
        }
      }
    }

    /** The persistent `post(event:)`: after the purge, the persistent
        callbacks on the event's class are notified in order until the rule
        stops the loop; an event nobody handled is buffered at the front.
        Returns the callbacks notified, in order. */
    method PostPersistent(e: PersistentEvent, dead: set<Address>, result: Results) returns (notified: seq<HandlerId>)
      modifies this`subscriptions, this`unhandledEvents
      ensures subscriptions == Purged(old(subscriptions), dead)
      ensures notified == Notify(Candidates(old(subscriptions), e, dead), e, result).notified
      ensures unhandledEvents == Buffered(old(unhandledEvents), e, Notify(Candidates(old(subscriptions), e, dead), e, result))
    {
      ClearInvalidSubscriptions(dead);
      var snapshot := Select(subscriptions, OfType(Named(e.typeName)));
      var handled := false;
      notified := [];
      var i := 0;
      ghost var stopped := false;
      label iteration:
      while i < |snapshot|
        invariant 0 <= i <= |snapshot|
        invariant Notify(PersistentHandlers(snapshot[..i]), e, result) == Progress(notified, handled, false)
        invariant subscriptions == Purged(old(subscriptions), dead)
        invariant unhandledEvents == old(unhandledEvents)
        invariant !stopped
      {
        var subscription := snapshot[i];
        PersistentHandlersStep(snapshot, i);
        ghost var visited := PersistentHandlers(snapshot[..i]);
        i := i + 1;
        if !subscription.handler.Persistent? {
            continue;
        }
        NotifyStep(visited, subscription.handler.hid, e, result);
        var outcome := result(subscription.handler.hid, e.eid);
        notified := notified + [subscription.handler.hid];
        handled := handled || outcome == HandledSuccessfully;
        if handled {
          match e.rule
          case ClearImmediately =>
            NotifyStopsAt(snapshot, i, e, result);
            stopped := true;
            break iteration;
          case ClearAfterAllCurrentSubscribersNotified =>
            continue;
          case NeverClear =>
            handled := false;
            continue;
        }
      }
      if !stopped {
        assert snapshot[..i] == snapshot;
      }
      assert snapshot == Snapshot(old(subscriptions), Named(e.typeName), dead);
      if !handled {
        unhandledEvents := [e] + unhandledEvents;
      }
    }

    /** `addSubscription(id:event:limitedToScope:callback:)`: refuses an
        optional scope and one without a usable description; otherwise
        subscribes, without replacing, a scope closure for callback `h` on
        the envelope type of `name`. */
    method SubscribeScoped(v: Value, name: string, scope: Value, h: HandlerId, dead: set<Address>)
      modifies this`subscriptions
      ensures ScopeKey(scope).None? ==> subscriptions == old(subscriptions)
      ensures ScopeKey(scope).Some? && NewSubscription(v, ScopedOf(Named(name)), ScopeFilter(ScopeKey(scope).value, h)).None? ==>
                subscriptions == old(subscriptions)
      ensures ScopeKey(scope).Some? && NewSubscription(v, ScopedOf(Named(name)), ScopeFilter(ScopeKey(scope).value, h)).Some? ==>
                subscriptions == Added(old(subscriptions), NewSubscription(v, ScopedOf(Named(name)), ScopeFilter(ScopeKey(scope).value, h)).value, false, dead)
    {
      var key := ScopeKey(scope);
      if key.None? {
        return;
      }
      var subscription := NewSubscription(v, ScopedOf(Named(name)), ScopeFilter(key.value, h));
      if subscription.None? {
        return;
      }
      AddSubscription(subscription.value, false, dead);
    }

    /** `post(event:limitedToScope:)`: refuses the same scopes as
        `SubscribeScoped`; otherwise posts the envelope carrying the scope
        key and `e`. */
    method PostScoped(e: Event, scope: Value, dead: set<Address>, reaction: HandlerId -> seq<Sub>) returns (delivered: seq<Delivery>)
      modifies this`subscriptions
      ensures ScopeKey(scope).None? ==> delivered == [] && subscriptions == old(subscriptions)
      ensures ScopeKey(scope).Some? ==>
                delivered == Dispatch(old(subscriptions), Envelope(ScopeKey(scope).value, e), dead) &&
                subscriptions == AddedAll(Purged(old(subscriptions), dead), Reactions(delivered, reaction), dead)
    {
      var key := ScopeKey(scope);
      if key.None? {
        return [];
      }
      delivered := Post(Envelope(key.value, e), dead, reaction);
    }
  }
}
