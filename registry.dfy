/** The subscription registry of `Subbus` as functions on the `subscriptions`
    array: the purge of reclaimed identifiers, adding with and without
    replacement, the three `unsubscribe` variants and the selection and
    delivery done by `post`. The class in module EventBus applies them in
    place. */
module Registry {
  import opened Wrappers
  import opened Identifiers
  import opened Events
  import opened Subscriptions

  /** The conditions the registry filters entries by. */
  datatype Criterion =
    | Live(dead: set<Address>)
    | OfType(t: EventType)
    | ValueKeyed
    | SameEntry(other: Sub, dead: set<Address>)
    | SameIdentifier(v: Value, dead: set<Address>)
    | SameIdentifierAndType(v: Value, t: EventType, dead: set<Address>)
    | Not(c: Criterion)

  predicate Holds(c: Criterion, s: Sub) {
    match c
    case Live(dead) => Alive(s.id, dead)
    case OfType(t) => MatchesEventType(s, t)
    case ValueKeyed => s.id.Key?
    case SameEntry(other, dead) => Matches(s, other, dead)
    case SameIdentifier(v, dead) => MatchesIdentifier(s, v, dead)
    case SameIdentifierAndType(v, t, dead) => MatchesIdentifierAndType(s, v, t, dead)
    case Not(c') => !Holds(c', s)
  }

  /** The entries satisfying `c`, in their original order: Swift's `filter`,
      and what `removeAll(where:)` leaves of the array. */
  function Select(ss: seq<Sub>, c: Criterion): (r: seq<Sub>)
    ensures |r| <= |ss|
  {
    if ss == [] then []
    else Select(ss[..|ss| - 1], c) + (if Holds(c, ss[|ss| - 1]) then [ss[|ss| - 1]] else [])
  }

  lemma {:induction false} SelectMembership(ss: seq<Sub>, c: Criterion, x: Sub)
    ensures x in Select(ss, c) <==> x in ss && Holds(c, x)
    decreases |ss|
  {
    if ss != [] {
      SelectMembership(ss[..|ss| - 1], c, x);
      assert ss == ss[..|ss| - 1] + [ss[|ss| - 1]];
    }
  }

  /** Selecting from a concatenation selects from each part, in order. */
  lemma {:induction false} SelectSplit(a: seq<Sub>, b: seq<Sub>, c: Criterion)
    ensures Select(a + b, c) == Select(a, c) + Select(b, c)
    decreases |b|
  {
    if b == [] {
      assert a + b == a;
    } else {
      var b' := b[..|b| - 1];
      assert (a + b)[..|a + b| - 1] == a + b';
      SelectSplit(a, b', c);
    }
  }

  /** Selecting by `d` after `c`, where `d` implies `c`, selects by `d`. */
  lemma {:induction false} SelectNarrowing(ss: seq<Sub>, c: Criterion, d: Criterion)
    requires forall s :: Holds(d, s) ==> Holds(c, s)
    ensures Select(Select(ss, c), d) == Select(ss, d)
    decreases |ss|
  {
    if ss != [] {
      var front, last := ss[..|ss| - 1], ss[|ss| - 1];
      var kept := if Holds(c, last) then [last] else [];
      SelectNarrowing(front, c, d);
      assert Select(ss, c) == Select(front, c) + kept;
      SelectSplit(Select(front, c), kept, d);
      assert Select(kept, d) == if Holds(d, last) then [last] else [] by {
        SelectSingle(last, d);
        assert Select([], d) == [];
      }
    }
  }

  lemma SelectSingle(x: Sub, c: Criterion)
    ensures Select([x], c) == if Holds(c, x) then [x] else []
  {
    assert [x][..0] == [];
  }

  /** Two selections may be applied in either order. */
  lemma {:induction false} SelectCommutes(ss: seq<Sub>, c: Criterion, d: Criterion)
    ensures Select(Select(ss, c), d) == Select(Select(ss, d), c)
    decreases |ss|
  {
    if ss != [] {
      var last := ss[|ss| - 1];
      SelectCommutes(ss[..|ss| - 1], c, d);
      SelectSplit(Select(ss[..|ss| - 1], c), if Holds(c, last) then [last] else [], d);
      SelectSplit(Select(ss[..|ss| - 1], d), if Holds(d, last) then [last] else [], c);
    }
  }

  /** `clearInvalidSubscriptions`: drop entries whose weak identifier is nil. */
  function Purged(ss: seq<Sub>, dead: set<Address>): seq<Sub> {
    Select(ss, Live(dead))
  }

  /** `addSubscription(_:replace:)`: purge, optionally remove every entry
      matching the new one, then append it. */
  function Added(ss: seq<Sub>, sub: Sub, replace: bool, dead: set<Address>): seq<Sub> {
    var live := Purged(ss, dead);
    (if replace then Select(live, Not(SameEntry(sub, dead))) else live) + [sub]
  }

  /** A run of non-replacing `addSubscription` calls, in order. */
  function AddedAll(ss: seq<Sub>, adds: seq<Sub>, dead: set<Address>): seq<Sub> {
    if adds == [] then ss
    else Added(AddedAll(ss, adds[..|adds| - 1], dead), adds[|adds| - 1], false, dead)
  }

  /** `unsubscribe(id:event:)`. */
  function WithoutIdentifierAndType(ss: seq<Sub>, v: Value, t: EventType, dead: set<Address>): seq<Sub> {
    Select(ss, Not(SameIdentifierAndType(v, t, dead)))
  }

  /** `unsubscribe(id:)`. */
  function WithoutIdentifier(ss: seq<Sub>, v: Value, dead: set<Address>): seq<Sub> {
    Select(ss, Not(SameIdentifier(v, dead)))
  }

  /** `unsubscribe(event:)`. */
  function WithoutEventType(ss: seq<Sub>, t: EventType): seq<Sub> {
    Select(ss, Not(OfType(t)))
  }

  /** The list `post` iterates: the purged entries of exactly the posted type. */
  function Snapshot(ss: seq<Sub>, t: EventType, dead: set<Address>): seq<Sub> {
    Select(Purged(ss, dead), OfType(t))
  }

  /** What invoking each entry's closure, in order, delivers. */
  function Deliveries(ss: seq<Sub>, e: Event): seq<Delivery> {
    if ss == [] then []
    else
      var last := Invoke(ss[|ss| - 1].handler, e);
      Deliveries(ss[..|ss| - 1], e) + (if last.Some? then [last.value] else [])
  }

  /** What `post(event:)` delivers for registry `ss`. */
  function Dispatch(ss: seq<Sub>, e: Event, dead: set<Address>): seq<Delivery> {
    Deliveries(Snapshot(ss, TypeOf(e), dead), e)
  }

  lemma {:induction false} DeliveriesSplit(a: seq<Sub>, b: seq<Sub>, e: Event)
    ensures Deliveries(a + b, e) == Deliveries(a, e) + Deliveries(b, e)
    decreases |b|
  {
    if b == [] {
      assert a + b == a;
    } else {
      assert (a + b)[..|a + b| - 1] == a + b[..|b| - 1];
      DeliveriesSplit(a, b[..|b| - 1], e);
    }
  }

  lemma {:induction false} DeliveriesMembership(ss: seq<Sub>, e: Event, d: Delivery)
    ensures d in Deliveries(ss, e) <==> exists s :: s in ss && Invoke(s.handler, e) == Some(d)
    decreases |ss|
  {
    if ss != [] {
      DeliveriesMembership(ss[..|ss| - 1], e, d);
      assert ss == ss[..|ss| - 1] + [ss[|ss| - 1]];
    }
  }

  // ---------------------------------------------------------------------
  // Properties of the registry operations
  // ---------------------------------------------------------------------

  /** The purge removes exactly the entries whose identifier was reclaimed,
      keeps every value-keyed entry in its place, and a second purge with
      the same reclaimed set changes nothing. */
  lemma PurgeRemovesOnlyReclaimed(ss: seq<Sub>, dead: set<Address>)
    ensures forall x :: x in Purged(ss, dead) <==> x in ss && Alive(x.id, dead)
    ensures Select(Purged(ss, dead), ValueKeyed) == Select(ss, ValueKeyed)
    ensures Purged(Purged(ss, dead), dead) == Purged(ss, dead)
  {
    forall x {
      SelectMembership(ss, Live(dead), x);
    }
    SelectNarrowing(ss, Live(dead), ValueKeyed);
    SelectNarrowing(ss, Live(dead), Live(dead));
  }

  /** With `replace`, exactly one entry matching the new subscription remains
      and it is the new one, appended last; the other survivors are the live
      entries that do not match it. */
  lemma ReplaceLeavesExactlyOne(ss: seq<Sub>, sub: Sub, dead: set<Address>)
    ensures Select(Added(ss, sub, true, dead), SameEntry(sub, dead)) == [sub]
    ensures Added(ss, sub, true, dead)[|Added(ss, sub, true, dead)| - 1] == sub
    ensures forall x :: x in Added(ss, sub, true, dead) && x != sub <==>
              x in ss && x != sub && Alive(x.id, dead) && !Matches(x, sub, dead)
  {
    var live := Purged(ss, dead);
    var kept := Select(live, Not(SameEntry(sub, dead)));
    SelectSplit(kept, [sub], SameEntry(sub, dead));
    forall x | x in kept ensures !Holds(SameEntry(sub, dead), x) {
      SelectMembership(live, Not(SameEntry(sub, dead)), x);
    }
    SelectNone(kept, SameEntry(sub, dead));
    MatchesIsEquivalence(sub, sub, sub, dead);
    assert Select([sub], SameEntry(sub, dead)) == [sub];
    forall x
      ensures x in Added(ss, sub, true, dead) && x != sub <==>
              x in ss && x != sub && Alive(x.id, dead) && !Matches(x, sub, dead)
    {
      SelectMembership(live, Not(SameEntry(sub, dead)), x);
      SelectMembership(ss, Live(dead), x);
    }
  }

  /** Without `replace` the new entry is appended after the purged registry,
      so each earlier matching entry stays and the new one adds one more. */
  lemma AddWithoutReplaceKeepsDuplicates(ss: seq<Sub>, sub: Sub, dead: set<Address>)
    ensures Added(ss, sub, false, dead) == Purged(ss, dead) + [sub]
    ensures |Select(Added(ss, sub, false, dead), SameEntry(sub, dead))| ==
            |Select(Purged(ss, dead), SameEntry(sub, dead))| + 1
  {
    SelectSplit(Purged(ss, dead), [sub], SameEntry(sub, dead));
    MatchesIsEquivalence(sub, sub, sub, dead);
    assert Select([sub], SameEntry(sub, dead)) == [sub];
  }

  lemma {:induction false} SelectNone(ss: seq<Sub>, c: Criterion)
    requires forall x :: x in ss ==> !Holds(c, x)
    ensures Select(ss, c) == []
    decreases |ss|
  {
    if ss != [] {
      SelectNone(ss[..|ss| - 1], c);
    }
  }

  /** `unsubscribe(id:event:)` removes exactly the entries matching both the
      identifier and the type, and the survivors keep their order. */
  lemma UnsubscribeIdentifierAndTypeExact(ss: seq<Sub>, v: Value, t: EventType, dead: set<Address>)
    ensures forall x :: x in WithoutIdentifierAndType(ss, v, t, dead) <==>
              x in ss && !MatchesIdentifierAndType(x, v, t, dead)
  {
    forall x
      ensures x in WithoutIdentifierAndType(ss, v, t, dead) <==> x in ss && !MatchesIdentifierAndType(x, v, t, dead)
    {
      SelectMembership(ss, Not(SameIdentifierAndType(v, t, dead)), x);
    }
  }

  /** `unsubscribe(id:event:)` leaves the entries of every other type, of this
      identifier or any other, exactly as they were. */
  lemma UnsubscribeIdentifierAndTypeKeepsOtherTypes(ss: seq<Sub>, v: Value, t: EventType, other: EventType, dead: set<Address>)
    requires other != t
    ensures Select(WithoutIdentifierAndType(ss, v, t, dead), OfType(other)) == Select(ss, OfType(other))
  {
    var c := Not(SameIdentifierAndType(v, t, dead));
    SelectCommutes(ss, c, OfType(other));
    forall x | x in Select(ss, OfType(other)) ensures Holds(c, x) {
      SelectMembership(ss, OfType(other), x);
    }
    SelectKeepsAll(Select(ss, OfType(other)), c);
  }

  lemma {:induction false} SelectKeepsAll(ss: seq<Sub>, c: Criterion)
    requires forall x :: x in ss ==> Holds(c, x)
    ensures Select(ss, c) == ss
    decreases |ss|
  {
    if ss != [] {
      var front := ss[..|ss| - 1];
      forall x | x in front ensures Holds(c, x) {
        assert x in ss;
      }
      SelectKeepsAll(front, c);
      LastSplit(ss);
    }
  }

  /** `unsubscribe(id:)` removes the identifier's entries of every type and
      nothing else; afterwards no live entry carries the identity the value
      resolves to, so no later post of any type reaches it. */
  lemma UnsubscribeIdentifierRemovesAllTypes(ss: seq<Sub>, v: Value, t: EventType, dead: set<Address>)
    ensures forall x :: x in WithoutIdentifier(ss, v, dead) <==> x in ss && !MatchesIdentifier(x, v, dead)
    ensures ParseId(v).Ok? ==>
              forall x :: x in Snapshot(WithoutIdentifier(ss, v, dead), t, dead) ==> x.id != ParseId(v).value
  {
    var w := WithoutIdentifier(ss, v, dead);
    forall x ensures x in w <==> x in ss && !MatchesIdentifier(x, v, dead) {
      SelectMembership(ss, Not(SameIdentifier(v, dead)), x);
    }
    forall x | x in Snapshot(w, t, dead) ensures ParseId(v).Ok? ==> x.id != ParseId(v).value {
      SelectMembership(Purged(w, dead), OfType(t), x);
      SelectMembership(w, Live(dead), x);
      MatchesValueIff(x.id, v, dead);
    }
  }

  /** `unsubscribe(event:)` removes every entry of the type, whatever its
      identifier, and leaves the entries of every other type as they were. */
  lemma UnsubscribeEventTypeRemovesAll(ss: seq<Sub>, t: EventType, other: EventType)
    requires other != t
    ensures Select(WithoutEventType(ss, t), OfType(t)) == []
    ensures Select(WithoutEventType(ss, t), OfType(other)) == Select(ss, OfType(other))
  {
    var w := WithoutEventType(ss, t);
    forall x | x in w ensures !Holds(OfType(t), x) {
      SelectMembership(ss, Not(OfType(t)), x);
    }
    SelectNone(w, OfType(t));
    SelectNarrowing(ss, Not(OfType(t)), OfType(other));
  }

  /** `post` handles the registry entry by entry, in insertion order: the
      delivery list of a concatenation is the concatenation of the lists. */
  lemma DispatchSplit(a: seq<Sub>, b: seq<Sub>, e: Event, dead: set<Address>)
    ensures Dispatch(a + b, e, dead) == Dispatch(a, e, dead) + Dispatch(b, e, dead)
  {
    SelectSplit(a, b, Live(dead));
    SelectSplit(Purged(a, dead), Purged(b, dead), OfType(TypeOf(e)));
    DeliveriesSplit(Snapshot(a, TypeOf(e), dead), Snapshot(b, TypeOf(e), dead), e);
  }

  /** A single entry is invoked once when it is live and of exactly the posted
      type, and not at all otherwise. */
  lemma DispatchSingle(s: Sub, e: Event, dead: set<Address>)
    ensures Dispatch([s], e, dead) ==
              if Alive(s.id, dead) && s.eventType == TypeOf(e) && Invoke(s.handler, e).Some?
              then [Invoke(s.handler, e).value] else []
  {
    assert [s][..0] == [];
    assert Purged([s], dead) == if Alive(s.id, dead) then [s] else [];
    assert Select([s], OfType(TypeOf(e))) == if s.eventType == TypeOf(e) then [s] else [];
    assert Deliveries([s], e) == if Invoke(s.handler, e).Some? then [Invoke(s.handler, e).value] else [];
  }

  /** A delivery happens exactly when some live entry of exactly the posted
      type has a closure that delivers it. */
  lemma DispatchMembership(ss: seq<Sub>, e: Event, dead: set<Address>, d: Delivery)
    ensures d in Dispatch(ss, e, dead) <==>
              exists s :: s in ss && Alive(s.id, dead) && s.eventType == TypeOf(e) && Invoke(s.handler, e) == Some(d)
  {
    var snap := Snapshot(ss, TypeOf(e), dead);
    DeliveriesMembership(snap, e, d);
    forall s ensures s in snap <==> s in ss && Alive(s.id, dead) && s.eventType == TypeOf(e) {
      SelectMembership(Purged(ss, dead), OfType(TypeOf(e)), s);
      SelectMembership(ss, Live(dead), s);
    }
  }

  /** Subscribing twice without `replace` makes both entries fire: a post
      after the add delivers what it delivered before, then the new entry. */
  lemma DuplicateSubscriptionsEachFire(ss: seq<Sub>, sub: Sub, e: Event, dead: set<Address>)
    ensures Dispatch(Added(ss, sub, false, dead), e, dead) ==
              Dispatch(ss, e, dead) + Dispatch([sub], e, dead)
  {
    DispatchSplit(Purged(ss, dead), [sub], e, dead);
    PurgeRemovesOnlyReclaimed(ss, dead);
    assert Purged(Purged(ss, dead), dead) == Purged(ss, dead);
  }

  /** The entries the callbacks reached by a post subscribe while they run,
      in delivery order; `reaction(h)` is what callback `h` subscribes. */
  function Reactions(ds: seq<Delivery>, reaction: HandlerId -> seq<Sub>): seq<Sub> {
    if ds == [] then []
    else Reactions(ds[..|ds| - 1], reaction) + reaction(ds[|ds| - 1].hid)
  }

  /** Regrouping the deliveries after a run of adds: the old entries'
      deliveries followed by those of the earlier adds, then of the last
      add, are the old entries' deliveries followed by those of all adds. */
  lemma AppendedLaterGroupsWithAdded(existing: seq<Delivery>, earlier: seq<Delivery>, last: seq<Delivery>,
                                     beforeLast: seq<Delivery>, allAdds: seq<Delivery>, after: seq<Delivery>)
    requires beforeLast == existing + earlier && allAdds == earlier + last && after == beforeLast + last
    ensures after == existing + allAdds
  {
  }

  /** A non-empty sequence is its front followed by its last element. */
  lemma LastSplit<T>(s: seq<T>)
    requires s != []
    ensures s == s[..|s| - 1] + [s[|s| - 1]]
  {
  }

  lemma DeliveriesStep(ss: seq<Sub>, i: nat, e: Event)
    requires i < |ss|
    ensures Deliveries(ss[..i + 1], e) ==
              Deliveries(ss[..i], e) + (if Invoke(ss[i].handler, e).Some? then [Invoke(ss[i].handler, e).value] else [])
  {
    assert ss[..i + 1][..i] == ss[..i];
  }

  lemma ReactionsStep(ds: seq<Delivery>, d: Delivery, reaction: HandlerId -> seq<Sub>)
    ensures Reactions(ds + [d], reaction) == Reactions(ds, reaction) + reaction(d.hid)
  {
    assert (ds + [d])[..|ds|] == ds;
  }

  lemma AddedAllStep(ss: seq<Sub>, done: seq<Sub>, adds: seq<Sub>, j: nat, dead: set<Address>)
    requires j < |adds|
    ensures AddedAll(ss, done + adds[..j + 1], dead) == Added(AddedAll(ss, done + adds[..j], dead), adds[j], false, dead)
  {
    assert (done + adds[..j + 1])[..|done| + j] == done + adds[..j];
  }

  /** Entries subscribed one after another all fire on every later post,
      after the entries that were there before, each once. */
  lemma {:induction false} AddedAllFireOnLaterPosts(ss: seq<Sub>, adds: seq<Sub>, e: Event, dead: set<Address>)
    ensures Dispatch(AddedAll(ss, adds, dead), e, dead) == Dispatch(ss, e, dead) + Dispatch(adds, e, dead)
    decreases |adds|
  {
    if adds == [] {
      assert Dispatch(adds, e, dead) == [];
    } else {
      var front, last := adds[..|adds| - 1], adds[|adds| - 1];
      var before := AddedAll(ss, front, dead);
      assert Dispatch(AddedAll(ss, adds, dead), e, dead) == Dispatch(before, e, dead) + Dispatch([last], e, dead) by {
        assert AddedAll(ss, adds, dead) == Added(before, last, false, dead);
        DuplicateSubscriptionsEachFire(before, last, e, dead);
      }
      assert Dispatch(adds, e, dead) == Dispatch(front, e, dead) + Dispatch([last], e, dead) by {
        LastSplit(adds);
        DispatchSplit(front, [last], e, dead);
      }
      AddedAllFireOnLaterPosts(ss, front, e, dead);
      AppendedLaterGroupsWithAdded(Dispatch(ss, e, dead), Dispatch(front, e, dead), Dispatch([last], e, dead),
                                   Dispatch(before, e, dead), Dispatch(adds, e, dead), Dispatch(AddedAll(ss, adds, dead), e, dead));
    }
  }
}
