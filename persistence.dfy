/** Persistent events: the three persistence rules, the notification loop of
    the persistent `post`, the buffer of unhandled events and the replay a
    new persistent subscription receives. */
module Persistence {
  import opened Wrappers
  import opened Identifiers
  import opened Events
  import opened Subscriptions
  import opened Registry

  datatype HandlerResult = HandledSuccessfully | Failed

  datatype PersistenceRule =
    | ClearImmediately                          // the first success ends the notification
    | ClearAfterAllCurrentSubscribersNotified   // everyone is notified; one success clears it
    | NeverClear                                // always kept, whatever the results

  /** A `PersistentEvent` instance: its class name (the type string `post`
      selects on), the names of its superclasses (an `as? T` cast to any of
      them succeeds) and its rule. */
  datatype PersistentEvent = PersistentEvent(eid: EventId, typeName: string, supertypes: set<string>, rule: PersistenceRule)

  /** `event as? T` for the class named `name`. */
  predicate IsA(e: PersistentEvent, name: string) {
    name == e.typeName || name in e.supertypes
  }

  /** What each persistent callback returns for each event. */
  type Results = (HandlerId, EventId) -> HandlerResult

  /** The loop state of the persistent `post`: the callbacks notified so far,
      the `handled` flag, and whether the loop has left by `break`. */
  datatype Progress = Progress(notified: seq<HandlerId>, handled: bool, stopped: bool)

  /** One iteration of the loop for callback `h`. */
  function Step(p: Progress, h: HandlerId, e: PersistentEvent, result: Results): Progress {
    var handled := p.handled || result(h, e.eid) == HandledSuccessfully;
    if !handled then Progress(p.notified + [h], false, false)
    else match e.rule
      case ClearImmediately => Progress(p.notified + [h], true, true)
      case ClearAfterAllCurrentSubscribersNotified => Progress(p.notified + [h], true, false)
      case NeverClear => Progress(p.notified + [h], false, false)
  }

  /** The loop over the callbacks `hs`, in order, until a `break`. */
  function Notify(hs: seq<HandlerId>, e: PersistentEvent, result: Results): Progress {
    if hs == [] then Progress([], false, false)
    else
      var p := Notify(hs[..|hs| - 1], e, result);
      if p.stopped then p else Step(p, hs[|hs| - 1], e, result)
  }

  /** The persistent-signature callbacks among entries, in order: the only
      ones the `(T) -> HandlerResult` cast lets through. */
  function PersistentHandlers(ss: seq<Sub>): seq<HandlerId> {
    if ss == [] then []
    else
      var last := ss[|ss| - 1];
      PersistentHandlers(ss[..|ss| - 1]) + (if last.handler.Persistent? then [last.handler.hid] else [])
  }

  /** The callbacks the persistent `post` of `e` visits. */
  function Candidates(ss: seq<Sub>, e: PersistentEvent, dead: set<Address>): seq<HandlerId> {
    PersistentHandlers(Snapshot(ss, Named(e.typeName), dead))
  }

  /** The buffer after a persistent `post`: an unhandled event goes to the
      front. */
  function Buffered(buffer: seq<PersistentEvent>, e: PersistentEvent, p: Progress): seq<PersistentEvent> {
    if p.handled then buffer else [e] + buffer
  }

  /** Whether replaying `e` to callback `h` subscribed to `name` leaves it in
      the buffer: it is of another type, the callback failed, or its rule is
      `neverClear`. */
  predicate Stays(e: PersistentEvent, name: string, h: HandlerId, result: Results) {
    !IsA(e, name) || result(h, e.eid) == Failed || e.rule == NeverClear
  }

  /** The buffer after replaying it to a new subscription. */
  function Kept(buffer: seq<PersistentEvent>, name: string, h: HandlerId, result: Results): seq<PersistentEvent> {
    if buffer == [] then []
    else (if Stays(buffer[0], name, h, result) then [buffer[0]] else []) + Kept(buffer[1..], name, h, result)
  }

  /** The events replayed to a new subscription, in the order it receives
      them: the walk goes from the last index down to the first. */
  function Replayed(buffer: seq<PersistentEvent>, name: string): seq<EventId> {
    if buffer == [] then []
    else Replayed(buffer[1..], name) + (if IsA(buffer[0], name) then [buffer[0].eid] else [])
  }

  /** The buffered events that are not of type `name`. */
  function Unrelated(buffer: seq<PersistentEvent>, name: string): seq<PersistentEvent> {
    if buffer == [] then []
    else (if IsA(buffer[0], name) then [] else [buffer[0]]) + Unrelated(buffer[1..], name)
  }

  lemma {:induction false} PersistentHandlersSplit(a: seq<Sub>, b: seq<Sub>)
    ensures PersistentHandlers(a + b) == PersistentHandlers(a) + PersistentHandlers(b)
    decreases |b|
  {
    if b == [] {
      assert a + b == a;
    } else {
      assert (a + b)[..|a + b| - 1] == a + b[..|b| - 1];
      PersistentHandlersSplit(a, b[..|b| - 1]);
    }
  }

  lemma PersistentHandlersStep(ss: seq<Sub>, i: nat)
    requires i < |ss|
    ensures ss[i].handler.Persistent? ==>
              PersistentHandlers(ss[..i + 1]) == PersistentHandlers(ss[..i]) + [ss[i].handler.hid]
    ensures !ss[i].handler.Persistent? ==> PersistentHandlers(ss[..i + 1]) == PersistentHandlers(ss[..i])
  {
    assert ss[..i + 1][..i] == ss[..i];
    assert PersistentHandlers(ss[..i]) + [] == PersistentHandlers(ss[..i]);
  }

  lemma NotifyStep(hs: seq<HandlerId>, h: HandlerId, e: PersistentEvent, result: Results)
    requires !Notify(hs, e, result).stopped
    ensures Notify(hs + [h], e, result) == Step(Notify(hs, e, result), h, e, result)
  {
    assert (hs + [h])[..|hs|] == hs;
  }

  /** Once the callbacks of the first `i` entries have stopped the loop, the
      outcome over all entries is already fixed. */
  lemma NotifyStopsAt(ss: seq<Sub>, i: nat, e: PersistentEvent, result: Results)
    requires i <= |ss| && Notify(PersistentHandlers(ss[..i]), e, result).stopped
    ensures Notify(PersistentHandlers(ss), e, result) == Notify(PersistentHandlers(ss[..i]), e, result)
  {
    assert ss == ss[..i] + ss[i..];
    PersistentHandlersSplit(ss[..i], ss[i..]);
    NotifyStopsForGood(PersistentHandlers(ss[..i]), PersistentHandlers(ss[i..]), e, result);
  }

  /** Once the loop has left by `break`, later callbacks change nothing. */
  lemma {:induction false} NotifyStopsForGood(a: seq<HandlerId>, b: seq<HandlerId>, e: PersistentEvent, result: Results)
    requires Notify(a, e, result).stopped
    ensures Notify(a + b, e, result) == Notify(a, e, result)
    decreases |b|
  {
    if b != [] {
      assert (a + b)[..|a + b| - 1] == a + b[..|b| - 1];
      NotifyStopsForGood(a, b[..|b| - 1], e, result);
    } else {
      assert a + b == a;
    }
  }

  /** Some callback among `hs` succeeds exactly when one before the last
      does or the last one does. */
  lemma SuccessStep(hs: seq<HandlerId>, front: seq<HandlerId>, e: PersistentEvent, result: Results)
    requires hs != [] && front == hs[..|hs| - 1]
    ensures (exists j :: 0 <= j < |hs| && result(hs[j], e.eid) == HandledSuccessfully) <==>
              (exists j :: 0 <= j < |front| && result(front[j], e.eid) == HandledSuccessfully) ||
              result(hs[|hs| - 1], e.eid) == HandledSuccessfully
  {
    if exists j :: 0 <= j < |hs| && result(hs[j], e.eid) == HandledSuccessfully {
      var j :| 0 <= j < |hs| && result(hs[j], e.eid) == HandledSuccessfully;
      if j < |hs| - 1 {
        assert front[j] == hs[j];
      }
    }
    if exists j :: 0 <= j < |front| && result(front[j], e.eid) == HandledSuccessfully {
      var j :| 0 <= j < |front| && result(front[j], e.eid) == HandledSuccessfully;
      assert hs[j] == front[j];
    }
  }

  /** `clearImmediately`: the callbacks notified are a prefix of the
      candidates that ends at the first success; the event counts as handled
      exactly when some candidate succeeds, and is then not buffered. */
  lemma {:induction false} ClearImmediatelyStopsAtFirstSuccess(hs: seq<HandlerId>, e: PersistentEvent, result: Results)
    requires e.rule == ClearImmediately
    ensures Notify(hs, e, result).stopped == Notify(hs, e, result).handled
    ensures var p := Notify(hs, e, result);
            |p.notified| <= |hs| && p.notified == hs[..|p.notified|]
    ensures Notify(hs, e, result).handled <==>
              exists j :: 0 <= j < |hs| && result(hs[j], e.eid) == HandledSuccessfully
    ensures var p := Notify(hs, e, result);
            forall j :: 0 <= j < |p.notified| - 1 ==> result(p.notified[j], e.eid) == Failed
    ensures var p := Notify(hs, e, result);
            p.handled ==> |p.notified| > 0 && result(p.notified[|p.notified| - 1], e.eid) == HandledSuccessfully
    ensures var p := Notify(hs, e, result);
            !p.handled ==> p.notified == hs
    decreases |hs|
  {
    if hs != [] {
      var front, last := hs[..|hs| - 1], hs[|hs| - 1];
      ClearImmediatelyStopsAtFirstSuccess(front, e, result);
      SuccessStep(hs, front, e, result);
      var p := Notify(front, e, result);
      if p.handled {
        assert p.notified == hs[..|p.notified|];
      } else {
        LastSplit(hs);
        NotifyStep(front, last, e, result);
      }
    }
  }

  /** `clearAfterAllCurrentSubscribersNotified`: every candidate is notified,
      and the event is handled exactly when at least one succeeds. */
  lemma {:induction false} ClearAfterAllNotifiesEveryone(hs: seq<HandlerId>, e: PersistentEvent, result: Results)
    requires e.rule == ClearAfterAllCurrentSubscribersNotified
    ensures Notify(hs, e, result).notified == hs
    ensures !Notify(hs, e, result).stopped
    ensures Notify(hs, e, result).handled <==>
              exists j :: 0 <= j < |hs| && result(hs[j], e.eid) == HandledSuccessfully
    decreases |hs|
  {
    if hs != [] {
      var front, last := hs[..|hs| - 1], hs[|hs| - 1];
      ClearAfterAllNotifiesEveryone(front, e, result);
      SuccessStep(hs, front, e, result);
      LastSplit(hs);
      NotifyStep(front, last, e, result);
    }
  }

  /** `neverClear`: every candidate is notified and the event always ends up
      unhandled, so it is always buffered. */
  lemma {:induction false} NeverClearNotifiesEveryoneAndBuffers(hs: seq<HandlerId>, e: PersistentEvent, result: Results, buffer: seq<PersistentEvent>)
    requires e.rule == NeverClear
    ensures Notify(hs, e, result) == Progress(hs, false, false)
    ensures Buffered(buffer, e, Notify(hs, e, result)) == [e] + buffer
    decreases |hs|
  {
    if hs != [] {
      var front := hs[..|hs| - 1];
      NeverClearNotifiesEveryoneAndBuffers(front, e, result, buffer);
      assert hs == front + [hs[|hs| - 1]];
    }
  }

  /** An unhandled post adds exactly one event, at index 0, and shifts the old
      contents unchanged; a handled one leaves the buffer as it was. */
  lemma BufferGrowsAtHead(buffer: seq<PersistentEvent>, e: PersistentEvent, p: Progress)
    ensures !p.handled ==>
              (|Buffered(buffer, e, p)| == |buffer| + 1 &&
               Buffered(buffer, e, p)[0] == e && Buffered(buffer, e, p)[1..] == buffer)
    ensures p.handled ==> Buffered(buffer, e, p) == buffer
  {
    if !p.handled {
      assert ([e] + buffer)[1..] == buffer;
    }
  }

  lemma ReplayStep(buffer: seq<PersistentEvent>, index: nat, name: string, h: HandlerId, result: Results)
    requires index < |buffer|
    ensures Kept(buffer[index..], name, h, result) ==
              (if Stays(buffer[index], name, h, result) then [buffer[index]] else []) + Kept(buffer[index + 1..], name, h, result)
    ensures Replayed(buffer[index..], name) ==
              Replayed(buffer[index + 1..], name) + (if IsA(buffer[index], name) then [buffer[index].eid] else [])
  {
    assert buffer[index..][1..] == buffer[index + 1..];
  }

  /** One step of the replay walk at `index`: the buffer before the step
      holds `buffer[index]` at `index`; an event that stays leaves it as it
      is, and removing one that does not stay gives the buffer after the
      step. */
  lemma VisitedSplit(buffer: seq<PersistentEvent>, index: nat, name: string, h: HandlerId, result: Results)
    requires index < |buffer|
    ensures (buffer[..index + 1] + Kept(buffer[index + 1..], name, h, result))[index] == buffer[index]
    ensures Stays(buffer[index], name, h, result) ==>
              buffer[..index + 1] + Kept(buffer[index + 1..], name, h, result) ==
              buffer[..index] + Kept(buffer[index..], name, h, result)
    ensures !Stays(buffer[index], name, h, result) ==>
              (buffer[..index + 1] + Kept(buffer[index + 1..], name, h, result))[..index] +
              (buffer[..index + 1] + Kept(buffer[index + 1..], name, h, result))[index + 1..] ==
              buffer[..index] + Kept(buffer[index..], name, h, result)
  {
    var rest := Kept(buffer[index + 1..], name, h, result);
    ReplayStep(buffer, index, name, h, result);
    assert buffer[..index + 1] == buffer[..index] + [buffer[index]];
    assert (buffer[..index + 1] + rest)[..index] == buffer[..index];
    assert (buffer[..index + 1] + rest)[index + 1..] == rest;
  }

  /** Replay receives older events first: for a buffer made of newer events
      in front of older ones, the older part is replayed before the newer. */
  lemma {:induction false} ReplayOldestFirst(newer: seq<PersistentEvent>, older: seq<PersistentEvent>, name: string)
    ensures Replayed(newer + older, name) == Replayed(older, name) + Replayed(newer, name)
    decreases |newer|
  {
    if newer == [] {
      assert newer + older == older;
    } else {
      assert (newer + older)[1..] == newer[1..] + older;
      ReplayOldestFirst(newer[1..], older, name);
    }
  }

  /** An event no one handled is replayed to the next subscriber of its
      type, after every event buffered before it. */
  lemma UnhandledEventIsReplayedLast(buffer: seq<PersistentEvent>, e: PersistentEvent, p: Progress, name: string)
    requires !p.handled && IsA(e, name)
    ensures Replayed(Buffered(buffer, e, p), name) == Replayed(buffer, name) + [e.eid]
  {
    ReplayOldestFirst([e], buffer, name);
    assert [e][1..] == [];
  }

  /** Replay removes exactly the events of the subscribed type that the new
      callback handled and whose rule allows clearing. */
  lemma {:induction false} KeptIff(buffer: seq<PersistentEvent>, name: string, h: HandlerId, result: Results, x: PersistentEvent)
    ensures x in Kept(buffer, name, h, result) <==> x in buffer && Stays(x, name, h, result)
    decreases |buffer|
  {
    if buffer != [] {
      KeptIff(buffer[1..], name, h, result, x);
      assert buffer == [buffer[0]] + buffer[1..];
    }
  }

  /** Events of other types are skipped by replay and stay where they were,
      relative to each other. */
  lemma {:induction false} ReplayLeavesOtherTypesInPlace(buffer: seq<PersistentEvent>, name: string, h: HandlerId, result: Results)
    ensures Unrelated(Kept(buffer, name, h, result), name) == Unrelated(buffer, name)
    decreases |buffer|
  {
    if buffer != [] {
      var first := if Stays(buffer[0], name, h, result) then [buffer[0]] else [];
      ReplayLeavesOtherTypesInPlace(buffer[1..], name, h, result);
      UnrelatedSplit(first, Kept(buffer[1..], name, h, result), name);
      assert first != [] ==> first[1..] == [];
    }
  }

  lemma {:induction false} UnrelatedSplit(a: seq<PersistentEvent>, b: seq<PersistentEvent>, name: string)
    ensures Unrelated(a + b, name) == Unrelated(a, name) + Unrelated(b, name)
    decreases |a|
  {
    if a == [] {
      assert a + b == b;
    } else {
      assert (a + b)[1..] == a[1..] + b;
      UnrelatedSplit(a[1..], b, name);
    }
  }
}
