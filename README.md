# Subbus, modelled in Dafny

Subbus is an in-process, typed publish/subscribe event bus for Swift. This project models its core and proves properties about it. The core covers:

- The subscription registry, an ordered list of entries. Each entry holds a resolved subscriber identity, an event-type string and a handler closure.
- The resolution of arbitrary subscriber identifiers into comparable identities. Value identifiers become a `"<type>-<rendering>"` key. Class instances keep reference identity, through a weak reference.
- The dispatch loop of `post`.
- The three `unsubscribe` variants.
- Persistent events. An event nobody handled is buffered and replayed to later subscribers under one of three persistence rules.
- The scope layer. It wraps events in a `ScopedEvent<T>` envelope that carries a canonical scope key.

Modules, in dependency order:

| module | file | what it holds |
|---|---|---|
| `Wrappers` | wrappers.dfy | `Option` and `Result` |
| `Identifiers` | identifiers.dfy | Swift values as identifiers, `stringFor`, `parseId`, the identity comparison of `matches(identifier:)` |
| `Events` | events.dfy | Event types as tags, posted events, scope envelopes, handler kinds, and what invoking a closure delivers |
| `Subscriptions` | subscriptions.dfy | `Subscription.init?` and the `matches` family |
| `Registry` | registry.dfy | Every registry operation as a function on the entry list (purge, add, replace, the unsubscribes, the dispatch of `post`) and its properties |
| `Persistence` | persistence.dfy | Persistence rules, the notification loop of the persistent `post`, the buffer, replay, and their properties |
| `Scoping` | scoping.dfy | Scope keys, the scope closure, and the delivery properties of scoped posts |
| `EventBus` | bus.dfy | `class Subbus`, covered below |

`class Subbus` in bus.dfy has the two arrays the library keeps as static variables, `subscriptions` and `unhandledEvents`, as fields. It has one method per public or internal operation. Each method is proved against the functions of `Registry`, `Persistence` and `Scoping`.

How the environment enters the model:

- **Reflection.** A subscriber identifier or scope arrives already classified by its Mirror display style, with its type name and its textual rendering. A class instance arrives with its address.
- **ARC reclamation.** It is a set `dead` of reclaimed addresses, which every liveness-dependent operation takes.
- **Handler closures.** They are identifiers with a kind: a plain `(T) -> Void` callback, a persistent `(T) -> HandlerResult` callback, or the scope closure around a callback.
- **Persistent results.** What a persistent callback returns is a function `Results` from (callback, event) to `HandlerResult`.
- **Re-entrant subscription.** A callback that subscribes while `post` runs is a function `reaction` from callback to the entries it adds.

Replay order: the buffer of unhandled persistent events is kept newest-first, and `addSubscription` walks it from its last index down to 0, so it replays oldest-first (Subbus/Classes/Subbus.PersistentEvent.swift:58). This is the order the program's own test `testEventsReceivedChronologically` expects (Example/Tests/SubbusTests.Persistent.swift:110-124). `ReplayOldestFirst` states it.

Subbus/Classes/Scoping.swift is an older copy of the scope layer and is modelled once, through Subbus/Classes/Subbus.Scoping.swift:

- Its `post(event:limitedToScope:)` (lines 23-33) has the same guards and the same envelope as the post modelled by `EventBus.Subbus.PostScoped`.
- Its `subscribe` (lines 35-47) wraps the callback in the same scope closure.
- The `Subbus.subscribe` that its `subscribe` calls is not part of this model.

The duplicated `Subscription` struct at Subbus/Classes/Subbus.swift:171-248 is modelled once, from Subbus/Classes/Subscription.swift.

## Model

| member | source | states |
|---|---|---|
| Identifiers.StringFor | Subbus/Classes/Subbus.swift:133-149 | There is no key exactly when the rendering is empty or is "nil". Otherwise the key is exactly the type name, a dash, then the rendering, so its length is their lengths plus one. |
| Identifiers.StringForSeparatesTypes | Subbus/Classes/Subbus.swift:148 | Two values with equal renderings share a key only when their type names, the unqualified `type(of:)` text, are equal. |
| Identifiers.StringForInjective | Subbus/Classes/Subbus.swift:144-148 | For type names without a dash, the key determines both the type name and the rendering. |
| Identifiers.ObjectKeysAreReferenceIdentity | Subbus/Classes/Subbus.swift:138-139 | A class instance always has a key. Two instances share a key only when they have the same type and the same address. |
| Identifiers.Unwrapped | Subbus/Classes/Subscription.swift:40-49 | Unwrapping removes every optional layer, and the result is never an optional. |
| Identifiers.ParseId | Subbus/Classes/Subscription.swift:36-61 | Nil is rejected exactly when some optional layer is empty. The result is a reference exactly when the unwrapped value is a class instance, at that address. A key is the `stringFor` key of the unwrapped value. The value is rejected for lack of a rendering exactly when `stringFor` fails on a recognised value style. It is unrecognizable exactly for the other display styles. |
| Identifiers.MatchesValueIff | Subbus/Classes/Subscription.swift:63-72 | A live stored identity matches a supplied identifier exactly when the identifier resolves to that identity. So a value identifier changed after subscribing no longer matches. A reclaimed identity matches no identifier a caller supplies, because the caller's argument arrives wrapped in one more optional and never describes as a bare nil. |
| Identifiers.MatchesIdentityIsEquivalence | Subbus/Classes/Subscription.swift:63-72 | The identity comparison between entries is reflexive, symmetric and transitive. |
| Identifiers.MatchesIdentityOfLive | Subbus/Classes/Subscription.swift:65-68 | Between live identities, the comparison is equality: keys compare as strings and objects by address. |
| Subscriptions.NewSubscription | Subbus/Classes/Subscription.swift:16-34 | There is an entry exactly when `parseId` accepts the identifier. It carries the resolved identity, the event type and the handler. A nil optional never yields an entry. |
| Subscriptions.MatchesIgnoresHandler | Subbus/Classes/Subscription.swift:84-86 | `matches(_:)` does not depend on the other entry's handler. |
| Subscriptions.MatchesIdentifierAndTypeIff | Subbus/Classes/Subscription.swift:78-82 | The combined match holds exactly when both component matches hold. For a live entry, that means the identifier resolves to its identity and the type strings are equal. |
| Subscriptions.ReplaceAgreesWithUnsubscribe | Subbus/Classes/Subscription.swift:84-86 | For a new entry with a live identity, the entries `replace` removes are exactly those `unsubscribe(id:event:)` removes for the same identifier and type. |
| Subscriptions.MatchesIsEquivalence | Subbus/Classes/Subscription.swift:84-86 | `matches(_:)` is an equivalence relation on entries. |
| Registry.PurgeRemovesOnlyReclaimed | Subbus/Classes/Subbus.swift:156-158 | The purge keeps exactly the entries whose identity is alive. Every value-keyed entry stays, in order. A second purge changes nothing. |
| Registry.ReplaceLeavesExactlyOne | Subbus/Classes/Subbus.swift:86-94 | After a replacing add, exactly one matching entry remains, the new one, appended last. The other survivors are exactly the live entries that do not match it. |
| Registry.AddWithoutReplaceKeepsDuplicates | Subbus/Classes/Subbus.swift:89-93 | A non-replacing add appends to the purged list, so the number of matching entries grows by exactly one. |
| Registry.UnsubscribeIdentifierAndTypeExact | Subbus/Classes/Subbus.swift:112-118 | `unsubscribe(id:event:)` keeps exactly the entries that do not match both the identifier and the type. |
| Registry.UnsubscribeIdentifierAndTypeKeepsOtherTypes | Subbus/Classes/Subbus.swift:115 | Entries of any other type, whatever their identifier, are untouched and keep their order. |
| Registry.UnsubscribeIdentifierRemovesAllTypes | Subbus/Classes/Subbus.swift:120-124 | `unsubscribe(id:)` keeps exactly the entries that do not match the identifier. Afterwards no entry of any type that a post would reach has the resolved identity. |
| Registry.UnsubscribeEventTypeRemovesAll | Subbus/Classes/Subbus.swift:126-129 | `unsubscribe(event:)` leaves no entry of that type, and entries of every other type are untouched and keep their order. |
| Registry.DispatchSplit | Subbus/Classes/Subbus.swift:102-106 | `post` handles the registry entry by entry in insertion order. The deliveries of a concatenation are the concatenation of the deliveries. |
| Registry.DispatchSingle | Subbus/Classes/Subbus.swift:98-106 | An entry is invoked once when it is live, of exactly the posted type and of the matching closure shape. Otherwise it is not invoked. |
| Registry.DispatchMembership | Subbus/Classes/Subbus.swift:97-109 | A callback receives an event exactly when some live entry of exactly the posted type holds a closure that delivers it. |
| Registry.DuplicateSubscriptionsEachFire | Example/Tests/SubbusTests.swift:72-86 | After a non-replacing add, a post delivers what it delivered before, followed by the new entry's delivery. |
| Registry.AddedAllFireOnLaterPosts | Subbus/Classes/Subbus.swift:93 | Entries added one after another all fire on every later post, after the earlier entries, each once. |
| Persistence.NotifyStopsForGood | Subbus/Classes/Subbus.PersistentEvent.swift:94-95 | Once the loop has left by `break iteration`, the remaining callbacks change nothing. |
| Persistence.ClearImmediatelyStopsAtFirstSuccess | Subbus/Classes/Subbus.PersistentEvent.swift:85-104 | Under `clearImmediately`: the callbacks notified are a prefix of the candidates, and all but the last of them failed. The event is handled, and so not buffered, exactly when some candidate succeeds, and then the last callback notified succeeded. Otherwise every candidate is notified. |
| Persistence.ClearAfterAllNotifiesEveryone | Subbus/Classes/Subbus.PersistentEvent.swift:97-98 | Under `clearAfterAllCurrentSubscribersNotified`, every candidate is notified. The event is handled exactly when at least one succeeds. |
| Persistence.NeverClearNotifiesEveryoneAndBuffers | Subbus/Classes/Subbus.PersistentEvent.swift:100-102 | Under `neverClear`, every candidate is notified, the event never counts as handled, and it is always buffered at the front. |
| Persistence.BufferGrowsAtHead | Subbus/Classes/Subbus.PersistentEvent.swift:107-108 | An unhandled post grows the buffer by exactly one, with the event at index 0 and the old contents after it, unchanged. A handled post leaves the buffer as it was. |
| Persistence.ReplayOldestFirst | Subbus/Classes/Subbus.PersistentEvent.swift:58 | For a buffer of newer events in front of older ones, replay delivers the older part first. |
| Persistence.UnhandledEventIsReplayedLast | Example/Tests/SubbusTests.Persistent.swift:42-51 | An event of the subscribed type that no one handled is replayed to the next subscriber, after every event buffered before it. |
| Persistence.KeptIff | Subbus/Classes/Subbus.PersistentEvent.swift:63-72 | An event stays in the buffer after replay exactly when it is of another type, the callback failed on it, or its rule is `neverClear`. |
| Persistence.ReplayLeavesOtherTypesInPlace | Subbus/Classes/Subbus.PersistentEvent.swift:59 | Buffered events of other types are skipped and keep their relative order. |
| Scoping.ScopeKey | Subbus/Classes/Subbus.Scoping.swift:43-44 | A scope is refused exactly when it is an optional or its rendering is empty or "nil". Otherwise its key is its `stringFor` key. |
| Scoping.ScopesOfDifferentTypesNeverMatch | Subbus/Classes/Subbus.Scoping.swift:56 | Scopes with equal renderings but different type names, the unqualified `type(of:)` text, never share a key. |
| Scoping.ObjectScopesFollowReference | Subbus/Classes/Subbus.Scoping.swift:44 | A class instance is always accepted as a scope. Two instances share a scope key only when they are the same instance. |
| Scoping.ScopeFilterForwardsOnlyItsScope | Subbus/Classes/Subbus.Scoping.swift:47-49 | In a scoped post, a live scoped subscription on the event's type contributes, at its own position among the deliveries, exactly one delivery of the inner event when the post's key equals its scope key, and nothing when the keys differ. |
| Scoping.AddingKeepsEnvelopesGuarded | Subbus/Classes/Subbus.Scoping.swift:47 | Adding an entry that pairs an envelope type with a scope closure keeps every entry paired that way. |
| Scoping.ScopedPostReachesOnlyItsScope | Subbus/Classes/Subbus.Scoping.swift:59-60 | A scoped post reaches exactly the callbacks of live scoped subscriptions on that event's type with the same key, and each receives the inner event. |
| Scoping.PlainPostSkipsScopedSubscribers | Example/Tests/SubbusTests.Scoping.swift:17-29 | A plain post reaches exactly the plain callbacks of live entries on its type. Scoped subscribers never see it. |
| Scoping.DocumentedScopedTeardownLeavesEntry | Subbus/Classes/Subbus.Scoping.swift:18-22 | The documented teardown `unsubscribe(id: scope, MyEvent.self)` leaves a live scoped entry in place, and it still receives scoped posts. |
| Scoping.IdentifierTeardownRemovesScopedEntry | Subbus/Classes/Subbus.Scoping.swift:18 | Unsubscribing by the identifier alone removes a live scoped entry exactly when the identifier resolves to its identity. After that removal, a scoped post with the entry's key no longer reaches its callback, provided the callback was subscribed under that identity only. |
| EventBus.Subbus.constructor | Subbus/Classes/Subbus.swift:73-74 | The registry and the buffer start empty. |
| EventBus.Subbus.ClearInvalidSubscriptions | Subbus/Classes/Subbus.swift:156-158 | The registry becomes its purge. |
| EventBus.Subbus.AddSubscription | Subbus/Classes/Subbus.swift:86-94 | The registry becomes the purge, minus the matching entries when replacing, plus the new entry appended. |
| EventBus.Subbus.Subscribe | Subbus/Classes/Subbus.swift:77-84 | A rejected identifier leaves the registry exactly as it was, skipping even the purge. Otherwise the entry is added as above. |
| EventBus.Subbus.Post | Subbus/Classes/Subbus.swift:97-109 | The deliveries are those of the registry before the post, so entries added by callbacks during the post do not receive it. The new registry is the purge followed by those additions in order. |
| EventBus.Subbus.UnsubscribeIdentifierAndType | Subbus/Classes/Subbus.swift:112-118 | The registry keeps exactly the entries not matching identifier and type, in order. |
| EventBus.Subbus.UnsubscribeIdentifier | Subbus/Classes/Subbus.swift:120-124 | The registry keeps exactly the entries not matching the identifier, in order. |
| EventBus.Subbus.UnsubscribeEventType | Subbus/Classes/Subbus.swift:126-129 | The registry keeps exactly the entries of other types, in order. |
| EventBus.Subbus.ClearHistory | Subbus/Classes/Subbus.swift:160-163 | The buffer of unhandled events becomes empty. |
| EventBus.Subbus.ClearSubscribers | Subbus/Classes/Subbus.swift:165-168 | The registry becomes empty. |
| EventBus.Subbus.SubscribePersistent | Subbus/Classes/Subbus.PersistentEvent.swift:50-77 | A rejected identifier changes nothing and replays nothing. Otherwise the entry is added first. The buffer then becomes exactly the events that stay, and the new callback alone receives the conforming events oldest-first. |
| EventBus.Subbus.PostPersistent | Subbus/Classes/Subbus.PersistentEvent.swift:79-112 | The registry is purged. The callbacks notified are exactly those the rule's loop reaches among the persistent callbacks on the event's type. The event is put at the front of the buffer exactly when it ends unhandled. |
| EventBus.Subbus.SubscribeScoped | Subbus/Classes/Subbus.Scoping.swift:41-51 | A refused scope or a rejected identifier leaves the registry unchanged. Otherwise a scope closure with the scope key is added, without replacing, on the envelope type. |
| EventBus.Subbus.PostScoped | Subbus/Classes/Subbus.Scoping.swift:53-61 | A refused scope delivers nothing and changes nothing. Otherwise it delivers and updates the registry exactly as a plain post of the envelope carrying the scope key. |

## Left out

- Console logging, the `logToConsole` flag and `log`: output only, no effect on state.
- `identifierString` of `Subscription`: assigned at Subbus/Classes/Subscription.swift:29-33 and never read by any operation modelled here.
- Swift reflection. Mirror display styles, `String(reflecting:)`, `String(describing:)` and pointer formatting are inputs to the model:
  - Event types are tags, on the assumption that distinct types have distinct reflected names.
  - Keys use the unqualified `type(of:)` text (Subbus/Classes/Subbus.swift:144-148). Two different types that print the same name share identifier and scope keys whenever their renderings are equal. Examples are nested types `Outer1.Tag` and `Outer2.Tag`, or `Tag` declared in two modules. A scoped post under one then reaches subscribers of the other. The model's type name is that printed text, so it inherits this collision.
  - The text given for an optional identifier's rendering is a placeholder. No modelled operation reaches it.
  - The model renders an address as `0x` followed by its hexadecimal digits without padding. Swift's own pointer text is zero-padded to the pointer width. The proofs rely only on two properties that both renderings share: the text is injective and contains no dash.
- ARC itself. Reclamation is the `dead` set, fixed for the duration of one operation. A boxed value key is never reclaimed, which is the behaviour the weak-reference tests expect of value identifiers.
- The description comparison in `matches(identifier:)` (Subbus/Classes/Subscription.swift:70) is modelled as "the stored identity is reclaimed and the other side describes as a bare nil":
  - Between two entries (`matches(_:)`), both weak identifiers describe as nil when both are reclaimed, so two reclaimed entries match.
  - Against a caller's identifier (`unsubscribe(id:)` and `unsubscribe(id:event:)`, Subbus/Classes/Subbus.swift:115 and 121), the generic argument is wrapped in one more optional and describes as `Optional(…)`, so a reclaimed entry never matches it.
  - The rare case where a live entry and an unresolvable identifier happen to have equal descriptions is treated as no match.
- The closure casts `as? ((T) -> …)`. A handler's kind decides which `post` invokes it. The persistent `post` uses the event's own class name as the posted type, where Swift uses the static type at the call site.
- Callbacks that do more than subscribe during `post`, for example unsubscribing or posting again, are not modelled. `Post` models re-entrant non-replacing subscription only. The persistent `post` and replay do not model re-entrancy at all.
- The convenience overloads (Subbus/Classes/Subbus.swift:64-66, Subbus/Classes/Subbus.PersistentEvent.swift:44-46) are the main operations with `replace` false. They have no member of their own.
- The legacy `subscribe(id:event:limitedToScope:)` in Subbus/Classes/Scoping.swift:35-47 calls `Subbus.subscribe`, which is not part of this model.
- Test scaffolding (expectations, `DispatchQueue`) and Example/Tests/NotificationCenterTests.swift, which exercises Foundation's `NotificationCenter` and not this library.
- `Scoping.ScopedPostReachesOnlyItsScope` assumes every envelope-typed entry holds a scope closure and only such entries do. The envelope type is internal, so only the scope layer subscribes to it. `Scoping.AddingKeepsEnvelopesGuarded` shows that adds which respect the pairing preserve it.

## Findings

| source | as written | input that shows it | evidently intended | confidence | as-written member | corrected member |
|---|---|---|---|---|---|---|
| Subbus/Classes/Subbus.Scoping.swift:18-22 | The documentation says to tear down a scoped subscription with `unsubscribe(id: scope, MyEvent.self)`. That call removes entries of type `MyEvent`, but the scoped entry is stored on `ScopedEvent<MyEvent>`. The same comment is at Subbus/Classes/Scoping.swift:13-17. | `addSubscription(id: "abc", event: MyEvent.self, limitedToScope: "abc")`, then `unsubscribe(id: "abc", MyEvent.self)`, then `post(event: MyEvent(), limitedToScope: "abc")`: the callback still fires. | The documented teardown removes the scoped subscription. `unsubscribe(id: scope)` does this, as the scope test uses it. | high (not executed) | Scoping.DocumentedScopedTeardownLeavesEntry | Scoping.IdentifierTeardownRemovesScopedEntry |
