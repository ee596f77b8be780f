# statez in Dafny

A model of the two designs of statez, a browser state container whose named
stores raise change events, persist to web storage and follow changes made in
other tabs.

- **statez 2.0.0** (`dist/statez.js`, the build the tests import). Each store
  is a proxy over a target object. Writes through the proxy go into one
  coalescing queue, keyed by store id and property. An idle callback flushes
  the queue: it dispatches a property-named event and a `"*"` event per
  changed entry, and writes the entry to `localStorage` under
  `"sZ.<store>.<property>"`. A `storage` event from another tab is applied at
  once, without going through the queue.
  - Module `KeyCodec` models the key codec `f`.
  - Module `Statez` describes the whole module state as a `World` value and
    states each operation as a function on it: registry `E`, initialiser `h`,
    intercepted write `p`, flush `w`, `storage` listener. The persistence
    invariants are lemmas there.
  - Module `StatezRuntime` performs the same operations in place. Class
    `State` is the target `d`. Class `Runtime` holds the module variables
    `c`, `u`, `a`, `localStorage` and the log of dispatched events. Each
    method is proved to leave `View()` equal to a function of `Statez`
    applied to the old view. For most methods that is the function of the
    same name; `Dispatch` appends `Announce`, `ReplayQueue` computes
    `Replay`, and `AssignDefaults` computes `ApplyDefaults`.
- **The earlier design** (`src/statez.js`), module `StatezBlob`. A store is a
  `Target` whose own properties are the state. The proxy traps dispatch a
  `change` event at once. The whole store is persisted as one JSON object
  under its name, by `syncState` and by a debounce timer that every dispatch
  restarts. The `storage` listener diffs the store against the incoming
  object name by name. Class `Registry` holds the cache `stateStore` and the
  two storage objects.

Module `JsValues` holds the values both designs store: `undefined`, `null`,
booleans, integer numbers and strings. JSON text is represented by the parsed
value itself, so `JSON.parse` of what `JSON.stringify` wrote gives the value
back.

Where the prose description of the library and the code disagree, the model
follows the code:

- `handle.set(prop, v)` does not go through the intercepted write. The `get`
  trap binds `set` to the raw target, so the call leaves no queue entry,
  dispatches no event and writes nothing to storage (`Statez.DirectSet`).
  Memory and storage then disagree, and the next flush does not reconcile
  them (`Statez.DirectSetDiverges`).
- `h` receives the proxy. The defaults it applies are therefore queued and
  persisted at the next flush, like any other write (`Statez.DefaultsPersist`).
- Calling `E` again for a registered store re-runs `h`. A property that
  storage does not hold is overwritten by a default of the same name. A
  property that storage holds is reset to the stored value. The reset
  bypasses the queue, so a write still queued for that property is stored by
  the next flush while memory keeps the old value
  (`Statez.RecreateDiscardsQueuedWrite`).
- A stored falsy value (`0`, `false`, `""`, `null`) is read back as
  `undefined` by `JSON.parse(...) || void 0`. The property is therefore
  deleted on initialisation while the record stays in storage
  (`Statez.Revived`, `Statez.InitResult`, `Statez.FalsyRecordDiverges`).

A fourth divergence involves no disagreement with the description. Another
tab may write a property while this tab still has a write to it queued. The
`storage` listener then sets the property in memory directly and leaves the
queued entry as it is. The flush writes this tab's value back to storage while
memory keeps the other tab's value (`Statez.CrossTabRaceDiverges`).
`Statez.ReconcileKeepsCoherent` excludes this race in its precondition.

Memory and storage can therefore disagree after a flush in these four cases.
`Statez.StateZKeepsCoherent` states sufficient conditions under which `E`
keeps them in agreement.

## Model

| member | source | states |
|---|---|---|
| JsValues.Stringify | dist/statez.js:6 | `JSON.stringify` gives no text exactly for `undefined`; parsing the text gives the value back |
| JsValues.Lookup | dist/statez.js:6 | reading a property gives `undefined` exactly when it is absent, otherwise its value |
| JsValues.Assign | dist/statez.js:6 | `d.set`: setting `undefined` deletes the property, any other value stores it; the property then reads as the value and no other property changes |
| KeyCodec.Split | dist/statez.js:6 | `split(".")` gives at least one segment, no segment contains '.', and joining the segments with '.' gives the key back |
| KeyCodec.SplitJoin | dist/statez.js:6 | splitting dot-free segments joined with '.' gives those segments back |
| KeyCodec.DecodeEncode | test/test1.js:201-204 | `f("sZ." + s + "." + p)` is `{store: s, property: p}` for a dot-free store and property |
| KeyCodec.EncodeDecode | dist/statez.js:6 | a key that `f` accepts is exactly `"sZ." + store + "." + property` of what it decodes to, with both parts dot-free |
| KeyCodec.DecodeAcceptsExactlyEncodedKeys | dist/statez.js:6 | `f(k)` is non-null if and only if `k` is `"sZ." + s + "." + p` for some dot-free `s` and `p` |
| KeyCodec.DecodeInjective | dist/statez.js:6 | two different keys never decode to the same store and property |
| KeyCodec.QueueKeyInjective | dist/statez.js:6 | for dot-free names the queue key `stateId + "." + property` determines the store and the property |
| Statez.Find | dist/statez.js:6 | `u.get(key)`: the position of the entry with that key, or none when no entry has it |
| Statez.EnqueueKeepsUniqueKeys | dist/statez.js:6 | the queue never holds two entries with the same key |
| Statez.EnqueueCoalesces | dist/statez.js:6 | a write to a queued key only replaces that entry's value, in place, keeping its `valueOld`; a new key is appended last with the old value as `valueOld` |
| Statez.Write | dist/statez.js:6 | `p`: writing the current value changes nothing; any other write sets or deletes the property, changes no other property or store, and marks a flush pending; a flush is requested only when none was pending |
| Statez.DirectSet | dist/statez.js:6 | `d.set` through the proxy changes the property only: queue, flag, storage and events are untouched |
| Statez.Announce | dist/statez.js:6 | `d.dispatchEvent`: one event named after the property, then one named `"*"`, both carrying the same detail |
| Statez.Replay | dist/statez.js:6 | the flush loop changes neither the stores nor the queue, and only appends to the event log |
| Statez.Flush | dist/statez.js:6 | `w`: afterwards the queue is empty and no flush is pending; the stores are unchanged |
| Statez.FlushEvents | dist/statez.js:6 | a flush dispatches, in queue order, the two events of each entry whose value differs from its `valueOld`, and nothing for the others |
| Statez.ReplayStored | dist/statez.js:6 | after the flush loop, a property's storage key holds its entry's value if that entry changed it, and otherwise what it held before |
| Statez.FlushSyncs | dist/statez.js:6 | from a coherent state, a flush leaves every property of every registered store stored as exactly its in-memory value, and the state stays coherent |
| Statez.EncodeInjective | dist/statez.js:6 | different dot-free store/property pairs have different storage keys |
| Statez.WriteLeavesOthers | dist/statez.js:6 | an intercepted write leaves every other property of every store unchanged |
| Statez.WriteKeepsEntryCoherent | dist/statez.js:6 | after a write, every queue entry's property holds the entry's value while storage still holds its `valueOld` |
| Statez.WriteKeepsUnqueuedCoherent | dist/statez.js:6 | after a write, every property without a queue entry still agrees with storage |
| Statez.WriteKeepsCoherent | dist/statez.js:6 | an intercepted write of a dot-free property keeps the state coherent |
| Statez.BurstCoalesces | dist/statez.js:6 | a run of writes to an unqueued property adds at most one entry, placed last, carrying the value before the run and the last value, and requests at most one flush |
| Statez.BurstQueue | dist/statez.js:6 | after a run of writes, either no entry was added and the value is back where it started, or exactly that one entry was appended |
| Statez.BurstThenFlush | dist/statez.js:6 | a flush after a run of writes shows one event pair with the last value and the value before the run, or nothing when the run ended where it started |
| Statez.ResolveId | dist/statez.js:6 | `t = t \|\| "statez"`: an empty id selects `"statez"`, any other id is kept |
| Statez.Register | dist/statez.js:6 | an unknown id gets a new empty store; a registered store is kept as it is; no other store changes, and the queue, flag, callback count, storage and events are untouched |
| Statez.RecordsExist | dist/statez.js:6 | the records of a store in storage, by property, are well defined: the keys that `f` decodes to that store are distinct per property |
| Statez.StoredRecords | dist/statez.js:6 | the first loop of `h` finds a record for property `p` exactly when `"sZ." + id + "." + p` is in storage, with its stored value |
| Statez.Revived | dist/statez.js:6 | `JSON.parse(...) \|\| void 0`: a falsy stored value reads as `undefined`, any other as itself |
| Statez.Adopt | dist/statez.js:6 | after the first loop of `h`, each property with a record reads as its revived record and every other property keeps its value |
| Statez.Remaining | dist/statez.js:6 | `delete e[l]`: the defaults left are exactly those whose names have no record, and they keep their relative order (a subsequence of the defaults) |
| Statez.ApplyDefaults | dist/statez.js:6 | the second loop of `h` changes no other store, storage or events, and no property that no default names |
| Statez.Adopted | dist/statez.js:6 | the first loop of `h` changes only store `id`, and leaves the queue and storage alone |
| Statez.Init | dist/statez.js:6 | `h` touches no other store, and neither storage nor the event log |
| Statez.RemainingDistinct | dist/statez.js:6 | removing stored names keeps the default names distinct |
| Statez.ApplyDefaultsSets | dist/statez.js:6 | with distinct names, each default is what its property reads afterwards |
| Statez.InitResult | dist/statez.js:6 | after `h`, a property with a stored record reads as the revived record (so a falsy one is absent); a default with no record is what its property reads; any other property keeps its value |
| Statez.StateZKeepsRegistry | dist/statez.js:6 | `E` registers exactly the resolved id and changes no other store, storage or events |
| Statez.StateZWithoutDefaults | dist/statez.js:6 | with no defaults, `E` only registers the store and adopts its records: queue and storage are untouched |
| Statez.SyncedEmptyQueueIsCoherent | dist/statez.js:6 | with nothing queued, agreement of every property with storage is coherence |
| Statez.AdoptKeepsCoherent | dist/statez.js:6 | when every record of the store is truthy and no write to a recorded property is queued, the first loop of `h` leaves the store agreeing with storage, whether the store is new or registered |
| Statez.ApplyDefaultsKeepsCoherent | dist/statez.js:6 | the defaults are written through the proxy, so applying dot-free defaults keeps the state coherent |
| Statez.StateZKeepsCoherent | dist/statez.js:6 | `E` keeps the state coherent for a dot-free id and dot-free default names, when every record of the store is truthy and no write to a recorded property is queued |
| Statez.DefaultsPersist | dist/statez.js:6 | under those conditions, after `E` and the next flush every property is stored as its in-memory value, and a default without a record is both what its property reads and what storage holds |
| Statez.FalsyRecordDiverges | dist/statez.js:6 | from a coherent fresh page with record `"sZ.s.a"` = 0, `E("s")` and a flush leave `a` absent in memory while storage still holds 0 |
| Statez.SyncedStoreIsCoherent | dist/statez.js:6 | the sample state (store `s` with `a` = 3 in memory and in storage) is coherent |
| Statez.RecreateDiscardsQueuedWrite | dist/statez.js:6 | from that coherent state, writing 5, calling `E("s")` again and flushing leaves 3 in memory and 5 in storage |
| Statez.DirectSetDiverges | dist/statez.js:6 | from that coherent state, `handle.set("a", 5)` and a flush leave 5 in memory and 3 in storage |
| Statez.CrossTabRaceDiverges | dist/statez.js:6 | from that coherent state, writing 5, then another tab storing 7 under `"sZ.s.a"` with its `storage` event, then a flush, leaves 7 in memory and 5 in storage |
| Statez.Incoming | dist/statez.js:6 | `newValue === null` gives `undefined`; any other new value gives exactly its parsed value |
| Statez.OnStorage | dist/statez.js:6 | the `storage` listener ignores keys that do not decode or whose store is not registered; otherwise it sets that one property to the new value, queues nothing, writes no storage, and dispatches its two events with the replaced value as `valueOld` |
| Statez.Receive | dist/statez.js:6 | the listener's `n.set` then `n.dispatchEvent` on a registered store: one property changed, two events appended, nothing queued |
| Statez.ReconcileKeepsEntry | dist/statez.js:6 | an external write and its notification leave every queued entry valid when they do not touch a queued property |
| Statez.ReconcileKeepsUnqueued | dist/statez.js:6 | after an external write and its notification, every unqueued property agrees with storage |
| Statez.ReconcileKeepsCoherent | dist/statez.js:6 | an external write followed by its notification keeps this tab coherent, when this tab has no pending write to the same property |
| StatezRuntime.State.constructor | dist/statez.js:6 | `new d(t)`: a target with that id and no properties |
| StatezRuntime.State.Set | dist/statez.js:6 | `d.set`: the properties become `Assign` of the old ones |
| StatezRuntime.State.AdoptStored | dist/statez.js:6 | the first loop of `h` over storage leaves exactly `Adopt` of the stored records and the defaults without a record |
| StatezRuntime.Runtime.constructor | dist/statez.js:6 | a fresh page: no store, empty queue, no flush pending, storage as given |
| StatezRuntime.Runtime.Dispatch | dist/statez.js:6 | `d.dispatchEvent` appends the property event and the `"*"` event and changes nothing else |
| StatezRuntime.Runtime.Write | dist/statez.js:6 | `p` in place has exactly the effect of `Statez.Write` and returns true |
| StatezRuntime.Runtime.Delete | dist/statez.js:6 | `delete handle[prop]` is the intercepted write of `undefined` |
| StatezRuntime.Runtime.DirectSet | dist/statez.js:6 | `handle.set` in place has exactly the effect of `Statez.DirectSet` |
| StatezRuntime.Runtime.ReplayQueue | dist/statez.js:6 | the do-while of `w` produces exactly the event log and storage of `Statez.Replay` |
| StatezRuntime.Runtime.Flush | dist/statez.js:6 | `w` in place has exactly the effect of `Statez.Flush` |
| StatezRuntime.Runtime.AssignDefaults | dist/statez.js:6 | the second loop of `h` in place has exactly the effect of `Statez.ApplyDefaults` |
| StatezRuntime.Runtime.Init | dist/statez.js:6 | `h` in place has exactly the effect of `Statez.Init` |
| StatezRuntime.Runtime.StateZ | dist/statez.js:6 | `E` returns the registered handle of the resolved id, or a new one, whose `stateId` is that id; other handles are kept; the state becomes `Statez.StateZ` |
| StatezRuntime.Runtime.OnStorage | dist/statez.js:6 | the `storage` listener in place has exactly the effect of `Statez.OnStorage` |
| StatezRuntime.Runtime.Receive | dist/statez.js:6 | the listener's work on one store has exactly the effect of `Statez.Receive` |
| StatezBlob.ResolveName | src/statez.js:163-164 | an empty name selects `'stateZ' + (type \|\| 'page')`; any other name is kept |
| StatezBlob.Decimal | src/statez.js:38-40 | the index numerals `for…in` gives a string: one character exactly for a one-digit index |
| StatezBlob.DecimalInjective | src/statez.js:38-40 | different indices have different numerals |
| StatezBlob.IndexProps | src/statez.js:38-40 | `for…in` over a string visits exactly the indices 0 … n-1, each holding its one-character string |
| StatezBlob.ForIn | src/statez.js:38-40 | `for…in` over a parsed object gives its fields; over a non-string primitive it gives nothing |
| StatezBlob.StoredDoc | src/statez.js:34 | `getItem(name)` holds a document exactly when the item exists |
| StatezBlob.DefinedPart | src/statez.js:77 | the own properties whose value is not `undefined` |
| StatezBlob.Blob | src/statez.js:77 | `JSON.stringify(this)` is an object holding exactly the properties whose value is not `undefined` |
| StatezBlob.BlobRoundTrip | src/statez.js:34-40 | a store created from what `syncState` wrote gets back every property that was not `undefined`, whatever the defaults |
| StatezBlob.Emitted | src/statez.js:100-102 | a trap dispatches at most one event, and none exactly when it has no change to report |
| StatezBlob.SetTrap | src/statez.js:89-112 | the `set` trap does nothing when the old value `===` the new one or the name is a method; otherwise it stores the value, reports `{property, value, valueOld}`, and removes the property when the value is `undefined`; no other property changes |
| StatezBlob.DeleteTrap | src/statez.js:115-128 | the `deleteProperty` trap removes an own property and reports `{property, valueOld}`; for any other name it does nothing |
| StatezBlob.SetTrapIdempotent | src/statez.js:89-112 | repeating a set through the proxy changes nothing and dispatches nothing |
| StatezBlob.SetUndefinedIsDelete | src/statez.js:89-128 | assigning `undefined` and deleting have the same effect and event, except on an own property that already holds `undefined` |
| StatezBlob.ReconcileName | src/statez.js:192-199 | the listener's step for one name changes no other name |
| StatezBlob.ReconcileStep | src/statez.js:190-201 | each name's outcome depends only on that name, so the `forEach` order does not matter |
| StatezBlob.ReconcileMatchesIncoming | src/statez.js:183-205 | after the listener, each non-method name has the same JSON as in the incoming object, and a name the incoming object lacks is absent or `undefined` |
| StatezBlob.ReconcileMirrors | src/statez.js:183-205 | when no incoming name is a method, the JSON of the store afterwards is exactly the incoming object |
| StatezBlob.ReconcileIdempotent | src/statez.js:183-205 | a second identical storage event changes nothing and dispatches nothing |
| StatezBlob.ReportsMeaning | src/statez.js:65-69 | a reported event sequence has one event per expected property, each the expected one, with no property twice |
| StatezBlob.RemovalEvents | src/statez.js:66-68 | the events `cleanState` owes: one per own property, `{property, valueOld}` |
| StatezBlob.ReconcileEvents | src/statez.js:192-199 | the events the listener owes: one per name whose trap reports a change |
| StatezBlob.Storage.constructor | src/statez.js:12-13 | a storage object holding the given items |
| StatezBlob.Target.constructor | src/statez.js:25-44 | the properties come from the stored document when it is truthy and from the defaults otherwise (a page store always uses the defaults); with a sync delay the store is written back at once; no event yet |
| StatezBlob.Target.DispatchEvent | src/statez.js:48-59 | the event is delivered, properties unchanged, and with a sync delay the single debounce timer is (re)started |
| StatezBlob.Target.SyncState | src/statez.js:74-80 | writes the JSON of the own properties under the store's name; a page store writes nothing |
| StatezBlob.Target.TimerFires | src/statez.js:53-57 | the debounce timer runs one `syncState` of the store as it is then |
| StatezBlob.Target.Get | src/statez.js:131-150 | the `get` trap gives a bound method exactly for method names without an own property; otherwise it gives the own property's value (which may be `undefined`), or `undefined` for a name that is not an own property |
| StatezBlob.Target.Set | src/statez.js:89-112 | `handle[p] = v` returns true and has exactly the effect and event of `SetTrap`; the timer restarts when it dispatched |
| StatezBlob.Target.DeleteProperty | src/statez.js:115-128 | `delete handle[p]` returns true and has exactly the effect and event of `DeleteTrap` |
| StatezBlob.Target.CleanState | src/statez.js:63-71 | every own property is removed and exactly one event per removed property, carrying its old value, is dispatched |
| StatezBlob.Target.ApplyName | src/statez.js:194-198 | the listener's `forEach` body on one name, through the proxy: the properties and event of `ReconcileName`; the debounce timer is restarted exactly when an event was dispatched and the store has a sync delay |
| StatezBlob.Target.ApplyUpdate | src/statez.js:190-201 | the listener's `forEach` leaves the properties of `Reconcile` and dispatches exactly one event per name that changed; with a sync delay the debounce timer is pending afterwards exactly when it was before or some name changed |
| StatezBlob.Registry.constructor | src/statez.js:7 | an empty cache over two distinct storage objects |
| StatezBlob.Registry.StorageOf | src/statez.js:30 | `window[type]`: no storage exactly for a page store |
| StatezBlob.Registry.StateZ | src/statez.js:156-177 | a name inherited from Object.prototype creates nothing and returns no store; a cached name returns the cached store, with `init` and `sync` ignored and nothing changed; a new name creates, caches and returns a store built by the constructor, with no events and no timer: its own storage gains its JSON exactly when it has a sync delay, and the other storage is untouched |
| StatezBlob.Registry.OnStorage | src/statez.js:183-205 | a key that names no cached store is ignored; otherwise the store ends as `Reconcile` of its properties with the incoming object, with one event per changed name, and its debounce timer is restarted when a name changed and the store has a sync delay |
| StatezBlob.Registry.Owners | src/statez.js:211 | the storage each cached store writes to |
| StatezBlob.Registry.Blobs | src/statez.js:211 | the JSON each cached store writes |
| StatezBlob.Registry.SyncAll | src/statez.js:209-213 | on `beforeunload` each storage gains exactly the JSON of every cached store that writes to it; the other items are kept |
| StatezBlob.Written | src/statez.js:211 | the items the stores write to one storage object: the JSON of exactly the stores that own it |

## Left out

- Arrays, objects and floating-point numbers as property values are not modelled. Values are `undefined`, `null`, booleans, integers and strings, so `===` is value equality and the reference identity of compound values does not arise.
- Text that is not valid JSON in storage cannot be represented: storage holds parsed values, so a `JSON.parse` failure on corrupt storage is outside the model.
- Store and property names containing '.' are not modelled in the persistence lemmas. They require dot-free names, because `f` cannot decode such keys.
- `requestIdleCallback`, `setTimeout` and `beforeunload` are not modelled as real timers or events. They are explicit calls: `Runtime.Flush`, `Target.TimerFires`, `Registry.SyncAll`. The number of idle callbacks requested is counted.
- `EventTarget` delivery and listener bodies are not modelled. Dispatch appends to an event log, so a listener that writes to a store during a flush is out of scope.
- The `state` member that `src/statez.js` adds to each event detail is not modelled.
- Iteration order is not fixed for `Object.getOwnPropertyNames`, storage keys, the `stateStore` values and the constructor's `for…in`. Each loop picks its names in an arbitrary order, and the contracts are stated for every order.
- Names of members of the handle in `dist/statez.js` (`set`, `stateId`, `dispatchEvent`, …) and of `Object.prototype` are treated as ordinary property names there. A store property with such a name is not modelled.
- Own properties in `src/statez.js` that shadow `dispatchEvent` or `syncState` are not modelled. The source would then call a non-function.
- A `__proto__` property is not modelled.
- `storage` events whose key is null (from `storage.clear()`), and `sessionStorage` events from other tabs, are outside the model.
- StatezBlob.Registry.OnStorage: requires the incoming value of a cached store's key to be an object. A removed item (null) makes the source throw on `getOwnPropertyNames(null)`. A string's index properties are not modelled as incoming names.
- StatezBlob.Registry.OnStorage: requires that every own property named after an `Object.prototype` member also appear in the incoming object. Otherwise `update[p]` would be that inherited function, which the model has no value for.
- StatezBlob.Registry.OnStorage: requires that the key is not a name inherited from Object.prototype (`toString`, `constructor`, `__proto__`, …). For such a key `stateStore[e.key]` is the inherited member, and the source reconciles that member's own properties or throws.
- StatezBlob.SetUndefinedIsDelete: the event detail is modelled as `{property, value, valueOld}` for both traps. In the source the `set` trap's detail has an own `value` key holding `undefined`, while the `deleteProperty` trap's detail has no `value` key. The lemma treats the two as the same event.
- Statez.Flush, StatezRuntime.Runtime.Flush, StatezBlob.Target.SyncState: storage writes never fail in the model. In the source, `setItem` and `removeItem` can throw, for example when the quota is exceeded or storage is unavailable. In `w` such a throw aborts the loop before `u.clear()` and `a = null`. The flag `a` then stays set, so `p` never schedules another flush, and later writes stay in memory only. In `src/statez.js` a throwing `syncState` escapes the constructor, so `stateZ` caches nothing, or escapes the timer callback.
- StatezBlob.SetTrap: assumes `Reflect.set` and `Reflect.deleteProperty` succeed. They always do on the plain extensible target, so the case where the trap returns false is not modelled.
- StatezBlob.Target.TimerFires: requires a pending timer, because the callback exists only after a dispatch has started it. Only the final expiry of the debounced timer is modelled.
