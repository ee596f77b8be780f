/** statez 2.0.0 (dist/statez.js), as functions on a snapshot of its state.

    `World` gathers everything the module mutates: the registry `c` (each
    store's own properties by store id), the coalescing queue `u` (in
    insertion order), the scheduling flag `a`, the number of idle callbacks
    requested, `localStorage`, and the log of dispatched events.  The classes
    in module StatezRuntime perform these operations in place and are proved
    to agree with the functions here; the lemmas here are the properties the
    library promises. */
module Statez {
  import opened JsValues
  import opened KeyCodec

  /** The id `E()` uses when none is given. */
  const DefaultId: string := "statez"

  /** The event name that every change is also dispatched under. */
  const Wildcard: string := "*"

  /** A queue entry of `u` (`{state, property, valueOld, value}`), which is also
      the detail of the events dispatched for it. */
  datatype Change = Change(stateId: string, property: string, value: Value, valueOld: Value)

  /** A dispatched `CustomEvent`: its name and its detail. */
  datatype Event = Event(channel: string, detail: Change)

  datatype World = World(
    entities: map<string, map<string, Prim>>,
    queue: seq<Change>,
    pending: bool,
    scheduled: nat,
    storage: map<string, Prim>,
    events: seq<Event>)

  /** The key under which `p` coalesces writes to an entry. */
  function KeyOf(c: Change): string
  {
    QueueKey(c.stateId, c.property)
  }

  ghost predicate UniqueKeys(q: seq<Change>)
  {
    forall i, j :: 0 <= i < |q| && 0 <= j < |q| && KeyOf(q[i]) == KeyOf(q[j]) ==> i == j
  }

  /** `u.get(key)`: the position of the entry stored under `key`, if any. */
  function Find(q: seq<Change>, key: string): (r: Option<nat>)
    ensures r.Some? ==> r.value < |q| && KeyOf(q[r.value]) == key
    ensures r.None? ==> forall i :: 0 <= i < |q| ==> KeyOf(q[i]) != key
  {
    if q == [] then None
    else if KeyOf(q[|q| - 1]) == key then Some(|q| - 1)
    else Find(q[..|q| - 1], key)
  }

  /** `l = u.get(o) || {state, property, valueOld}; l.value = n; u.set(o, l)`:
      an existing entry keeps its place and its `valueOld`, a new one goes last. */
  function Enqueue(q: seq<Change>, id: string, prop: string, valueOld: Value, v: Value): (r: seq<Change>)
  {
    match Find(q, QueueKey(id, prop))
    case Some(i) => q[i := q[i].(value := v)]
    case None => q + [Change(id, prop, v, valueOld)]
  }

  lemma EnqueueKeepsUniqueKeys(q: seq<Change>, id: string, prop: string, valueOld: Value, v: Value)
    requires UniqueKeys(q)
    ensures UniqueKeys(Enqueue(q, id, prop, valueOld, v))
  {
  }

  /** Coalescing: after enqueueing, exactly one entry carries the key; it holds
      the new value and the `valueOld` of the first write of the cycle, and no
      other entry changed. */
  lemma EnqueueCoalesces(q: seq<Change>, id: string, prop: string, valueOld: Value, v: Value)
    requires UniqueKeys(q)
    ensures var r := Enqueue(q, id, prop, valueOld, v);
      match Find(q, QueueKey(id, prop))
      case Some(i) =>
        |r| == |q| && r[i] == q[i].(value := v) && Find(r, QueueKey(id, prop)) == Some(i)
        && forall j :: 0 <= j < |q| && j != i ==> r[j] == q[j]
      case None =>
        r == q + [Change(id, prop, v, valueOld)] && Find(r, QueueKey(id, prop)) == Some(|q|)
  {
    var r := Enqueue(q, id, prop, valueOld, v);
    EnqueueKeepsUniqueKeys(q, id, prop, valueOld, v);
  }

  // ---------------------------------------------------------------------------
  // Intercepted write and delete (`p`), direct set (`d.set`)

  /** `p(t, e, n)`, reached through the proxy's `set` trap (`handle[prop] = v`)
      and, with `v` undefined, its `deleteProperty` trap (`delete handle[prop]`). */
  function Write(w: World, id: string, prop: string, v: Value): (r: World)
    requires id in w.entities
    ensures r.entities.Keys == w.entities.Keys
    ensures Lookup(r.entities[id], prop) == v
    ensures r.entities[id] - {prop} == w.entities[id] - {prop}
    ensures forall other :: other in w.entities && other != id ==> r.entities[other] == w.entities[other]
    ensures r.storage == w.storage && r.events == w.events
    ensures Lookup(w.entities[id], prop) == v ==> r == w
    ensures Lookup(w.entities[id], prop) != v ==> r.pending
    ensures r.scheduled == if !w.pending && Lookup(w.entities[id], prop) != v then w.scheduled + 1 else w.scheduled
  {
    var cur := Lookup(w.entities[id], prop);
    if cur == v then w
    else
      w.(entities := w.entities[id := Assign(w.entities[id], prop, v)],
         queue := Enqueue(w.queue, id, prop, cur, v),
         pending := true,
         scheduled := if w.pending then w.scheduled else w.scheduled + 1)
  }

  /** `d.set(e, n)`, the method the proxy binds to the raw target: it changes the
      property with no queue entry, no event and no storage write. */
  function DirectSet(w: World, id: string, prop: string, v: Value): (r: World)
    requires id in w.entities
    ensures r.entities.Keys == w.entities.Keys
    ensures Lookup(r.entities[id], prop) == v
    ensures r.entities[id] - {prop} == w.entities[id] - {prop}
    ensures forall other :: other in w.entities && other != id ==> r.entities[other] == w.entities[other]
    ensures r.queue == w.queue && r.pending == w.pending && r.scheduled == w.scheduled
    ensures r.storage == w.storage && r.events == w.events
  {
    w.(entities := w.entities[id := Assign(w.entities[id], prop, v)])
  }

  // ---------------------------------------------------------------------------
  // Dispatch and flush (`d.dispatchEvent`, `w`)

  /** `d.dispatchEvent(detail)`: the event named after the property, then `"*"`,
      with the same detail. */
  function Announce(c: Change): (r: seq<Event>)
    ensures |r| == 2 && r[0].channel == c.property && r[1].channel == Wildcard
    ensures forall e :: e in r ==> e.detail == c
  {
    [Event(c.property, c), Event(Wildcard, c)]
  }

  /** One turn of the flush loop: an entry whose value is back at `valueOld` is
      skipped; any other is announced and then written to (or removed from)
      storage under `"sZ." + stateId + "." + property`. */
  function Apply(w: World, c: Change): World
  {
    if c.value == c.valueOld then w
    else w.(events := w.events + Announce(c),
            storage := Assign(w.storage, Encode(c.stateId, c.property), c.value))
  }

  /** The flush loop over the entries `q`, in insertion order. */
  function Replay(w: World, q: seq<Change>): (r: World)
    ensures r.entities == w.entities && r.queue == w.queue
    ensures r.pending == w.pending && r.scheduled == w.scheduled
    ensures |r.events| >= |w.events| && r.events[..|w.events|] == w.events
    decreases |q|
  {
    if q == [] then w else Apply(Replay(w, q[..|q| - 1]), q[|q| - 1])
  }

  /** One more turn of the flush loop. */
  lemma ReplayStep(w: World, q: seq<Change>, i: nat)
    requires i < |q|
    ensures Replay(w, q[..i + 1]) == Apply(Replay(w, q[..i]), q[i])
  {
    assert q[..i + 1][..i] == q[..i];
  }

  /** `w()`: replay the queue, then `u.clear()` and `a = null`. */
  function Flush(w: World): (r: World)
    ensures r.queue == [] && !r.pending
    ensures r.entities == w.entities && r.scheduled == w.scheduled
  {
    Replay(w, w.queue).(queue := [], pending := false)
  }

  /** Reference definition of what a flush announces: for each entry, in queue
      order, its two events unless its value is back at `valueOld`. */
  function Announced(q: seq<Change>): seq<Event>
  {
    if q == [] then []
    else (if q[0].value == q[0].valueOld then [] else Announce(q[0])) + Announced(q[1..])
  }

  lemma {:induction false} AnnouncedAppend(q: seq<Change>, c: Change)
    ensures Announced(q + [c]) == Announced(q) + Announced([c])
    decreases |q|
  {
    if q != [] {
      assert (q + [c])[1..] == q[1..] + [c];
      AnnouncedAppend(q[1..], c);
    }
  }

  lemma {:induction false} ReplayEvents(w: World, q: seq<Change>)
    ensures Replay(w, q).events == w.events + Announced(q)
    decreases |q|
  {
    if q != [] {
      var init, last := q[..|q| - 1], q[|q| - 1];
      ReplayEvents(w, init);
      assert q == init + [last];
      AnnouncedAppend(init, last);
    }
  }

  /** A flush dispatches exactly the events of the entries whose value differs
      from `valueOld`, in insertion order, property event before wildcard. */
  lemma FlushEvents(w: World)
    ensures Flush(w).events == w.events + Announced(w.queue)
  {
    ReplayEvents(w, w.queue);
  }

  /** The record stored for a property, read back as a value. */
  function Stored(storage: map<string, Prim>, id: string, prop: string): Value
  {
    Lookup(storage, Encode(id, prop))
  }

  /** Queue entries name dot-free stores and properties, which are registered. */
  ghost predicate WellFormedQueue(w: World)
  {
    && UniqueKeys(w.queue)
    && forall i :: 0 <= i < |w.queue| ==>
         w.queue[i].stateId in w.entities && DotFree(w.queue[i].stateId) && DotFree(w.queue[i].property)
  }

  /** Different dot-free properties have different storage keys. */
  lemma EncodeInjective(id1: string, p1: string, id2: string, p2: string)
    requires DotFree(id1) && DotFree(p1) && DotFree(id2) && DotFree(p2)
    requires Encode(id1, p1) == Encode(id2, p2)
    ensures id1 == id2 && p1 == p2
  {
    DecodeEncode(id1, p1);
    DecodeEncode(id2, p2);
  }

  /** What the flush leaves in storage for one property: the value of its entry
      when that entry changed it, and otherwise what was stored before. */
  lemma {:induction false} ReplayStored(w: World, q: seq<Change>, id: string, prop: string)
    requires UniqueKeys(q)
    requires forall i :: 0 <= i < |q| ==> DotFree(q[i].stateId) && DotFree(q[i].property)
    requires DotFree(id) && DotFree(prop)
    ensures Stored(Replay(w, q).storage, id, prop) ==
      match Find(q, QueueKey(id, prop))
      case None => Stored(w.storage, id, prop)
      case Some(i) => if q[i].value == q[i].valueOld then Stored(w.storage, id, prop) else q[i].value
    decreases |q|
  {
    if q != [] {
      var init, last := q[..|q| - 1], q[|q| - 1];
      assert UniqueKeys(init);
      ReplayStored(w, init, id, prop);
      if KeyOf(last) == QueueKey(id, prop) {
        QueueKeyInjective(last.stateId, last.property, id, prop);
        assert Find(q, QueueKey(id, prop)) == Some(|q| - 1);
        assert Find(init, QueueKey(id, prop)).None?;
      } else {
        if Encode(last.stateId, last.property) == Encode(id, prop) {
          EncodeInjective(last.stateId, last.property, id, prop);
        }
        assert Find(q, QueueKey(id, prop)) == Find(init, QueueKey(id, prop));
      }
    }
  }

  // ---------------------------------------------------------------------------
  // Persistence invariant

  /** Every property of every registered dot-free store agrees with storage. */
  ghost predicate Synced(w: World)
  {
    forall id, prop :: id in w.entities && DotFree(id) && DotFree(prop) ==>
      Stored(w.storage, id, prop) == Lookup(w.entities[id], prop)
  }

  /** A queued entry: its property holds the entry's value while storage still
      holds the entry's `valueOld`. */
  ghost predicate EntryHolds(w: World, c: Change)
  {
    && c.stateId in w.entities
    && Lookup(w.entities[c.stateId], c.property) == c.value
    && Stored(w.storage, c.stateId, c.property) == c.valueOld
  }

  /** A dot-free property of a registered store with no queue entry agrees with storage. */
  ghost predicate AgreesIfUnqueued(w: World, id: string, prop: string)
  {
    (id in w.entities && DotFree(id) && DotFree(prop) && Find(w.queue, QueueKey(id, prop)).None?) ==>
      Stored(w.storage, id, prop) == Lookup(w.entities[id], prop)
  }

  /** Between flushes: every queued entry holds and every unqueued property
      agrees with storage. */
  ghost predicate Coherent(w: World)
  {
    && WellFormedQueue(w)
    && (forall i :: 0 <= i < |w.queue| ==> EntryHolds(w, w.queue[i]))
    && (forall id, prop :: AgreesIfUnqueued(w, id, prop))
  }

  lemma SyncedEmptyQueueIsCoherent(w: World)
    requires Synced(w) && w.queue == []
    ensures Coherent(w)
  {
  }

  /** Durable round trip: a flush from a coherent world leaves every property of
      every registered store stored as the JSON of its in-memory value. */
  lemma FlushSyncs(w: World)
    requires Coherent(w)
    ensures Synced(Flush(w)) && Coherent(Flush(w))
  {
    var r := Flush(w);
    forall id, prop | id in r.entities && DotFree(id) && DotFree(prop)
      ensures Stored(r.storage, id, prop) == Lookup(r.entities[id], prop)
    {
      ReplayStored(w, w.queue, id, prop);
      match Find(w.queue, QueueKey(id, prop))
      case None =>
        assert AgreesIfUnqueued(w, id, prop);
      case Some(i) =>
        assert EntryHolds(w, w.queue[i]);
        QueueKeyInjective(w.queue[i].stateId, w.queue[i].property, id, prop);
    }
  }

  /** A write leaves every other property of every store as it was. */
  lemma WriteLeavesOthers(w: World, id: string, prop: string, v: Value, id2: string, prop2: string)
    requires id in w.entities && id2 in w.entities && (id2 != id || prop2 != prop)
    ensures Lookup(Write(w, id, prop, v).entities[id2], prop2) == Lookup(w.entities[id2], prop2)
  {
    var r := Write(w, id, prop, v);
    if id2 == id {
      assert prop2 in r.entities[id] - {prop} <==> prop2 in w.entities[id] - {prop};
      if prop2 in r.entities[id] {
        assert r.entities[id][prop2] == (r.entities[id] - {prop})[prop2];
      }
    }
  }

  /** The queued entries of a coherent world stay coherent across a write. */
  lemma WriteKeepsEntryCoherent(w: World, id: string, prop: string, v: Value, i: nat)
    requires Coherent(w) && id in w.entities && DotFree(id) && DotFree(prop)
    requires Lookup(w.entities[id], prop) != v
    requires i < |Write(w, id, prop, v).queue|
    ensures var r := Write(w, id, prop, v); EntryHolds(r, r.queue[i])
  {
    var r := Write(w, id, prop, v);
    var cur := Lookup(w.entities[id], prop);
    var key := QueueKey(id, prop);
    assert r.queue == Enqueue(w.queue, id, prop, cur, v);
    EnqueueCoalesces(w.queue, id, prop, cur, v);
    match Find(w.queue, key)
    case Some(j) =>
      QueueKeyInjective(w.queue[j].stateId, w.queue[j].property, id, prop);
      if i != j {
        var c := w.queue[i];
        assert r.queue[i] == c && EntryHolds(w, c);
        WriteLeavesOthers(w, id, prop, v, c.stateId, c.property);
      } else {
        assert EntryHolds(w, w.queue[j]);
      }
    case None =>
      if i < |w.queue| {
        var c := w.queue[i];
        assert r.queue[i] == c && EntryHolds(w, c);
        WriteLeavesOthers(w, id, prop, v, c.stateId, c.property);
      } else {
        assert AgreesIfUnqueued(w, id, prop);
      }
  }

  /** Properties without a queue entry stay in agreement with storage across a write. */
  lemma WriteKeepsUnqueuedCoherent(w: World, id: string, prop: string, v: Value, id': string, prop': string)
    requires Coherent(w) && id in w.entities && DotFree(id) && DotFree(prop)
    requires id' in w.entities && DotFree(id') && DotFree(prop')
    requires Find(Write(w, id, prop, v).queue, QueueKey(id', prop')).None?
    ensures var r := Write(w, id, prop, v);
      Stored(r.storage, id', prop') == Lookup(r.entities[id'], prop')
  {
    var cur := Lookup(w.entities[id], prop);
    if cur != v {
      var r := Write(w, id, prop, v);
      var key := QueueKey(id, prop);
      assert r.queue == Enqueue(w.queue, id, prop, cur, v);
      EnqueueCoalesces(w.queue, id, prop, cur, v);
      if id' != id || prop' != prop {
        if QueueKey(id', prop') == key {
          QueueKeyInjective(id', prop', id, prop);
        }
        match Find(w.queue, key) {
          case Some(j) =>
            assert forall i :: 0 <= i < |w.queue| && i != j ==> r.queue[i] == w.queue[i];
            assert Find(w.queue, QueueKey(id', prop')).None?;
          case None =>
            assert Find(w.queue, QueueKey(id', prop')).None?;
        }
        assert AgreesIfUnqueued(w, id', prop');
        WriteLeavesOthers(w, id, prop, v, id', prop');
      }
    } else {
      assert AgreesIfUnqueued(w, id', prop');
    }
  }

  /** An intercepted write of a dot-free property keeps the world coherent. */
  lemma WriteKeepsCoherent(w: World, id: string, prop: string, v: Value)
    requires Coherent(w) && id in w.entities && DotFree(id) && DotFree(prop)
    ensures Coherent(Write(w, id, prop, v))
  {
    var cur := Lookup(w.entities[id], prop);
    if cur != v {
      var r := Write(w, id, prop, v);
      assert r.queue == Enqueue(w.queue, id, prop, cur, v);
      EnqueueKeepsUniqueKeys(w.queue, id, prop, cur, v);
      forall i | 0 <= i < |r.queue| ensures EntryHolds(r, r.queue[i]) {
        WriteKeepsEntryCoherent(w, id, prop, v, i);
      }
      forall id', prop' ensures AgreesIfUnqueued(r, id', prop') {
        if id' in r.entities && DotFree(id') && DotFree(prop') && Find(r.queue, QueueKey(id', prop')).None? {
          WriteKeepsUnqueuedCoherent(w, id, prop, v, id', prop');
        }
      }
    }
  }

  // ---------------------------------------------------------------------------
  // Bursts of writes to one property

  /** Writes `handle[prop] = vs[0]; …; handle[prop] = vs[n-1]` in one cycle. */
  function WriteAll(w: World, id: string, prop: string, vs: seq<Value>): (r: World)
    requires id in w.entities
    ensures r.entities.Keys == w.entities.Keys
    decreases |vs|
  {
    if vs == [] then w else Write(WriteAll(w, id, prop, vs[..|vs| - 1]), id, prop, vs[|vs| - 1])
  }

  /** What a burst of writes to `prop` of store `id` has done so far, relative to
      the world `w` before it: only that property changed, and the queue gained
      at most one entry, last, with the value before the burst as `valueOld`
      (always, once the value differs), and at most one flush was scheduled. */
  ghost predicate BurstShape(w: World, r: World, id: string, prop: string)
    requires id in w.entities && id in r.entities
  {
    var orig := Lookup(w.entities[id], prop);
    var now := Lookup(r.entities[id], prop);
    && r.entities == w.entities[id := Assign(w.entities[id], prop, now)]
    && r.storage == w.storage && r.events == w.events
    && (r.queue == w.queue || r.queue == w.queue + [Change(id, prop, now, orig)])
    && (now != orig ==> r.queue == w.queue + [Change(id, prop, now, orig)])
    && (r.queue == w.queue ==> r.pending == w.pending && r.scheduled == w.scheduled)
    && (r.queue != w.queue ==> r.pending && r.scheduled <= w.scheduled + 1)
    && (w.pending ==> r.scheduled == w.scheduled)
  }

  lemma AssignTwice(props: map<string, Prim>, p: string, a: Value, b: Value)
    ensures Assign(Assign(props, p, a), p, b) == Assign(props, p, b)
  {
  }

  lemma BurstStep(w: World, m: World, id: string, prop: string, v: Value)
    requires id in w.entities && id in m.entities && UniqueKeys(w.queue)
    requires Find(w.queue, QueueKey(id, prop)).None?
    requires BurstShape(w, m, id, prop)
    ensures BurstShape(w, Write(m, id, prop, v), id, prop)
  {
    var orig := Lookup(w.entities[id], prop);
    var mid := Lookup(m.entities[id], prop);
    if mid != v {
      var r := Write(m, id, prop, v);
      assert r.entities == m.entities[id := Assign(m.entities[id], prop, v)];
      AssignTwice(w.entities[id], prop, mid, v);
      if m.queue == w.queue {
        assert mid == orig;
        assert r.queue == w.queue + [Change(id, prop, v, orig)];
      } else {
        var c := Change(id, prop, mid, orig);
        assert m.queue == w.queue + [c];
        assert Find(m.queue, QueueKey(id, prop)) == Some(|w.queue|);
        assert r.queue == m.queue[|w.queue| := c.(value := v)];
        assert r.queue == w.queue + [Change(id, prop, v, orig)];
      }
    }
  }

  /** Coalescing: however many writes a burst makes to a property that had no
      queue entry, the queue gains at most one entry, placed last, whose
      `valueOld` is the value before the burst and whose value is the value
      after it; the entry is there whenever the value changed. */
  lemma {:induction false} BurstCoalesces(w: World, id: string, prop: string, vs: seq<Value>)
    requires id in w.entities && UniqueKeys(w.queue)
    requires Find(w.queue, QueueKey(id, prop)).None?
    ensures var r := WriteAll(w, id, prop, vs);
      && Lookup(r.entities[id], prop) == (if vs == [] then Lookup(w.entities[id], prop) else vs[|vs| - 1])
      && BurstShape(w, r, id, prop)
    decreases |vs|
  {
    if vs == [] {
      assert Assign(w.entities[id], prop, Lookup(w.entities[id], prop)) == w.entities[id];
    } else {
      var init := vs[..|vs| - 1];
      BurstCoalesces(w, id, prop, init);
      BurstStep(w, WriteAll(w, id, prop, init), id, prop, vs[|vs| - 1]);
    }
  }

  /** The part of `BurstShape` a flush looks at: no new event, and either no
      new entry (the value is back where it started) or the one entry last. */
  lemma BurstQueue(w: World, id: string, prop: string, vs: seq<Value>)
    requires id in w.entities && UniqueKeys(w.queue)
    requires Find(w.queue, QueueKey(id, prop)).None?
    ensures var r := WriteAll(w, id, prop, vs);
      var orig := Lookup(w.entities[id], prop);
      var now := Lookup(r.entities[id], prop);
      && r.events == w.events
      && ((r.queue == w.queue && now == orig) || r.queue == w.queue + [Change(id, prop, now, orig)])
  {
    BurstCoalesces(w, id, prop, vs);
  }

  /** What a flush after a burst shows: one pair of events carrying the last
      value and the value before the burst, or nothing when the burst ended
      where it started (the set-then-revert case). */
  lemma BurstThenFlush(w: World, id: string, prop: string, vs: seq<Value>)
    requires id in w.entities && UniqueKeys(w.queue)
    requires Find(w.queue, QueueKey(id, prop)).None?
    ensures var r := WriteAll(w, id, prop, vs);
      var orig := Lookup(w.entities[id], prop);
      var now := Lookup(r.entities[id], prop);
      Flush(r).events == Flush(w).events + (if now == orig then [] else Announce(Change(id, prop, now, orig)))
  {
    var r := WriteAll(w, id, prop, vs);
    var orig := Lookup(w.entities[id], prop);
    var now := Lookup(r.entities[id], prop);
    BurstQueue(w, id, prop, vs);
    FlushEvents(w);
    FlushEvents(r);
    var tail := if now == orig then [] else Announce(Change(id, prop, now, orig));
    if r.queue == w.queue {
      assert Announced(r.queue) == Announced(w.queue) + tail;
    } else {
      var c := Change(id, prop, now, orig);
      AnnouncedAppend(w.queue, c);
      assert Announced([c]) == tail;
    }
    assert Flush(r).events == w.events + (Announced(w.queue) + tail);
    AppendAssoc(w.events, Announced(w.queue), tail);
  }

  lemma AppendAssoc<T>(a: seq<T>, b: seq<T>, c: seq<T>)
    ensures a + (b + c) == (a + b) + c
  {
  }

  // ---------------------------------------------------------------------------
  // Registry and initialisation (`E`, `h`)

  /** `t = t || y`. */
  function ResolveId(id: string): (r: string)
    ensures r != ""
    ensures id != "" ==> r == id
    ensures id == "" ==> r == DefaultId
  {
    if id == "" then DefaultId else id
  }

  /** `c.has(t) || c.set(t, new Proxy(new d(t), g))`: a new store starts empty;
      a registered one is kept as it is. */
  function Register(w: World, id: string): (r: World)
    ensures id in r.entities && r.entities.Keys == w.entities.Keys + {id}
    ensures forall other :: other in w.entities ==> r.entities[other] == w.entities[other]
    ensures id !in w.entities ==> r.entities[id] == map[]
    ensures r.queue == w.queue && r.pending == w.pending && r.scheduled == w.scheduled
    ensures r.storage == w.storage && r.events == w.events
  {
    if id in w.entities then w else w.(entities := w.entities[id := map[]])
  }

  /** `r` holds, by property, the records in storage under
      `"sZ." + id + "." + property`. */
  ghost predicate IsRecords(storage: map<string, Prim>, id: string, r: map<string, Prim>)
  {
    && (forall p :: p in r <==> DotFree(id) && DotFree(p) && Encode(id, p) in storage)
    && (forall p :: p in r ==> r[p] == storage[Encode(id, p)])
  }

  /** Collecting every key that `f` decodes to store `id` gives those records. */
  lemma RecordsExist(storage: map<string, Prim>, id: string)
    ensures exists r :: IsRecords(storage, id, r)
  {
    assert forall k1, k2 :: k1 in storage && k2 in storage && Decode(k1).Some? && Decode(k1) == Decode(k2) ==> k1 == k2 by {
      forall k1, k2 | k1 in storage && k2 in storage && Decode(k1).Some? && Decode(k1) == Decode(k2)
        ensures k1 == k2
      {
        DecodeInjective(k1, k2);
      }
    }
    var r := map k | k in storage && Decode(k).Some? && Decode(k).value.store == id :: Decode(k).value.property := storage[k];
    forall p ensures p in r <==> DotFree(id) && DotFree(p) && Encode(id, p) in storage {
      if p in r {
        var k :| k in storage && Decode(k).Some? && Decode(k).value.store == id && Decode(k).value.property == p;
        EncodeDecode(k);
      }
      if DotFree(id) && DotFree(p) && Encode(id, p) in storage {
        DecodeEncode(id, p);
      }
    }
    forall p | p in r ensures r[p] == storage[Encode(id, p)] {
      DecodeEncode(id, p);
    }
    assert IsRecords(storage, id, r);
  }

  /** The records of store `id` that the first loop of `h` finds in storage,
      by property. */
  ghost function StoredRecords(storage: map<string, Prim>, id: string): (r: map<string, Prim>)
    ensures forall p :: p in r <==> DotFree(id) && DotFree(p) && Encode(id, p) in storage
    ensures forall p :: p in r ==> r[p] == storage[Encode(id, p)]
  {
    RecordsExist(storage, id);
    var r :| IsRecords(storage, id, r);
    r
  }

  /** `JSON.parse(i.getItem(r)) || void 0`: a falsy stored value reads as undefined. */
  function Revived(x: Prim): (v: Value)
    ensures v == Undefined <==> !Truthy(Defined(x))
    ensures v != Undefined ==> v == Parse(x)
  {
    if Truthy(Parse(x)) then Parse(x) else Undefined
  }

  /** The first loop of `h`: each stored record `rec` of the store is set
      directly, as revived from its JSON. */
  function Adopt(props: map<string, Prim>, rec: map<string, Prim>): (r: map<string, Prim>)
    ensures forall p :: p in rec ==> Lookup(r, p) == Revived(rec[p])
    ensures forall p :: p !in rec ==> Lookup(r, p) == Lookup(props, p)
  {
    (props - rec.Keys) + map p | p in rec && Truthy(Defined(rec[p])) :: rec[p]
  }

  /** `r` is `s` with some of its elements left out, the rest in their order. */
  ghost predicate Subsequence<T>(r: seq<T>, s: seq<T>)
    decreases |s|
  {
    r == [] || (s != [] && ((r[0] == s[0] && Subsequence(r[1..], s[1..])) || Subsequence(r, s[1..])))
  }

  /** `delete e[l]` for every stored property, keeping the defaults' order. */
  function Remaining(defaults: seq<(string, Value)>, stored: set<string>): (r: seq<(string, Value)>)
    ensures forall d :: d in r <==> d in defaults && d.0 !in stored
    ensures Subsequence(r, defaults)
  {
    if defaults == [] then []
    else
      var rest := Remaining(defaults[1..], stored);
      if defaults[0].0 in stored then rest
      else
        assert ([defaults[0]] + rest)[1..] == rest;
        [defaults[0]] + rest
  }

  /** The second loop of `h`: `t[s] = e[s]` through the proxy, in order. */
  function ApplyDefaults(w: World, id: string, ds: seq<(string, Value)>): (r: World)
    requires id in w.entities
    ensures r.entities.Keys == w.entities.Keys
    ensures r.storage == w.storage && r.events == w.events
    ensures forall other :: other in w.entities && other != id ==> r.entities[other] == w.entities[other]
    ensures forall p :: (forall d :: d in ds ==> d.0 != p) ==> Lookup(r.entities[id], p) == Lookup(w.entities[id], p)
    decreases |ds|
  {
    if ds == [] then w
    else
      var m := ApplyDefaults(w, id, ds[..|ds| - 1]);
      var d := ds[|ds| - 1];
      assert forall x :: x in ds[..|ds| - 1] ==> x in ds;
      Write(m, id, d.0, d.1)
  }

  /** `h(t, e)`: adopt the stored records, then apply the defaults they did not
      override. */
  ghost function Init(w: World, id: string, defaults: seq<(string, Value)>): (r: World)
    requires id in w.entities
    ensures r.entities.Keys == w.entities.Keys
    ensures r.storage == w.storage && r.events == w.events
    ensures forall other :: other in w.entities && other != id ==> r.entities[other] == w.entities[other]
  {
    ApplyDefaults(Adopted(w, id), id, Remaining(defaults, StoredRecords(w.storage, id).Keys))
  }

  /** The world after the first loop of `h` on store `id`. */
  ghost function Adopted(w: World, id: string): (r: World)
    requires id in w.entities
    ensures r.entities.Keys == w.entities.Keys
    ensures forall other :: other in w.entities && other != id ==> r.entities[other] == w.entities[other]
    ensures r.queue == w.queue && r.storage == w.storage
  {
    w.(entities := w.entities[id := Adopt(w.entities[id], StoredRecords(w.storage, id))])
  }

  /** `E(t, e)`: resolve the id, register a new store if needed, run `h` on it. */
  ghost function StateZ(w: World, id: string, defaults: seq<(string, Value)>): World
  {
    Init(Register(w, ResolveId(id)), ResolveId(id), defaults)
  }

  /** The property names of a defaults object are distinct. */
  ghost predicate DistinctNames(ds: seq<(string, Value)>)
  {
    forall i, j :: 0 <= i < |ds| && 0 <= j < |ds| && ds[i].0 == ds[j].0 ==> i == j
  }

  lemma {:induction false} RemainingDistinct(ds: seq<(string, Value)>, stored: set<string>)
    requires DistinctNames(ds)
    ensures DistinctNames(Remaining(ds, stored))
    decreases |ds|
  {
    if ds != [] {
      RemainingDistinct(ds[1..], stored);
      var rest := Remaining(ds[1..], stored);
      forall d | d in rest ensures d.0 != ds[0].0 {
        var k :| 0 <= k < |ds[1..]| && ds[1..][k] == d;
        assert ds[k + 1] == d;
      }
    }
  }

  /** With distinct names, each default is what the property reads afterwards. */
  lemma {:induction false} ApplyDefaultsSets(w: World, id: string, ds: seq<(string, Value)>, k: nat)
    requires id in w.entities && DistinctNames(ds) && k < |ds|
    ensures Lookup(ApplyDefaults(w, id, ds).entities[id], ds[k].0) == ds[k].1
    decreases |ds|
  {
    var init := ds[..|ds| - 1];
    assert DistinctNames(init);
    if k < |ds| - 1 {
      ApplyDefaultsSets(w, id, init, k);
    }
  }

  /** Initialisation: a stored record of the store wins over a default of the
      same name and a falsy one leaves the property absent; a default whose name
      has no record is what the property reads; properties named neither by a
      record nor by a default keep their value; storage and the event log are
      untouched (the defaults are queued and persisted by the next flush). */
  lemma InitResult(w: World, id: string, defaults: seq<(string, Value)>, p: string)
    requires id in w.entities && DistinctNames(defaults)
    ensures var r := Init(w, id, defaults);
      var rec := StoredRecords(w.storage, id);
      && r.storage == w.storage && r.events == w.events
      && (p in rec ==> Lookup(r.entities[id], p) == Revived(rec[p]))
      && (forall k :: 0 <= k < |defaults| && defaults[k].0 == p && p !in rec ==>
            Lookup(r.entities[id], p) == defaults[k].1)
      && ((forall d :: d in defaults ==> d.0 != p) && p !in rec ==>
            Lookup(r.entities[id], p) == Lookup(w.entities[id], p))
  {
    var rec := StoredRecords(w.storage, id);
    var w1 := Adopted(w, id);
    var ds := Remaining(defaults, rec.Keys);
    RemainingDistinct(defaults, rec.Keys);
    forall k | 0 <= k < |defaults| && defaults[k].0 == p && p !in rec
      ensures Lookup(Init(w, id, defaults).entities[id], p) == defaults[k].1
    {
      assert defaults[k] in ds;
      var j :| 0 <= j < |ds| && ds[j] == defaults[k];
      ApplyDefaultsSets(w1, id, ds, j);
    }
  }

  /** Calling `E` again with an id already registered keeps the same store: no
      other store changes and none is created. */
  lemma StateZKeepsRegistry(w: World, id: string, defaults: seq<(string, Value)>)
    ensures var r := StateZ(w, id, defaults);
      && r.entities.Keys == w.entities.Keys + {ResolveId(id)}
      && (forall other :: other in w.entities && other != ResolveId(id) ==> r.entities[other] == w.entities[other])
      && r.storage == w.storage && r.events == w.events
  {
  }

  /** Every record of store `id` in storage is truthy, so `h` revives it as stored. */
  ghost predicate RecordsTruthy(storage: map<string, Prim>, id: string)
  {
    forall p :: DotFree(p) && Encode(id, p) in storage ==> Truthy(Defined(storage[Encode(id, p)]))
  }

  /** No write to a property of store `id` that has a record is waiting in the
      queue (an entry whose value is back at `valueOld` waits for nothing). */
  ghost predicate NoPendingOnRecords(w: World, id: string)
  {
    forall i :: 0 <= i < |w.queue| && w.queue[i].stateId == id && Encode(id, w.queue[i].property) in w.storage ==>
      w.queue[i].value == w.queue[i].valueOld
  }

  /** The first loop of `h` makes store `id` agree with storage: its recorded
      properties take the stored values, and it needs agreement beforehand only
      on the properties it already holds (a new store holds none). */
  lemma AdoptKeepsCoherent(w: World, id: string)
    requires id in w.entities && DotFree(id)
    requires WellFormedQueue(w) && forall i :: 0 <= i < |w.queue| ==> EntryHolds(w, w.queue[i])
    requires forall id', prop' :: id' != id || prop' in w.entities[id] ==> AgreesIfUnqueued(w, id', prop')
    requires RecordsTruthy(w.storage, id) && NoPendingOnRecords(w, id)
    ensures Coherent(Adopted(w, id))
  {
    var rec := StoredRecords(w.storage, id);
    var r := Adopted(w, id);
    assert r.entities[id] == Adopt(w.entities[id], rec);
    forall p | p in rec ensures Lookup(r.entities[id], p) == Stored(w.storage, id, p) {
      assert Truthy(Defined(w.storage[Encode(id, p)]));
    }
    forall i | 0 <= i < |r.queue| ensures EntryHolds(r, r.queue[i]) {
      assert EntryHolds(w, w.queue[i]);
    }
    forall id', prop' ensures AgreesIfUnqueued(r, id', prop') {
      if id' in r.entities && DotFree(id') && DotFree(prop') && Find(r.queue, QueueKey(id', prop')).None? {
        if id' != id || prop' in w.entities[id] {
          assert AgreesIfUnqueued(w, id', prop');
        }
      }
    }
  }

  /** The second loop of `h` writes through the proxy, so it keeps coherence. */
  lemma {:induction false} ApplyDefaultsKeepsCoherent(w: World, id: string, ds: seq<(string, Value)>)
    requires Coherent(w) && id in w.entities && DotFree(id)
    requires forall d :: d in ds ==> DotFree(d.0)
    ensures Coherent(ApplyDefaults(w, id, ds))
    decreases |ds|
  {
    if ds != [] {
      var init := ds[..|ds| - 1];
      assert forall d :: d in init ==> d in ds;
      ApplyDefaultsKeepsCoherent(w, id, init);
      WriteKeepsCoherent(ApplyDefaults(w, id, init), id, ds[|ds| - 1].0, ds[|ds| - 1].1);
    }
  }

  /** `E` keeps the world coherent when the store's names are dot-free, every
      record of the store is truthy, and no write to a recorded property of it
      is waiting in the queue. */
  lemma StateZKeepsCoherent(w: World, id: string, defaults: seq<(string, Value)>)
    requires Coherent(w) && DotFree(ResolveId(id))
    requires forall d :: d in defaults ==> DotFree(d.0)
    requires RecordsTruthy(w.storage, ResolveId(id)) && NoPendingOnRecords(w, ResolveId(id))
    ensures Coherent(StateZ(w, id, defaults))
  {
    var rid := ResolveId(id);
    var w0 := Register(w, rid);
    forall i | 0 <= i < |w0.queue| ensures EntryHolds(w0, w0.queue[i]) {
      assert EntryHolds(w, w.queue[i]);
    }
    forall id', prop' | id' != rid || prop' in w0.entities[rid] ensures AgreesIfUnqueued(w0, id', prop') {
      assert AgreesIfUnqueued(w, id', prop');
    }
    AdoptKeepsCoherent(w0, rid);
    var ds := Remaining(defaults, StoredRecords(w0.storage, rid).Keys);
    ApplyDefaultsKeepsCoherent(Adopted(w0, rid), rid, ds);
  }

  /** Durable defaults: after `E` and the next flush every property of every
      store is stored as its in-memory value, and a default with no record is
      what its property reads and what storage holds. */
  lemma DefaultsPersist(w: World, id: string, defaults: seq<(string, Value)>, k: nat)
    requires Coherent(w) && DotFree(ResolveId(id))
    requires forall d :: d in defaults ==> DotFree(d.0)
    requires RecordsTruthy(w.storage, ResolveId(id)) && NoPendingOnRecords(w, ResolveId(id))
    requires DistinctNames(defaults) && k < |defaults|
    requires Encode(ResolveId(id), defaults[k].0) !in w.storage
    ensures var r := Flush(StateZ(w, id, defaults));
      && Synced(r)
      && Lookup(r.entities[ResolveId(id)], defaults[k].0) == defaults[k].1
      && Stored(r.storage, ResolveId(id), defaults[k].0) == defaults[k].1
  {
    var rid := ResolveId(id);
    var m := StateZ(w, id, defaults);
    StateZKeepsCoherent(w, id, defaults);
    FlushSyncs(m);
    assert defaults[k] in defaults;
    InitResult(Register(w, rid), rid, defaults, defaults[k].0);
  }

  /** With no defaults, `E` only registers the store and adopts its records:
      the queue, the flag and storage are untouched. */
  lemma StateZWithoutDefaults(w: World, id: string)
    ensures StateZ(w, id, []) == Adopted(Register(w, ResolveId(id)), ResolveId(id))
    ensures StateZ(w, id, []).queue == w.queue && StateZ(w, id, []).storage == w.storage
  {
    var rid := ResolveId(id);
    assert Remaining([], StoredRecords(Register(w, rid).storage, rid).Keys) == [];
  }

  /** A falsy record is dropped: after `E` on a fresh page the property is
      absent while storage still holds the record, and a flush leaves it so. */
  lemma FalsyRecordDiverges()
    ensures var w := World(map[], [], false, 0, map["sZ.s.a" := Num(0)], []);
      var r := Flush(StateZ(w, "s", []));
      && Coherent(w)
      && Lookup(r.entities["s"], "a") == Undefined
      && Stored(r.storage, "s", "a") == Defined(Num(0))
  {
    var w := World(map[], [], false, 0, map["sZ.s.a" := Num(0)], []);
    assert Encode("s", "a") == "sZ.s.a";
    InitResult(Register(w, "s"), "s", [], "a");
  }

  /** Store `s` whose property `a` is 3 in memory and in storage. */
  function SyncedStore(): World
  {
    World(map["s" := map["a" := Num(3)]], [], false, 0, map["sZ.s.a" := Num(3)], [])
  }

  lemma SyncedStoreIsCoherent()
    ensures Coherent(SyncedStore())
  {
    var w := SyncedStore();
    assert Encode("s", "a") == "sZ.s.a";
    forall id, prop | id in w.entities && DotFree(id) && DotFree(prop)
      ensures Stored(w.storage, id, prop) == Lookup(w.entities[id], prop)
    {
      if Encode(id, prop) == "sZ.s.a" {
        EncodeInjective(id, prop, "s", "a");
      }
    }
    SyncedEmptyQueueIsCoherent(w);
  }

  /** Calling `E` again while a write is queued resets the property to its
      record, and the flush then stores the queued value: memory ends at 3,
      storage at 5. */
  lemma RecreateDiscardsQueuedWrite()
    ensures var w := SyncedStore();
      var r := Flush(StateZ(Write(w, "s", "a", Defined(Num(5))), "s", []));
      && Coherent(w)
      && Lookup(r.entities["s"], "a") == Defined(Num(3))
      && Stored(r.storage, "s", "a") == Defined(Num(5))
  {
    var w := SyncedStore();
    var w1 := Write(w, "s", "a", Defined(Num(5)));
    var q := [Change("s", "a", Defined(Num(5)), Defined(Num(3)))];
    assert Encode("s", "a") == "sZ.s.a";
    assert w1.queue == q;
    var m := StateZ(w1, "s", []);
    StateZWithoutDefaults(w1, "s");
    assert m.queue == q && m.storage == w1.storage;
    InitResult(Register(w1, "s"), "s", [], "a");
    assert UniqueKeys(q) && DotFree("s") && DotFree("a");
    ReplayStored(m, q, "s", "a");
    assert Find(q, QueueKey("s", "a")) == Some(0);
    SyncedStoreIsCoherent();
  }

  /** Another tab writes a property while this tab's write to it is queued:
      the listener sets the property directly and leaves the entry, so the
      flush stores this tab's value while memory keeps the other tab's. */
  lemma CrossTabRaceDiverges()
    ensures var w := SyncedStore();
      var w1 := Write(w, "s", "a", Defined(Num(5)));
      var w2 := OnStorage(ExternalWrite(w1, "sZ.s.a", Some(Num(7))), "sZ.s.a", Some(Num(7)));
      var r := Flush(w2);
      && Coherent(w)
      && Lookup(r.entities["s"], "a") == Defined(Num(7))
      && Stored(r.storage, "s", "a") == Defined(Num(5))
  {
    var w2 := OnStorage(ExternalWrite(Write(SyncedStore(), "s", "a", Defined(Num(5))), "sZ.s.a", Some(Num(7))), "sZ.s.a", Some(Num(7)));
    var q := [Change("s", "a", Defined(Num(5)), Defined(Num(3)))];
    RaceBeforeFlush();
    assert UniqueKeys(q) && DotFree("s") && DotFree("a");
    ReplayStored(w2, q, "s", "a");
    assert Find(q, QueueKey("s", "a")) == Some(0);
    SyncedStoreIsCoherent();
  }

  /** The race before the flush: the other tab's value is in memory and this
      tab's entry is still queued. */
  lemma RaceBeforeFlush()
    ensures var w1 := Write(SyncedStore(), "s", "a", Defined(Num(5)));
      var w2 := OnStorage(ExternalWrite(w1, "sZ.s.a", Some(Num(7))), "sZ.s.a", Some(Num(7)));
      && "s" in w2.entities
      && Lookup(w2.entities["s"], "a") == Defined(Num(7))
      && w2.queue == [Change("s", "a", Defined(Num(5)), Defined(Num(3)))]
  {
    var w1 := Write(SyncedStore(), "s", "a", Defined(Num(5)));
    assert w1.queue == [Change("s", "a", Defined(Num(5)), Defined(Num(3)))];
    assert Encode("s", "a") == "sZ.s.a";
    DecodeEncode("s", "a");
  }

  /** `handle.set` bypasses the queue: memory and storage disagree and a flush
      does not reconcile them. */
  lemma DirectSetDiverges()
    ensures var w := SyncedStore();
      var r := Flush(DirectSet(w, "s", "a", Defined(Num(5))));
      && Coherent(w)
      && Lookup(r.entities["s"], "a") == Defined(Num(5))
      && Stored(r.storage, "s", "a") == Defined(Num(3))
  {
    SyncedStoreIsCoherent();
    assert Encode("s", "a") == "sZ.s.a";
  }

  // ---------------------------------------------------------------------------
  // Cross-tab reconciliation (the `storage` listener)

  /** The listener's `t.newValue === null ? void 0 : JSON.parse(t.newValue)`. */
  function Incoming(newValue: Option<Prim>): (v: Value)
    ensures v == Undefined <==> newValue.None?
    ensures newValue.Some? ==> v == Parse(newValue.value)
  {
    match newValue
    case None => Undefined
    case Some(x) => Parse(x)
  }

  /** The `storage` listener: a key of a registered store is applied with the
      queue-bypassing `set` and announced at once; any other key is ignored. */
  function OnStorage(w: World, key: string, newValue: Option<Prim>): (r: World)
    ensures r.queue == w.queue && r.pending == w.pending && r.scheduled == w.scheduled
    ensures r.storage == w.storage && r.entities.Keys == w.entities.Keys
    ensures Decode(key).None? || Decode(key).value.store !in w.entities ==> r == w
    ensures Decode(key).Some? && Decode(key).value.store in w.entities ==>
      var sk := Decode(key).value;
      && Lookup(r.entities[sk.store], sk.property) == Incoming(newValue)
      && r.entities[sk.store] - {sk.property} == w.entities[sk.store] - {sk.property}
      && (forall other :: other in w.entities && other != sk.store ==> r.entities[other] == w.entities[other])
      && r.events == w.events + Announce(Change(sk.store, sk.property, Incoming(newValue), Lookup(w.entities[sk.store], sk.property)))
  {
    match Decode(key)
    case None => w
    case Some(sk) =>
      if sk.store !in w.entities then w else Receive(w, sk.store, sk.property, Incoming(newValue))
  }

  /** The listener's work on a registered store: `n.set(property, value)` on the
      raw target, then `n.dispatchEvent` with the value it replaced. */
  function Receive(w: World, id: string, prop: string, v: Value): (r: World)
    requires id in w.entities
    ensures r.queue == w.queue && r.pending == w.pending && r.scheduled == w.scheduled
    ensures r.storage == w.storage && r.entities.Keys == w.entities.Keys
    ensures Lookup(r.entities[id], prop) == v
    ensures r.entities[id] - {prop} == w.entities[id] - {prop}
    ensures forall other :: other in w.entities && other != id ==> r.entities[other] == w.entities[other]
    ensures r.events == w.events + Announce(Change(id, prop, v, Lookup(w.entities[id], prop)))
  {
    var change := Change(id, prop, v, Lookup(w.entities[id], prop));
    w.(entities := w.entities[id := Assign(w.entities[id], prop, v)],
       events := w.events + Announce(change))
  }

  /** What another tab did to the shared storage before the notification arrived. */
  function ExternalWrite(w: World, key: string, newValue: Option<Prim>): World
  {
    w.(storage := Assign(w.storage, key, Incoming(newValue)))
  }

  /** The queued entries stay as they were across an external write and its
      notification: neither touches a queued property. */
  lemma ReconcileKeepsEntry(w: World, key: string, newValue: Option<Prim>, i: nat)
    requires Coherent(w) && i < |w.queue|
    requires Decode(key).Some? && Decode(key).value.store in w.entities ==>
      Find(w.queue, QueueKey(Decode(key).value.store, Decode(key).value.property)).None?
    ensures var r := OnStorage(ExternalWrite(w, key, newValue), key, newValue);
      i < |r.queue| && EntryHolds(r, r.queue[i])
  {
    var c := w.queue[i];
    assert EntryHolds(w, c);
    if key == Encode(c.stateId, c.property) {
      DecodeEncode(c.stateId, c.property);
      assert false;
    }
    if Decode(key).Some? && Decode(key).value == StoreKey(c.stateId, c.property) {
      assert false;
    }
  }

  /** An unqueued property agrees with storage after an external write and its
      notification: the notified property takes the stored value, the others
      are untouched. */
  lemma ReconcileKeepsUnqueued(w: World, key: string, newValue: Option<Prim>, id: string, prop: string)
    requires Coherent(w)
    requires Decode(key).Some? && Decode(key).value.store in w.entities ==>
      Find(w.queue, QueueKey(Decode(key).value.store, Decode(key).value.property)).None?
    ensures AgreesIfUnqueued(OnStorage(ExternalWrite(w, key, newValue), key, newValue), id, prop)
  {
    var r := OnStorage(ExternalWrite(w, key, newValue), key, newValue);
    if id in r.entities && DotFree(id) && DotFree(prop) && Find(r.queue, QueueKey(id, prop)).None? {
      assert AgreesIfUnqueued(w, id, prop);
      if key == Encode(id, prop) {
        DecodeEncode(id, prop);
      }
      if Decode(key).Some? && Decode(key).value == StoreKey(id, prop) {
        EncodeDecode(key);
      }
    }
  }

  /** Reconciliation keeps this tab coherent with the shared storage, provided
      it has no local write of the same property waiting in its own queue. */
  lemma ReconcileKeepsCoherent(w: World, key: string, newValue: Option<Prim>)
    requires Coherent(w)
    requires Decode(key).Some? && Decode(key).value.store in w.entities ==>
      Find(w.queue, QueueKey(Decode(key).value.store, Decode(key).value.property)).None?
    ensures Coherent(OnStorage(ExternalWrite(w, key, newValue), key, newValue))
  {
    var r := OnStorage(ExternalWrite(w, key, newValue), key, newValue);
    forall i | 0 <= i < |r.queue| ensures EntryHolds(r, r.queue[i]) {
      ReconcileKeepsEntry(w, key, newValue, i);
    }
    forall id, prop ensures AgreesIfUnqueued(r, id, prop) {
      ReconcileKeepsUnqueued(w, key, newValue, id, prop);
    }
  }
}
