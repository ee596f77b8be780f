/** statez 2.0.0 (dist/statez.js) as the objects it mutates.

    `State` is the target object of a store (class `d`): its id and its own
    properties, which `Reflect.set` and `Reflect.deleteProperty` change in
    place.  `Runtime` holds the module-level variables: the registry `c`, the
    queue `u`, the flag `a`, `localStorage`, and the log of dispatched events.
    Each method is proved to leave `View()` equal to a function of module
    Statez applied to the old view: mostly the function of the same name, while
    `Dispatch` appends `Announce`, `ReplayQueue` computes `Replay` and
    `AssignDefaults` computes `ApplyDefaults`. */
module StatezRuntime {
  import opened JsValues
  import opened KeyCodec
  import opened Statez

  /** The target behind a store's proxy (class `d`). */
  class State {
    const stateId: string
    var props: map<string, Prim>

    constructor (id: string)
      ensures stateId == id && props == map[]
    {
      stateId := id;
      props := map[];
    }

    /** `d.set(e, n)`: `Reflect.deleteProperty` for undefined, `Reflect.set`
        otherwise, on the raw target. */
    method Set(prop: string, v: Value) returns (ok: bool)
      modifies this
      ensures ok && props == Assign(old(props), prop, v)
    {
      ok := true;
      match v
      case Undefined =>
        props := props - {prop};
      case Defined(x) =>
        props := props[prop := x];
    }

    /** The first loop of `h(t, e)`: every stored record of this store is set
        on the raw target, and its name dropped from the defaults `e`. */
    method AdoptStored(storage: map<string, Prim>, defaults: seq<(string, Value)>)
      returns (e: seq<(string, Value)>)
      modifies this
      ensures e == Remaining(defaults, StoredRecords(storage, stateId).Keys)
      ensures props == Adopt(old(props), StoredRecords(storage, stateId))
    {
      e := defaults;
      var keys := storage.Keys;
      ghost var done: map<string, Prim> := map[];
      AdoptEmpty(props);
      RemainingNone(defaults);
      RecordsEmpty(stateId);
      assert StoredRecords(done, stateId).Keys == {};
      while keys != {}
        invariant keys !! done.Keys && keys + done.Keys == storage.Keys
        invariant forall k :: k in done ==> done[k] == storage[k]
        invariant props == Adopt(old(props), StoredRecords(done, stateId))
        invariant e == Remaining(defaults, StoredRecords(done, stateId).Keys)
        decreases keys
      {
        var k :| k in keys;
        var o := Decode(k);
        if o.Some? && o.value.store == stateId {
          var l := o.value.property;
          AdoptOwnStep(old(props), defaults, done, k, storage[k], stateId);
          var _ := Set(l, Revived(storage[k]));
          e := Remaining(e, {l});
        } else {
          RecordsInsertOther(done, k, storage[k], stateId);
        }
        assert done[k := storage[k]].Keys == done.Keys + {k};
        keys := keys - {k};
        done := done[k := storage[k]];
      }
      assert done == storage;
    }
  }

  lemma LookupExtensional(m1: map<string, Prim>, m2: map<string, Prim>)
    requires forall p :: Lookup(m1, p) == Lookup(m2, p)
    ensures m1 == m2
  {
    assert m1.Keys == m2.Keys by {
      forall p ensures p in m1 <==> p in m2 { assert Lookup(m1, p) == Lookup(m2, p); }
    }
    forall p | p in m1 ensures m1[p] == m2[p] { assert Lookup(m1, p) == Lookup(m2, p); }
  }

  /** A storage entry under a key of store `id` adds the record it holds. */
  lemma RecordsInsertOwn(m: map<string, Prim>, k: string, x: Prim, id: string)
    requires k !in m && Decode(k).Some? && Decode(k).value.store == id
    ensures StoredRecords(m[k := x], id) == StoredRecords(m, id)[Decode(k).value.property := x]
  {
    var m1 := m[k := x];
    var s0, s1 := StoredRecords(m, id), StoredRecords(m1, id);
    var p := Decode(k).value.property;
    EncodeDecode(k);
    var s2 := s0[p := x];
    forall q ensures q in s1 <==> q in s2 {
      if DotFree(q) && Encode(id, q) == k {
        EncodeInjective(id, q, id, p);
      }
    }
    forall q | q in s1 ensures s1[q] == s2[q] {
      if q != p && Encode(id, q) == k {
        EncodeInjective(id, q, id, p);
      }
    }
  }

  /** Any other storage entry adds no record of store `id`. */
  lemma RecordsInsertOther(m: map<string, Prim>, k: string, x: Prim, id: string)
    requires k !in m && !(Decode(k).Some? && Decode(k).value.store == id)
    ensures StoredRecords(m[k := x], id) == StoredRecords(m, id)
  {
    var m1 := m[k := x];
    var s0, s1 := StoredRecords(m, id), StoredRecords(m1, id);
    forall q ensures q in s1 <==> q in s0 {
      if DotFree(id) && DotFree(q) && Encode(id, q) == k {
        DecodeEncode(id, q);
      }
    }
    forall q | q in s1 ensures s1[q] == s0[q] {
      if Encode(id, q) == k {
        DecodeEncode(id, q);
      }
    }
  }

  /** The loop step of `h` that meets a record of its own store. */
  lemma AdoptOwnStep(props0: map<string, Prim>, defaults: seq<(string, Value)>,
                     done: map<string, Prim>, k: string, x: Prim, id: string)
    requires k !in done && Decode(k).Some? && Decode(k).value.store == id
    ensures var l, rec, rec' := Decode(k).value.property, StoredRecords(done, id), StoredRecords(done[k := x], id);
      Adopt(props0, rec') == Assign(Adopt(props0, rec), l, Revived(x)) &&
      Remaining(defaults, rec'.Keys) == Remaining(Remaining(defaults, rec.Keys), {l})
  {
    var l, rec := Decode(k).value.property, StoredRecords(done, id);
    RecordsInsertOwn(done, k, x, id);
    AdoptAssign(props0, rec, l, x);
    RemainingTwice(defaults, rec.Keys, l);
    assert rec[l := x].Keys == rec.Keys + {l};
  }

  lemma RecordsEmpty(id: string)
    ensures StoredRecords(map[], id) == map[]
  {
    var r := StoredRecords(map[], id);
    assert r.Keys == {} by {
      forall p ensures p !in r { }
    }
  }

  lemma AdoptEmpty(props: map<string, Prim>)
    ensures Adopt(props, map[]) == props
  {
    LookupExtensional(Adopt(props, map[]), props);
  }

  /** Adopting one more record is one more raw `set`. */
  lemma AdoptAssign(props: map<string, Prim>, rec: map<string, Prim>, p: string, x: Prim)
    ensures Adopt(props, rec[p := x]) == Assign(Adopt(props, rec), p, Revived(x))
  {
    LookupExtensional(Adopt(props, rec[p := x]), Assign(Adopt(props, rec), p, Revived(x)));
  }

  lemma {:induction false} RemainingNone(ds: seq<(string, Value)>)
    ensures Remaining(ds, {}) == ds
    decreases |ds|
  {
    if ds != [] {
      RemainingNone(ds[1..]);
      assert ds == [ds[0]] + ds[1..];
    }
  }

  lemma RemainingConcat(a: seq<(string, Value)>, b: seq<(string, Value)>, stored: set<string>)
    requires |a| <= 1
    ensures Remaining(a + b, stored) == Remaining(a, stored) + Remaining(b, stored)
  {
    if a != [] {
      assert (a + b)[1..] == b;
      assert a[1..] == [];
    } else {
      assert a + b == b;
    }
  }

  /** `delete e[l]` after earlier deletions. */
  lemma {:induction false} RemainingTwice(ds: seq<(string, Value)>, stored: set<string>, p: string)
    ensures Remaining(Remaining(ds, stored), {p}) == Remaining(ds, stored + {p})
    decreases |ds|
  {
    if ds != [] {
      RemainingTwice(ds[1..], stored, p);
      var head := if ds[0].0 in stored then [] else [ds[0]];
      assert Remaining(ds, stored) == head + Remaining(ds[1..], stored);
      RemainingConcat(head, Remaining(ds[1..], stored), {p});
    }
  }

  /** The module-level state of dist/statez.js. */
  class Runtime {
    var stores: map<string, State>
    var queue: seq<Change>
    var pending: bool
    var scheduled: nat
    var storage: map<string, Prim>
    var events: seq<Event>

    /** Every store is registered under its own id. */
    ghost predicate Valid()
      reads this
    {
      forall id :: id in stores ==> stores[id].stateId == id
    }

    /** The snapshot the functions of module Statez describe. */
    ghost function View(): World
      reads this, stores.Values
    {
      World(map id | id in stores :: stores[id].props, queue, pending, scheduled, storage, events)
    }

    /** A fresh page: no store yet, nothing queued, storage as other tabs left it. */
    constructor (storage: map<string, Prim>)
      ensures Valid() && View() == World(map[], [], false, 0, storage, [])
    {
      stores := map[];
      queue := [];
      pending := false;
      scheduled := 0;
      this.storage := storage;
      events := [];
    }

    /** `n.dispatchEvent(detail)` on the store the detail names. */
    method Dispatch(c: Change)
      modifies this
      ensures events == old(events) + Announce(c)
      ensures stores == old(stores) && queue == old(queue) && pending == old(pending)
      ensures scheduled == old(scheduled) && storage == old(storage)
    {
      events := events + [Event(c.property, c)];
      events := events + [Event(Wildcard, c)];
    }

    /** The registry seen after the properties of one store changed in place. */
    lemma EntitiesAfter(w: World, s: State)
      requires Valid() && s.stateId in stores && stores[s.stateId] == s
      requires stores.Keys == w.entities.Keys
      requires forall id :: id in stores && id != s.stateId ==> stores[id].props == w.entities[id]
      ensures View().entities == w.entities[s.stateId := s.props]
    {
    }

    /** `p(t, e, n)`: the proxy's `set` trap, and its `deleteProperty` trap with
        `v` undefined. */
    method Write(s: State, prop: string, v: Value) returns (ok: bool)
      requires Valid() && s.stateId in stores && stores[s.stateId] == s
      modifies this, s
      ensures Valid() && stores == old(stores) && ok
      ensures View() == Statez.Write(old(View()), s.stateId, prop, v)
    {
      ghost var w0 := View();
      assert w0.entities[s.stateId] == s.props;
      var valueOld := Lookup(s.props, prop);
      ok := true;
      if valueOld != v {
        ok := s.Set(prop, v);
        queue := Enqueue(queue, s.stateId, prop, valueOld, v);
        if !pending {
          scheduled := scheduled + 1;
          pending := true;
        }
        assert forall id :: id in stores && id != s.stateId ==> stores[id] != s;
        EntitiesAfter(w0, s);
      }
    }

    /** `delete handle[prop]`: the `deleteProperty` trap, `p(t, e)` with no value. */
    method Delete(s: State, prop: string) returns (ok: bool)
      requires Valid() && s.stateId in stores && stores[s.stateId] == s
      modifies this, s
      ensures Valid() && stores == old(stores) && ok
      ensures View() == Statez.Write(old(View()), s.stateId, prop, Undefined)
    {
      ok := Write(s, prop, Undefined);
    }

    /** `handle.set(prop, v)`: the get trap binds `set` to the raw target, so the
        write bypasses the queue. */
    method DirectSet(s: State, prop: string, v: Value) returns (ok: bool)
      requires Valid() && s.stateId in stores && stores[s.stateId] == s
      modifies s
      ensures ok && View() == Statez.DirectSet(old(View()), s.stateId, prop, v)
    {
      ghost var w0 := View();
      ok := s.Set(prop, v);
      assert forall id :: id in stores && id != s.stateId ==> stores[id] != s;
      EntitiesAfter(w0, s);
    }

    /** `w()`: replay the queue in insertion order, then clear it and reset the flag. */
    method Flush()
      requires Valid()
      modifies this
      ensures Valid() && stores == old(stores)
      ensures View() == Statez.Flush(old(View()))
    {
      var evs, st := ReplayQueue();
      events, storage := evs, st;
      queue := [];
      pending := false;
    }

    /** The loop of `w()`: for each entry in insertion order whose value is not
        back at `valueOld`, dispatch it and write its JSON to (or remove it from)
        storage; returns the event log and storage it leaves. */
    method ReplayQueue() returns (evs: seq<Event>, st: map<string, Prim>)
      ensures evs == Replay(View(), queue).events && st == Replay(View(), queue).storage
    {
      ghost var w0 := View();
      evs, st := events, storage;
      var i := 0;
      while i < |queue|
        invariant 0 <= i <= |queue|
        invariant evs == Replay(w0, queue[..i]).events && st == Replay(w0, queue[..i]).storage
      {
        var e := queue[i];
        ReplayStep(w0, queue, i);
        if e.value != e.valueOld {
          evs := evs + Announce(e);
          var key := Encode(e.stateId, e.property);
          match Stringify(e.value) {
            case None =>
              st := st - {key};
            case Some(text) =>
              st := st[key := text];
          }
        }
        i := i + 1;
      }
      assert queue[..i] == queue;
    }

    /** The second loop of `h(t, e)`: `t[s] = e[s]` through the proxy, in order. */
    method AssignDefaults(s: State, e: seq<(string, Value)>)
      requires Valid() && s.stateId in stores && stores[s.stateId] == s
      modifies this, s
      ensures Valid() && stores == old(stores)
      ensures View() == ApplyDefaults(old(View()), s.stateId, e)
    {
      ghost var w1 := View();
      var j := 0;
      while j < |e|
        invariant 0 <= j <= |e|
        invariant Valid() && stores == old(stores)
        invariant View() == ApplyDefaults(w1, s.stateId, e[..j])
      {
        assert e[..j + 1][..j] == e[..j];
        var _ := Write(s, e[j].0, e[j].1);
        j := j + 1;
      }
      assert e[..j] == e;
    }

    /** `h(t, e)`: adopt the stored records, then assign the defaults they did not
        override. */
    method Init(s: State, defaults: seq<(string, Value)>)
      requires Valid() && s.stateId in stores && stores[s.stateId] == s
      modifies this, s
      ensures Valid() && stores == old(stores)
      ensures View() == Statez.Init(old(View()), s.stateId, defaults)
    {
      ghost var w0 := View();
      var e := s.AdoptStored(storage, defaults);
      assert forall other :: other in stores && other != s.stateId ==> stores[other] != s;
      EntitiesAfter(w0, s);
      AssignDefaults(s, e);
    }

    /** `E(t, e)`: the handle of store `t` (default "statez"), created and
        registered on first use; `h` runs on every call. */
    method StateZ(id: string, defaults: seq<(string, Value)>) returns (s: State)
      requires Valid()
      modifies this, stores.Values
      ensures Valid() && s.stateId == ResolveId(id)
      ensures ResolveId(id) in stores && stores[ResolveId(id)] == s
      ensures ResolveId(id) in old(stores) ==> s == old(stores[ResolveId(id)])
      ensures ResolveId(id) !in old(stores) ==> fresh(s)
      ensures forall other :: other in old(stores) ==> other in stores && stores[other] == old(stores[other])
      ensures View() == Statez.StateZ(old(View()), id, defaults)
    {
      ghost var w0 := View();
      var t := ResolveId(id);
      if t !in stores {
        var created := new State(t);
        stores := stores[t := created];
      }
      s := stores[t];
      assert View() == Register(w0, t);
      Init(s, defaults);
    }

    /** The `storage` listener: a change another tab made to a key of a
        registered store is applied with the raw `set` and announced at once. */
    method OnStorage(key: string, newValue: Option<Prim>)
      requires Valid()
      modifies this, stores.Values
      ensures Valid() && stores == old(stores)
      ensures View() == Statez.OnStorage(old(View()), key, newValue)
    {
      var e := Decode(key);
      if e.Some? && e.value.store in stores {
        var n := stores[e.value.store];
        assert n in stores.Values;
        Receive(n, e.value.property, Incoming(newValue));
      }
    }

    /** The listener's work on store `s`: set the property on the raw target,
        then dispatch the change. */
    method Receive(s: State, prop: string, v: Value)
      requires Valid() && s.stateId in stores && stores[s.stateId] == s
      modifies this, s
      ensures Valid() && stores == old(stores)
      ensures View() == Statez.Receive(old(View()), s.stateId, prop, v)
    {
      ghost var w0 := View();
      assert w0.entities[s.stateId] == s.props;
      var r := Change(s.stateId, prop, v, Lookup(s.props, prop));
      var _ := s.Set(prop, v);
      assert forall other :: other in stores && other != s.stateId ==> stores[other] != s;
      EntitiesAfter(w0, s);
      Dispatch(r);
    }
  }
}
