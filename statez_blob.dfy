/** The earlier design of the state container (src/statez.js).

    Each store is a `Target` whose own properties are the state.  A proxy
    dispatches a `change` event at once for every change made through it, and
    the whole store is persisted as one JSON object under its name, written by
    `syncState` and, when the store has a sync delay, by a debounce timer that
    each dispatch restarts.  Unlike statez 2.0.0, an own property may hold
    `undefined`, so the properties are a map to `Value`. */
module StatezBlob {
  import opened JsValues

  /** The `type` option: `stateZtype.page` (null), `.session` or `.permanent`. */
  datatype StoreType = Page | Session | Local

  /** `type || 'page'`: the name of the storage object, or "page". */
  function TypeName(t: StoreType): string
  {
    match t
    case Page => "page"
    case Session => "sessionStorage"
    case Local => "localStorage"
  }

  /** `name || 'stateZ' + (type || 'page')`: an empty name selects the default. */
  function ResolveName(name: string, t: StoreType): (r: string)
    ensures r != ""
    ensures name != "" ==> r == name
    ensures name == "" ==> r == "stateZ" + TypeName(t)
  {
    if name != "" then name else "stateZ" + TypeName(t)
  }

  /** The default names of the three store types are pairwise distinct, so the
      default stores never share an entry in the cache. */
  lemma DefaultNamesDistinct(t1: StoreType, t2: StoreType)
    requires t1 != t2
    ensures ResolveName("", t1) != ResolveName("", t2)
  {
    var n1, n2 := ResolveName("", t1), ResolveName("", t2);
    assert n1[6..] == TypeName(t1) && n2[6..] == TypeName(t2);
    assert TypeName(t1) != TypeName(t2) by {
      match t1
      case Page => assert TypeName(t1)[0] == 'p';
      case Session => assert TypeName(t1)[0] == 's';
      case Local => assert TypeName(t1)[0] == 'l';
    }
  }

  /** A document as `JSON.parse` returns it: a primitive or a flat object. */
  datatype Doc = Scalar(value: Prim) | Object(fields: map<string, Prim>)

  /** Truthiness of `JSON.parse(storage.getItem(name))`; an absent item parses to null. */
  predicate DocTruthy(d: Option<Doc>)
  {
    match d
    case None => false
    case Some(Object(_)) => true
    case Some(Scalar(x)) => Truthy(Defined(x))
  }

  function DigitChar(d: nat): char
    requires d < 10
  {
    "0123456789"[d]
  }

  /** The decimal numeral of `n`, as JavaScript writes an array index. */
  function Decimal(n: nat): (s: string)
    ensures |s| >= 1
    ensures n < 10 <==> |s| == 1
  {
    if n < 10 then [DigitChar(n)] else Decimal(n / 10) + [DigitChar(n % 10)]
  }

  /** Different indices have different numerals. */
  lemma {:induction false} DecimalInjective(a: nat, b: nat)
    requires Decimal(a) == Decimal(b)
    ensures a == b
    decreases a
  {
    if a >= 10 {
      var sa, sb := Decimal(a), Decimal(b);
      assert sa[..|sa| - 1] == Decimal(a / 10) && sb[..|sb| - 1] == Decimal(b / 10);
      assert sa[|sa| - 1] == DigitChar(a % 10) && sb[|sb| - 1] == DigitChar(b % 10);
      DecimalInjective(a / 10, b / 10);
    }
  }

  /** The own enumerable properties `"0"` … `"n-1"` of a string, one character each. */
  function IndexProps(s: string, n: nat): (r: map<string, Value>)
    requires n <= |s|
    ensures forall i :: 0 <= i < n ==> Decimal(i) in r && r[Decimal(i)] == Defined(Str([s[i]]))
    ensures forall p :: p in r ==> exists i :: 0 <= i < n && p == Decimal(i)
  {
    if n == 0 then map[]
    else
      var r := IndexProps(s, n - 1)[Decimal(n - 1) := Defined(Str([s[n - 1]]))];
      assert forall i :: 0 <= i < n - 1 ==> Decimal(i) != Decimal(n - 1) by {
        forall i | 0 <= i < n - 1 ensures Decimal(i) != Decimal(n - 1) {
          if Decimal(i) == Decimal(n - 1) {
            DecimalInjective(i, n - 1);
          }
        }
      }
      r
  }

  /** `for (let p in d) this[p] = d[p]` over a parsed document: an object's
      fields, a string's characters by index, nothing for other primitives. */
  function ForIn(d: Doc): (r: map<string, Value>)
    ensures d.Object? ==> forall p :: p in r <==> p in d.fields
    ensures d.Object? ==> forall p :: p in r ==> r[p] == Defined(d.fields[p])
    ensures d.Scalar? && !d.value.Str? ==> r == map[]
  {
    match d
    case Object(m) => map p | p in m :: Defined(m[p])
    case Scalar(Str(s)) => IndexProps(s, |s|)
    case Scalar(_) => map[]
  }

  /** `JSON.parse(storage.getItem(name)) || stateDefault`, then its enumerable
      properties: the stored document when it is truthy, the defaults otherwise. */
  function InitialProps(stored: Option<Doc>, init: map<string, Value>): (r: map<string, Value>)
  {
    if DocTruthy(stored) then ForIn(stored.value) else init
  }

  /** `storage.getItem(name)` parsed: nothing when the item is absent. */
  function StoredDoc(items: map<string, Doc>, name: string): (r: Option<Doc>)
    ensures r.Some? <==> name in items
  {
    if name in items then Some(items[name]) else None
  }

  /** The own properties whose value is not `undefined`. */
  function DefinedPart(props: map<string, Value>): (r: map<string, Value>)
    ensures forall p :: p in r <==> p in props && props[p] != Undefined
    ensures forall p :: p in r ==> r[p] == props[p]
  {
    map p | p in props && props[p] != Undefined :: props[p]
  }

  /** `JSON.stringify(this)`: the own properties, where `undefined` ones are omitted. */
  function Blob(props: map<string, Value>): (d: Doc)
    ensures d.Object?
    ensures forall p :: p in d.fields <==> p in props && props[p] != Undefined
    ensures forall p :: p in d.fields ==> props[p] == Defined(d.fields[p])
  {
    Object(map p | p in props && props[p] != Undefined :: props[p].prim)
  }

  /** Persistence round trip: a store created from what `syncState` wrote gets
      back every property whose value was not `undefined`, whatever the defaults. */
  lemma BlobRoundTrip(props: map<string, Value>, init: map<string, Value>)
    ensures InitialProps(Some(Blob(props)), init) == DefinedPart(props)
  {
    var r := InitialProps(Some(Blob(props)), init);
    assert r == ForIn(Blob(props));
    assert r.Keys == DefinedPart(props).Keys;
  }

  /** Names that resolve to a function on a Target with no own property of that
      name: the methods of Target, of EventTarget and of Object.prototype. */
  const TargetMethods: set<string> :=
    {"dispatchEvent", "cleanState", "syncState", "addEventListener", "removeEventListener"} + ObjectMethods

  /** The methods every plain object inherits from Object.prototype. */
  const ObjectMethods: set<string> := {
    "constructor", "hasOwnProperty", "isPrototypeOf", "propertyIsEnumerable", "toString",
    "toLocaleString", "valueOf", "__defineGetter__", "__defineSetter__",
    "__lookupGetter__", "__lookupSetter__"
  }

  /** The names a plain object such as the cache `stateStore` finds on
      Object.prototype: its methods and `__proto__`. */
  const InheritedNames: set<string> := ObjectMethods + {"__proto__"}

  /** `typeof target[p] === 'function'`: an inherited method not shadowed by an
      own property. */
  predicate IsMethod(props: map<string, Value>, p: string)
  {
    p !in props && p in TargetMethods
  }

  /** `Reflect.get(target, p)` for a name that is not a method. */
  function ReadProp(props: map<string, Value>, p: string): Value
  {
    if p in props then props[p] else Undefined
  }

  /** The detail of a `change` event; `value` is undefined for a deletion. */
  datatype Change = Change(property: string, value: Value, valueOld: Value)

  /** What a trap leaves behind: the target's properties and the event it dispatched. */
  datatype Trap = Trap(props: map<string, Value>, event: Option<Change>)

  function Emitted(e: Option<Change>): (r: seq<Change>)
    ensures |r| <= 1 && (r == [] <==> e.None?)
  {
    match e
    case None => []
    case Some(c) => [c]
  }

  /** The `set` trap: nothing happens when the old value `===` the new one or
      the name is a method; otherwise the value is set, `{property, value,
      valueOld}` dispatched, and an `undefined` value deleted afterwards. */
  function SetTrap(props: map<string, Value>, p: string, v: Value): (r: Trap)
    ensures r.event.None? <==> ReadProp(props, p) == v || IsMethod(props, p)
    ensures r.event.None? ==> r.props == props
    ensures r.event.Some? ==> r.event.value == Change(p, v, ReadProp(props, p))
    ensures r.event.Some? ==> (p in r.props <==> v != Undefined)
    ensures r.event.Some? && v != Undefined ==> r.props[p] == v
    ensures r.props - {p} == props - {p}
  {
    var valueOld := ReadProp(props, p);
    if valueOld == v || IsMethod(props, p) then Trap(props, None)
    else
      var written := props[p := v];
      Trap(if v == Undefined then written - {p} else written, Some(Change(p, v, valueOld)))
  }

  /** The `deleteProperty` trap: an own property is removed and `{property,
      valueOld}` dispatched; any other name is left alone without an event. */
  function DeleteTrap(props: map<string, Value>, p: string): (r: Trap)
    ensures p !in r.props && r.props - {p} == props - {p}
    ensures r.event.Some? <==> p in props
    ensures r.event.Some? ==> r.event.value == Change(p, Undefined, props[p])
  {
    if p in props then Trap(props - {p}, Some(Change(p, Undefined, props[p]))) else Trap(props, None)
  }

  /** Setting the value a property already has changes nothing and dispatches nothing. */
  lemma SetTrapIdempotent(props: map<string, Value>, p: string, v: Value)
    ensures var once := SetTrap(props, p, v);
      SetTrap(once.props, p, v) == Trap(once.props, None)
  {
    var once := SetTrap(props, p, v);
    if once.event.Some? && v == Undefined {
      assert p !in once.props;
    }
  }

  /** Assigning `undefined` through the proxy and `delete` agree, on the
      properties and on the event, except for an own property that already
      holds `undefined`: assigning leaves it, deleting removes it. */
  lemma SetUndefinedIsDelete(props: map<string, Value>, p: string)
    ensures SetTrap(props, p, Undefined) == DeleteTrap(props, p) <==> !(p in props && props[p] == Undefined)
  {
    if p in props && props[p] != Undefined {
      assert (props[p := Undefined]) - {p} == props - {p};
    }
  }

  /** What the `storage` listener reads as `update[p]`. */
  function Incoming(update: map<string, Prim>, p: string): Value
  {
    if p in update then Defined(update[p]) else Undefined
  }

  /** The listener on one name: when the JSON of `state[p]` (of a method:
      none) differs from that of `update[p]`, delete the property if the
      update lacks it, else assign it through the proxy. */
  function ReconcileName(props: map<string, Value>, update: map<string, Prim>, p: string): (r: Trap)
    ensures r.props - {p} == props - {p}
  {
    var u := Incoming(update, p);
    if Stringify(ReadProp(props, p)) == Stringify(u) then Trap(props, None)
    else if u == Undefined then DeleteTrap(props, p)
    else SetTrap(props, p, u)
  }

  /** The properties after the listener has handled the names in `done`. */
  function ReconcileWithin(props: map<string, Value>, update: map<string, Prim>, done: set<string>): (r: map<string, Value>)
  {
    map q | q in props.Keys + update.Keys &&
            (if q in done then q in ReconcileName(props, update, q).props else q in props)
      :: if q in done then ReconcileName(props, update, q).props[q] else props[q]
  }

  /** The properties after the listener has handled every own name of the
      state and of the update. */
  function Reconcile(props: map<string, Value>, update: map<string, Prim>): map<string, Value>
  {
    ReconcileWithin(props, update, props.Keys + update.Keys)
  }

  lemma ReconcileNone(props: map<string, Value>, update: map<string, Prim>)
    ensures ReconcileWithin(props, update, {}) == props
  {
  }

  /** The listener's outcome on a name depends only on that name's entry. */
  lemma ReconcileNameLocal(a: map<string, Value>, b: map<string, Value>, update: map<string, Prim>, p: string)
    requires (p in a <==> p in b) && (p in a ==> a[p] == b[p])
    ensures var ra, rb := ReconcileName(a, update, p), ReconcileName(b, update, p);
      ra.event == rb.event && (p in ra.props <==> p in rb.props) &&
      (p in ra.props ==> ra.props[p] == rb.props[p])
  {
    assert ReadProp(a, p) == ReadProp(b, p);
  }

  /** Handling one more name: each name's outcome depends on that name alone,
      so the order of `forEach` does not matter. */
  lemma ReconcileStep(props: map<string, Value>, update: map<string, Prim>, done: set<string>, p: string)
    requires p !in done
    ensures var cur := ReconcileWithin(props, update, done);
      ReconcileName(cur, update, p).props == ReconcileWithin(props, update, done + {p}) &&
      ReconcileName(cur, update, p).event == ReconcileName(props, update, p).event
  {
    ReconcileStepSame(props, update, done, p);
    ReconcileStepProps(props, update, done, p);
  }

  lemma ReconcileStepProps(props: map<string, Value>, update: map<string, Prim>, done: set<string>, p: string)
    requires p !in done
    ensures ReconcileName(ReconcileWithin(props, update, done), update, p).props == ReconcileWithin(props, update, done + {p})
  {
    var next := ReconcileWithin(props, update, done + {p});
    var a := ReconcileName(ReconcileWithin(props, update, done), update, p);
    ReconcileStepSame(props, update, done, p);
    ReconcileStepOthers(props, update, done, p);
    assert a.props.Keys == next.Keys;
  }

  /** Handling `p` after the names in `done` leaves the other names as handling
      the names in `done + {p}` does. */
  lemma ReconcileStepOthers(props: map<string, Value>, update: map<string, Prim>, done: set<string>, p: string)
    ensures var cur, next := ReconcileWithin(props, update, done), ReconcileWithin(props, update, done + {p});
      var a := ReconcileName(cur, update, p);
      forall q :: q != p ==> (q in a.props <==> q in next) && (q in a.props ==> a.props[q] == next[q])
  {
    var cur := ReconcileWithin(props, update, done);
    var next := ReconcileWithin(props, update, done + {p});
    var a := ReconcileName(cur, update, p);
    forall q | q != p ensures (q in a.props <==> q in next) && (q in a.props ==> a.props[q] == next[q]) {
      assert q in a.props <==> q in cur;
      ReconcileWithinOther(props, update, done, p, q);
    }
  }

  /** Handling `p` after the names in `done` does to `p` what handling it first does. */
  lemma ReconcileStepSame(props: map<string, Value>, update: map<string, Prim>, done: set<string>, p: string)
    requires p !in done
    ensures var cur, next := ReconcileWithin(props, update, done), ReconcileWithin(props, update, done + {p});
      var a := ReconcileName(cur, update, p);
      && a.event == ReconcileName(props, update, p).event
      && (p in a.props <==> p in next)
      && (p in a.props ==> a.props[p] == next[p])
  {
    var cur := ReconcileWithin(props, update, done);
    assert p in cur <==> p in props;
    assert p in cur ==> cur[p] == props[p];
    ReconcileNameLocal(cur, props, update, p);
  }

  /** Handling `p` leaves every other name as it was. */
  lemma ReconcileWithinOther(props: map<string, Value>, update: map<string, Prim>, done: set<string>, p: string, q: string)
    requires q != p
    ensures var cur, next := ReconcileWithin(props, update, done), ReconcileWithin(props, update, done + {p});
      (q in cur <==> q in next) && (q in cur ==> cur[q] == next[q])
  {
  }

  /** After the listener, every name of the incoming object that is not a
      method of the store has JSON equal to the incoming value, and every own
      name the incoming object lacks is gone or holds `undefined` (whose JSON
      is no text, as for the missing one). */
  lemma ReconcileMatchesIncoming(props: map<string, Value>, update: map<string, Prim>, p: string)
    requires !IsMethod(props, p)
    ensures var r := Reconcile(props, update);
      Stringify(ReadProp(r, p)) == Stringify(Incoming(update, p)) &&
      (p !in update ==> p !in r || r[p] == Undefined)
  {
    var r := Reconcile(props, update);
    if p in props.Keys + update.Keys {
      var t := ReconcileName(props, update, p);
      assert p in r <==> p in t.props;
      assert p in r ==> r[p] == t.props[p];
    } else {
      assert p !in r;
    }
  }

  /** The listener makes the store mirror the other tab: when no incoming name
      is a method of the store, the JSON of the store afterwards is the incoming
      object. */
  lemma ReconcileMirrors(props: map<string, Value>, update: map<string, Prim>)
    requires forall p :: p in update ==> !IsMethod(props, p)
    ensures Blob(Reconcile(props, update)) == Object(update)
  {
    var r := Reconcile(props, update);
    forall p ensures p in Blob(r).fields <==> p in update {
      if p in update {
        ReconcileMatchesIncoming(props, update, p);
      } else if !IsMethod(props, p) {
        ReconcileMatchesIncoming(props, update, p);
      } else {
        assert p !in props.Keys + update.Keys;
      }
    }
    forall p | p in update ensures Blob(r).fields[p] == update[p] {
      ReconcileMatchesIncoming(props, update, p);
    }
  }

  /** A second identical storage event finds nothing to change. */
  lemma ReconcileIdempotent(props: map<string, Value>, update: map<string, Prim>, p: string)
    ensures ReconcileName(Reconcile(props, update), update, p).event.None?
  {
    var r := Reconcile(props, update);
    if p in props.Keys + update.Keys {
      var t := ReconcileName(props, update, p);
      assert p in r <==> p in t.props;
      assert p in r ==> r[p] == t.props[p];
    } else {
      assert p !in r;
    }
  }

  /** `evs` are exactly the events of `expected`, one per property, in some
      order: the last one is the event expected for its property, and the
      ones before it report the others. */
  ghost predicate Reports(evs: seq<Change>, expected: map<string, Change>)
    decreases |evs|
  {
    if evs == [] then expected == map[]
    else
      var last := evs[|evs| - 1];
      last.property in expected && expected[last.property] == last &&
      Reports(evs[..|evs| - 1], expected - {last.property})
  }

  lemma ReportsStep(evs: seq<Change>, expected: map<string, Change>, c: Change)
    requires Reports(evs, expected) && c.property !in expected
    ensures Reports(evs + [c], expected[c.property := c])
  {
    assert (evs + [c])[..|evs|] == evs;
    assert expected[c.property := c] - {c.property} == expected;
  }

  /** What `Reports` means: as many events as expected, each the expected
      event of its property, no property twice. */
  lemma {:induction false} ReportsMeaning(evs: seq<Change>, expected: map<string, Change>)
    requires Reports(evs, expected)
    ensures |evs| == |expected.Keys|
    ensures forall i :: 0 <= i < |evs| ==> evs[i].property in expected && expected[evs[i].property] == evs[i]
    ensures forall i, j :: 0 <= i < j < |evs| ==> evs[i].property != evs[j].property
    decreases |evs|
  {
    if evs != [] {
      var init, last := evs[..|evs| - 1], evs[|evs| - 1];
      var rest := expected - {last.property};
      ReportsMeaning(init, rest);
      assert expected.Keys == rest.Keys + {last.property};
      forall i | 0 <= i < |evs| - 1
        ensures evs[i].property in expected && expected[evs[i].property] == evs[i]
        ensures evs[i].property != last.property
      {
        assert evs[i] == init[i];
      }
    }
  }

  /** The events `cleanState` dispatches for the properties named in `names`. */
  function RemovalEvents(props0: map<string, Value>, names: set<string>): (r: map<string, Change>)
    requires names <= props0.Keys
    ensures r.Keys == names
    ensures forall p :: p in r ==> r[p] == Change(p, Undefined, props0[p])
  {
    map p | p in names :: Change(p, Undefined, props0[p])
  }

  /** Removing one more property reports one more removal event. */
  lemma ReportsRemovalStep(removed: seq<Change>, props0: map<string, Value>, done: set<string>, p: string)
    requires done <= props0.Keys && p in props0 && p !in done
    requires Reports(removed, RemovalEvents(props0, done))
    ensures Reports(removed + [Change(p, Undefined, props0[p])], RemovalEvents(props0, done + {p}))
  {
    var detail := Change(p, Undefined, props0[p]);
    ReportsStep(removed, RemovalEvents(props0, done), detail);
    assert RemovalEvents(props0, done)[p := detail] == RemovalEvents(props0, done + {p});
  }

  /** The events the storage listener dispatches for the names in `names`. */
  function ReconcileEvents(props: map<string, Value>, update: map<string, Prim>, names: set<string>): (r: map<string, Change>)
    ensures forall p :: p in r <==> p in names && ReconcileName(props, update, p).event.Some?
    ensures forall p :: p in r ==> Some(r[p]) == ReconcileName(props, update, p).event
  {
    map p | p in names && ReconcileName(props, update, p).event.Some? :: ReconcileName(props, update, p).event.value
  }

  /** Handling one more name adds its event, if any, to the expected events. */
  lemma ReconcileEventsStep(props: map<string, Value>, update: map<string, Prim>, done: set<string>, p: string)
    ensures var e, before := ReconcileName(props, update, p).event, ReconcileEvents(props, update, done);
      ReconcileEvents(props, update, done + {p}) == if e.Some? then before[p := e.value] else before
  {
    var e := ReconcileName(props, update, p).event;
    var before, after := ReconcileEvents(props, update, done), ReconcileEvents(props, update, done + {p});
    var expected := if e.Some? then before[p := e.value] else before;
    forall q ensures q in expected <==> q in after {}
    forall q | q in after ensures expected[q] == after[q] {}
  }

  /** The events reported so far grow by the one event, if any, of the next name. */
  lemma ReportsReconcileStep(reported: seq<Change>, props: map<string, Value>, update: map<string, Prim>, done: set<string>, p: string)
    requires p !in done && Reports(reported, ReconcileEvents(props, update, done))
    ensures Reports(reported + Emitted(ReconcileName(props, update, p).event), ReconcileEvents(props, update, done + {p}))
  {
    var e := ReconcileName(props, update, p).event;
    ReconcileEventsStep(props, update, done, p);
    if e.Some? {
      ReportsStep(reported, ReconcileEvents(props, update, done), e.value);
    } else {
      assert reported + Emitted(e) == reported;
    }
  }

  /** A storage object: its items, parsed. */
  class Storage {
    var items: map<string, Doc>

    constructor (items: map<string, Doc>)
      ensures this.items == items
    {
      this.items := items;
    }
  }

  /** A store (class `Target`): private name, storage and sync delay, the
      debounce timer, its own properties and the events it dispatched. */
  class Target {
    const name: string
    const storage: Storage?
    const sync: int
    var props: map<string, Value>
    var events: seq<Change>
    var timerPending: bool

    /** `new Target(type, name, init, sync)`: the properties come from the
        stored document when it is truthy and from the defaults otherwise; with
        a sync delay the store is written back at once. */
    constructor (storage: Storage?, name: string, init: map<string, Value>, sync: int)
      modifies storage
      ensures this.name == name && this.storage == storage && this.sync == sync
      ensures storage == null ==> props == init
      ensures storage != null ==> props == InitialProps(StoredDoc(old(storage.items), name), init)
      ensures storage != null && sync != 0 ==> storage.items == old(storage.items)[name := Blob(props)]
      ensures storage != null && sync == 0 ==> storage.items == old(storage.items)
      ensures events == [] && !timerPending
    {
      this.name := name;
      this.storage := storage;
      this.sync := sync;
      events := [];
      timerPending := false;
      props := map[];
      new;
      var data := init;
      if storage != null {
        var stored := StoredDoc(storage.items, name);
        if DocTruthy(stored) {
          data := ForIn(stored.value);
        }
      }
      var names := data.Keys;
      while names != {}
        invariant names <= data.Keys
        invariant props.Keys == data.Keys - names
        invariant forall p :: p in props ==> props[p] == data[p]
        invariant storage != null ==> storage.items == old(storage.items)
        invariant events == [] && !timerPending
        decreases names
      {
        var p :| p in names;
        props := props[p := data[p]];
        names := names - {p};
      }
      assert props == data;
      if sync != 0 {
        SyncState();
      }
    }

    /** `dispatchEvent(detail)`: the event is delivered, and with a sync delay
        the one debounce timer is (re)started. */
    method DispatchEvent(c: Change)
      modifies this
      ensures events == old(events) + [c]
      ensures timerPending == (old(timerPending) || sync != 0)
      ensures props == old(props)
    {
      events := events + [c];
      if sync != 0 {
        timerPending := true;
      }
    }

    /** `syncState()`: write the JSON of the store under its name; a page store
        has no storage and writes nothing. */
    method SyncState()
      modifies storage
      ensures storage != null ==> storage.items == old(storage.items)[name := Blob(props)]
    {
      if storage != null {
        storage.items := storage.items[name := Blob(props)];
      }
    }

    /** The debounce timer expires: one `syncState` of the store as it is then. */
    method TimerFires()
      requires timerPending
      modifies this, storage
      ensures !timerPending && props == old(props) && events == old(events)
      ensures storage != null ==> storage.items == old(storage.items)[name := Blob(props)]
    {
      timerPending := false;
      SyncState();
    }

    /** The `get` trap: a method (bound to the target) or the property's value. */
    function Get(p: string): (r: Option<Value>)
      reads this
      ensures r.None? <==> IsMethod(props, p)
      ensures r.Some? && p in props ==> r.value == props[p]
      ensures r.Some? && p !in props ==> r.value == Undefined
    {
      if IsMethod(props, p) then None else Some(ReadProp(props, p))
    }

    /** `handle[p] = v`: the `set` trap on this target. */
    method Set(p: string, v: Value) returns (ok: bool)
      modifies this
      ensures ok
      ensures props == SetTrap(old(props), p, v).props
      ensures events == old(events) + Emitted(SetTrap(old(props), p, v).event)
      ensures timerPending == (old(timerPending) || (sync != 0 && SetTrap(old(props), p, v).event.Some?))
    {
      var valueOld := ReadProp(props, p);
      ok := true;
      if valueOld != v && !IsMethod(props, p) {
        props := props[p := v];
        DispatchEvent(Change(p, v, valueOld));
        if v == Undefined {
          props := props - {p};
        }
      }
    }

    /** `delete handle[p]`: the `deleteProperty` trap on this target. */
    method DeleteProperty(p: string) returns (ok: bool)
      modifies this
      ensures ok
      ensures props == DeleteTrap(old(props), p).props
      ensures events == old(events) + Emitted(DeleteTrap(old(props), p).event)
      ensures timerPending == (old(timerPending) || (sync != 0 && p in old(props)))
    {
      var valueOld := ReadProp(props, p);
      var del := p in props;
      if del {
        props := props - {p};
        DispatchEvent(Change(p, Undefined, valueOld));
      }
      ok := true;
    }

    /** `cleanState()`: every own property is deleted and one event per
        property, carrying its old value, is dispatched. */
    method CleanState()
      modifies this
      ensures props == map[]
      ensures |events| >= |old(events)| && events[..|old(events)|] == old(events)
      ensures Reports(events[|old(events)|..], RemovalEvents(old(props), old(props).Keys))
      ensures timerPending == (old(timerPending) || (sync != 0 && old(props) != map[]))
    {
      ghost var props0, events0 := props, events;
      var names := props.Keys;
      ghost var done: set<string> := {};
      ghost var removed: seq<Change> := [];
      while names != {}
        invariant names !! done && names + done == props0.Keys
        invariant props == props0 - done
        invariant events == events0 + removed && Reports(removed, RemovalEvents(props0, done))
        invariant timerPending == (old(timerPending) || (sync != 0 && removed != []))
        decreases names
      {
        var p :| p in names;
        var detail := Change(p, Undefined, props[p]);
        props := props - {p};
        DispatchEvent(detail);
        ReportsRemovalStep(removed, props0, done, p);
        removed := removed + [detail];
        names := names - {p};
        done := done + {p};
      }
      assert events[|events0|..] == removed;
      assert props0 == map[] <==> removed == [];
    }

    /** The body of the storage listener's `forEach` for one name: when the
        JSON of `state[p]` differs from that of `update[p]`, delete or assign
        the property through the proxy. */
    method ApplyName(update: map<string, Prim>, p: string)
      modifies this
      ensures props == ReconcileName(old(props), update, p).props
      ensures events == old(events) + Emitted(ReconcileName(old(props), update, p).event)
      ensures timerPending == (old(timerPending) || (sync != 0 && ReconcileName(old(props), update, p).event.Some?))
    {
      var u := Incoming(update, p);
      if Stringify(ReadProp(props, p)) != Stringify(u) {
        if u == Undefined {
          var _ := DeleteProperty(p);
        } else {
          var _ := Set(p, u);
        }
      }
    }

    /** The storage listener's `forEach` on this store: reconcile every own
        name of the store and of the incoming object through the proxy. */
    method ApplyUpdate(update: map<string, Prim>)
      modifies this
      ensures props == Reconcile(old(props), update)
      ensures |events| >= |old(events)| && events[..|old(events)|] == old(events)
      ensures Reports(events[|old(events)|..], ReconcileEvents(old(props), update, old(props).Keys + update.Keys))
      ensures timerPending ==
        (old(timerPending) || (sync != 0 && ReconcileEvents(old(props), update, old(props).Keys + update.Keys) != map[]))
    {
      ghost var props0, events0 := props, events;
      var names := props.Keys + update.Keys;
      ghost var done: set<string> := {};
      ghost var reported: seq<Change> := [];
      ReconcileNone(props0, update);
      while names != {}
        invariant names !! done && names + done == props0.Keys + update.Keys
        invariant props == ReconcileWithin(props0, update, done)
        invariant events == events0 + reported
        invariant Reports(reported, ReconcileEvents(props0, update, done))
        invariant timerPending == (old(timerPending) || (sync != 0 && reported != []))
        decreases names
      {
        var p :| p in names;
        ReconcileStep(props0, update, done, p);
        ReportsReconcileStep(reported, props0, update, done, p);
        ghost var emitted := Emitted(ReconcileName(props0, update, p).event);
        ApplyName(update, p);
        assert events == events0 + (reported + emitted);
        reported := reported + emitted;
        names := names - {p};
        done := done + {p};
      }
      assert events[|events0|..] == reported;
      ReportsMeaning(reported, ReconcileEvents(props0, update, props0.Keys + update.Keys));
    }
  }

  /** The module state: the cache `stateStore` and the two storage objects. */
  class Registry {
    var stateStore: map<string, Target>
    const local: Storage
    const session: Storage

    /** Every store is cached under its own name, which is not inherited from
        Object.prototype, and uses one of the two storages or none. */
    ghost predicate Valid()
      reads this
    {
      && local != session
      && forall n :: n in stateStore ==> Cached(n, stateStore[n])
    }

    /** Store `t` may sit in the cache under `n`. */
    predicate Cached(n: string, t: Target)
    {
      && n !in InheritedNames
      && t.name == n
      && (t.storage == null || t.storage == local || t.storage == session)
    }

    constructor (local: Storage, session: Storage)
      requires local != session
      ensures Valid() && stateStore == map[] && this.local == local && this.session == session
    {
      stateStore := map[];
      this.local := local;
      this.session := session;
    }

    /** `window[type]` for the type's storage name. */
    function StorageOf(t: StoreType): (s: Storage?)
      ensures s == null <==> t == Page
    {
      match t
      case Page => null
      case Session => session
      case Local => local
    }

    /** `stateZ({type, name, init, sync})`: the cached store of that name, or a
        new one created and cached; a cached store ignores `init` and `sync`.
        A name inherited from Object.prototype reads as truthy in the cache, so
        no store is created and the inherited member, which is no store, is
        returned (null here). */
    method StateZ(t: StoreType, name: string, init: map<string, Value>, sync: int) returns (s: Target?)
      requires Valid()
      modifies this, local, session
      ensures Valid()
      ensures ResolveName(name, t) in InheritedNames ==>
        s == null && stateStore == old(stateStore) && unchanged(local, session)
      ensures ResolveName(name, t) !in InheritedNames ==>
        ResolveName(name, t) in stateStore && s == stateStore[ResolveName(name, t)]
      ensures ResolveName(name, t) in old(stateStore) ==>
        s == old(stateStore[ResolveName(name, t)]) && stateStore == old(stateStore) && unchanged(local, session)
      ensures ResolveName(name, t) !in old(stateStore) && ResolveName(name, t) !in InheritedNames ==>
        && s != null && fresh(s) && stateStore == old(stateStore)[ResolveName(name, t) := s]
        && s.name == ResolveName(name, t) && s.storage == StorageOf(t) && s.sync == sync
        && s.events == [] && !s.timerPending
        && (t == Page ==> s.props == init && unchanged(local, session))
        && (t != Page ==> s.props == InitialProps(StoredDoc(old(StorageOf(t).items), s.name), init))
        && (t != Page && sync != 0 ==> StorageOf(t).items == old(StorageOf(t).items)[s.name := Blob(s.props)])
        && (t != Page && sync == 0 ==> StorageOf(t).items == old(StorageOf(t).items))
        && (t == Local ==> unchanged(session))
        && (t == Session ==> unchanged(local))
    {
      var n := ResolveName(name, t);
      if n in InheritedNames {
        return null;
      }
      if n !in stateStore {
        var created := new Target(StorageOf(t), n, init, sync);
        stateStore := stateStore[n := created];
      }
      s := stateStore[n];
    }

    /** The `storage` listener: a change of the item named like a cached store
        reconciles that store with the incoming object, name by name, through
        the proxy; any other key is ignored.  A removed item (no new value)
        would make the source throw, so the key of a cached store comes with an
        object; an own name of the store that the object lacks must not be an
        Object.prototype member, whose function `update[p]` would then be. */
    method OnStorage(key: string, newValue: Option<Doc>)
      requires Valid()
      requires key !in InheritedNames
      requires key in stateStore ==> newValue.Some? && newValue.value.Object?
      requires key in stateStore ==>
        forall p :: p in stateStore[key].props && p in ObjectMethods ==> p in newValue.value.fields
      modifies if key in stateStore then {stateStore[key]} else {}
      ensures key in stateStore ==>
        stateStore[key].props == Reconcile(old(stateStore[key].props), newValue.value.fields)
      ensures key in stateStore ==>
        var t, n0 := stateStore[key], |old(stateStore[key].events)|;
        |t.events| >= n0 && t.events[..n0] == old(t.events) &&
        Reports(t.events[n0..], ReconcileEvents(old(t.props), newValue.value.fields, old(t.props).Keys + newValue.value.fields.Keys))
      ensures key in stateStore ==>
        var t := stateStore[key];
        t.timerPending == (old(t.timerPending) ||
          (t.sync != 0 && ReconcileEvents(old(t.props), newValue.value.fields, old(t.props).Keys + newValue.value.fields.Keys) != map[]))
    {
      if key in stateStore {
        stateStore[key].ApplyUpdate(newValue.value.fields);
      }
    }

    /** Which storage each cached store writes to. */
    function Owners(): (r: map<string, Storage?>)
      reads this
      ensures r.Keys == stateStore.Keys
    {
      map n | n in stateStore :: stateStore[n].storage
    }

    /** The JSON of each cached store. */
    ghost function Blobs(): (r: map<string, Doc>)
      reads this, stateStore.Values
      ensures r.Keys == stateStore.Keys
    {
      map n | n in stateStore :: Blob(stateStore[n].props)
    }

    /** The `beforeunload` listener: every cached store writes itself back. */
    method SyncAll()
      requires Valid()
      modifies local, session
      ensures local.items == old(local.items) + Written(local, old(Owners()), old(Blobs()), stateStore.Keys)
      ensures session.items == old(session.items) + Written(session, old(Owners()), old(Blobs()), stateStore.Keys)
    {
      ghost var owners, blobs := Owners(), Blobs();
      var stores := stateStore;
      var names := stores.Keys;
      ghost var done: set<string> := {};
      while names != {}
        invariant names !! done && names + done == stores.Keys
        invariant local.items == old(local.items) + Written(local, owners, blobs, done)
        invariant session.items == old(session.items) + Written(session, owners, blobs, done)
        decreases names
      {
        var n :| n in names;
        var t := stores[n];
        assert Cached(n, t);
        assert owners[n] == t.storage && blobs[n] == Blob(t.props);
        WrittenStep(local, owners, blobs, done, n);
        WrittenStep(session, owners, blobs, done, n);
        ghost var l0, s0 := local.items, session.items;
        t.SyncState();
        if t.storage == local {
          assert session.items == s0;
          UnionUpdate(old(local.items), Written(local, owners, blobs, done), n, blobs[n]);
        } else if t.storage == session {
          assert local.items == l0;
          UnionUpdate(old(session.items), Written(session, owners, blobs, done), n, blobs[n]);
        }
        names := names - {n};
        done := done + {n};
      }
    }
  }

  lemma UnionUpdate(a: map<string, Doc>, b: map<string, Doc>, k: string, v: Doc)
    ensures (a + b)[k := v] == a + b[k := v]
  {
  }

  /** The documents that `syncState` of the stores named in `names` writes to `st`. */
  function Written(st: Storage, owners: map<string, Storage?>, blobs: map<string, Doc>, names: set<string>): (r: map<string, Doc>)
    requires names <= owners.Keys && names <= blobs.Keys
    ensures forall n :: n in r <==> n in names && owners[n] == st
    ensures forall n :: n in r ==> r[n] == blobs[n]
  {
    map n | n in names && owners[n] == st :: blobs[n]
  }

  lemma WrittenStep(st: Storage, owners: map<string, Storage?>, blobs: map<string, Doc>, done: set<string>, n: string)
    requires done <= owners.Keys && done <= blobs.Keys && n in owners && n in blobs && n !in done
    ensures owners[n] == st ==> Written(st, owners, blobs, done + {n}) == Written(st, owners, blobs, done)[n := blobs[n]]
    ensures owners[n] != st ==> Written(st, owners, blobs, done + {n}) == Written(st, owners, blobs, done)
  {
  }
}
