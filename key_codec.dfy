/** The storage-key codec of statez 2.0.0 (function `f` of dist/statez.js).

    A property of a store is persisted under the flat key
    `"sZ." + store + "." + property`.  `Decode` splits a key on '.' and accepts
    exactly the three-segment keys whose first segment is the namespace tag
    `"sZ"`; every other key in the shared storage is someone else's data. */
module KeyCodec {
  import opened JsValues

  const Namespace: string := "sZ"

  datatype StoreKey = StoreKey(store: string, property: string)

  /** Index of the first '.' in `s`. */
  function FirstDot(s: string): (i: nat)
    requires '.' in s
    ensures i < |s| && s[i] == '.' && '.' !in s[..i]
  {
    if s[0] == '.' then 0 else 1 + FirstDot(s[1..])
  }

  /** Glues segments back together with '.' between them. */
  function Join(parts: seq<string>): string
    requires |parts| >= 1
  {
    if |parts| == 1 then parts[0] else parts[0] + "." + Join(parts[1..])
  }

  /** `String.prototype.split(".")`: the maximal dot-free segments, in order. */
  function Split(s: string): (parts: seq<string>)
    ensures |parts| >= 1
    ensures forall i :: 0 <= i < |parts| ==> '.' !in parts[i]
    ensures Join(parts) == s
    decreases |s|
  {
    if '.' !in s then [s]
    else
      var i := FirstDot(s);
      var rest := Split(s[i + 1..]);
      assert s == s[..i] + "." + s[i + 1..];
      assert ([s[..i]] + rest)[1..] == rest;
      [s[..i]] + rest
  }

  /** `f(key)`: the store and property a storage key belongs to, if any. */
  function Decode(key: string): (r: Option<StoreKey>)
  {
    var parts := Split(key);
    if |parts| == 3 && parts[0] == Namespace then Some(StoreKey(parts[1], parts[2])) else None
  }

  /** The storage key `"sZ." + store + "." + property` that the flush writes. */
  function Encode(store: string, property: string): string
  {
    Namespace + "." + store + "." + property
  }

  /** The queue key `stateId + "." + property` that coalesces writes. */
  function QueueKey(stateId: string, property: string): string
  {
    stateId + "." + property
  }

  predicate DotFree(s: string)
  {
    '.' !in s
  }

  /** Splitting what `Join` glued gives the dot-free segments back. */
  lemma {:induction false} SplitJoin(parts: seq<string>)
    requires |parts| >= 1
    requires forall i :: 0 <= i < |parts| ==> '.' !in parts[i]
    ensures Split(Join(parts)) == parts
    decreases |parts|
  {
    if |parts| > 1 {
      var head, rest := parts[0], parts[1..];
      var s := Join(parts);
      assert s == head + "." + Join(rest);
      assert '.' in s by { assert s[|head|] == '.'; }
      FirstDotAfter(head, Join(rest));
      assert s[..|head|] == head;
      assert s[|head| + 1..] == Join(rest);
      SplitJoin(rest);
      assert parts == [head] + rest;
    }
  }

  lemma FirstDotAfter(head: string, tail: string)
    requires '.' !in head
    ensures '.' in head + "." + tail
    ensures FirstDot(head + "." + tail) == |head|
  {
    var s := head + "." + tail;
    assert s[|head|] == '.';
    assert s[..|head|] == head;
  }

  /** Round trip one way: a dot-free store and property decode back from their key. */
  lemma DecodeEncode(store: string, property: string)
    requires DotFree(store) && DotFree(property)
    ensures Decode(Encode(store, property)) == Some(StoreKey(store, property))
  {
    var parts := [Namespace, store, property];
    assert Join(parts) == Encode(store, property) by {
      assert Join(parts[2..]) == property;
      assert Join(parts[1..]) == store + "." + property;
    }
    SplitJoin(parts);
  }

  /** Round trip the other way: a key that decodes is exactly the key of what it
      decodes to, and its store and property are dot-free. */
  lemma EncodeDecode(key: string)
    requires Decode(key).Some?
    ensures DotFree(Decode(key).value.store) && DotFree(Decode(key).value.property)
    ensures Encode(Decode(key).value.store, Decode(key).value.property) == key
  {
    var parts := Split(key);
    assert Join(parts) == key;
    assert Join(parts[1..]) == parts[1] + "." + Join(parts[2..]);
    assert Join(parts[2..]) == parts[2];
  }

  /** `f(k)` is non-null exactly for the keys `"sZ.<store>.<property>"` with a
      dot-free store and property. */
  lemma DecodeAcceptsExactlyEncodedKeys(key: string)
    ensures Decode(key).Some? <==>
      exists store, property :: DotFree(store) && DotFree(property) && key == Encode(store, property)
  {
    if Decode(key).Some? {
      EncodeDecode(key);
      var sk := Decode(key).value;
      assert DotFree(sk.store) && DotFree(sk.property) && key == Encode(sk.store, sk.property);
    }
    if exists store, property :: DotFree(store) && DotFree(property) && key == Encode(store, property) {
      var store, property :| DotFree(store) && DotFree(property) && key == Encode(store, property);
      DecodeEncode(store, property);
    }
  }

  /** Two different keys never decode to the same store and property. */
  lemma DecodeInjective(k1: string, k2: string)
    requires Decode(k1).Some? && Decode(k1) == Decode(k2)
    ensures k1 == k2
  {
    EncodeDecode(k1);
    EncodeDecode(k2);
  }

  /** For dot-free names the queue key `id + "." + property` identifies the pair,
      so coalescing never merges writes to different properties or states. */
  lemma {:induction false} QueueKeyInjective(id1: string, p1: string, id2: string, p2: string)
    requires DotFree(id1) && DotFree(p1) && DotFree(id2) && DotFree(p2)
    requires QueueKey(id1, p1) == QueueKey(id2, p2)
    ensures id1 == id2 && p1 == p2
  {
    var parts1, parts2 := [id1, p1], [id2, p2];
    assert Join(parts1) == QueueKey(id1, p1) by { assert Join(parts1[1..]) == p1; }
    assert Join(parts2) == QueueKey(id2, p2) by { assert Join(parts2[1..]) == p2; }
    SplitJoin(parts1);
    SplitJoin(parts2);
  }
}
