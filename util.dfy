/** `TupleLookup` from src/util.ts: a map keyed by fixed-length tuples, made
    of one nested map per tuple element. The tuple key is a sequence and the
    base map is a field the methods reassign; the nested maps are values. */
module Util {
  import opened Wrappers

  /** What a nested map holds under one key element: the map of the next
      level, or, at the last level, the stored value. */
  datatype Node<K(==), V> = Branch(children: map<K, Node<K, V>>) | Leaf(value: V)

  /** Every path through `m` is `depth` elements long: nested maps above the
      last level, stored values at it. */
  ghost predicate Uniform<K, V>(m: map<K, Node<K, V>>, depth: nat)
    decreases depth
  {
    forall k | k in m :: if depth <= 1 then m[k].Leaf? else m[k].Branch? && Uniform(m[k].children, depth - 1)
  }

  /** The value stored under `key`, following one nested map per element. */
  function Find<K(==), V>(m: map<K, Node<K, V>>, key: seq<K>): Option<V>
    decreases |key|
  {
    if key == [] || key[0] !in m then None
    else match m[key[0]]
      case Leaf(v) => if |key| == 1 then Some(v) else None
      case Branch(c) => if |key| == 1 then None else Find(c, key[1..])
  }

  /** `set` on the nested maps: walks the first `|key| - 1` elements, creating
      an empty nested map wherever one is missing, then stores the value
      under the last element, or deletes that entry when the value is
      `undefined` (None). Nested maps are never removed. */
  function Put<K(==), V>(m: map<K, Node<K, V>>, key: seq<K>, value: Option<V>): (r: map<K, Node<K, V>>)
    requires key != [] && Uniform(m, |key|)
    ensures Uniform(r, |key|)
    decreases |key|
  {
    if |key| == 1 then
      if value.Some? then m[key[0] := Leaf(value.value)] else m - {key[0]}
    else
      var child := if key[0] in m then m[key[0]].children else map[];
      m[key[0] := Branch(Put(child, key[1..], value))]
  }

  /** After `Put`, the key holds the new value and every other key of the
      same length holds what it held before. */
  lemma {:induction false} PutFind<K, V>(m: map<K, Node<K, V>>, key: seq<K>, value: Option<V>, other: seq<K>)
    requires key != [] && Uniform(m, |key|) && |other| == |key|
    ensures Find(Put(m, key, value), other) == if other == key then value else Find(m, other)
    decreases |key|
  {
    if |key| > 1 && other[0] == key[0] {
      var child := if key[0] in m then m[key[0]].children else map[];
      PutFind(child, key[1..], value, other[1..]);
      assert other == [other[0]] + other[1..] && key == [key[0]] + key[1..];
    }
  }

  /** A key of the wrong length finds nothing. */
  lemma {:induction false} FindLength<K, V>(m: map<K, Node<K, V>>, key: seq<K>, depth: nat)
    requires depth >= 1 && Uniform(m, depth) && Find(m, key).Some?
    ensures |key| == depth
    decreases |key|
  {
    if |key| > 1 {
      FindLength(m[key[0]].children, key[1..], depth - 1);
    }
  }

  /** `p` leads through nested maps only: each element is present and
      holds the next level's map. */
  ghost predicate HasPath<K, V>(m: map<K, Node<K, V>>, p: seq<K>)
    decreases |p|
  {
    p == [] || (p[0] in m && m[p[0]].Branch? && HasPath(m[p[0]].children, p[1..]))
  }

  /** `set` leaves a nested map at every proper prefix of the key. */
  lemma {:induction false} PutCreatesPath<K, V>(m: map<K, Node<K, V>>, key: seq<K>, value: Option<V>, i: nat)
    requires key != [] && Uniform(m, |key|) && i < |key|
    ensures HasPath(Put(m, key, value), key[..i])
    decreases i
  {
    if i > 0 {
      var child := if key[0] in m then m[key[0]].children else map[];
      PutCreatesPath(child, key[1..], value, i - 1);
      assert key[..i][1..] == key[1..][..i - 1];
    }
  }

  /** `set` never removes a nested map, not even when it deletes. */
  lemma {:induction false} PutKeepsPath<K, V>(m: map<K, Node<K, V>>, key: seq<K>, value: Option<V>, p: seq<K>)
    requires key != [] && Uniform(m, |key|) && HasPath(m, p)
    ensures HasPath(Put(m, key, value), p)
    decreases |p|
  {
    if p != [] && p[0] == key[0] {
      PutKeepsPath(m[key[0]].children, key[1..], value, p[1..]);
    }
  }

  class TupleLookup<K(==, !new), V> {
    /** The fixed tuple length callers must use. */
    const arity: nat
    /** JavaScript truthiness of stored values (`!map` in `get`). */
    const truthy: V -> bool
    var base: map<K, Node<K, V>>
    /** The abstract map from full keys to stored values. */
    ghost var Contents: map<seq<K>, V>

    ghost predicate Valid()
      reads this
    {
      1 <= arity && Uniform(base, arity)
      && (forall key | key in Contents :: Find(base, key) == Some(Contents[key]))
      && (forall key | Find(base, key).Some? :: key in Contents)
    }

    /** What `get` returns: the stored value when there is one and it is
        truthy, and `undefined` (None) otherwise. */
    ghost function Lookup(key: seq<K>): Option<V>
      reads this
    {
      if key in Contents && truthy(Contents[key]) then Some(Contents[key]) else None
    }

    constructor (arity: nat, truthy: V -> bool)
      requires arity >= 1
      ensures Valid() && this.arity == arity && this.truthy == truthy
      ensures Contents == map[]
    {
      this.arity := arity;
      this.truthy := truthy;
      base := map[];
      Contents := map[];
    }

    /** `get(key)`: walks one nested map per key element and returns
        `undefined` as soon as an element is missing or the value found is
        falsy. */
    method Get(key: seq<K>) returns (r: Option<V>)
      requires Valid() && |key| == arity
      ensures r == Lookup(key)
    {
      var cur: Node<K, V> := Branch(base);
      var i := 0;
      while i < |key|
        invariant 0 <= i <= |key|
        invariant i < |key| ==> cur.Branch? && Uniform(cur.children, arity - i)
                                && Find(base, key) == Find(cur.children, key[i..])
        invariant i == |key| ==> cur.Leaf? && Find(base, key) == Some(cur.value) && truthy(cur.value)
      {
        assert key[i..][0] == key[i] && key[i..][1..] == key[i + 1..];
        if key[i] !in cur.children {
          return None;
        }
        cur := cur.children[key[i]];
        if cur.Leaf? && !truthy(cur.value) {
          return None;
        }
        i := i + 1;
      }
      r := Some(cur.value);
    }

    /** `has(key)`: `Boolean(get(key))`. */
    method Has(key: seq<K>) returns (b: bool)
      requires Valid() && |key| == arity
      ensures b <==> Lookup(key).Some?
    {
      var r := Get(key);
      b := r.Some?;
    }

    /** `set(key, value)`, with `undefined` as None: the key then holds the
        value, or nothing, and every other key keeps its value. */
    method Set(key: seq<K>, value: Option<V>)
      requires Valid() && |key| == arity
      modifies this
      ensures Valid()
      ensures Contents == if value.Some? then old(Contents)[key := value.value] else old(Contents) - {key}
      ensures forall i | 0 <= i < arity :: HasPath(base, key[..i])
      ensures forall p | HasPath(old(base), p) :: HasPath(base, p)
    {
      base := Put(base, key, value);
      Contents := if value.Some? then Contents[key := value.value] else Contents - {key};
      forall other | other in Contents
        ensures Find(base, other) == Some(Contents[other])
      {
        if other != key {
          FindLength(old(base), other, arity);
        }
        PutFind(old(base), key, value, other);
      }
      forall other | Find(base, other).Some?
        ensures other in Contents
      {
        FindLength(base, other, arity);
        PutFind(old(base), key, value, other);
      }
      forall i | 0 <= i < arity
        ensures HasPath(base, key[..i])
      {
        PutCreatesPath(old(base), key, value, i);
      }
      forall p | HasPath(old(base), p)
        ensures HasPath(base, p)
      {
        PutKeepsPath(old(base), key, value, p);
      }
    }

    /** `delete(key)`: `set(key, undefined)`; deleting twice is the same as
        deleting once. */
    method Delete(key: seq<K>)
      requires Valid() && |key| == arity
      modifies this
      ensures Valid() && Contents == old(Contents) - {key}
    {
      Set(key, None);
    }
  }

  /** Calls registered by (room, call id), as the call registry uses it. */
  method RegistryScenario(room: string, id: string, other: string, call: int)
    requires id != other && call != 0
  {
    var calls := new TupleLookup<string, int>(2, (v: int) => v != 0);
    calls.Set([room, id], Some(call));
    var got := calls.Get([room, id]);
    assert got == Some(call);
    var present := calls.Has([room, other]);
    assert !present;
    calls.Set([room, other], Some(0));
    present := calls.Has([room, other]);
    assert !present;
    calls.Delete([room, id]);
    calls.Delete([room, id]);
    got := calls.Get([room, id]);
    assert got == None;
  }
}
