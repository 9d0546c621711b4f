/**
 The in-process L1 cache: byte accounting on every insertion and removal, and eviction of
 the least recently used entries when the byte budget is exceeded.

 A stored value is opaque: only its encoded size matters here.
 */
module L1 {
  import opened Options
  import opened Text

  datatype Kind = Str | Hash | List | ZSet

  datatype Entry = Entry(kind: Kind, size: nat, deadline: Option<nat>, tick: nat)

  type Store = map<Bytes, Entry>

  predicate Expired(e: Entry, now: nat) {
    e.deadline.Some? && now >= e.deadline.value
  }

  /** An entry can be read until the clock reaches its deadline. */
  predicate Readable(e: Entry, now: nat) {
    e.deadline == None || now < e.deadline.value
  }

  // ----- accounting -----

  /** The bytes a store really holds. */
  ghost function Total(m: Store): nat {
    if m == map[] then 0 else var k :| k in m; m[k].size + Total(m - {k})
  }

  lemma {:induction false} TotalWithout(m: Store, k: Bytes)
    requires k in m
    ensures Total(m) == m[k].size + Total(m - {k})
    decreases |m|
  {
    var j :| j in m && Total(m) == m[j].size + Total(m - {j});
    if j != k {
      TotalWithout(m - {j}, k);
      TotalWithout(m - {k}, j);
      assert (m - {j}) - {k} == (m - {k}) - {j};
    }
  }

  lemma TotalPut(m: Store, k: Bytes, e: Entry)
    ensures Total(m[k := e]) == Total(m - {k}) + e.size
    ensures k in m ==> Total(m) == Total(m - {k}) + m[k].size
    ensures k !in m ==> m - {k} == m
  {
    TotalWithout(m[k := e], k);
    assert m[k := e] - {k} == m - {k};
    if k in m { TotalWithout(m, k); }
  }

  // ----- the order of eviction -----

  /** Distinct keys of the store, least recently used first. */
  ghost predicate ByTick(m: Store, order: seq<Bytes>) {
    order == [] ||
    (var k, rest := order[0], order[1..];
     k in m && k !in rest && (forall x | x in rest :: x in m && m[k].tick <= m[x].tick) && ByTick(m, rest))
  }

  function Keys(order: seq<Bytes>): set<Bytes> {
    set k | k in order
  }

  /** Puts a key behind every key of the same or an older tick. */
  function Enlist(m: Store, order: seq<Bytes>, k: Bytes): (r: seq<Bytes>)
    requires k in m && forall x | x in order :: x in m
    ensures forall x :: x in r <==> x == k || x in order
  {
    if order == [] then [k]
    else if m[k].tick < m[order[0]].tick then [k] + order
    else
      assert forall x | x in order[1..] :: x in order;
      [order[0]] + Enlist(m, order[1..], k)
  }

  lemma {:induction false} ByTickMembers(m: Store, order: seq<Bytes>)
    requires ByTick(m, order)
    ensures forall x | x in order :: x in m
  {
    if order != [] { ByTickMembers(m, order[1..]); }
  }

  lemma {:induction false} EnlistKeepsOrder(m: Store, order: seq<Bytes>, k: Bytes)
    requires ByTick(m, order) && k in m && k !in order
    requires forall x | x in order :: x in m
    ensures ByTick(m, Enlist(m, order, k))
  {
    if order != [] {
      assert order == [order[0]] + order[1..];
      if m[k].tick < m[order[0]].tick {
        assert ([k] + order)[1..] == order;
      } else {
        EnlistKeepsOrder(m, order[1..], k);
        var rest := Enlist(m, order[1..], k);
        assert ([order[0]] + rest)[1..] == rest;
      }
    }
  }

  /** An initial part of the order is in order, and every key of it is no younger than the rest. */
  lemma {:induction false} ByTickSplit(m: Store, gone: seq<Bytes>, rest: seq<Bytes>)
    requires ByTick(m, gone + rest)
    ensures ByTick(m, gone)
    ensures forall g, k | g in gone && k in rest :: g in m && k in m && m[g].tick <= m[k].tick
    ensures forall g | g in gone :: g !in rest
  {
    if gone != [] {
      assert (gone + rest)[1..] == gone[1..] + rest;
      ByTickSplit(m, gone[1..], rest);
      ByTickMembers(m, gone + rest);
      assert gone == [gone[0]] + gone[1..];
    }
  }

  /** What one eviction pass removes from a store that is over budget. */
  ghost predicate Pass(m: Store, target: nat, gone: seq<Bytes>) {
    && ByTick(m, gone)
    && (forall k, g | k in m && k !in gone && g in gone :: g in m && m[g].tick <= m[k].tick)
    && Above(m, target, gone)
    && Total(m - Keys(gone)) <= target
  }

  /** Usage was above the target before every single removal. */
  ghost predicate Above(m: Store, target: nat, gone: seq<Bytes>) {
    forall i | 0 <= i < |gone| :: Total(m - Keys(gone[..i])) > target
  }

  /** The eviction decision: nothing within budget or without one, else one pass down to the target. */
  ghost predicate Evicts(m: Store, max: nat, gone: seq<Bytes>) {
    if max == 0 || Total(m) <= max then gone == [] else Pass(m, Target(max), gone)
  }

  /** Nine tenths of the budget. */
  function Target(max: nat): nat {
    max * 9 / 10
  }

  lemma EvictionMeetsBudget(m: Store, max: nat, gone: seq<Bytes>)
    requires Evicts(m, max, gone) && max != 0
    ensures Total(m - Keys(gone)) <= max
  {
    if gone == [] { assert m - Keys(gone) == m; }
  }

  /**
   Only a store over its budget loses entries. A pass takes the least recently used ones and
   stops as soon as it can: nine tenths of the budget suffice, and keeping its last victim
   would leave usage above them.
   */
  lemma EvictionIsMinimal(m: Store, max: nat, gone: seq<Bytes>)
    requires Evicts(m, max, gone) && gone != []
    ensures 0 < max < Total(m)
    ensures Total(m - Keys(gone)) <= max * 9 / 10 < Total(m - Keys(gone[..|gone| - 1]))
    ensures forall g, k | g in gone && k in m && k !in gone :: g in m && m[g].tick <= m[k].tick
  {
    assert 0 <= |gone| - 1 < |gone|;
    assert forall i | 0 <= i < |gone| :: gone[i] in gone;
  }

  class L1Cache {
    var store: Store
    /** Keys of the Bloom filters and cardinality sketches, which live outside the byte budget. */
    var sketches: set<Bytes>
    var maxBytes: nat
    var usedBytes: int
    var hits: nat
    var misses: nat
    var evictions: nat
    var accessTick: nat

    /** The counter is exact, and within the budget when there is one. */
    ghost predicate Valid()
      reads this
    {
      usedBytes == Total(store) && (maxBytes != 0 ==> usedBytes <= maxBytes)
    }

    ghost predicate Balanced()
      reads this
    {
      usedBytes == Total(store)
    }

    constructor (maxBytes: nat)
      ensures Valid() && store == map[] && this.maxBytes == maxBytes && evictions == 0
    {
      store, sketches, this.maxBytes, usedBytes := map[], {}, maxBytes, 0;
      hits, misses, evictions, accessTick := 0, 0, 0, 1;
    }

    // ----- internal steps -----

    method RemoveEntry(key: Bytes) returns (removed: bool)
      requires Balanced()
      modifies this`store, this`usedBytes
      ensures Balanced() && usedBytes <= old(usedBytes)
      ensures store == old(store) - {key} && removed == (key in old(store))
    {
      TotalPut(store, key, Entry(Str, 0, None, 0));
      removed := key in store;
      if removed {
        usedBytes := usedBytes - store[key].size;
        store := store - {key};
      }
    }

    /** The LRU index: the keys grouped by tick, oldest tick first, ties in the order visited. */
    method LruOrder() returns (order: seq<Bytes>)
      ensures ByTick(store, order) && Keys(order) == store.Keys
    {
      order := [];
      var todo := store.Keys;
      while todo != {}
        invariant todo <= store.Keys
        invariant ByTick(store, order)
        invariant forall k :: k in order <==> k in store && k !in todo
        decreases |todo|
      {
        var k :| k in todo;
        EnlistKeepsOrder(store, order, k);
        order := Enlist(store, order, k);
        todo := todo - {k};
      }
    }

    method MaybeEvict() returns (ghost gone: seq<Bytes>)
      requires Balanced()
      modifies this`store, this`usedBytes, this`evictions
      ensures Valid()
      ensures Evicts(old(store), maxBytes, gone)
      ensures store == old(store) - Keys(gone)
      ensures evictions == old(evictions) + |gone|
    {
      gone := [];
      assert store - Keys([]) == store;
      if maxBytes == 0 || usedBytes <= maxBytes { return; }
      var order := LruOrder();
      gone := EvictInOrder(order, Target(maxBytes));
    }

    method EvictInOrder(order: seq<Bytes>, target: nat) returns (ghost gone: seq<Bytes>)
      requires Balanced() && ByTick(store, order) && Keys(order) == store.Keys
      modifies this`store, this`usedBytes, this`evictions
      ensures Balanced() && usedBytes <= target
      ensures Pass(old(store), target, gone)
      ensures store == old(store) - Keys(gone)
      ensures evictions == old(evictions) + |gone|
    {
      gone := [];
      var rest := order;
      ghost var before := store;
      assert before - Keys([]) == before && [] + order == order;
      while rest != [] && usedBytes > target
        invariant gone + rest == order && Balanced()
        invariant store == before - Keys(gone)
        invariant Above(before, target, gone)
        invariant evictions == old(evictions) + |gone|
        decreases |rest|
      {
        AboveStep(before, target, gone, rest[0]);
        NextVictim(before, gone, rest);
        var removed := RemoveEntry(rest[0]);
        if removed { evictions := evictions + 1; }
        gone := gone + [rest[0]];
        rest := rest[1..];
      }
      ByTickSplit(before, gone, rest);
      PassEnds(before, gone, rest);
    }
  
    method InsertEntry(key: Bytes, e: Entry) returns (ghost gone: seq<Bytes>)
      requires Valid()
      modifies this`store, this`usedBytes, this`evictions
      ensures Valid()
      ensures var put := old(store)[key := e]; Evicts(put, maxBytes, gone) && store == put - Keys(gone)
      ensures evictions == old(evictions) + |gone|
    {
      TotalPut(store, key, e);
      if key in store { usedBytes := usedBytes - store[key].size; }
      store := store[key := e];
      usedBytes := usedBytes + e.size;
      gone := MaybeEvict();
    }

    /** Marks an entry as just read. */
    method Touch(key: Bytes)
      requires Valid() && key in store
      modifies this`store, this`accessTick
      ensures Valid()
      ensures store == old(store)[key := old(store)[key].(tick := old(accessTick))]
      ensures accessTick == old(accessTick) + 1
    {
      TotalPut(store, key, store[key].(tick := accessTick));
      store := store[key := store[key].(tick := accessTick)];
      accessTick := accessTick + 1;
    }

    // ----- public operations -----

    method SetMaxBytes(max: nat) returns (ghost gone: seq<Bytes>)
      requires Valid()
      modifies this`maxBytes, this`store, this`usedBytes, this`evictions
      ensures Valid() && maxBytes == max
      ensures Evicts(old(store), max, gone) && store == old(store) - Keys(gone)
      ensures evictions == old(evictions) + |gone|
    {
      maxBytes := max;
      gone := MaybeEvict();
    }

    method SetValue(key: Bytes, size: nat, ttl: Option<nat>, now: nat) returns (ghost gone: seq<Bytes>)
      requires Valid()
      modifies this`store, this`usedBytes, this`evictions
      ensures Valid()
      ensures var deadline := match ttl case Some(d) => Some(now + d) case None => None;
              var put := old(store)[key := Entry(Str, size, deadline, 0)];
              Evicts(put, maxBytes, gone) && store == put - Keys(gone)
      ensures evictions == old(evictions) + |gone|
    {
      var deadline := match ttl case Some(d) => Some(now + d) case None => None;
      gone := InsertEntry(key, Entry(Str, size, deadline, 0));
    }

    method GetValue(key: Bytes, now: nat) returns (found: bool)
      requires Valid()
      modifies this`store, this`usedBytes, this`hits, this`misses, this`accessTick
      ensures Valid()
      ensures found == (key in old(store) && Readable(old(store)[key], now) && old(store)[key].kind == Str)
      ensures if found then hits == old(hits) + 1 && misses == old(misses) && accessTick == old(accessTick) + 1
              else hits == old(hits) && misses == old(misses) + 1 && accessTick == old(accessTick)
      ensures store == if found then old(store)[key := old(store)[key].(tick := old(accessTick))]
                       else if key in old(store) && !Readable(old(store)[key], now) then old(store) - {key}
                       else old(store)
    {
      found := false;
      if key in store {
        if Expired(store[key], now) {
          var _ := RemoveEntry(key);
        } else if store[key].kind == Str {
          Touch(key);
          found := true;
        }
      }
      if found { hits := hits + 1; } else { misses := misses + 1; }
    }

    method Delete(key: Bytes) returns (any: bool)
      requires Valid()
      modifies this`store, this`usedBytes, this`sketches
      ensures Valid()
      ensures store == old(store) - {key} && sketches == old(sketches) - {key}
      ensures any == (key in old(store) || key in old(sketches))
    {
      any := RemoveEntry(key);
      any := any || key in sketches;
      sketches := sketches - {key};
    }

    /** An expired entry hides the sketches of the same name for this one call. */
    method Exists(key: Bytes, now: nat) returns (present: bool)
      requires Valid()
      modifies this`store, this`usedBytes
      ensures Valid()
      ensures present == if key in old(store) then Readable(old(store)[key], now) else key in sketches
      ensures store == if key in old(store) && !Readable(old(store)[key], now) then old(store) - {key} else old(store)
    {
      if key in store {
        present := !Expired(store[key], now);
        if !present { var _ := RemoveEntry(key); }
      } else {
        present := key in sketches;
      }
    }

    /** Extends any resident entry, expired or not. */
    method ExpireIn(key: Bytes, lifetime: nat, now: nat) returns (b: bool)
      requires Valid()
      modifies this`store
      ensures Valid() && b == (key in old(store))
      ensures store == if b then old(store)[key := old(store)[key].(deadline := Some(now + lifetime))] else old(store)
    {
      b := key in store;
      if b {
        TotalPut(store, key, store[key].(deadline := Some(now + lifetime)));
        store := store[key := store[key].(deadline := Some(now + lifetime))];
      }
    }

    /** Drops an expired entry, and reports the kind of a live entry that is not the expected one. */
    method CheckKind(key: Bytes, expected: Kind, now: nat) returns (wrong: Option<Kind>)
      requires Valid()
      modifies this`store, this`usedBytes
      ensures Valid()
      ensures var dead := key in old(store) && !Readable(old(store)[key], now);
              && store == (if dead then old(store) - {key} else old(store))
              && wrong == if key in old(store) && !dead && old(store)[key].kind != expected
                          then Some(old(store)[key].kind) else None
    {
      wrong := None;
      if key in store {
        if Expired(store[key], now) {
          var _ := RemoveEntry(key);
        } else if store[key].kind != expected {
          wrong := Some(store[key].kind);
        }
      }
    }

    /** Reads a structured value: drops an expired entry, reports a wrong kind, marks a value found as read. */
    method LoadValue(key: Bytes, expected: Kind, now: nat) returns (wrong: Option<Kind>, found: bool)
      requires Valid()
      modifies this`store, this`usedBytes, this`accessTick
      ensures Valid()
      ensures found == (key in old(store) && Readable(old(store)[key], now) && old(store)[key].kind == expected)
      ensures wrong == if key in old(store) && Readable(old(store)[key], now) && !found then Some(old(store)[key].kind) else None
      ensures store == if found then old(store)[key := old(store)[key].(tick := old(accessTick))]
                       else if key in old(store) && !Readable(old(store)[key], now) then old(store) - {key}
                       else old(store)
      ensures accessTick == old(accessTick) + if found then 1 else 0
    {
      wrong, found := None, false;
      if key in store {
        if Expired(store[key], now) {
          var _ := RemoveEntry(key);
        } else if store[key].kind != expected {
          wrong := Some(store[key].kind);
        } else {
          Touch(key);
          found := true;
        }
      }
    }

    /**
     A write to a hash, list or sorted set: check the kind, read the value, which marks it as
     read, then store the new encoding of `size` bytes, or remove the key when nothing is left.
     */
    method Rewrite(key: Bytes, kind: Kind, size: Option<nat>, now: nat)
        returns (wrong: Option<Kind>, ghost gone: seq<Bytes>)
      requires Valid()
      modifies this`store, this`usedBytes, this`evictions, this`accessTick
      ensures Valid()
      ensures wrong.Some? <==> key in old(store) && Readable(old(store)[key], now) && old(store)[key].kind != kind
      ensures wrong.Some? ==> store == old(store)
      ensures wrong.None? && size.Some? ==>
                var put := old(store)[key := Entry(kind, size.value, None, 0)];
                Evicts(put, maxBytes, gone) && store == put - Keys(gone)
      ensures wrong.None? && size.None? ==> store == old(store) - {key}
      ensures evictions == old(evictions) + |gone| && (gone != [] ==> wrong.None? && size.Some?)
    {
      gone := [];
      wrong := CheckKind(key, kind, now);
      if wrong.Some? { return; }
      var _, _ := LoadValue(key, kind, now);
      match size {
        case Some(n) =>
          assert store[key := Entry(kind, n, None, 0)] == old(store)[key := Entry(kind, n, None, 0)];
          gone := InsertEntry(key, Entry(kind, n, None, 0));
        case None =>
          var _ := RemoveEntry(key);
          assert store == old(store) - {key};
      }
    }

    method Flush()
      requires Valid()
      modifies this`store, this`sketches, this`usedBytes
      ensures Valid() && store == map[] && sketches == {} && usedBytes == 0
    {
      store := map[];
      sketches := {};
      usedBytes := 0;
    }
  }

  /** If a new entry survives its own insertion, only entries never read since they were stored went. */
  lemma NewcomerGoesFirst(m: Store, max: nat, gone: seq<Bytes>, key: Bytes)
    requires Evicts(m, max, gone) && key in m && m[key].tick == 0 && key !in gone
    ensures forall g | g in gone :: g in m && m[g].tick == 0
  {
  }

  lemma AboveStep(m: Store, target: nat, gone: seq<Bytes>, k: Bytes)
    requires Above(m, target, gone) && Total(m - Keys(gone)) > target
    ensures Above(m, target, gone + [k])
  {
    assert (gone + [k])[..|gone|] == gone;
    assert forall i | 0 <= i <= |gone| :: (gone + [k])[..i] == gone[..i];
  }

  lemma NextVictim(m: Store, gone: seq<Bytes>, rest: seq<Bytes>)
    requires ByTick(m, gone + rest) && rest != []
    ensures rest[0] in m - Keys(gone)
    ensures (m - Keys(gone)) - {rest[0]} == m - Keys(gone + [rest[0]])
    ensures (gone + [rest[0]]) + rest[1..] == gone + rest
  {
    ByTickSplit(m, gone, rest);
    ByTickMembers(m, gone + rest);
    assert rest[0] in gone + rest;
  }

  lemma PassEnds(m: Store, gone: seq<Bytes>, rest: seq<Bytes>)
    requires Keys(gone + rest) == m.Keys
    ensures forall k | k in m && k !in gone :: k in rest
    ensures rest == [] ==> m - Keys(gone) == map[]
  {
    assert forall k | k in m :: k in Keys(gone + rest);
  }
}
