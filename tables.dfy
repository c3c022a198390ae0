/** A JavaScript object used as a dictionary: `Record<string, V>`. The keys keep their
  * insertion order, which is the order of `Object.values` and of `for ... in`. */
module Tables {
  import opened Wrappers
  import opened Seqs

  type Id = string

  datatype Table<V> = Table(order: seq<Id>, entries: map<Id, V>) {

    /** The order lists every key exactly once. */
    ghost predicate Valid() {
      && (forall k :: k in entries <==> k in order)
      && NoDuplicates(order)
    }

    /** `Object.values(table)`. */
    function Values(): (vs: seq<V>)
      requires Valid()
      ensures |vs| == |order|
      ensures forall i :: 0 <= i < |order| ==> vs[i] == entries[order[i]]
    {
      seq(|order|, i requires 0 <= i < |order| =>
        assert order[i] in order; entries[order[i]])
    }

    /** `table[id]`, with None for `undefined`. */
    function Get(k: Id): Option<V> {
      if k in entries then Some(entries[k]) else None
    }

    /** `{ ...table, [k]: v }`: an existing key keeps its place, a new one goes last. */
    function Put(k: Id, v: V): (t: Table<V>)
      ensures t.entries == entries[k := v]
      ensures t.order == if k in entries then order else order + [k]
    {
      if k in entries then Table(order, entries[k := v]) else Table(order + [k], entries[k := v])
    }

    /** `const { [k]: _, ...rest } = table`. */
    function Remove(k: Id): (t: Table<V>)
      ensures t.entries == entries - {k}
      ensures t.order == RemoveAll(order, k)
    {
      Table(RemoveAll(order, k), entries - {k})
    }
  }

  function Empty<V>(): (t: Table<V>)
    ensures t.Valid() && t.Values() == []
  {
    Table([], map[])
  }

  /** The keys of `keys` written, in order, from `src` onto `a`. */
  function Assign<V>(a: Table<V>, keys: seq<Id>, src: map<Id, V>): (r: Table<V>)
    requires a.Valid() && forall i :: 0 <= i < |keys| ==> keys[i] in src
    ensures r.Valid()
    ensures forall k :: k in r.entries <==> k in a.entries || k in keys
    ensures forall k :: k in r.entries ==>
      r.entries[k] == if k in keys then src[k] else a.entries[k]
    decreases |keys|
  {
    if keys == [] then a
    else
      var front := keys[..|keys| - 1];
      var last := keys[|keys| - 1];
      assert keys == front + [last];
      assert forall i :: 0 <= i < |front| ==> front[i] == keys[i];
      var r0 := Assign(a, front, src);
      PutValid(r0, last, src[last]);
      r0.Put(last, src[last])
  }

  /** Assigning keys without repeats keeps the order of `a` and appends the new keys in
    * the order they are written. */
  lemma {:induction false} AssignOrder<V>(a: Table<V>, keys: seq<Id>, src: map<Id, V>)
    requires a.Valid() && forall i :: 0 <= i < |keys| ==> keys[i] in src
    requires NoDuplicates(keys)
    ensures Assign(a, keys, src).order == a.order + Filter(keys, Absent(a))
    decreases |keys|
  {
    if keys != [] {
      var front := keys[..|keys| - 1];
      var last := keys[|keys| - 1];
      assert keys == front + [last];
      assert forall i :: 0 <= i < |front| ==> front[i] == keys[i];
      assert NoDuplicates(front);
      assert last !in front;
      var r0 := Assign(a, front, src);
      AssignOrder(a, front, src);
      FilterAppend(front, [last], Absent(a));
      assert last in r0.entries <==> last in a.entries;
    }
  }

  /** The keys a table does not hold yet. */
  function Absent<V>(a: Table<V>): Id -> bool {
    k => k !in a.entries
  }

  /** `{ ...a, ...b }`: every key of either, the value of `b` winning; the keys of `a`
    * keep their places and the new keys of `b` follow in `b`'s order. */
  function Spread<V>(a: Table<V>, b: Table<V>): (r: Table<V>)
    requires a.Valid() && b.Valid()
    ensures r.Valid()
    ensures r.entries == a.entries + b.entries
    ensures r.order == a.order + Filter(b.order, Absent(a))
  {
    AllKeysIn(b);
    AssignEntries(a, b);
    AssignOrder(a, b.order, b.entries);
    Assign(a, b.order, b.entries)
  }

  /** Every key of a well-formed table's order has an entry. */
  lemma AllKeysIn<V>(b: Table<V>)
    requires b.Valid()
    ensures forall i :: 0 <= i < |b.order| ==> b.order[i] in b.entries
    ensures NoDuplicates(b.order)
  {
  }

  /** Writing all of `b` onto `a` gives the entries of `a` overridden by those of `b`. */
  lemma AssignEntries<V>(a: Table<V>, b: Table<V>)
    requires a.Valid() && b.Valid()
    ensures forall i :: 0 <= i < |b.order| ==> b.order[i] in b.entries
    ensures Assign(a, b.order, b.entries).entries == a.entries + b.entries
  {
    AllKeysIn(b);
    var r := Assign(a, b.order, b.entries);
    var m := a.entries + b.entries;
    forall k | k in r.entries ensures k in m && r.entries[k] == m[k] {
      if k in b.order {
        assert k in b.entries;
      } else {
        assert k !in b.entries;
      }
    }
    forall k | k in m ensures k in r.entries {
      assert k in b.entries ==> k in b.order;
    }
    assert r.entries.Keys == m.Keys;
  }

  lemma {:induction false} RemoveAllKeepsDistinct(s: seq<Id>, x: Id)
    requires NoDuplicates(s)
    ensures NoDuplicates(RemoveAll(s, x))
  {
    if s != [] {
      RemoveAllKeepsDistinct(s[1..], x);
      assert s == [s[0]] + s[1..];
      FilterAppend([s[0]], s[1..], y => y != x);
      assert s[0] !in s[1..];
    }
  }

  /** Writing and deleting keep a table well formed. */
  lemma PutValid<V>(t: Table<V>, k: Id, v: V)
    requires t.Valid()
    ensures t.Put(k, v).Valid()
    ensures t.Put(k, v).Get(k) == Some(v)
    ensures forall j :: j != k ==> t.Put(k, v).Get(j) == t.Get(j)
  {
  }

  lemma RemoveValid<V>(t: Table<V>, k: Id)
    requires t.Valid()
    ensures t.Remove(k).Valid()
    ensures t.Remove(k).Get(k) == None
    ensures forall j :: j != k ==> t.Remove(k).Get(j) == t.Get(j)
  {
    RemoveAllKeepsDistinct(t.order, k);
  }

  /** Deleting a key just added gives back the table as it was. */
  lemma RemoveAfterPut<V>(t: Table<V>, k: Id, v: V)
    requires t.Valid() && k !in t.entries
    ensures t.Put(k, v).Remove(k) == t
  {
    RemoveAllAppended(t.order, k);
    assert t.Put(k, v).entries - {k} == t.entries;
  }

  /** Deleting a key that is not there changes nothing. */
  lemma RemoveAbsent<V>(t: Table<V>, k: Id)
    requires t.Valid() && k !in t.entries
    ensures t.Remove(k) == t
  {
    RemoveAllAbsent(t.order, k);
    assert t.entries - {k} == t.entries;
  }

  /** Overwriting the key at position `i` replaces the value at position `i`. */
  lemma PutValuesAt<V>(t: Table<V>, i: nat, v: V)
    requires t.Valid() && i < |t.order|
    ensures t.Put(t.order[i], v).Valid()
    ensures t.Put(t.order[i], v).Values() == t.Values()[i := v]
  {
    PutValid(t, t.order[i], v);
    assert t.order[i] in t.order;
  }

  /** What `Object.values` sees after a write: the value replaced in place, or appended. */
  lemma PutValues<V>(t: Table<V>, k: Id, v: V)
    requires t.Valid()
    ensures k in t.entries ==> exists i :: 0 <= i < |t.order| && t.order[i] == k
                                          && t.Put(k, v).Values() == t.Values()[i := v]
    ensures k !in t.entries ==> t.Put(k, v).Values() == t.Values() + [v]
  {
    PutValid(t, k, v);
    if k in t.entries {
      var i :| 0 <= i < |t.order| && t.order[i] == k;
      assert t.Put(k, v).Values() == t.Values()[i := v];
    } else {
      assert t.Put(k, v).Values() == t.Values() + [v];
    }
  }
}
