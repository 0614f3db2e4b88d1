/**
 * The frozen key -> multivalue database, the pending state its builder
 * accumulates, and the ways of building one (from (key, values) pairs, from
 * flat (key, value) pairs, from another database).
 */
module DiscoDb {
  import opened Wrappers
  import opened Seqs

  type Key = string
  type Value = string

  /**
   * A finalized database. `keys` is the deterministic iteration order, `index`
   * gives each key its ordered value list, `compressed` records how the value
   * blocks are stored (it has no effect on the logical contents).
   */
  datatype DiscoDB = DiscoDB(keys: seq<Key>, index: map<Key, seq<Value>>, compressed: bool)

  /** Every key occurs once in the iteration order, and the order lists exactly the indexed keys. */
  predicate Valid(db: DiscoDB) {
    Distinct(db.keys) && Elems(db.keys) == db.index.Keys
  }

  // ---------------------------------------------------------------------------
  // Mapping protocol

  /** `k in db`. */
  function Contains(db: DiscoDB, k: Key): (b: bool)
    requires Valid(db)
    ensures b <==> k in db.keys
  {
    assert k in db.keys <==> k in Elems(db.keys);
    k in db.index
  }

  /** `len(db)`: the number of distinct keys. */
  function Len(db: DiscoDB): (n: nat)
    requires Valid(db)
    ensures n == |db.index.Keys|
  {
    DistinctCard(db.keys);
    |db.keys|
  }

  /** `db.get(k, default)`: never fails; an absent key gives `default` (None unless supplied). */
  function Get(db: DiscoDB, k: Key, default: Option<seq<Value>>): (r: Option<seq<Value>>)
    requires Valid(db)
    ensures k in db.keys ==> r == Some(db.index[k])
    ensures k !in db.keys ==> r == default
  {
    if Contains(db, k) then Some(db.index[k]) else default
  }

  /** `db[k]`: fails with KeyNotFound exactly when the key is absent. */
  function GetItem(db: DiscoDB, k: Key): (r: Result<seq<Value>>)
    requires Valid(db)
    ensures r.Err? <==> k !in db.keys
    ensures r.Err? ==> r.error == KeyNotFound
    ensures r.Ok? ==> Get(db, k, None) == Some(r.value)
  {
    if Contains(db, k) then Ok(db.index[k]) else Err(KeyNotFound)
  }

  /** `db.keys()`, which is also what iterating the database yields: each key once, `len` of them. */
  function Keys(db: DiscoDB): (ks: seq<Key>)
    requires Valid(db)
    ensures ks == db.keys
    ensures Distinct(ks) && Elems(ks) == db.index.Keys
    ensures |ks| == Len(db)
  {
    DistinctCard(db.keys);
    db.keys
  }

  /** `db.items()`: each key with its value list, in iteration order. */
  function Items(db: DiscoDB): (r: seq<(Key, seq<Value>)>)
    requires Valid(db)
    ensures Firsts(r) == db.keys
  {
    assert forall i :: 0 <= i < |db.keys| ==> db.keys[i] in Elems(db.keys);
    seq(|db.keys|, i requires 0 <= i < |db.keys| => (db.keys[i], db.index[db.keys[i]]))
  }

  /** `db.values()`: each key's value list, in iteration order. */
  function Values(db: DiscoDB): (r: seq<seq<Value>>)
    requires Valid(db)
    ensures |r| == |db.keys|
    ensures forall i :: 0 <= i < |r| ==> db.keys[i] in db.index && r[i] == db.index[db.keys[i]]
  {
    var items := Items(db);
    seq(|items|, i requires 0 <= i < |items| => items[i].1)
  }

  /**
   * `db.unique_values()`: every value held under any key, once, in order of
   * first appearance (UniqueValuesOrder).
   */
  function UniqueValues(db: DiscoDB): (r: seq<Value>)
    requires Valid(db)
    ensures Distinct(r)
    ensures forall v :: v in r <==> exists k :: k in db.index && v in db.index[k]
  {
    var vs := Values(db);
    var r := Dedup(Flatten(vs));
    assert forall v :: v in r <==> v in Flatten(vs) by {
      forall v ensures v in r <==> v in Flatten(vs) {
        assert v in r <==> v in Elems(r);
        assert v in Flatten(vs) <==> v in Elems(Flatten(vs));
      }
    }
    forall v ensures v in Flatten(vs) <==> exists k :: k in db.index && v in db.index[k] {
      FlattenElems(vs, v);
      if exists k :: k in db.index && v in db.index[k] {
        var k :| k in db.index && v in db.index[k];
        assert k in Elems(db.keys);
        var i :| 0 <= i < |db.keys| && db.keys[i] == k;
        assert v in vs[i];
      }
    }
    r
  }

  /**
   * `db.peek(k, default)`: some value of a key that has one, otherwise the
   * default (None unless supplied).
   */
  function Peek(db: DiscoDB, k: Key, default: Option<Value>): (r: Option<Value>)
    requires Valid(db)
    ensures k in db.keys && db.index[k] != [] ==> r.Some? && r.value in db.index[k]
    ensures k !in db.keys || db.index[k] == [] ==> r == default
  {
    match Get(db, k, None)
    case Some(vs) => if vs != [] then Some(vs[0]) else default
    case None => default
  }

  // ---------------------------------------------------------------------------
  // Building

  /** What a builder has accumulated: keys in first-insertion order and their values so far. */
  datatype Pending = Pending(order: seq<Key>, entries: map<Key, seq<Value>>)

  const EmptyPending := Pending([], map[])

  predicate PendingValid(p: Pending) {
    Distinct(p.order) && Elems(p.order) == p.entries.Keys
  }

  /** `add(k, vs)`: append `vs` to whatever the key already holds; a new key joins the order at the end. */
  function AddValues(p: Pending, k: Key, vs: seq<Value>): (r: Pending)
    requires PendingValid(p)
    ensures PendingValid(r)
    ensures r.entries.Keys == p.entries.Keys + {k}
    ensures r.entries[k] == (if k in p.entries then p.entries[k] else []) + vs
    ensures forall j :: j in p.entries && j != k ==> r.entries[j] == p.entries[j]
    ensures k in p.entries ==> r.order == p.order
    ensures k !in p.entries ==> r.order == p.order + [k]
  {
    if k in p.entries then
      Pending(p.order, p.entries[k := p.entries[k] + vs])
    else
      ElemsConcat(p.order, [k]);
      assert k !in Elems(p.order);
      Pending(p.order + [k], p.entries[k := vs])
  }

  /** One `add` per pair, in order. */
  function AddAll(p: Pending, pairs: seq<(Key, seq<Value>)>): (r: Pending)
    requires PendingValid(p)
    ensures PendingValid(r)
  {
    if pairs == [] then p
    else
      var last := pairs[|pairs| - 1];
      AddValues(AddAll(p, pairs[..|pairs| - 1]), last.0, last.1)
  }

  /** What `unique_items` does to one key's values at finalization. */
  function Finish(vs: seq<Value>, uniqueItems: bool): seq<Value> {
    if uniqueItems then Dedup(vs) else vs
  }

  /** `finalize(disable_compression, unique_items)` on a builder holding `p`. */
  function Freeze(p: Pending, disableCompression: bool, uniqueItems: bool): (db: DiscoDB)
    requires PendingValid(p)
    ensures Valid(db)
    ensures db.keys == p.order && db.compressed == !disableCompression
    ensures forall k :: k in p.entries ==> db.index[k] == Finish(p.entries[k], uniqueItems)
  {
    DiscoDB(p.order, map k | k in p.entries :: Finish(p.entries[k], uniqueItems), !disableCompression)
  }

  /** `DiscoDB(pairs, ...)`: from (key, values) pairs, a repeated key accumulating. */
  function FromPairs(pairs: seq<(Key, seq<Value>)>, disableCompression: bool, uniqueItems: bool): (db: DiscoDB)
    ensures Valid(db)
    ensures db.keys == Dedup(Firsts(pairs)) && db.compressed == !disableCompression
  {
    AddAllSpec(pairs);
    Freeze(AddAll(EmptyPending, pairs), disableCompression, uniqueItems)
  }

  /** One `add(k, [v])` per flat pair, in order. */
  function AddEach(p: Pending, kvs: seq<(Key, Value)>): (r: Pending)
    requires PendingValid(p)
    ensures PendingValid(r)
  {
    if kvs == [] then p
    else
      var last := kvs[|kvs| - 1];
      AddValues(AddEach(p, kvs[..|kvs| - 1]), last.0, [last.1])
  }

  /** `DiscoDB((k, v) for ...)`: from flat (key, value) pairs, each contributing one value. */
  function FromFlat(kvs: seq<(Key, Value)>, disableCompression: bool, uniqueItems: bool): (db: DiscoDB)
    ensures Valid(db)
    ensures db.keys == Dedup(Firsts(Singletons(kvs))) && db.compressed == !disableCompression
  {
    AddEachAsAddAll(kvs);
    AddAllSpec(Singletons(kvs));
    Freeze(AddEach(EmptyPending, kvs), disableCompression, uniqueItems)
  }

  /** `DiscoDB(other, ...)`: rebuild from another database's items. */
  function Rebuild(db: DiscoDB, disableCompression: bool, uniqueItems: bool): (r: DiscoDB)
    requires Valid(db)
    ensures Valid(r)
    ensures r.keys == db.keys && r.compressed == !disableCompression
  {
    DedupDistinct(db.keys);
    FromPairs(Items(db), disableCompression, uniqueItems)
  }

  // ---------------------------------------------------------------------------
  // Reference definitions: what the input pairs say about each key

  /** The keys of the pairs, in input order, repeats included. */
  function Firsts<T>(pairs: seq<(Key, T)>): (r: seq<Key>)
    ensures |r| == |pairs|
    ensures forall i :: 0 <= i < |pairs| ==> r[i] == pairs[i].0
  {
    if pairs == [] then [] else Firsts(pairs[..|pairs| - 1]) + [pairs[|pairs| - 1].0]
  }

  /** All values the pairs give key `k`, in input order. */
  function ValuesFor(pairs: seq<(Key, seq<Value>)>, k: Key): seq<Value> {
    if pairs == [] then []
    else
      var last := pairs[|pairs| - 1];
      ValuesFor(pairs[..|pairs| - 1], k) + (if last.0 == k then last.1 else [])
  }

  /** The (key, values) pairs a sequence of flat pairs stands for. */
  function Singletons(kvs: seq<(Key, Value)>): (r: seq<(Key, seq<Value>)>)
    ensures |r| == |kvs|
    ensures forall i :: 0 <= i < |kvs| ==> r[i] == (kvs[i].0, [kvs[i].1])
  {
    if kvs == [] then [] else Singletons(kvs[..|kvs| - 1]) + [(kvs[|kvs| - 1].0, [kvs[|kvs| - 1].1])]
  }

  /** The dictionary a list of (key, values) pairs makes, a later pair overriding an earlier one. */
  function ToMap(pairs: seq<(Key, seq<Value>)>): map<Key, seq<Value>> {
    if pairs == [] then map[]
    else
      var last := pairs[|pairs| - 1];
      ToMap(pairs[..|pairs| - 1])[last.0 := last.1]
  }

  // ---------------------------------------------------------------------------
  // Lemmas

  /** Accumulating pairs: first-occurrence key order, and each key holds all its values in input order. */
  lemma {:induction false} AddAllSpec(pairs: seq<(Key, seq<Value>)>)
    ensures AddAll(EmptyPending, pairs).order == Dedup(Firsts(pairs))
    ensures AddAll(EmptyPending, pairs).entries.Keys == Elems(Firsts(pairs))
    ensures forall k :: k in Elems(Firsts(pairs)) ==> AddAll(EmptyPending, pairs).entries[k] == ValuesFor(pairs, k)
  {
    if pairs != [] {
      var n := |pairs| - 1;
      var prefix := pairs[..n];
      var last := pairs[n];
      AddAllSpec(prefix);
      var p := AddAll(EmptyPending, prefix);
      var fs := Firsts(pairs);
      assert fs[..n] == Firsts(prefix);
      assert fs == Firsts(prefix) + [last.0];
      ElemsConcat(Firsts(prefix), [last.0]);
      assert Elems([last.0]) == {last.0};
      assert last.0 in p.entries <==> last.0 in Dedup(Firsts(prefix)) by {
        assert last.0 in Dedup(Firsts(prefix)) <==> last.0 in Elems(Dedup(Firsts(prefix)));
      }
      forall k | k in Elems(fs)
        ensures AddAll(EmptyPending, pairs).entries[k] == ValuesFor(pairs, k)
      {
        if k != last.0 {
          assert k in Elems(Firsts(prefix));
        } else if k !in Elems(Firsts(prefix)) {
          ValuesForAbsent(prefix, k);
        }
      }
    }
  }

  lemma {:induction false} ValuesForAbsent(pairs: seq<(Key, seq<Value>)>, k: Key)
    requires k !in Elems(Firsts(pairs))
    ensures ValuesFor(pairs, k) == []
  {
    if pairs != [] {
      var n := |pairs| - 1;
      assert Firsts(pairs)[..n] == Firsts(pairs[..n]);
      assert Firsts(pairs)[n] == pairs[n].0;
      assert Firsts(pairs) == Firsts(pairs[..n]) + [pairs[n].0];
      ElemsConcat(Firsts(pairs[..n]), [pairs[n].0]);
      ValuesForAbsent(pairs[..n], k);
    }
  }

  /** `k in db` holds exactly for the keys that were added. */
  lemma ContainsIffAdded(pairs: seq<(Key, seq<Value>)>, dc: bool, ui: bool, k: Key)
    ensures Contains(FromPairs(pairs, dc, ui), k) <==> exists i :: 0 <= i < |pairs| && pairs[i].0 == k
  {
    AddAllSpec(pairs);
    var fs := Firsts(pairs);
    if exists i :: 0 <= i < |pairs| && pairs[i].0 == k {
      var i :| 0 <= i < |pairs| && pairs[i].0 == k;
      assert fs[i] == k;
      assert k in Elems(fs);
    }
    if k in Elems(fs) {
      var i :| 0 <= i < |fs| && fs[i] == k;
      assert pairs[i].0 == k;
    }
  }

  /** `len(db)` is the number of distinct keys added. */
  lemma LenIsDistinctKeys(pairs: seq<(Key, seq<Value>)>, dc: bool, ui: bool)
    ensures Len(FromPairs(pairs, dc, ui)) == |Elems(Firsts(pairs))|
  {
    AddAllSpec(pairs);
  }

  /** Iteration order is the order in which keys were first added. */
  lemma KeysInFirstAddedOrder(pairs: seq<(Key, seq<Value>)>, dc: bool, ui: bool)
    ensures Keys(FromPairs(pairs, dc, ui)) == Dedup(Firsts(pairs))
  {
    AddAllSpec(pairs);
  }

  /**
   * `db.get(k, d)` gives every value added under `k`, in call order (deduplicated
   * under `unique_items`), and `d` for a key never added.
   */
  lemma GetAdded(pairs: seq<(Key, seq<Value>)>, dc: bool, ui: bool, k: Key, d: Option<seq<Value>>)
    ensures k in Elems(Firsts(pairs)) ==> Get(FromPairs(pairs, dc, ui), k, d) == Some(Finish(ValuesFor(pairs, k), ui))
    ensures k !in Elems(Firsts(pairs)) ==> Get(FromPairs(pairs, dc, ui), k, d) == d
  {
    AddAllSpec(pairs);
    var db := FromPairs(pairs, dc, ui);
    assert k in db.keys <==> k in Elems(db.keys);
  }

  /** `DiscoDB(d)` for a dict `d` (pairs with distinct keys): each key holds exactly its dict value. */
  lemma FromDictGet(pairs: seq<(Key, seq<Value>)>, dc: bool, ui: bool, i: nat)
    requires Distinct(Firsts(pairs)) && i < |pairs|
    ensures Get(FromPairs(pairs, dc, ui), pairs[i].0, None) == Some(Finish(pairs[i].1, ui))
  {
    FirstsHasKey(pairs, i);
    ValuesForUnique(pairs, i);
    GetAdded(pairs, dc, ui, pairs[i].0, None);
  }

  lemma FirstsHasKey<T>(pairs: seq<(Key, T)>, i: nat)
    requires i < |pairs|
    ensures pairs[i].0 in Elems(Firsts(pairs))
  {
    assert Firsts(pairs)[i] == pairs[i].0;
  }

  /** With `unique_items`, a key fed ['1', '1', '2'] holds exactly ['1', '2']. */
  lemma UniqueItemsExample(dc: bool)
    ensures GetItem(FromPairs([("0", ["1", "1", "2"])], dc, true), "0") == Ok(["1", "2"])
  {
    var pairs := [("0", ["1", "1", "2"])];
    AddAllSpec(pairs);
    assert Firsts(pairs) == ["0"];
    assert "0" in Elems(Firsts(pairs));
    assert pairs[..0] == [];
    assert ValuesFor(pairs, "0") == ["1", "1", "2"];
    var s: seq<Value> := ["1", "1", "2"];
    assert s[..2][..1] == ["1"];
    assert Dedup(s[..2][..1]) == ["1"] by {
      assert ["1"][..0] == [];
    }
    assert Dedup(s[..2]) == ["1"];
    assert "2" != "1";
    assert Dedup(s) == ["1", "2"];
  }

  /** Flat (key, value) input builds the same database as the matching one-value pairs. */
  lemma {:induction false} FlatAsPairs(kvs: seq<(Key, Value)>, dc: bool, ui: bool)
    ensures FromFlat(kvs, dc, ui) == FromPairs(Singletons(kvs), dc, ui)
  {
    AddEachAsAddAll(kvs);
  }

  lemma {:induction false} AddEachAsAddAll(kvs: seq<(Key, Value)>)
    ensures AddEach(EmptyPending, kvs) == AddAll(EmptyPending, Singletons(kvs))
  {
    if kvs != [] {
      var n := |kvs| - 1;
      AddEachAsAddAll(kvs[..n]);
      assert Singletons(kvs)[..n] == Singletons(kvs[..n]);
    }
  }

  lemma {:induction false} ValuesForUnique(pairs: seq<(Key, seq<Value>)>, i: nat)
    requires Distinct(Firsts(pairs)) && i < |pairs|
    ensures ValuesFor(pairs, pairs[i].0) == pairs[i].1
  {
    var n := |pairs| - 1;
    var k := pairs[i].0;
    assert Firsts(pairs)[..n] == Firsts(pairs[..n]);
    if i < n {
      assert Distinct(Firsts(pairs[..n]));
      assert pairs[..n][i] == pairs[i];
      ValuesForUnique(pairs[..n], i);
      assert Firsts(pairs)[i] != Firsts(pairs)[n];
    } else {
      assert k !in Elems(Firsts(pairs[..n]));
      ValuesForAbsent(pairs[..n], k);
    }
  }

  /** `values()` lists, key by key in iteration order, what indexing the key gives. */
  lemma ValuesByKey(db: DiscoDB, i: nat)
    requires Valid(db) && i < |Values(db)|
    ensures GetItem(db, Keys(db)[i]) == Ok(Values(db)[i])
  {
    assert db.keys[i] in Elems(db.keys);
  }

  /** `unique_values()` lists values in the order they first appear across `values()`. */
  lemma UniqueValuesOrder(db: DiscoDB, i: nat, j: nat)
    requires Valid(db) && i < j < |UniqueValues(db)|
    ensures UniqueValues(db)[i] in Flatten(Values(db)) && UniqueValues(db)[j] in Flatten(Values(db))
    ensures FirstIndex(Flatten(Values(db)), UniqueValues(db)[i]) < FirstIndex(Flatten(Values(db)), UniqueValues(db)[j])
  {
    DedupFirstOccurrenceOrder(Flatten(Values(db)), i, j);
  }

  /**
   * Rebuilding a database from another one keeps every key, the order and
   * every value list; with `unique_items` each list is deduplicated.
   */
  lemma RebuildPreserves(db: DiscoDB, dc: bool, ui: bool)
    requires Valid(db)
    ensures Keys(Rebuild(db, dc, ui)) == Keys(db)
    ensures forall k :: Get(Rebuild(db, dc, ui), k, None) == if k in db.index then Some(Finish(db.index[k], ui)) else None
  {
    AddAllSpec(Items(db));
    DedupDistinct(db.keys);
    forall k ensures Get(Rebuild(db, dc, ui), k, None) == if k in db.index then Some(Finish(db.index[k], ui)) else None {
      RebuildGet(db, dc, ui, k);
    }
  }

  lemma RebuildGet(db: DiscoDB, dc: bool, ui: bool, k: Key)
    requires Valid(db)
    ensures Get(Rebuild(db, dc, ui), k, None) == if k in db.index then Some(Finish(db.index[k], ui)) else None
  {
    var items := Items(db);
    if k in db.index {
      assert k in Elems(db.keys);
      var i :| 0 <= i < |db.keys| && db.keys[i] == k;
      assert items[i].0 == k;
      FromDictGet(items, dc, ui, i);
    } else {
      AddAllSpec(items);
      DedupDistinct(db.keys);
      var r := Rebuild(db, dc, ui);
      assert k in r.keys <==> k in Elems(r.keys);
    }
  }

  lemma {:induction false} ToMapDistinct(pairs: seq<(Key, seq<Value>)>)
    requires Distinct(Firsts(pairs))
    ensures ToMap(pairs).Keys == Elems(Firsts(pairs))
    ensures forall i :: 0 <= i < |pairs| ==> ToMap(pairs)[pairs[i].0] == pairs[i].1
  {
    if pairs != [] {
      var n := |pairs| - 1;
      assert Firsts(pairs)[..n] == Firsts(pairs[..n]);
      assert Distinct(Firsts(pairs[..n]));
      ToMapDistinct(pairs[..n]);
      assert Firsts(pairs) == Firsts(pairs[..n]) + [pairs[n].0];
      ElemsConcat(Firsts(pairs[..n]), [pairs[n].0]);
      assert Elems([pairs[n].0]) == {pairs[n].0};
      forall i | 0 <= i < |pairs| ensures ToMap(pairs)[pairs[i].0] == pairs[i].1 {
        if i < n {
          assert Firsts(pairs)[i] != Firsts(pairs)[n];
          assert pairs[..n][i] == pairs[i];
        }
      }
    }
  }

  /** `dict(db.items())` is the database's mapping. */
  lemma ItemsDict(db: DiscoDB)
    requires Valid(db)
    ensures ToMap(Items(db)) == db.index
  {
    ToMapDistinct(Items(db));
    forall k | k in db.index ensures ToMap(Items(db))[k] == db.index[k] {
      assert k in Elems(db.keys);
      var i :| 0 <= i < |db.keys| && db.keys[i] == k;
      assert Items(db)[i].0 == k;
    }
  }

  /**
   * A database built with compression disabled and the compressed copy made
   * from it give the same `dict((k, list(vs)) for k, vs in items())`.
   */
  lemma CompressionTransparent(pairs: seq<(Key, seq<Value>)>)
    ensures ToMap(Items(Rebuild(FromPairs(pairs, true, false), false, false)))
         == ToMap(Items(FromPairs(pairs, true, false)))
  {
    var db := FromPairs(pairs, true, false);
    var c := Rebuild(db, false, false);
    RebuildPreserves(db, false, false);
    forall k ensures Get(c, k, None) == Get(db, k, None) {
      assert k in db.keys <==> k in Elems(db.keys);
    }
    SameLookupsSameIndex(c, db);
    ItemsDict(db);
    ItemsDict(c);
  }

  /** Two databases that answer every `get` alike hold the same dict. */
  lemma SameLookupsSameIndex(a: DiscoDB, b: DiscoDB)
    requires Valid(a) && Valid(b)
    requires forall k :: Get(a, k, None) == Get(b, k, None)
    ensures a.index == b.index
  {
    forall k ensures (k in a.index <==> k in b.index) && (k in a.index ==> a.index[k] == b.index[k]) {
      assert k in a.keys <==> k in Elems(a.keys);
      assert k in b.keys <==> k in Elems(b.keys);
      assert Get(a, k, None) == Get(b, k, None);
    }
  }
}
