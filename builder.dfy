/**
 * The mutable builder: `add` accumulates values per key, `finalize` freezes
 * the accumulation into an immutable database and retires the builder.
 */
module Builder {
  import opened Wrappers
  import opened Seqs
  import opened DiscoDb

  class Constructor {
    var order: seq<Key>                  // keys in the order they were first added
    var entries: map<Key, seq<Value>>    // each key's values so far, in call order
    var finalized: bool                  // set once `finalize` has produced a database

    ghost predicate Valid()
      reads this
    {
      PendingValid(State())
    }

    /** The accumulation as a value. */
    function State(): Pending
      reads this
    {
      Pending(order, entries)
    }

    constructor ()
      ensures Valid() && State() == EmptyPending && !finalized
    {
      order, entries, finalized := [], map[], false;
    }

    /**
     * `add(k, vs)`: append `vs` to the key's values (a new key joins the order
     * at the end); after `finalize` the builder refuses with InvalidState.
     */
    method Add(k: Key, vs: seq<Value>) returns (r: Result<()>)
      requires Valid()
      modifies this
      ensures Valid() && finalized == old(finalized)
      ensures old(finalized) ==> r == Err(InvalidState) && State() == old(State())
      ensures !old(finalized) ==> r == Ok(()) && State() == AddValues(old(State()), k, vs)
    {
      if finalized {
        return Err(InvalidState);
      }
      var next := AddValues(State(), k, vs);
      order, entries := next.order, next.entries;
      r := Ok(());
    }

    /**
     * `finalize(disable_compression, unique_items)`: index every key in first-added
     * order, deduplicating its values under `unique_items`; a second call
     * refuses with InvalidState.
     */
    method Finalize(disableCompression: bool, uniqueItems: bool) returns (r: Result<DiscoDB>)
      requires Valid()
      modifies this`finalized
      ensures finalized
      ensures old(finalized) ==> r == Err(InvalidState)
      ensures !old(finalized) ==> r == Ok(Freeze(State(), disableCompression, uniqueItems))
    {
      if finalized {
        return Err(InvalidState);
      }
      var index: map<Key, seq<Value>> := map[];
      var i := 0;
      while i < |order|
        invariant 0 <= i <= |order|
        invariant index.Keys == Elems(order[..i])
        invariant forall k :: k in index ==> k in entries && index[k] == Finish(entries[k], uniqueItems)
      {
        var k := order[i];
        assert k in Elems(order);
        assert order[..i + 1] == order[..i] + [k];
        ElemsConcat(order[..i], [k]);
        index := index[k := Finish(entries[k], uniqueItems)];
        i := i + 1;
      }
      assert order[..i] == order;
      assert index == map k | k in entries :: Finish(entries[k], uniqueItems);
      finalized := true;
      r := Ok(DiscoDB(order, index, !disableCompression));
    }
  }

  /** The builder loop: one `add` per (key, values) pair, then `finalize`. */
  method BuildFromPairs(pairs: seq<(Key, seq<Value>)>, disableCompression: bool, uniqueItems: bool)
    returns (db: DiscoDB)
    ensures db == FromPairs(pairs, disableCompression, uniqueItems)
  {
    var c := new Constructor();
    for i := 0 to |pairs|
      invariant c.Valid() && !c.finalized
      invariant c.State() == AddAll(EmptyPending, pairs[..i])
    {
      assert pairs[..i + 1][..i] == pairs[..i];
      var _ := c.Add(pairs[i].0, pairs[i].1);
    }
    assert pairs[..|pairs|] == pairs;
    var r := c.Finalize(disableCompression, uniqueItems);
    db := r.value;
  }

  /** The builder fed flat (key, value) pairs: one `add(k, [v])` each, then `finalize`. */
  method BuildFromFlat(kvs: seq<(Key, Value)>, disableCompression: bool, uniqueItems: bool)
    returns (db: DiscoDB)
    ensures db == FromFlat(kvs, disableCompression, uniqueItems)
  {
    var c := new Constructor();
    for i := 0 to |kvs|
      invariant c.Valid() && !c.finalized
      invariant c.State() == AddEach(EmptyPending, kvs[..i])
    {
      assert kvs[..i + 1][..i] == kvs[..i];
      var _ := c.Add(kvs[i].0, [kvs[i].1]);
    }
    assert kvs[..|kvs|] == kvs;
    var r := c.Finalize(disableCompression, uniqueItems);
    db := r.value;
  }
}
