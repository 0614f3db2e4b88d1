/**
 * `MetaDB(data, meta)`: two frozen databases held side by side, never merged.
 * The mapping surface is the data database's; `values()` pairs each key's
 * data values with what the meta database holds for the same key.
 * `dump` writes the two images one after the other.
 */
module MetaDb {
  import opened Wrappers
  import D = DiscoDb
  import Codec
  import Seqs

  type Key = D.Key
  type Value = D.Value

  datatype MetaDB = MetaDB(data: D.DiscoDB, meta: D.DiscoDB)

  /** One element of `values()`: a key's data values and `meta.get(key)`. */
  type MetaValues = (seq<Value>, Option<seq<Value>>)

  predicate Valid(m: MetaDB) {
    D.Valid(m.data) && D.Valid(m.meta)
  }

  function Contains(m: MetaDB, k: Key): (b: bool)
    requires Valid(m)
    ensures b <==> k in m.data.keys
  {
    D.Contains(m.data, k)
  }

  function Len(m: MetaDB): (n: nat)
    requires Valid(m)
    ensures n == |m.data.index.Keys|
  {
    D.Len(m.data)
  }

  function Get(m: MetaDB, k: Key, default: Option<seq<Value>>): (r: Option<seq<Value>>)
    requires Valid(m)
    ensures k in m.data.keys ==> r == Some(m.data.index[k])
    ensures k !in m.data.keys ==> r == default
  {
    D.Get(m.data, k, default)
  }

  function GetItem(m: MetaDB, k: Key): (r: Result<seq<Value>>)
    requires Valid(m)
    ensures r.Err? <==> k !in m.data.keys
    ensures r.Err? ==> r.error == KeyNotFound
    ensures r.Ok? ==> r.value == m.data.index[k]
  {
    D.GetItem(m.data, k)
  }

  /** `keys()`, and what iterating a MetaDB yields: the data database's keys, each once, `len` of them. */
  function Keys(m: MetaDB): (ks: seq<Key>)
    requires Valid(m)
    ensures ks == m.data.keys
    ensures forall k :: k in ks <==> k in m.data.index
    ensures Seqs.Distinct(ks) && |ks| == Len(m)
  {
    assert forall k :: k in m.data.keys <==> k in Seqs.Elems(m.data.keys);
    D.Keys(m.data)
  }

  /** `items()`: the data database's keys in order, each with its data values. */
  function Items(m: MetaDB): (r: seq<(Key, seq<Value>)>)
    requires Valid(m)
    ensures D.Firsts(r) == Keys(m)
    ensures D.ToMap(r) == m.data.index
  {
    D.ItemsDict(m.data);
    D.Items(m.data)
  }

  /** The join by key: each data key with its data values and its meta values. */
  function Join(m: MetaDB): map<Key, MetaValues>
    requires Valid(m)
  {
    map k | k in m.data.index :: (m.data.index[k], D.Get(m.meta, k, None))
  }

  /** `values()`, in the data database's key order. */
  function Values(m: MetaDB): (r: seq<MetaValues>)
    requires Valid(m)
    ensures |r| == |m.data.keys|
    ensures forall i :: 0 <= i < |r| ==> m.data.keys[i] in m.data.index && r[i] == Join(m)[m.data.keys[i]]
  {
    var ks := m.data.keys;
    assert forall i :: 0 <= i < |ks| ==> ks[i] in Seqs.Elems(ks);
    seq(|ks|, i requires 0 <= i < |ks| => (m.data.index[ks[i]], D.Get(m.meta, ks[i], None)))
  }

  /** `dump`: the data image, then the meta image. */
  function Encode(m: MetaDB): (r: Codec.Image)
    requires Valid(m)
    ensures Codec.DecodePrefix(r) == Ok((m.data, Codec.Encode(m.meta)))
  {
    Codec.PrefixRoundTrip(m.data, Codec.Encode(m.meta));
    Codec.Encode(m.data) + Codec.Encode(m.meta)
  }

  /** `MetaDB.load`: two complete images and nothing after them. */
  function Decode(s: Codec.Image): (r: Result<MetaDB>)
    ensures r.Ok? ==> Valid(r.value)
    ensures r.Err? ==> r.error == SerializationError
  {
    match Codec.DecodePrefix(s)
    case Err(e) => Err(e)
    case Ok((data, rest)) =>
      match Codec.Decode(rest)
      case Err(e) => Err(e)
      case Ok(meta) => Ok(MetaDB(data, meta))
  }

  // ---------------------------------------------------------------------------
  // Lemmas

  /** Every element of `values()` is a data key's values beside that key's meta values. */
  lemma ValuesJoinByKey(m: MetaDB, i: nat)
    requires Valid(m) && i < |m.data.keys|
    ensures Values(m)[i].0 == D.GetItem(m.data, m.data.keys[i]).value
    ensures Values(m)[i].1 == D.Get(m.meta, m.data.keys[i], None)
  {
  }

  /** Loading a dumped MetaDB gives back both databases. */
  lemma RoundTrip(m: MetaDB)
    requires Valid(m)
    ensures Decode(Encode(m)) == Ok(m)
  {
    Codec.PrefixRoundTrip(m.data, Codec.Encode(m.meta));
    Codec.RoundTrip(m.meta);
  }

  /** dump then load keeps the key -> (data values, meta values) pairing of `values()`. */
  lemma DumpLoadPreservesValues(m: MetaDB)
    requires Valid(m)
    ensures Decode(Encode(m)).Ok?
    ensures Values(Decode(Encode(m)).value) == Values(m)
    ensures Join(Decode(Encode(m)).value) == Join(m)
  {
    RoundTrip(m);
  }

  /** Bytes after the meta image make the buffer corrupt. */
  lemma TrailingDataRejected(m: MetaDB, x: Codec.Image)
    requires Valid(m) && x != []
    ensures Decode(Encode(m) + x) == Err(SerializationError)
  {
    assert Encode(m) + x == Codec.Encode(m.data) + (Codec.Encode(m.meta) + x);
    Codec.PrefixRoundTrip(m.data, Codec.Encode(m.meta) + x);
    Codec.TrailingDataRejected(m.meta, x);
  }

  /** A buffer holding only the data image lacks the meta image and is corrupt. */
  lemma MissingMetaRejected(m: MetaDB)
    requires Valid(m)
    ensures Decode(Codec.Encode(m.data)) == Err(SerializationError)
  {
    Codec.PrefixRoundTrip(m.data, []);
    assert Codec.Encode(m.data) + [] == Codec.Encode(m.data);
  }
}
