# discodb, modelled in Dafny

A behavioural model of discodb: an immutable key → multivalue index that is
built once through a mutable constructor and then frozen, serialised to a
self-describing image and loaded back, and queried with a small boolean
language over the values (`&`, `|`, `~`, parentheses). `MetaDB` holds a data
database and a meta database side by side and joins them by key.

The behaviour modelled is the one the test suite `contrib/discodb/test.py`
asserts. The extension module it exercises is not part of this model, so each
operation is defined by what the tests observe of it.

| file | module | what it holds |
|---|---|---|
| `wrappers.dfy` | `Wrappers` | `Option`, `Result`, and the error kinds `KeyNotFound`, `InvalidState`, `QuerySyntaxError`, `SerializationError` |
| `seqs.dfy` | `Seqs` | sequence helpers: element sets, distinctness, first-occurrence deduplication, flattening |
| `discodb.dfy` | `DiscoDb` | the frozen database, its mapping protocol, the pending state a builder accumulates, and the ways of building a database |
| `builder.dfy` | `Builder` | `DiscoDBConstructor` as a class with `add` and `finalize`, and the build loops |
| `codec.dfy` | `Codec` | `dumps` / `loads` as an encoder and an all-or-nothing decoder |
| `query.dfy` | `Query` | the query tree, its evaluator and its set meaning |
| `parser.dfy` | `QueryParser` | `Q.parse`: a tokenizer and a recursive-descent parser, and a printer for round trips |
| `metadb.dfy` | `MetaDb` | `MetaDB(data, meta)`, its `values()` join and its dump / load |
| `fixture.dfy` | `Fixture` | the `TestQuery` database and every query the tests put to it |

Modelling choices:

- Keys and values are strings. A database iterates its keys in the order they
  were first added.
- `unique_items` drops repeated values of a key and keeps first occurrences.
- The compression flag is recorded in the image header. It has no effect on
  the logical contents.
- A query returns a sequence of values. A literal returns exactly `get(key)`,
  and an absent key gives nothing. AND keeps the left values also found on the
  right. OR joins both sides. NOT keeps the database's distinct values that its
  operand lacks. Compound results list each value once.
- `~` binds tighter than `&`, and `&` binds tighter than `|`. Chains group to
  the left. Whitespace only separates tokens.
- `MetaDB.values()` gives, for each data key in order, the pair of that key's
  data values and `meta.get(key)`.
- The image is text with decimal length prefixes: a flag `C` or `U`, the key
  count, then each key with its value count and its values.

## Model

| member | source | states |
|---|---|---|
| DiscoDb.Contains | contrib/discodb/test.py:52-54 | `k in db` holds exactly for the keys of the database |
| DiscoDb.Len | contrib/discodb/test.py:56-57 | `len(db)` is the number of distinct keys |
| DiscoDb.Get | contrib/discodb/test.py:59-62 | `get` gives a present key's values and the supplied default (None unless given) for an absent key |
| DiscoDb.GetItem | contrib/discodb/test.py:64-69 | `db[k]` fails with KeyNotFound exactly when the key is absent, and otherwise agrees with `get` |
| DiscoDb.Keys | contrib/discodb/test.py:71-72 | `keys()` and iteration list every key of the database once, in the iteration order `items()` and `values()` use, `len(db)` of them |
| DiscoDb.Items | contrib/discodb/test.py:74-76 | `items()` pairs each key, in iteration order, with its values |
| DiscoDb.Values | contrib/discodb/test.py:78-82 | `values()` has one element per key, in iteration order, and element i is the value list of key i |
| DiscoDb.ValuesByKey | contrib/discodb/test.py:78-82 | element i of `values()` is what `db[k]` gives for key i of `keys()` |
| DiscoDb.UniqueValuesOrder | contrib/discodb/test.py:84-85 | `unique_values()` lists values in the order they first occur across `values()` |
| DiscoDb.UniqueValues | contrib/discodb/test.py:84-85 | lists each value once, and lists a value exactly when some key holds it |
| DiscoDb.Peek | contrib/discodb/test.py:87-90 | a present key with values gives one of its values; an absent key gives the default (None unless given) |
| DiscoDb.AddValues | contrib/discodb/test.py:41-43 | one `add(k, vs)` appends `vs` to the key's values, puts a new key last in the order, and leaves every other key alone |
| DiscoDb.AddAllSpec | contrib/discodb/test.py:40-44 | after a sequence of adds the order is the distinct keys by first addition, and each key holds all values added under it, in call order |
| DiscoDb.ContainsIffAdded | contrib/discodb/test.py:52-54 | a built database contains a key exactly when some input pair names it |
| DiscoDb.LenIsDistinctKeys | contrib/discodb/test.py:56-57 | `len` of a built database is the number of distinct input keys |
| DiscoDb.KeysInFirstAddedOrder | contrib/discodb/test.py:71-72 | `keys()`, which iteration also yields, lists the distinct input keys in first-added order |
| DiscoDb.GetAdded | contrib/discodb/test.py:59-62 | `get` on a built database gives every value added under the key, in order (deduplicated under `unique_items`), and the default for a key never added |
| DiscoDb.FromDictGet | contrib/discodb/test.py:24-25 | built from a dict, each key holds exactly its dict value |
| DiscoDb.UniqueItemsExample | contrib/discodb/test.py:146-153 | with `unique_items`, a key given `['1','1','2']` holds `['1','2']` |
| DiscoDb.FlatAsPairs | contrib/discodb/test.py:33-34 | building from flat (key, value) pairs equals building from one-value pairs |
| DiscoDb.AddEachAsAddAll | contrib/discodb/test.py:33-34 | adding flat pairs one value at a time accumulates what one-value pairs accumulate |
| DiscoDb.ItemsDict | contrib/discodb/test.py:74-76 | the dict of `items()` is the database's key → values map |
| DiscoDb.RebuildPreserves | contrib/discodb/test.py:136-140 | `DiscoDB(other)` keeps the key order and every key's value list (deduplicated under `unique_items`) |
| DiscoDb.RebuildGet | contrib/discodb/test.py:136-140 | after `DiscoDB(other)` each key's `get` is its value list in `other` (deduplicated under `unique_items`), and the default for a key `other` lacks |
| DiscoDb.Freeze | contrib/discodb/test.py:40-44 | `finalize` keeps the accumulated key order, records the compression flag from `disable_compression`, and stores each key's values (deduplicated under `unique_items`) |
| DiscoDb.FromPairs | contrib/discodb/test.py:24-31 | a database built from (key, values) pairs is well formed, its keys are the distinct input keys in first-added order, and `disable_compression` clears the compression flag |
| DiscoDb.FromFlat | contrib/discodb/test.py:33-34 | a database built from flat (key, value) pairs is well formed, with the distinct keys in first-added order |
| DiscoDb.Rebuild | contrib/discodb/test.py:136-140 | `DiscoDB(other)` is well formed, keeps `other`'s key order and sets the compression flag from `disable_compression` |
| DiscoDb.SameLookupsSameIndex | contrib/discodb/test.py:136-144 | two databases whose `get` agrees on every key hold the same key → values map |
| DiscoDb.CompressionTransparent | contrib/discodb/test.py:136-144 | an uncompressed database and the compressed rebuild of it have equal `dict(items())` |
| Seqs.Dedup | contrib/discodb/test.py:146-153 | the deduplicated values are distinct, are the same set of values, and are no more numerous |
| Seqs.DedupFirstOccurrenceOrder | contrib/discodb/test.py:146-153 | deduplication keeps values in the order of their first occurrences |
| Seqs.DedupDistinct | contrib/discodb/test.py:146-153 | deduplicating values that are already distinct changes nothing |
| Seqs.DedupIdempotent | contrib/discodb/test.py:146-153 | deduplicating twice is deduplicating once |
| Builder.Constructor.constructor | contrib/discodb/test.py:41 | a new constructor holds nothing and is not finalized |
| Builder.Constructor.Add | contrib/discodb/test.py:42-43 | `add` updates the accumulation as AddValues does; after `finalize` it fails with InvalidState and changes nothing |
| Builder.Constructor.Finalize | contrib/discodb/test.py:44 | `finalize` gives the database Freeze makes of the accumulation and retires the constructor; a second call fails with InvalidState |
| Builder.BuildFromPairs | contrib/discodb/test.py:40-44 | the add loop then `finalize` gives `FromPairs` of the input |
| Builder.BuildFromFlat | contrib/discodb/test.py:33-34 | one `add(k, [v])` per flat pair then `finalize` gives `FromFlat` of the input |
| Codec.DecodePrefix | contrib/discodb/test.py:121-123 | reading an image gives a well-formed database or SerializationError |
| Codec.Decode | contrib/discodb/test.py:121-123 | `loads` gives a well-formed database or SerializationError |
| Codec.Encode | contrib/discodb/test.py:121-123 | `dumps` gives an image that opens with the compression flag and then the number of keys |
| Codec.RepeatRoundTrip | contrib/discodb/test.py:121-123 | for any reader that reads back what its writer writes, a run of written items reads back as the same items, whatever follows |
| Codec.EntryRoundTrip | contrib/discodb/test.py:121-123 | one encoded key with its values decodes back to that key and those values, whatever follows |
| Codec.EntriesRoundTrip | contrib/discodb/test.py:121-123 | the encoded entries decode back to the same entries, whatever follows them |
| Codec.ReadRoundTrip | contrib/discodb/test.py:121-131 | the header and entries of an image read back as the database's flag and items, whatever follows |
| Codec.PrefixRoundTrip | contrib/discodb/test.py:121-123 | an image read off the front of a buffer gives the database and leaves the rest |
| Codec.RoundTrip | contrib/discodb/test.py:121-131 | `loads(db.dumps())` is `db`, compression flag included |
| Codec.DumpsLoadsDumps | contrib/discodb/test.py:121-123 | `loads(db.dumps()).dumps() == db.dumps()` |
| Codec.RepeatExtend | contrib/discodb/test.py:121-123 | a run of items read by a reader unaffected by appended bytes is itself unaffected by them |
| Codec.ReadExtend | contrib/discodb/test.py:121-123 | bytes appended after an image's header and entries do not change how they read |
| Codec.PrefixExtend | contrib/discodb/test.py:121-123 | bytes appended after an image do not change how the image reads |
| Codec.LoadedImageIsMaximal | contrib/discodb/test.py:121-131 | a buffer that loads stops loading once any bytes are appended |
| Codec.ProperPrefixRejected | contrib/discodb/test.py:121-131 | cutting a buffer that loads short gives one that fails with SerializationError |
| Codec.TruncatedImageRejected | contrib/discodb/test.py:121-131 | every proper prefix of an image fails to load with SerializationError |
| Codec.TrailingDataRejected | contrib/discodb/test.py:121-131 | an image followed by further bytes fails to load with SerializationError |
| Query.Eval | contrib/discodb/test.py:92-106 | every compound query result lists each value once |
| Query.EvalMeansDenote | contrib/discodb/test.py:237-258 | the values of a result are the query's set meaning: AND intersects, OR unites, NOT complements within all values of the database |
| Query.LiteralIsGet | contrib/discodb/test.py:96-106 | a single literal gives the same sequence and length as `get(key)`, and nothing for an absent key |
| Query.CountIsSetSize | contrib/discodb/test.py:220-229 | on a NOT-free query whose literal holds no repeated values, `len` is the size of the result set |
| Query.Count | contrib/discodb/test.py:96-106 | `len` of a NOT-free result: a literal counts its key's values as `get` does, a compound query the distinct values it means |
| Query.AbsentKeyAlgebra | contrib/discodb/test.py:248-258 | an absent key gives nothing, empties an AND, vanishes from an OR, and its NOT is every value of the database |
| Query.AndFromIsIntersection | contrib/discodb/test.py:229 | a left-grouped AND chain holds a value exactly when its start and every term hold it |
| Query.OrFromIsUnion | contrib/discodb/test.py:228 | a left-grouped OR chain holds a value exactly when its start or some term holds it |
| Query.AndChainIsIntersection | contrib/discodb/test.py:229 | `q0 & ... & qn` holds a value exactly when every term holds it |
| Query.OrChainIsUnion | contrib/discodb/test.py:228 | `q0 \| ... \| qn` holds a value exactly when some term holds it |
| QueryParser.Parse | contrib/discodb/test.py:212-213 | `Q.parse` fails only with QuerySyntaxError |
| QueryParser.TokenizeAppend | contrib/discodb/test.py:93 | text split where a key cannot continue tokenizes piecewise |
| QueryParser.Tokenize | contrib/discodb/test.py:93 | the tokenizer emits no more tokens than the text has characters |
| QueryParser.TokenKeysWellFormed | contrib/discodb/test.py:93 | every key token the tokenizer emits is a non-empty run of key characters |
| QueryParser.KeyTokenize | contrib/discodb/test.py:97 | a key word is one key token |
| QueryParser.SeparatorTokenize | contrib/discodb/test.py:93 | an operator with whitespace around it is one operator token |
| QueryParser.TokenizeShow | contrib/discodb/test.py:93 | the printed text of a query splits into the query's tokens |
| QueryParser.ParseShowTokens | contrib/discodb/test.py:93 | a query's tokens read back as that query, whatever tokens follow |
| QueryParser.FactorParsesAsTerm | contrib/discodb/test.py:93 | followed by anything but `&`, a query's tokens read back as one AND-term |
| QueryParser.ParseShow | contrib/discodb/test.py:93 | printing a well-formed query and parsing the text gives the query back |
| QueryParser.DanglingOperatorRejected | contrib/discodb/test.py:212-213 | a text ending in `&` or `\|` fails with QuerySyntaxError |
| QueryParser.UnclosedParenthesisRejected | contrib/discodb/test.py:212-213 | a parenthesis that is never closed fails with QuerySyntaxError |
| QueryParser.BlankRejected | contrib/discodb/test.py:212-213 | a text of only whitespace fails with QuerySyntaxError |
| QueryParser.TokenizeSepRest | contrib/discodb/test.py:228-229 | the separators and terms after a chain's first term tokenize as operator and term tokens |
| QueryParser.TokenizeChain | contrib/discodb/test.py:228-229 | a chain's text tokenizes as its terms' tokens joined by the operator token |
| QueryParser.AndTailChain | contrib/discodb/test.py:229 | the rest of an AND chain is read into a left-grouped AND |
| QueryParser.OrTailChain | contrib/discodb/test.py:228 | the rest of an OR chain is read into a left-grouped OR |
| QueryParser.ParseAndChain | contrib/discodb/test.py:224-229 | `q0 & q1 & ... & qn`, with any whitespace around `&`, parses as the left-grouped AND of the terms |
| QueryParser.ParseOrChain | contrib/discodb/test.py:225-228 | `q0 \| q1 \| ... \| qn`, with any whitespace around `\|`, parses as the left-grouped OR of the terms |
| MetaDb.Contains | contrib/discodb/test.py:168-172 | membership is the data database's |
| MetaDb.Len | contrib/discodb/test.py:168-172 | `len` is the data database's number of keys |
| MetaDb.Get | contrib/discodb/test.py:168-172 | `get` gives the data database's values, or the default |
| MetaDb.GetItem | contrib/discodb/test.py:168-172 | indexing fails with KeyNotFound exactly for keys missing from the data database |
| MetaDb.Keys | contrib/discodb/test.py:71-72 | `keys()` and iteration over a MetaDB are exactly the data database's keys, each once, `len` of them |
| MetaDb.Items | contrib/discodb/test.py:74-76 | `items()` over a MetaDB lists the data keys in order, and its dict is the data database's key → values map |
| MetaDb.Values | contrib/discodb/test.py:195-199 | `values()` has one element per data key, in order: the key's data values beside its meta values |
| MetaDb.Encode | contrib/discodb/test.py:191-199 | `dump` writes the data image first: reading one image back gives the data database, with the meta image left over |
| MetaDb.ValuesJoinByKey | contrib/discodb/test.py:195-199 | each element of `values()` is `data[k]` beside `meta.get(k)` for the same key `k` |
| MetaDb.Decode | contrib/discodb/test.py:198 | `MetaDB.load` gives two well-formed databases or SerializationError |
| MetaDb.RoundTrip | contrib/discodb/test.py:191-199 | loading a dumped MetaDB gives back both databases |
| MetaDb.DumpLoadPreservesValues | contrib/discodb/test.py:191-202 | after dump and load, `values()` and the key → (data, meta) join are unchanged |
| MetaDb.TrailingDataRejected | contrib/discodb/test.py:191-199 | bytes after the meta image make the buffer fail with SerializationError |
| MetaDb.MissingMetaRejected | contrib/discodb/test.py:191-199 | a buffer holding only the data image fails with SerializationError |
| Fixture.AddAllNewKey | contrib/discodb/test.py:205-210 | one more pair under a new key appends that key with exactly its values |
| Fixture.BuildThree | contrib/discodb/test.py:205-210 | three pairs with distinct keys accumulate to three keys in input order, each with its own values |
| Fixture.PeopleBuilt | contrib/discodb/test.py:205-210 | building from the three fixture pairs gives alice → [blue], bob → [red], carol → [blue, red], in that key order |
| Fixture.GetLengths | contrib/discodb/test.py:215-218 | `get` lengths are 1, 1 and 2 |
| Fixture.PeekFixture | contrib/discodb/test.py:87-90 | `peek` of a present key is one of its values; of an absent key it is the default |
| Fixture.Run | contrib/discodb/test.py:212-213 | `q(s)` has a result exactly when the text parses |
| Fixture.ParseLiterals | contrib/discodb/test.py:220-222 | the single keys and `~nonkey` parse as literals and a NOT |
| Fixture.ParseAndPairs | contrib/discodb/test.py:223-225 | `alice & bob` and `alice & carol` parse as the AND of the two keys |
| Fixture.ParseOrPairs | contrib/discodb/test.py:224-226 | `alice \| bob` and `alice \| carol` parse as the OR of the two keys |
| Fixture.ParseNonKeyPairs | contrib/discodb/test.py:251-258 | `nonkey & alice` and `nonkey \| alice` parse as the AND and the OR of the two keys |
| Fixture.ParseChains | contrib/discodb/test.py:227-228 | `alice\|bob\|carol` and `alice&bob&carol` parse as left-grouped chains |
| Fixture.ParseGrouped | contrib/discodb/test.py:93 | `5 & 10 & (15 \| 30)` parses, the parenthesised OR being the last AND-term |
| Fixture.YieldsDenotation | contrib/discodb/test.py:220-246 | a NOT-free compound query yields its set meaning, and its length is that set's size |
| Fixture.KeyQueries | contrib/discodb/test.py:220-222 | `alice`, `bob`, `carol` yield {blue}, {red}, {blue, red}, of lengths 1, 1, 2 |
| Fixture.AndQueries | contrib/discodb/test.py:223-225 | `alice & bob` yields nothing; `alice & carol` yields {blue}, of length 1 |
| Fixture.OrQueries | contrib/discodb/test.py:224-226 | `alice \| bob` and `alice \| carol` yield {blue, red}, of length 2 |
| Fixture.ChainQueries | contrib/discodb/test.py:227-228 | `alice\|bob\|carol` yields {blue, red}, of length 2; `alice&bob&carol` yields nothing |
| Fixture.NonKeyQueries | contrib/discodb/test.py:248-256 | `nonkey` yields `[]`; `~nonkey` yields the values {blue, red} |
| Fixture.NonKeyWithAlice | contrib/discodb/test.py:251-258 | `nonkey & alice` yields nothing; `nonkey \| alice` yields {blue}, of length 1 |

## Left out

- File handles, paths and `NamedTemporaryFile` in `dump` / `load`: I/O. Only the in-memory image is modelled. An I/O failure is not modelled.
- The real on-disk byte layout and the compression algorithm. The image here is a simple length-prefixed text, and compression is a header flag with no logical effect.
- `repr` / `str`: presentation only.
- `DiscoDict`: it is not part of this model, and its query tests are empty.
- The randomised fixture `k_vs_iter`, which draws value counts from `randint`. Its properties are stated for every input instead.
- The doctest runners for the `query` and `tools` modules: those modules are not part of this model.
- Fixture.NonKeyQueries: the length 3 the test asserts for `~nonkey` is not modelled. Here `~nonkey` lists the database's distinct values and so has length 2. Its value set {blue, red} does agree with the test.
- Query.Count: `len` of a result that contains NOT is not modelled, because the 3 the test asserts for `~nonkey` does not follow from the set meaning of the query; Count requires a NOT-free query.
- Query.CountIsSetSize: stated only for NOT-free queries, since the length of a NOT result is not the size of its set in the tests.
- The stability of `len` on a lazy result (calling it twice gives the same count). Results here are values, so this holds by construction and needs no lemma.
- `peek` on a MetaDB: its test is overridden with an empty body, so nothing is promised.
- `query` and `unique_values()` on a MetaDB: the inherited tests only consume their results and never state what they are over a MetaDB, so they are not modelled. `keys()`, iteration and `items()` are (MetaDb.Keys, MetaDb.Items).
- DiscoDb.Peek: which value of a key is returned is fixed to the first, and the contract promises only some value of the key. A present key holding no values gives the default.
- Unknown characters in query text: any character other than whitespace and the operators `&`, `|`, `~`, `(`, `)` is a key character, so no unknown-token error is ever reported (`alice$bob` is one key).
- `get` with a default of another type than a value list: the default is an `Option` of a value list.
- MetaDb.Values: each element pairs a key's data values with `meta.get(key)`. The test builds a dict keyed on the first component, which is taken to hold the data values; this pairing is the model's reading of that join.
- `load(path)` for a MetaDB: a path is I/O and is not modelled.
- Thread safety of readers and the single-writer constructor: there is no concurrency in the model.
