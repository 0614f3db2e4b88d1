/**
 * The query fixture: alice holds blue, bob holds red, carol holds blue and red.
 * Every query below is given as the text the parser reads.
 */
module Fixture {
  import opened Wrappers
  import opened Seqs
  import opened DiscoDb
  import opened Query
  import opened QueryParser

  const Pairs: seq<(Key, seq<Value>)> := [("alice", ["blue"]), ("bob", ["red"]), ("carol", ["blue", "red"])]

  const PeopleIndex: map<Key, seq<Value>> := map["alice" := ["blue"], "bob" := ["red"], "carol" := ["blue", "red"]]

  /** The fixture database, written out; PeopleBuilt shows `DiscoDB(Pairs)` is this database. */
  const People: DiscoDB := DiscoDB(["alice", "bob", "carol"], PeopleIndex, true)

  const Alice := Lit("alice")
  const Bob := Lit("bob")
  const Carol := Lit("carol")
  const NonKey := Lit("nonkey")

  /** Adding a key not yet held appends it to the order with exactly the given values. */
  lemma AddNewKey(p: Pending, k: Key, vs: seq<Value>)
    requires PendingValid(p) && k !in p.entries
    ensures AddValues(p, k, vs) == Pending(p.order + [k], p.entries[k := vs])
  {
  }

  /** Accumulating one more pair under a new key appends the key with exactly its values. */
  lemma AddAllNewKey(pre: seq<(Key, seq<Value>)>, p: Pending, k: Key, vs: seq<Value>)
    requires PendingValid(p) && AddAll(EmptyPending, pre) == p && k !in p.entries
    ensures AddAll(EmptyPending, pre + [(k, vs)]) == Pending(p.order + [k], p.entries[k := vs])
  {
    assert (pre + [(k, vs)])[..|pre|] == pre;
    AddNewKey(p, k, vs);
  }

  lemma BuildOne(a: Key, va: seq<Value>)
    ensures AddAll(EmptyPending, [(a, va)]) == Pending([a], map[a := va])
  {
    AddAllNewKey([], EmptyPending, a, va);
    assert [] + [(a, va)] == [(a, va)];
    assert [] + [a] == [a];
  }

  lemma BuildTwo(a: Key, va: seq<Value>, b: Key, vb: seq<Value>)
    requires a != b
    ensures AddAll(EmptyPending, [(a, va), (b, vb)]) == Pending([a, b], map[a := va, b := vb])
  {
    BuildOne(a, va);
    var p1 := Pending([a], map[a := va]);
    assert PendingValid(p1);
    AddAllNewKey([(a, va)], p1, b, vb);
    assert [(a, va)] + [(b, vb)] == [(a, va), (b, vb)];
    assert [a] + [b] == [a, b];
  }

  /** Three pairs with distinct keys build three entries, in input order. */
  lemma BuildThree(a: Key, va: seq<Value>, b: Key, vb: seq<Value>, c: Key, vc: seq<Value>)
    requires a != b && a != c && b != c
    ensures AddAll(EmptyPending, [(a, va), (b, vb), (c, vc)]) == Pending([a, b, c], map[a := va, b := vb, c := vc])
  {
    BuildTwo(a, va, b, vb);
    var p2 := Pending([a, b], map[a := va, b := vb]);
    assert PendingValid(p2);
    AddAllNewKey([(a, va), (b, vb)], p2, c, vc);
    assert [(a, va), (b, vb)] + [(c, vc)] == [(a, va), (b, vb), (c, vc)];
    assert [a, b] + [c] == [a, b, c];
  }

  lemma BuildAll()
    ensures AddAll(EmptyPending, Pairs) == Pending(["alice", "bob", "carol"], PeopleIndex)
  {
    BuildThree("alice", ["blue"], "bob", ["red"], "carol", ["blue", "red"]);
  }

  /** Building from the fixture pairs with the default flags gives the fixture database. */
  lemma PeopleBuilt()
    ensures FromPairs(Pairs, false, false) == People
  {
    BuildAll();
    var m := PeopleIndex;
    assert forall k | k in m :: Finish(m[k], false) == m[k];
    assert (map k | k in m :: Finish(m[k], false)) == m;
  }

  lemma PeopleValid()
    ensures Valid(People)
  {
    assert Elems(People.keys) == PeopleIndex.Keys;
  }

  // ---------------------------------------------------------------------------
  // Query texts

  lemma PairText(a: Query, b: Query, sep: string)
    ensures ChainText([a, b], sep) == Show(a) + sep + Show(b)
  {
    assert [a, b][1..] == [b];
    assert [b][1..] == [];
    assert SepRest([b], sep) == sep + Show(b) + "";
  }

  lemma TripleText(a: Query, b: Query, c: Query, sep: string)
    ensures ChainText([a, b, c], sep) == Show(a) + (sep + Show(b) + (sep + Show(c)))
  {
    var sb, sc := Show(b), Show(c);
    assert [a, b, c][1..] == [b, c];
    assert [b, c][1..] == [c];
    assert [c][1..] == [];
    assert SepRest([c], sep) == sep + sc + "";
    assert SepRest([b, c], sep) == sep + sb + SepRest([c], sep);
  }

  /** `a & b`, spaced as the tests write it. */
  lemma ParseAndPair(a: Query, b: Query)
    requires WellFormed(a) && WellFormed(b)
    ensures Parse(Show(a) + " & " + Show(b)) == Ok(And(a, b))
  {
    assert AllWellFormed([a, b]);
    assert " " + "&" + " " == " & ";
    PairText(a, b, " & ");
    ParseAndChain([a, b], " ", " ");
    assert [a, b][1..] == [b] && [b][1..] == [];
    assert AndFrom(And(a, b), []) == And(a, b);
    assert AndFrom(a, [b]) == AndFrom(And(a, b), []);
    assert Parse(ChainText([a, b], " & ")) == Ok(And(a, b));
  }

  /** `a | b`, spaced as the tests write it. */
  lemma ParseOrPair(a: Query, b: Query)
    requires WellFormed(a) && WellFormed(b)
    ensures Parse(Show(a) + " | " + Show(b)) == Ok(Or(a, b))
  {
    assert AllWellFormed([a, b]);
    assert " " + "|" + " " == " | ";
    PairText(a, b, " | ");
    ParseOrChain([a, b], " ", " ");
    assert [a, b][1..] == [b] && [b][1..] == [];
    assert OrFrom(Or(a, b), []) == Or(a, b);
    assert OrFrom(a, [b]) == OrFrom(Or(a, b), []);
    assert Parse(ChainText([a, b], " | ")) == Ok(Or(a, b));
  }

  lemma KeysWellFormed()
    ensures WellFormed(Alice) && WellFormed(Bob) && WellFormed(Carol) && WellFormed(NonKey)
  {
  }

  /** `Q.parse` of a single key, and of `~nonkey`. */
  lemma ParseLiterals()
    ensures Parse("alice") == Ok(Alice)
    ensures Parse("bob") == Ok(Bob)
    ensures Parse("carol") == Ok(Carol)
    ensures Parse("nonkey") == Ok(NonKey)
    ensures Parse("~nonkey") == Ok(Not(NonKey))
  {
    KeysWellFormed();
    ParseShow(Alice);
    ParseShow(Bob);
    ParseShow(Carol);
    ParseShow(NonKey);
    ParseShow(Not(NonKey));
  }

  /** `Q.parse` of the spaced two-term texts. */
  lemma ParseAndPairs()
    ensures Parse("alice & bob") == Ok(And(Alice, Bob))
    ensures Parse("alice & carol") == Ok(And(Alice, Carol))
  {
    KeysWellFormed();
    ParseAndPair(Alice, Bob);
    assert Show(Alice) + " & " + Show(Bob) == "alice & bob";
    ParseAndPair(Alice, Carol);
    assert Show(Alice) + " & " + Show(Carol) == "alice & carol";
  }

  lemma ParseOrPairs()
    ensures Parse("alice | bob") == Ok(Or(Alice, Bob))
    ensures Parse("alice | carol") == Ok(Or(Alice, Carol))
  {
    KeysWellFormed();
    ParseOrPair(Alice, Bob);
    assert Show(Alice) + " | " + Show(Bob) == "alice | bob";
    ParseOrPair(Alice, Carol);
    assert Show(Alice) + " | " + Show(Carol) == "alice | carol";
  }

  lemma ParseNonKeyPairs()
    ensures Parse("nonkey & alice") == Ok(And(NonKey, Alice))
    ensures Parse("nonkey | alice") == Ok(Or(NonKey, Alice))
  {
    KeysWellFormed();
    ParseAndPair(NonKey, Alice);
    assert Show(NonKey) + " & " + Show(Alice) == "nonkey & alice";
    ParseOrPair(NonKey, Alice);
    assert Show(NonKey) + " | " + Show(Alice) == "nonkey | alice";
  }

  /** `a op b op c` with the separator `w op w`, grouped to the left. */
  lemma ParseTriple(a: Query, b: Query, c: Query, w: string, op: char)
    requires WellFormed(a) && WellFormed(b) && WellFormed(c) && AllSpace(w) && (op == '&' || op == '|')
    ensures Parse(Show(a) + (w + [op] + w + Show(b) + (w + [op] + w + Show(c))))
         == Ok(if op == '&' then And(And(a, b), c) else Or(Or(a, b), c))
  {
    var qs := [a, b, c];
    assert AllWellFormed(qs);
    TripleText(a, b, c, w + [op] + w);
    assert qs[1..] == [b, c] && [b, c][1..] == [c] && [c][1..] == [];
    if op == '&' {
      ParseAndChain(qs, w, w);
      assert AndFrom(a, [b, c]) == AndFrom(And(a, b), [c]) == AndFrom(And(And(a, b), c), []);
    } else {
      ParseOrChain(qs, w, w);
      assert OrFrom(a, [b, c]) == OrFrom(Or(a, b), [c]) == OrFrom(Or(Or(a, b), c), []);
    }
  }

  /** `Q.parse` of the unspaced three-term chains. */
  lemma ParseChains()
    ensures Parse("alice|bob|carol") == Ok(Or(Or(Alice, Bob), Carol))
    ensures Parse("alice&bob&carol") == Ok(And(And(Alice, Bob), Carol))
  {
    KeysWellFormed();
    ParseTriple(Alice, Bob, Carol, "", '|');
    assert Show(Alice) + ("" + ['|'] + "" + Show(Bob) + ("" + ['|'] + "" + Show(Carol))) == "alice|bob|carol";
    ParseTriple(Alice, Bob, Carol, "", '&');
    assert Show(Alice) + ("" + ['&'] + "" + Show(Bob) + ("" + ['&'] + "" + Show(Carol))) == "alice&bob&carol";
  }

  lemma GroupText()
    ensures WellFormed(Or(Lit("15"), Lit("30")))
    ensures Show(Or(Lit("15"), Lit("30"))) == "(15 | 30)"
  {
  }

  /** The query of the mapping tests parses: `&` groups to the left, the parenthesised OR is one term. */
  lemma ParseGrouped()
    ensures Parse("5 & 10 & (15 | 30)") == Ok(And(And(Lit("5"), Lit("10")), Or(Lit("15"), Lit("30"))))
  {
    var group := Or(Lit("15"), Lit("30"));
    GroupText();
    assert WellFormed(Lit("5")) && WellFormed(Lit("10"));
    ParseTriple(Lit("5"), Lit("10"), group, " ", '&');
    var sep := " " + ['&'] + " ";
    assert sep == " & ";
    assert "5" + (sep + "10" + (sep + "(15 | 30)")) == "5 & 10 & (15 | 30)";
  }

  // ---------------------------------------------------------------------------
  // Query results

  /** `self.q(s)`: parse the text, then query the fixture; None for a malformed text. */
  function Run(s: string): (r: Option<seq<Value>>)
    ensures r.Some? <==> Parse(s).Ok?
  {
    PeopleValid();
    match Parse(s)
    case Ok(q) => Some(Eval(People, q))
    case Err(_) => None
  }

  lemma ValueSets()
    ensures KeyValues(People, "alice") == {"blue"}
    ensures KeyValues(People, "bob") == {"red"}
    ensures KeyValues(People, "carol") == {"blue", "red"}
    ensures KeyValues(People, "nonkey") == {}
    ensures Universe(People) == {"blue", "red"}
  {
    PeopleValid();
    assert "nonkey" !in People.index;
    forall v ensures v in Universe(People) <==> v in {"blue", "red"} {
      if v == "blue" {
        assert "alice" in People.index && v in People.index["alice"];
      } else if v == "red" {
        assert "bob" in People.index && v in People.index["bob"];
      }
    }
  }

  /** `get` lengths: one value for alice and bob, two for carol. */
  lemma GetLengths()
    ensures |Get(People, "alice", None).value| == 1
    ensures |Get(People, "bob", None).value| == 1
    ensures |Get(People, "carol", None).value| == 2
  {
    PeopleValid();
  }

  /** `peek` gives a value of a present key and the default for an absent one. */
  lemma PeekFixture()
    ensures Peek(People, "alice", None) == Some("blue")
    ensures Peek(People, "carol", None).Some? && Peek(People, "carol", None).value in ["blue", "red"]
    ensures Peek(People, "X", None) == None
    ensures Peek(People, "X", Some("1")) == Some("1")
  {
    PeopleValid();
  }

  /** Running a text that parses as `q` is evaluating `q`. */
  lemma RunParsed(s: string, q: Query)
    requires Parse(s) == Ok(q)
    ensures Run(s) == Some(Eval(People, q))
  {
  }

  /** The value set and the length of a query's result on the fixture. */
  predicate Yields(s: string, vs: set<Value>, n: nat) {
    Run(s).Some? && Elems(Run(s).value) == vs && |Run(s).value| == n
  }

  /** A NOT-free query yields its meaning, each value once. */
  lemma YieldsDenotation(s: string, q: Query)
    requires Parse(s) == Ok(q) && NotFree(q) && !q.Lit?
    ensures Yields(s, Denote(People, q), |Denote(People, q)|)
  {
    PeopleValid();
    RunParsed(s, q);
    EvalMeansDenote(People, q);
    CountIsSetSize(People, q);
  }

  /** A single key yields its values: as a set and in number (test_query_len, test_query_results). */
  lemma KeyQueries()
    ensures Yields("alice", {"blue"}, 1)
    ensures Yields("bob", {"red"}, 1)
    ensures Yields("carol", {"blue", "red"}, 2)
  {
    PeopleValid();
    ParseLiterals();
    ValueSets();
    RunParsed("alice", Alice);
    RunParsed("bob", Bob);
    RunParsed("carol", Carol);
    EvalMeansDenote(People, Alice);
    EvalMeansDenote(People, Bob);
    EvalMeansDenote(People, Carol);
  }

  lemma Meanings()
    ensures Denote(People, And(Alice, Bob)) == {}
    ensures Denote(People, Or(Alice, Bob)) == {"blue", "red"}
    ensures Denote(People, And(Alice, Carol)) == {"blue"}
    ensures Denote(People, Or(Alice, Carol)) == {"blue", "red"}
    ensures Denote(People, Or(Or(Alice, Bob), Carol)) == {"blue", "red"}
    ensures Denote(People, And(And(Alice, Bob), Carol)) == {}
    ensures |{"blue", "red"}| == 2 && |{"blue"}| == 1
  {
    ValueSets();
    assert "blue" != "red";
  }

  /** Two-key AND queries: the intersection of the keys' values. */
  lemma AndQueries()
    ensures Yields("alice & bob", {}, 0)
    ensures Yields("alice & carol", {"blue"}, 1)
  {
    ParseAndPairs();
    Meanings();
    YieldsDenotation("alice & bob", And(Alice, Bob));
    YieldsDenotation("alice & carol", And(Alice, Carol));
  }

  /** Two-key OR queries: the union of the keys' values. */
  lemma OrQueries()
    ensures Yields("alice | bob", {"blue", "red"}, 2)
    ensures Yields("alice | carol", {"blue", "red"}, 2)
  {
    ParseOrPairs();
    Meanings();
    YieldsDenotation("alice | bob", Or(Alice, Bob));
    YieldsDenotation("alice | carol", Or(Alice, Carol));
  }

  /** Three-key chains. */
  lemma ChainQueries()
    ensures Yields("alice|bob|carol", {"blue", "red"}, 2)
    ensures Yields("alice&bob&carol", {}, 0)
  {
    ParseChains();
    Meanings();
    YieldsDenotation("alice|bob|carol", Or(Or(Alice, Bob), Carol));
    YieldsDenotation("alice&bob&carol", And(And(Alice, Bob), Carol));
  }

  /** An absent key alone yields nothing, and `~nonkey` is every value. */
  lemma NonKeyQueries()
    ensures Run("nonkey") == Some([])
    ensures Run("~nonkey").Some? && Elems(Run("~nonkey").value) == {"blue", "red"}
  {
    PeopleValid();
    ParseLiterals();
    ValueSets();
    RunParsed("nonkey", NonKey);
    RunParsed("~nonkey", Not(NonKey));
    assert "nonkey" !in People.keys;
    AbsentKeyAlgebra(People, "nonkey", Alice);
  }

  /** An absent key is absorbing under AND and neutral under OR. */
  lemma NonKeyWithAlice()
    ensures Yields("nonkey & alice", {}, 0)
    ensures Yields("nonkey | alice", {"blue"}, 1)
  {
    ParseNonKeyPairs();
    ValueSets();
    assert Denote(People, And(NonKey, Alice)) == {};
    assert Denote(People, Or(NonKey, Alice)) == {"blue"};
    YieldsDenotation("nonkey & alice", And(NonKey, Alice));
    YieldsDenotation("nonkey | alice", Or(NonKey, Alice));
  }
}
