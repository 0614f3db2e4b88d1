/**
 * Query trees and their evaluation against a frozen database. A query yields
 * values, not keys: a literal stands for the values of the key it names.
 */
module Query {
  import opened Wrappers
  import opened Seqs
  import opened DiscoDb

  datatype Query =
    | Lit(key: Key)
    | And(left: Query, right: Query)
    | Or(left: Query, right: Query)
    | Not(operand: Query)

  /** The elements of `s` whose membership in `t` is `inT`, in the order of `s`. */
  function Select(s: seq<Value>, t: seq<Value>, inT: bool): (r: seq<Value>)
    ensures forall x :: x in r <==> x in s && ((x in t) == inT)
    ensures Distinct(s) ==> Distinct(r)
  {
    if s == [] then []
    else
      var tail := Select(s[1..], t, inT);
      assert Distinct(s) ==> s[0] !in s[1..];
      (if (s[0] in t) == inT then [s[0]] else []) + tail
  }

  /**
   * `db.query(q)`. A literal gives exactly `get(key)` (nothing for an absent
   * key); AND keeps the left values also found on the right; OR joins both
   * sides; NOT keeps the database's distinct values that the operand lacks.
   * Every compound result lists each value once.
   */
  function Eval(db: DiscoDB, q: Query): (r: seq<Value>)
    requires Valid(db)
    ensures !q.Lit? ==> Distinct(r)
  {
    match q
    case Lit(k) =>
      (match Get(db, k, None) case Some(vs) => vs case None => [])
    case And(a, b) => Dedup(Select(Eval(db, a), Eval(db, b), true))
    case Or(a, b) => Dedup(Eval(db, a) + Eval(db, b))
    case Not(a) => Select(UniqueValues(db), Eval(db, a), false)
  }

  /**
   * `len(db.query(q))` for a query without NOT: a literal counts its key's
   * values as `get` does, a compound query the distinct values it means.
   */
  function Count(db: DiscoDB, q: Query): (n: nat)
    requires Valid(db) && NotFree(q)
    ensures q.Lit? ==> n == if q.key in db.keys then |db.index[q.key]| else 0
    ensures !q.Lit? ==> n == |Denote(db, q)|
  {
    EvalMeansDenote(db, q);
    if q.Lit? then |Eval(db, q)|
    else
      DistinctCard(Eval(db, q));
      |Eval(db, q)|
  }

  // ---------------------------------------------------------------------------
  // Set semantics

  /** The values held under key `k`, as a set; empty for an absent key. */
  ghost function KeyValues(db: DiscoDB, k: Key): set<Value> {
    if k in db.index then set v | v in db.index[k] else {}
  }

  /** Every value held under any key: the universe NOT complements against. */
  ghost function Universe(db: DiscoDB): set<Value> {
    set k, v | k in db.index && v in db.index[k] :: v
  }

  /** What a query means: literals are value sets, the operators are set algebra. */
  ghost function Denote(db: DiscoDB, q: Query): set<Value> {
    match q
    case Lit(k) => KeyValues(db, k)
    case And(a, b) => Denote(db, a) * Denote(db, b)
    case Or(a, b) => Denote(db, a) + Denote(db, b)
    case Not(a) => Universe(db) - Denote(db, a)
  }

  predicate NotFree(q: Query) {
    match q
    case Lit(_) => true
    case And(a, b) => NotFree(a) && NotFree(b)
    case Or(a, b) => NotFree(a) && NotFree(b)
    case Not(_) => false
  }

  // ---------------------------------------------------------------------------
  // Lemmas

  /** The evaluator computes the set semantics: AND is intersection, OR union, NOT complement. */
  lemma {:induction false} EvalMeansDenote(db: DiscoDB, q: Query)
    requires Valid(db)
    ensures Elems(Eval(db, q)) == Denote(db, q)
  {
    match q
    case Lit(k) =>
      assert k in db.keys <==> k in Elems(db.keys);
    case And(a, b) =>
      EvalMeansDenote(db, a);
      EvalMeansDenote(db, b);
    case Or(a, b) =>
      EvalMeansDenote(db, a);
      EvalMeansDenote(db, b);
      ElemsConcat(Eval(db, a), Eval(db, b));
    case Not(a) =>
      EvalMeansDenote(db, a);
      var u := UniqueValues(db);
      forall v ensures v in u <==> v in Universe(db) {
        if v in u {
          var k :| k in db.index && v in db.index[k];
        }
      }
  }

  /** A single literal returns the same sequence, and so the same length, as `get(key)`. */
  lemma LiteralIsGet(db: DiscoDB, k: Key)
    requires Valid(db)
    ensures Get(db, k, None).Some? ==> Eval(db, Lit(k)) == Get(db, k, None).value
    ensures Get(db, k, None).Some? ==> Count(db, Lit(k)) == |Get(db, k, None).value|
    ensures Get(db, k, None).None? ==> Eval(db, Lit(k)) == [] && Count(db, Lit(k)) == 0
  {
  }

  /**
   * On a NOT-free query whose literals hold no repeated values, `len` is the
   * size of the result set.
   */
  lemma CountIsSetSize(db: DiscoDB, q: Query)
    requires Valid(db) && NotFree(q)
    requires q.Lit? && q.key in db.index ==> Distinct(db.index[q.key])
    ensures Count(db, q) == |Denote(db, q)|
  {
    EvalMeansDenote(db, q);
    DistinctCard(Eval(db, q));
  }

  /** A literal naming an absent key is empty, and absorbs / vanishes under AND / OR. */
  lemma AbsentKeyAlgebra(db: DiscoDB, k: Key, q: Query)
    requires Valid(db) && k !in db.keys
    ensures Eval(db, Lit(k)) == []
    ensures Eval(db, And(Lit(k), q)) == []
    ensures Elems(Eval(db, Or(Lit(k), q))) == Elems(Eval(db, q))
    ensures Elems(Eval(db, Not(Lit(k)))) == Universe(db)
  {
    assert k !in db.index by { assert k in db.index ==> k in Elems(db.keys); }
    EvalMeansDenote(db, q);
    EvalMeansDenote(db, And(Lit(k), q));
    EvalMeansDenote(db, Or(Lit(k), q));
    EvalMeansDenote(db, Not(Lit(k)));
    assert Elems(Eval(db, And(Lit(k), q))) == {};
  }

  // ---------------------------------------------------------------------------
  // Flat chains

  /** `lhs & qs[0] & ... & qs[n-1]`, grouped to the left as the parser groups it. */
  function AndFrom(lhs: Query, qs: seq<Query>): Query
    decreases |qs|
  {
    if qs == [] then lhs else AndFrom(And(lhs, qs[0]), qs[1..])
  }

  /** `lhs | qs[0] | ... | qs[n-1]`, grouped to the left as the parser groups it. */
  function OrFrom(lhs: Query, qs: seq<Query>): Query
    decreases |qs|
  {
    if qs == [] then lhs else OrFrom(Or(lhs, qs[0]), qs[1..])
  }

  /** `q0 & q1 & ... & qn`. */
  function AndOf(qs: seq<Query>): Query
    requires qs != []
  {
    AndFrom(qs[0], qs[1..])
  }

  /** `q0 | q1 | ... | qn`. */
  function OrOf(qs: seq<Query>): Query
    requires qs != []
  {
    OrFrom(qs[0], qs[1..])
  }

  lemma {:induction false} AndFromIsIntersection(db: DiscoDB, lhs: Query, qs: seq<Query>, v: Value)
    ensures v in Denote(db, AndFrom(lhs, qs)) <==>
            v in Denote(db, lhs) && forall i :: 0 <= i < |qs| ==> v in Denote(db, qs[i])
    decreases |qs|
  {
    if qs != [] {
      AndFromIsIntersection(db, And(lhs, qs[0]), qs[1..], v);
      assert forall i :: 1 <= i < |qs| ==> qs[1..][i - 1] == qs[i];
    }
  }

  lemma {:induction false} OrFromIsUnion(db: DiscoDB, lhs: Query, qs: seq<Query>, v: Value)
    ensures v in Denote(db, OrFrom(lhs, qs)) <==>
            v in Denote(db, lhs) || exists i :: 0 <= i < |qs| && v in Denote(db, qs[i])
    decreases |qs|
  {
    if qs != [] {
      OrFromIsUnion(db, Or(lhs, qs[0]), qs[1..], v);
      assert forall i :: 1 <= i < |qs| ==> qs[1..][i - 1] == qs[i];
      if exists i :: 0 <= i < |qs| && v in Denote(db, qs[i]) {
        var i :| 0 <= i < |qs| && v in Denote(db, qs[i]);
        if i > 0 {
          assert v in Denote(db, qs[1..][i - 1]);
        }
      }
    }
  }

  /** A flat AND chain, however long, yields the values every term yields. */
  lemma AndChainIsIntersection(db: DiscoDB, qs: seq<Query>, v: Value)
    requires qs != []
    ensures v in Denote(db, AndOf(qs)) <==> forall i :: 0 <= i < |qs| ==> v in Denote(db, qs[i])
  {
    AndFromIsIntersection(db, qs[0], qs[1..], v);
    assert forall i :: 1 <= i < |qs| ==> qs[1..][i - 1] == qs[i];
  }

  /** A flat OR chain, however long, yields the values some term yields. */
  lemma OrChainIsUnion(db: DiscoDB, qs: seq<Query>, v: Value)
    requires qs != []
    ensures v in Denote(db, OrOf(qs)) <==> exists i :: 0 <= i < |qs| && v in Denote(db, qs[i])
  {
    OrFromIsUnion(db, qs[0], qs[1..], v);
    assert forall i :: 1 <= i < |qs| ==> qs[1..][i - 1] == qs[i];
    if v in Denote(db, qs[0]) {
      assert 0 < |qs| && v in Denote(db, qs[0]);
    }
    if exists i :: 0 <= i < |qs[1..]| && v in Denote(db, qs[1..][i]) {
      var i :| 0 <= i < |qs[1..]| && v in Denote(db, qs[1..][i]);
      assert v in Denote(db, qs[i + 1]);
    }
  }
}
