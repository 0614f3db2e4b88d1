/** Sequence helpers shared by the database, the query evaluator and the codec. */
module Seqs {

  /** The set of elements of a sequence. */
  function Elems<T>(s: seq<T>): set<T> {
    set x | x in s
  }

  /** No element occurs twice. */
  predicate Distinct<T(==)>(s: seq<T>) {
    forall i, j :: 0 <= i < j < |s| ==> s[i] != s[j]
  }

  /** Index of the first occurrence of `x` in `s`. */
  function FirstIndex<T(==)>(s: seq<T>, x: T): (i: nat)
    requires x in s
    ensures i < |s| && s[i] == x && x !in s[..i]
  {
    if s[0] == x then 0 else 1 + FirstIndex(s[1..], x)
  }

  /**
   * Drops every repeated element, keeping each first occurrence in its place,
   * so ['1', '1', '2'] becomes ['1', '2'].
   */
  function Dedup<T(==)>(s: seq<T>): (r: seq<T>)
    ensures Distinct(r)
    ensures Elems(r) == Elems(s)
    ensures |r| <= |s|
  {
    if s == [] then []
    else
      var d := Dedup(s[..|s| - 1]);
      assert s == s[..|s| - 1] + [s[|s| - 1]];
      ElemsConcat(s[..|s| - 1], [s[|s| - 1]]);
      ElemsConcat(d, [s[|s| - 1]]);
      if s[|s| - 1] in d then d else d + [s[|s| - 1]]
  }

  lemma ElemsConcat<T>(a: seq<T>, b: seq<T>)
    ensures Elems(a + b) == Elems(a) + Elems(b)
  {
    assert forall x :: x in a + b <==> x in a || x in b;
  }

  /** A sequence without repeats has as many elements as its set. */
  lemma {:induction false} DistinctCard<T>(s: seq<T>)
    requires Distinct(s)
    ensures |Elems(s)| == |s|
  {
    if s != [] {
      var p := s[..|s| - 1];
      assert Distinct(p);
      DistinctCard(p);
      assert s == p + [s[|s| - 1]];
      ElemsConcat(p, [s[|s| - 1]]);
      assert Elems([s[|s| - 1]]) == {s[|s| - 1]};
      assert s[|s| - 1] !in Elems(p);
    }
  }

  /** Concatenation of a sequence of sequences, in order. */
  function Flatten<T>(ss: seq<seq<T>>): seq<T> {
    if ss == [] then [] else ss[0] + Flatten(ss[1..])
  }

  lemma {:induction false} FlattenElems<T>(ss: seq<seq<T>>, x: T)
    ensures x in Flatten(ss) <==> exists i :: 0 <= i < |ss| && x in ss[i]
  {
    if ss != [] {
      FlattenElems(ss[1..], x);
      if x in Flatten(ss[1..]) {
        var i :| 0 <= i < |ss[1..]| && x in ss[1..][i];
        assert x in ss[i + 1];
      }
      if exists i :: 0 <= i < |ss| && x in ss[i] {
        var i :| 0 <= i < |ss| && x in ss[i];
        if i > 0 { assert x in ss[1..][i - 1]; }
      }
    }
  }

  /** A sequence without repeats is left alone. */
  lemma {:induction false} DedupDistinct<T>(s: seq<T>)
    requires Distinct(s)
    ensures Dedup(s) == s
  {
    if s != [] {
      var p := s[..|s| - 1];
      assert Distinct(p);
      DedupDistinct(p);
      assert s[|s| - 1] !in p;
      assert s == p + [s[|s| - 1]];
    }
  }

  /** Deduplicating twice is the same as once. */
  lemma DedupIdempotent<T>(s: seq<T>)
    ensures Dedup(Dedup(s)) == Dedup(s)
  {
    DedupDistinct(Dedup(s));
  }

  lemma {:induction false} FirstIndexInPrefix<T>(s: seq<T>, m: nat, x: T)
    requires m <= |s| && x in s[..m]
    ensures FirstIndex(s, x) == FirstIndex(s[..m], x) < m
  {
    if s[0] != x {
      assert s[1..][..m - 1] == s[..m][1..];
      FirstIndexInPrefix(s[1..], m - 1, x);
    }
  }

  /**
   * The survivors keep the order of their first occurrences: together with
   * Distinct and Elems this pins Dedup(s) down completely.
   */
  lemma {:induction false} DedupFirstOccurrenceOrder<T>(s: seq<T>, i: nat, j: nat)
    requires i < j < |Dedup(s)|
    ensures Dedup(s)[i] in s && Dedup(s)[j] in s
    ensures FirstIndex(s, Dedup(s)[i]) < FirstIndex(s, Dedup(s)[j])
  {
    var r := Dedup(s);
    assert r[i] in Elems(r) && r[j] in Elems(r);
    var n := |s| - 1;
    var p := s[..n];
    var d := Dedup(p);
    if j < |d| {
      assert r[i] == d[i] && r[j] == d[j];
      DedupFirstOccurrenceOrder(p, i, j);
      assert d[i] in Elems(d) && d[j] in Elems(d);
      FirstIndexInPrefix(s, n, d[i]);
      FirstIndexInPrefix(s, n, d[j]);
    } else {
      assert r == d + [s[n]] && s[n] !in d;
      assert s[n] !in p by { assert s[n] !in Elems(d); }
      assert r[i] == d[i] && d[i] in Elems(d);
      FirstIndexInPrefix(s, n, d[i]);
    }
  }
}
