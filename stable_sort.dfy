/**
 * Python's `sorted(items, key=score, reverse=True)` on the items of a dictionary: a
 * stable sort into descending order of score, in which items of equal score keep
 * their original relative order. It is modelled as insertion sort.
 */
module StableSort {
  import Dicts

  /** Scores never increase from left to right. */
  predicate Descending<K, V>(s: seq<(K, V)>, score: V -> real) {
    forall i, j :: 0 <= i < j < |s| ==> score(s[i].1) >= score(s[j].1)
  }

  /**
   * Puts `x` after every item scoring at least as much, so that among equal scores
   * `x`, coming last in the input, also comes last.
   */
  function Insert<K, V>(x: (K, V), t: seq<(K, V)>, score: V -> real): (r: seq<(K, V)>)
    ensures |r| == |t| + 1
  {
    if t == [] then [x]
    else if score(t[0].1) >= score(x.1) then [t[0]] + Insert(x, t[1..], score)
    else [x] + t
  }

  /** The sort: each item in turn is inserted into the sorted prefix. */
  function SortDescending<K, V>(s: seq<(K, V)>, score: V -> real): (r: seq<(K, V)>)
    ensures |r| == |s|
  {
    if s == [] then [] else Insert(s[|s| - 1], SortDescending(s[..|s| - 1], score), score)
  }

  /** Inserting adds exactly the one item. */
  lemma {:induction false} InsertPermutes<K, V>(x: (K, V), t: seq<(K, V)>, score: V -> real)
    ensures multiset(Insert(x, t, score)) == multiset(t) + multiset{x}
  {
    if t != [] {
      assert t == [t[0]] + t[1..];
      if score(t[0].1) >= score(x.1) {
        InsertPermutes(x, t[1..], score);
      }
    }
  }

  /** Inserting into a descending list gives a descending list. */
  lemma {:induction false} InsertKeepsDescending<K, V>(x: (K, V), t: seq<(K, V)>, score: V -> real)
    requires Descending(t, score)
    ensures Descending(Insert(x, t, score), score)
  {
    if t != [] && score(t[0].1) >= score(x.1) {
      var rest := Insert(x, t[1..], score);
      InsertKeepsDescending(x, t[1..], score);
      InsertPermutes(x, t[1..], score);
      assert t == [t[0]] + t[1..];
      forall j | 0 <= j < |rest| ensures score(t[0].1) >= score(rest[j].1) {
        assert rest[j] in multiset(t[1..]) + multiset{x};
        if rest[j] != x {
          var k :| 0 <= k < |t[1..]| && t[1..][k] == rest[j];
          assert t[k + 1] == rest[j];
        }
      }
    }
  }

  /** The sort is a permutation of its input. */
  lemma {:induction false} SortPermutes<K, V>(s: seq<(K, V)>, score: V -> real)
    ensures multiset(SortDescending(s, score)) == multiset(s)
  {
    if s != [] {
      var p := s[..|s| - 1];
      assert s == p + [s[|s| - 1]];
      SortPermutes(p, score);
      InsertPermutes(s[|s| - 1], SortDescending(p, score), score);
    }
  }

  /** The sort's output is in descending order of score. */
  lemma {:induction false} SortIsDescending<K, V>(s: seq<(K, V)>, score: V -> real)
    ensures Descending(SortDescending(s, score), score)
  {
    if s != [] {
      var p := s[..|s| - 1];
      SortIsDescending(p, score);
      InsertKeepsDescending(s[|s| - 1], SortDescending(p, score), score);
    }
  }

  /** Index of the first item with the highest score. */
  function FirstMax<K, V>(s: seq<(K, V)>, score: V -> real): (m: nat)
    requires |s| > 0
    ensures m < |s|
    ensures forall j :: 0 <= j < |s| ==> score(s[j].1) <= score(s[m].1)
    ensures forall j :: 0 <= j < m ==> score(s[j].1) < score(s[m].1)
  {
    if |s| == 1 then 0
    else
      var m := FirstMax(s[..|s| - 1], score);
      if score(s[m].1) >= score(s[|s| - 1].1) then m else |s| - 1
  }

  /** Inserting into a non-empty list changes the head only for a strictly better item. */
  lemma {:induction false} InsertHead<K, V>(x: (K, V), t: seq<(K, V)>, score: V -> real)
    requires |t| > 0
    ensures Insert(x, t, score)[0] == if score(t[0].1) >= score(x.1) then t[0] else x
  {
  }

  /** The winner of the sort is the earliest item with the highest score. */
  lemma {:induction false} SortHeadIsFirstMax<K, V>(s: seq<(K, V)>, score: V -> real)
    requires |s| > 0
    ensures SortDescending(s, score)[0] == s[FirstMax(s, score)]
  {
    if |s| > 1 {
      var p := s[..|s| - 1];
      SortHeadIsFirstMax(p, score);
      InsertHead(s[|s| - 1], SortDescending(p, score), score);
    }
  }

  /** `s` with the item at position `i` taken out. */
  function Without<T>(s: seq<T>, i: nat): (r: seq<T>)
    requires i < |s|
    ensures |r| == |s| - 1
    ensures forall q :: 0 <= q < |r| ==> r[q] == s[if q < i then q else q + 1]
  {
    s[..i] + s[i + 1..]
  }

  /**
   * Stability: the sort puts the earliest highest-scoring item first and then sorts
   * what remains, so that items of equal score keep their input order.
   */
  lemma {:induction false} SortExtractsFirstMax<K, V>(s: seq<(K, V)>, score: V -> real)
    requires |s| > 0
    ensures SortDescending(s, score) == [s[FirstMax(s, score)]] + SortDescending(Without(s, FirstMax(s, score)), score)
  {
    var m := FirstMax(s, score);
    if |s| == 1 {
      assert Without(s, m) == [];
    } else {
      var p := s[..|s| - 1];
      var x := s[|s| - 1];
      var mp := FirstMax(p, score);
      var w := Without(p, mp);
      assert s == p + [x];
      if score(p[mp].1) >= score(x.1) {
        assert m == mp;
        calc {
          SortDescending(s, score);
          { SortSnoc(p, x, score); }
          Insert(x, SortDescending(p, score), score);
          { SortExtractsFirstMax(p, score); }
          Insert(x, [p[mp]] + SortDescending(w, score), score);
          { InsertBehindHead(p[mp], SortDescending(w, score), x, score); }
          [p[mp]] + Insert(x, SortDescending(w, score), score);
          { SortSnoc(w, x, score); }
          [p[mp]] + SortDescending(w + [x], score);
          { assert Without(s, m) == w + [x]; }
          [s[m]] + SortDescending(Without(s, m), score);
        }
      } else {
        assert m == |s| - 1;
        assert Without(s, m) == p;
        SortSnoc(p, x, score);
        SortHeadIsFirstMax(p, score);
        InsertAhead(x, SortDescending(p, score), score);
      }
    }
  }

  /** Sorting a list with one more item at the end inserts that item. */
  lemma SortSnoc<K, V>(p: seq<(K, V)>, x: (K, V), score: V -> real)
    ensures SortDescending(p + [x], score) == Insert(x, SortDescending(p, score), score)
  {
    assert (p + [x])[..|p|] == p;
  }

  /** An item scoring no more than the head goes behind it. */
  lemma InsertBehindHead<K, V>(a: (K, V), t: seq<(K, V)>, x: (K, V), score: V -> real)
    requires score(a.1) >= score(x.1)
    ensures Insert(x, [a] + t, score) == [a] + Insert(x, t, score)
  {
    assert ([a] + t)[1..] == t;
  }

  /** An item scoring more than the head goes in front. */
  lemma InsertAhead<K, V>(x: (K, V), t: seq<(K, V)>, score: V -> real)
    requires t != [] && score(t[0].1) < score(x.1)
    ensures Insert(x, t, score) == [x] + t
  {
  }

  /** Selection sort on the first maximum: a reference definition of the stable descending sort. */
  function SelectDescending<K, V>(s: seq<(K, V)>, score: V -> real): (r: seq<(K, V)>)
    ensures |r| == |s|
    decreases |s|
  {
    if s == [] then [] else
      var m := FirstMax(s, score);
      [s[m]] + SelectDescending(Without(s, m), score)
  }

  /** The insertion sort is the selection sort: both are the stable descending sort. */
  lemma {:induction false} SortIsSelection<K, V>(s: seq<(K, V)>, score: V -> real)
    ensures SortDescending(s, score) == SelectDescending(s, score)
    decreases |s|
  {
    if s != [] {
      SortExtractsFirstMax(s, score);
      SortIsSelection(Without(s, FirstMax(s, score)), score);
    }
  }

  /**
   * `j` is the runner-up to the item at `m`: of all other items it scores highest, and
   * it is the earliest of those that do.
   */
  predicate IsRunnerUp<K, V>(s: seq<(K, V)>, score: V -> real, m: nat, j: nat) {
    && j < |s| && j != m
    && (forall k :: 0 <= k < |s| && k != m ==> score(s[k].1) <= score(s[j].1))
    && (forall k :: 0 <= k < j && k != m ==> score(s[k].1) < score(s[j].1))
  }

  /** Index of the runner-up to the first maximum. */
  function RunnerUp<K, V>(s: seq<(K, V)>, score: V -> real): (j: nat)
    requires |s| > 1
    ensures IsRunnerUp(s, score, FirstMax(s, score), j)
  {
    var m := FirstMax(s, score);
    var q := FirstMax(Without(s, m), score);
    RunnerUpOfRest(s, score, m, q);
    if q < m then q else q + 1
  }

  /** The first maximum of the rest, read back as a position of the whole. */
  lemma RunnerUpOfRest<K, V>(s: seq<(K, V)>, score: V -> real, m: nat, q: nat)
    requires m < |s| && |s| > 1 && q == FirstMax(Without(s, m), score)
    ensures var j := if q < m then q else q + 1; IsRunnerUp(s, score, m, j) && s[j] == Without(s, m)[q]
  {
    var w := Without(s, m);
    var j := if q < m then q else q + 1;
    assert s[j] == w[q];
    forall k | 0 <= k < |s| && k != m
      ensures score(s[k].1) <= score(s[j].1)
      ensures k < j ==> score(s[k].1) < score(s[j].1)
    {
      var i := if k < m then k else k - 1;
      assert w[i] == s[k];
      assert score(w[i].1) <= score(w[q].1);
      assert i < q ==> score(w[i].1) < score(w[q].1);
    }
  }

  /** There is only one runner-up. */
  lemma RunnerUpUnique<K, V>(s: seq<(K, V)>, score: V -> real, m: nat, i: nat, j: nat)
    requires IsRunnerUp(s, score, m, i) && IsRunnerUp(s, score, m, j)
    ensures i == j
  {
    assert score(s[j].1) <= score(s[i].1);
    assert score(s[i].1) <= score(s[j].1);
  }

  /** The second item of the sort is the runner-up. */
  lemma SortSecondIsRunnerUp<K, V>(s: seq<(K, V)>, score: V -> real)
    requires |s| > 1
    ensures SortDescending(s, score)[1] == s[RunnerUp(s, score)]
  {
    var w := Without(s, FirstMax(s, score));
    RunnerUpIsRestMax(s, score);
    SortSecondIsRestHead(s, score);
    SortHeadIsFirstMax(w, score);
  }

  lemma RunnerUpIsRestMax<K, V>(s: seq<(K, V)>, score: V -> real)
    requires |s| > 1
    ensures var w := Without(s, FirstMax(s, score)); s[RunnerUp(s, score)] == w[FirstMax(w, score)]
  {
    var m := FirstMax(s, score);
    RunnerUpOfRest(s, score, m, FirstMax(Without(s, m), score));
  }

  lemma SortSecondIsRestHead<K, V>(s: seq<(K, V)>, score: V -> real)
    requires |s| > 1
    ensures SortDescending(s, score)[1] == SortDescending(Without(s, FirstMax(s, score)), score)[0]
  {
    SortExtractsFirstMax(s, score);
  }

  /** Whichever position meets the runner-up's description holds the second item of the sort. */
  lemma SortSecondIsAnyRunnerUp<K, V>(s: seq<(K, V)>, score: V -> real, j: nat)
    requires |s| > 1 && IsRunnerUp(s, score, FirstMax(s, score), j)
    ensures SortDescending(s, score)[1] == s[j]
  {
    SortSecondIsRunnerUp(s, score);
    RunnerUpUnique(s, score, FirstMax(s, score), RunnerUp(s, score), j);
  }

  /** A member of a sequence's multiset sits at some index. */
  lemma IndexOf<T>(s: seq<T>, x: T) returns (q: nat)
    requires x in multiset(s)
    ensures q < |s| && s[q] == x
  {
    assert x in s;
    q :| 0 <= q < |s| && s[q] == x;
  }

  /** The sort keeps the keys of a dictionary distinct. */
  lemma SortKeepsKeysDistinct<K, V>(s: seq<(K, V)>, score: V -> real)
    requires Dicts.DistinctKeys(s)
    ensures Dicts.DistinctKeys(SortDescending(s, score))
  {
    var r := SortDescending(s, score);
    SortPermutes(s, score);
    forall a, b | 0 <= a < b < |r| ensures r[a].0 != r[b].0 {
      if r[a].0 == r[b].0 {
        assert r[a] in multiset(s) && r[b] in multiset(s);
        var i :| 0 <= i < |s| && s[i] == r[a];
        var j :| 0 <= j < |s| && s[j] == r[b];
        assert i == j;
        assert r[a] == r[b];
        MultiplicityTwo(r, a, b);
        assert multiset(s)[s[i]] >= 2;
        assert false by {
          MultiplicityOneDistinct(s, i);
        }
      }
    }
  }

  lemma MultiplicityTwo<T>(r: seq<T>, a: nat, b: nat)
    requires a < b < |r| && r[a] == r[b]
    ensures multiset(r)[r[a]] >= 2
  {
    assert r == r[..a] + [r[a]] + r[a + 1..b] + [r[b]] + r[b + 1..];
  }

  /** In a sequence with distinct keys each item occurs once. */
  lemma {:induction false} MultiplicityOneDistinct<K, V>(s: seq<(K, V)>, i: nat)
    requires Dicts.DistinctKeys(s) && i < |s|
    ensures multiset(s)[s[i]] == 1
  {
    if |s| > 1 {
      var p := s[..|s| - 1];
      assert s == p + [s[|s| - 1]];
      if i < |s| - 1 {
        MultiplicityOneDistinct(p, i);
        assert s[|s| - 1] != s[i];
      } else {
        assert s[i] !in p;
      }
    }
  }
}
