/**
 * The ordering `getGameResults` imposes on the players: a stable sort by score,
 * highest first (a comparator on the score, reversed, handed to the list's own
 * stable sort). Elements are compared only through a score table `key`, so the
 * same definitions serve any element type, object references included.
 */
module Ranking {

  /** Every element of `s` has a score in `key`. */
  predicate Scored<T>(s: seq<T>, key: map<T, int>)
  {
    forall x :: x in s ==> x in key
  }

  /** Scores never increase from left to right. */
  predicate SortedDesc<T>(s: seq<T>, key: map<T, int>)
    requires Scored(s, key)
  {
    forall i, j :: 0 <= i < j < |s| ==> key[s[i]] >= key[s[j]]
  }

  /** The elements of `s` whose score is `v`, in their order in `s`. */
  function Filter<T>(s: seq<T>, key: map<T, int>, v: int): (r: seq<T>)
    requires Scored(s, key)
    ensures |r| <= |s|
  {
    if s == [] then []
    else (if key[s[0]] == v then [s[0]] else []) + Filter(s[1..], key, v)
  }

  /**
   * Places `x` into `r`, after every leading element whose score is at least
   * the score of `x`.
   */
  function Insert<T>(r: seq<T>, x: T, key: map<T, int>): (q: seq<T>)
    requires Scored(r, key) && x in key
    ensures |q| == |r| + 1
  {
    if r == [] then [x]
    else if key[r[0]] >= key[x] then [r[0]] + Insert(r[1..], x, key)
    else [x] + r
  }

  /** Insertion adds exactly `x` and loses nothing. */
  lemma {:induction false} InsertPermutes<T>(r: seq<T>, x: T, key: map<T, int>)
    requires Scored(r, key) && x in key
    ensures multiset(Insert(r, x, key)) == multiset(r) + multiset{x}
  {
    if r != [] && key[r[0]] >= key[x] {
      InsertPermutes(r[1..], x, key);
      assert r == [r[0]] + r[1..];
    }
  }

  lemma {:induction false} InsertScored<T>(r: seq<T>, x: T, key: map<T, int>)
    requires Scored(r, key) && x in key
    ensures Scored(Insert(r, x, key), key)
  {
    var q := Insert(r, x, key);
    InsertPermutes(r, x, key);
    forall y | y in q
      ensures y in key
    {
      assert y in multiset(q);
    }
  }

  /** Inserting into a descending sequence keeps it descending. */
  lemma {:induction false} InsertSorted<T>(r: seq<T>, x: T, key: map<T, int>)
    requires Scored(r, key) && x in key && SortedDesc(r, key)
    ensures Scored(Insert(r, x, key), key) && SortedDesc(Insert(r, x, key), key)
  {
    InsertScored(r, x, key);
    if r != [] && key[r[0]] >= key[x] {
      var tail := Insert(r[1..], x, key);
      InsertSorted(r[1..], x, key);
      var q := Insert(r, x, key);
      assert q == [r[0]] + tail;
      forall j | 0 < j < |q|
        ensures key[q[0]] >= key[q[j]]
      {
        assert q[j] == tail[j - 1];
        InsertPermutes(r[1..], x, key);
        assert q[j] in multiset(r[1..]) + multiset{x};
        if q[j] != x {
          assert q[j] in r[1..];
          var k :| 0 <= k < |r[1..]| && r[1..][k] == q[j];
          assert r[k + 1] == q[j];
        }
      }
    }
  }

  /** The players' order after the sort: insertion of each element in turn into the ranking of those before it. */
  function Rank<T>(s: seq<T>, key: map<T, int>): (r: seq<T>)
    requires Scored(s, key)
    ensures multiset(r) == multiset(s)
    ensures Scored(r, key) && SortedDesc(r, key)
  {
    if s == [] then []
    else
      var init := s[..|s| - 1];
      assert s == init + [s[|s| - 1]];
      InsertSorted(Rank(init, key), s[|s| - 1], key);
      InsertPermutes(Rank(init, key), s[|s| - 1], key);
      Insert(Rank(init, key), s[|s| - 1], key)
  }

  lemma {:induction false} FilterAppend<T>(a: seq<T>, b: seq<T>, key: map<T, int>, v: int)
    requires Scored(a, key) && Scored(b, key)
    ensures Filter(a + b, key, v) == Filter(a, key, v) + Filter(b, key, v)
  {
    if a == [] {
      assert a + b == b;
    } else {
      var t := a[1..];
      assert (a + b)[0] == a[0] && (a + b)[1..] == t + b;
      FilterAppend(t, b, key, v);
      var head := if key[a[0]] == v then [a[0]] else [];
      assert Filter(a + b, key, v) == head + Filter(t + b, key, v);
      assert Filter(a, key, v) == head + Filter(t, key, v);
    }
  }


  lemma {:induction false} FilterNone<T>(s: seq<T>, key: map<T, int>, v: int)
    requires Scored(s, key)
    requires forall i :: 0 <= i < |s| ==> key[s[i]] != v
    ensures Filter(s, key, v) == []
  {
    if s != [] {
      FilterNone(s[1..], key, v);
    }
  }

  lemma {:induction false} FilterAll<T>(s: seq<T>, key: map<T, int>, v: int)
    requires Scored(s, key)
    requires forall i :: 0 <= i < |s| ==> key[s[i]] == v
    ensures Filter(s, key, v) == s
  {
    if s != [] {
      FilterAll(s[1..], key, v);
      assert s == [s[0]] + s[1..];
    }
  }

  /** Inserting `x` appends it to the elements of its own score and leaves the other scores' runs alone. */
  lemma {:induction false} InsertFilter<T>(r: seq<T>, x: T, key: map<T, int>, v: int)
    requires Scored(r, key) && x in key && SortedDesc(r, key)
    ensures Scored(Insert(r, x, key), key)
    ensures Filter(Insert(r, x, key), key, v) == Filter(r, key, v) + (if key[x] == v then [x] else [])
  {
    InsertScored(r, x, key);
    var q := Insert(r, x, key);
    var own := if key[x] == v then [x] else [];
    if r == [] {
      assert q == [x];
    } else if key[r[0]] >= key[x] {
      var rest := r[1..];
      assert SortedDesc(rest, key) by {
        forall i, j | 0 <= i < j < |rest|
          ensures key[rest[i]] >= key[rest[j]]
        {
          assert rest[i] == r[i + 1] && rest[j] == r[j + 1];
        }
      }
      InsertFilter(rest, x, key, v);
      var t := Insert(rest, x, key);
      var head := if key[r[0]] == v then [r[0]] else [];
      assert q == [r[0]] + t;
      assert q[0] == r[0] && q[1..] == t;
      assert Filter(q, key, v) == head + Filter(t, key, v);
      assert Filter(r, key, v) == head + Filter(rest, key, v);
      assert head + (Filter(rest, key, v) + own) == (head + Filter(rest, key, v)) + own;
    } else {
      assert q[0] == x && q[1..] == r;
      if key[x] == v {
        assert forall i :: 0 <= i < |r| ==> key[r[i]] <= key[r[0]];
        FilterNone(r, key, v);
      }
    }
  }

  /**
   * The sort is stable: for every score, the players holding it appear in the
   * same relative order before and after.
   */
  lemma {:induction false} RankIsStable<T>(s: seq<T>, key: map<T, int>, v: int)
    requires Scored(s, key)
    ensures Filter(Rank(s, key), key, v) == Filter(s, key, v)
  {
    if s != [] {
      var init, x := s[..|s| - 1], s[|s| - 1];
      assert s == init + [x];
      var own := if key[x] == v then [x] else [];
      assert Filter([x], key, v) == own by {
        assert [x][1..] == [];
      }
      RankIsStable(init, key, v);
      InsertFilter(Rank(init, key), x, key, v);
      FilterAppend(init, [x], key, v);
      assert Rank(s, key) == Insert(Rank(init, key), x, key);
    }
  }

  /**
   * `r` is a stable descending sort of `s`: the same elements, scores never
   * increasing, and for every score the elements holding it in the order they
   * had in `s`.
   */
  ghost predicate StableSortOf<T>(r: seq<T>, s: seq<T>, key: map<T, int>)
  {
    && Scored(s, key)
    && Scored(r, key)
    && multiset(r) == multiset(s)
    && SortedDesc(r, key)
    && (forall v :: Filter(r, key, v) == Filter(s, key, v))
  }

  /** The ranking is a stable descending sort. */
  lemma RankIsStableSort<T>(s: seq<T>, key: map<T, int>)
    requires Scored(s, key)
    ensures StableSortOf(Rank(s, key), s, key)
  {
    forall v
      ensures Filter(Rank(s, key), key, v) == Filter(s, key, v)
    {
      RankIsStable(s, key, v);
    }
  }

  /** The list's sort, handed the descending score comparator: it reorders `s` into its ranking. */
  method Sort<T>(s: seq<T>, key: map<T, int>) returns (r: seq<T>)
    requires Scored(s, key)
    ensures StableSortOf(r, s, key)
    ensures forall x :: x in r <==> x in s
  {
    r := Rank(s, key);
    RankIsStableSort(s, key);
    RankSameMembers(s, key);
  }

  /** With every score equal, the sort leaves the order as it was. */
  lemma RankOfTiesIsIdentity<T>(s: seq<T>, key: map<T, int>, v: int)
    requires Scored(s, key)
    requires forall i :: 0 <= i < |s| ==> key[s[i]] == v
    ensures Rank(s, key) == s
  {
    var r := Rank(s, key);
    forall i | 0 <= i < |r|
      ensures key[r[i]] == v
    {
      assert r[i] in multiset(s);
    }
    FilterAll(s, key, v);
    FilterAll(r, key, v);
    RankIsStable(s, key, v);
  }

  /** The ranking holds exactly the elements it was given. */
  lemma RankSameMembers<T>(s: seq<T>, key: map<T, int>)
    requires Scored(s, key)
    ensures forall x :: x in Rank(s, key) <==> x in s
  {
    var r := Rank(s, key);
    forall x
      ensures x in r <==> x in s
    {
      assert x in r <==> x in multiset(r);
      assert x in s <==> x in multiset(s);
    }
  }

  /** The first element of the ranking has the highest score of all. */
  lemma RankLeaderIsMaximal<T>(s: seq<T>, key: map<T, int>)
    requires Scored(s, key) && |s| > 0
    ensures |Rank(s, key)| == |s|
    ensures forall x :: x in s ==> key[x] <= key[Rank(s, key)[0]]
  {
    var r := Rank(s, key);
    assert |r| == |multiset(r)| == |multiset(s)| == |s|;
    forall x | x in s
      ensures key[x] <= key[r[0]]
    {
      assert x in multiset(r);
      var j :| 0 <= j < |r| && r[j] == x;
    }
  }
}
