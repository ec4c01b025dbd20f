/** `sorted(zip(valid_files, similarities), key=lambda x: x[1], reverse=True)`:
    pair each valid file name with its similarity score and order the pairs
    by descending score. Python's sort is stable, also under `reverse=True`,
    so pairs with equal scores keep their upload order. */
module Ranking {

  /** A (file name, similarity score) pair. */
  type Scored = (string, real)

  /** Python's `zip`: pairs up to the shorter of the two inputs. */
  function Zip(names: seq<string>, scores: seq<real>): (r: seq<Scored>)
    ensures |r| == if |names| <= |scores| then |names| else |scores|
    ensures forall i :: 0 <= i < |r| ==> r[i] == (names[i], scores[i])
  {
    if names == [] || scores == [] then []
    else [(names[0], scores[0])] + Zip(names[1..], scores[1..])
  }

  /** Scores never increase along `s`. */
  predicate Descending(s: seq<Scored>) {
    forall i, j :: 0 <= i < j < |s| ==> s[i].1 >= s[j].1
  }

  /** The pairs of `s` whose score is `v`, in the order of `s`. */
  function WithScore(s: seq<Scored>, v: real): seq<Scored> {
    if s == [] then []
    else (if s[0].1 == v then [s[0]] else []) + WithScore(s[1..], v)
  }

  /** Put `x` into the descending `s` after every pair that scores strictly
      more and before every other: `x` comes first in the input, so it
      precedes the later pairs with the same score. */
  function Insert(x: Scored, s: seq<Scored>): seq<Scored> {
    if s == [] || s[0].1 <= x.1 then [x] + s
    else [s[0]] + Insert(x, s[1..])
  }

  /** The ranking: an insertion sort from the back of the input. */
  function SortDescending(s: seq<Scored>): seq<Scored> {
    if s == [] then [] else Insert(s[0], SortDescending(s[1..]))
  }

  lemma {:induction false} InsertIsPermutation(x: Scored, s: seq<Scored>)
    ensures multiset(Insert(x, s)) == multiset(s) + multiset{x}
  {
    if s != [] && s[0].1 > x.1 {
      InsertIsPermutation(x, s[1..]);
      assert s == [s[0]] + s[1..];
    }
  }

  lemma {:induction false} InsertAddsOnlyX(x: Scored, s: seq<Scored>, k: nat)
    requires k < |Insert(x, s)|
    ensures Insert(x, s)[k] == x || Insert(x, s)[k] in s
  {
    if s != [] && s[0].1 > x.1 && k > 0 {
      InsertAddsOnlyX(x, s[1..], k - 1);
    }
  }

  lemma {:induction false} InsertKeepsDescending(x: Scored, s: seq<Scored>)
    requires Descending(s)
    ensures Descending(Insert(x, s))
  {
    if s != [] && s[0].1 > x.1 {
      InsertKeepsDescending(x, s[1..]);
      var r := Insert(x, s[1..]);
      forall k | 0 <= k < |r| ensures s[0].1 >= r[k].1 {
        InsertAddsOnlyX(x, s[1..], k);
      }
    }
  }

  lemma {:induction false} WithScoreAppend(a: seq<Scored>, b: seq<Scored>, v: real)
    ensures WithScore(a + b, v) == WithScore(a, v) + WithScore(b, v)
  {
    if a != [] {
      WithScoreAppend(a[1..], b, v);
      assert (a + b)[1..] == a[1..] + b;
    } else {
      assert a + b == b;
    }
  }

  /** Inserting `x` into a descending sequence keeps, for every score, the
      order "x first, then the rest". */
  lemma {:induction false} InsertIsStable(x: Scored, s: seq<Scored>, v: real)
    requires Descending(s)
    ensures WithScore(Insert(x, s), v) == WithScore([x] + s, v)
  {
    if s != [] && s[0].1 > x.1 {
      InsertIsStable(x, s[1..], v);
      var rest := s[1..];
      assert s == [s[0]] + rest;
      WithScoreAppend([s[0]], Insert(x, rest), v);
      WithScoreAppend([x], rest, v);
      WithScoreAppend([s[0]], [x] + rest, v);
      WithScoreAppend([x], s, v);
      WithScoreAppend([s[0]], rest, v);
      assert [s[0]] + Insert(x, rest) == Insert(x, s);
    }
  }

  /** The ranking reorders the pairs and nothing more. */
  lemma {:induction false} SortIsPermutation(s: seq<Scored>)
    ensures multiset(SortDescending(s)) == multiset(s)
  {
    if s != [] {
      SortIsPermutation(s[1..]);
      InsertIsPermutation(s[0], SortDescending(s[1..]));
      assert s == [s[0]] + s[1..];
    }
  }

  /** The ranking is by non-increasing score. */
  lemma {:induction false} SortIsDescending(s: seq<Scored>)
    ensures Descending(SortDescending(s))
  {
    if s != [] {
      SortIsDescending(s[1..]);
      InsertKeepsDescending(s[0], SortDescending(s[1..]));
    }
  }

  /** The ranking is stable: for every score, the pairs with that score
      appear in the order they had in the input. */
  lemma {:induction false} SortIsStable(s: seq<Scored>, v: real)
    ensures WithScore(SortDescending(s), v) == WithScore(s, v)
  {
    if s != [] {
      SortIsStable(s[1..], v);
      SortIsDescending(s[1..]);
      InsertIsStable(s[0], SortDescending(s[1..]), v);
      WithScoreAppend([s[0]], SortDescending(s[1..]), v);
      WithScoreAppend([s[0]], s[1..], v);
      assert s == [s[0]] + s[1..];
    }
  }

  lemma {:induction false} WithScoreMember(s: seq<Scored>, v: real, x: Scored)
    requires x in WithScore(s, v)
    ensures x in s && x.1 == v
  {
    if s[0] != x || s[0].1 != v {
      WithScoreMember(s[1..], v, x);
    }
  }

  lemma FirstPairHasItsScore(s: seq<Scored>)
    ensures s != [] ==> WithScore(s, s[0].1) != []
  {
  }

  /** Two descending sequences that agree, score by score, on the order of
      their pairs are the same sequence. */
  lemma {:induction false} DescendingDeterminedByScores(u: seq<Scored>, w: seq<Scored>)
    requires Descending(u) && Descending(w)
    requires forall v :: WithScore(u, v) == WithScore(w, v)
    ensures u == w
  {
    if u == [] || w == [] {
      // the first pair of the non-empty one would have no partner in the other
      FirstPairHasItsScore(u);
      FirstPairHasItsScore(w);
    } else {
      var a, b := u[0].1, w[0].1;
      assert u[0] in WithScore(w, a);
      WithScoreMember(w, a, u[0]);
      assert w[0] in WithScore(u, b);
      WithScoreMember(u, b, w[0]);
      assert a == b;
      assert WithScore(u, a)[0] == u[0] && WithScore(w, a)[0] == w[0];
      assert u[0] == w[0];
      forall v ensures WithScore(u[1..], v) == WithScore(w[1..], v) {
        var head := if u[0].1 == v then [u[0]] else [];
        assert WithScore(u, v) == head + WithScore(u[1..], v);
        assert WithScore(w, v) == head + WithScore(w[1..], v);
        assert WithScore(u[1..], v) == WithScore(u, v)[|head|..];
      }
      DescendingDeterminedByScores(u[1..], w[1..]);
      assert u == [u[0]] + u[1..] && w == [w[0]] + w[1..];
    }
  }

  /** `SortDescending` is the only descending order of the input that keeps
      the input order among equal scores, so it is what a stable sort with
      `reverse=True` returns. */
  lemma RankingIsUnique(t: seq<Scored>, s: seq<Scored>)
    requires Descending(t)
    requires forall v :: WithScore(t, v) == WithScore(s, v)
    ensures t == SortDescending(s)
  {
    SortIsDescending(s);
    forall v ensures WithScore(t, v) == WithScore(SortDescending(s), v) {
      SortIsStable(s, v);
    }
    DescendingDeterminedByScores(t, SortDescending(s));
  }
}
