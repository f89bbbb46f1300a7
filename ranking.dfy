/** The final ranking `endGame` builds: the score entries sorted by score, highest first,
    with a stable sort, so that equal scores keep the players' insertion order. */
module Ranking {
  import opened Scoring

  /** One entry of `finalScores`. */
  datatype Standing = Standing(player: PlayerId, nickname: string, score: nat)

  /** Non-increasing by score. */
  predicate SortedByScore(s: seq<Standing>) {
    forall i, j :: 0 <= i < j < |s| ==> s[i].score >= s[j].score
  }

  /** The entries of `s` with score `k`, in their order in `s`. */
  function WithScore(s: seq<Standing>, k: nat): seq<Standing> {
    if s == [] then []
    else (if s[0].score == k then [s[0]] else []) + WithScore(s[1..], k)
  }

  /** Places `x` in front of every entry of `t` that does not outscore it. */
  function InsertByScore(x: Standing, t: seq<Standing>): seq<Standing> {
    if t == [] || t[0].score <= x.score then [x] + t
    else [t[0]] + InsertByScore(x, t[1..])
  }

  /** `Array.prototype.sort` with the comparator `b.score - a.score`, which the language
      requires to be stable: an insertion sort that puts each entry in front of the equal ones
      that came after it in the input. */
  function SortByScore(s: seq<Standing>): seq<Standing> {
    if s == [] then [] else InsertByScore(s[0], SortByScore(s[1..]))
  }

  /** Inserting adds exactly the one entry. */
  lemma {:induction false} InsertByScorePerm(x: Standing, t: seq<Standing>)
    ensures multiset(InsertByScore(x, t)) == multiset(t) + multiset{x}
    ensures forall y :: y in InsertByScore(x, t) <==> y in t || y == x
  {
    if t != [] && t[0].score > x.score {
      InsertByScorePerm(x, t[1..]);
      assert t == [t[0]] + t[1..];
    }
  }

  lemma SortedTail(t: seq<Standing>)
    requires t != [] && SortedByScore(t)
    ensures SortedByScore(t[1..])
    ensures forall y :: y in t[1..] ==> t[0].score >= y.score
  {
    forall i, j | 0 <= i < j < |t[1..]| ensures t[1..][i].score >= t[1..][j].score {
      assert t[1..][i] == t[i + 1] && t[1..][j] == t[j + 1];
    }
  }

  lemma SortedCons(y: Standing, r: seq<Standing>)
    requires SortedByScore(r)
    requires forall z :: z in r ==> y.score >= z.score
    ensures SortedByScore([y] + r)
  {
    var u := [y] + r;
    forall i, j | 0 <= i < j < |u| ensures u[i].score >= u[j].score {
      assert u[j] == r[j - 1];
      if i > 0 { assert u[i] == r[i - 1]; }
    }
  }

  /** Inserting into a ranking keeps it ordered. */
  lemma {:induction false} InsertByScoreSorted(x: Standing, t: seq<Standing>)
    requires SortedByScore(t)
    ensures SortedByScore(InsertByScore(x, t))
  {
    if t != [] && t[0].score > x.score {
      SortedTail(t);
      InsertByScoreSorted(x, t[1..]);
      InsertByScorePerm(x, t[1..]);
      SortedCons(t[0], InsertByScore(x, t[1..]));
    } else {
      forall z | z in t ensures x.score >= z.score {
        if t != [] && z != t[0] {
          SortedTail(t);
        }
      }
      SortedCons(x, t);
    }
  }

  /** Inserting `x` into a ranking leaves every score's entries in the order they have when `x`
      is put in front. */
  lemma {:induction false} InsertByScoreStable(x: Standing, t: seq<Standing>, k: nat)
    ensures WithScore(InsertByScore(x, t), k) == WithScore([x] + t, k)
  {
    if t != [] && t[0].score > x.score {
      var r := InsertByScore(x, t[1..]);
      InsertByScoreStable(x, t[1..], k);
      assert t == [t[0]] + t[1..];
      WithScoreConcat([t[0]], r, k);
      WithScoreConcat([x], t[1..], k);
      WithScoreConcat([x], t, k);
      WithScoreConcat([t[0]], t[1..], k);
      assert WithScore([t[0]], k) == (if t[0].score == k then [t[0]] else []);
      assert WithScore([x], k) == (if x.score == k then [x] else []);
    }
  }

  lemma {:induction false} WithScoreConcat(a: seq<Standing>, b: seq<Standing>, k: nat)
    ensures WithScore(a + b, k) == WithScore(a, k) + WithScore(b, k)
  {
    if a != [] {
      assert (a + b)[1..] == a[1..] + b;
      WithScoreConcat(a[1..], b, k);
    } else {
      assert a + b == b;
    }
  }

  /** The final ranking holds the same entries as the input, is ordered highest score first,
      and among equal scores keeps the input order. */
  lemma {:induction false} SortByScoreSpec(s: seq<Standing>)
    ensures multiset(SortByScore(s)) == multiset(s)
    ensures SortedByScore(SortByScore(s))
    ensures forall k :: WithScore(SortByScore(s), k) == WithScore(s, k)
  {
    if s != [] {
      SortByScoreSpec(s[1..]);
      var t := SortByScore(s[1..]);
      InsertByScorePerm(s[0], t);
      InsertByScoreSorted(s[0], t);
      assert s == [s[0]] + s[1..];
      forall k ensures WithScore(SortByScore(s), k) == WithScore(s, k) {
        InsertByScoreStable(s[0], t, k);
        WithScoreConcat([s[0]], t, k);
        WithScoreConcat([s[0]], s[1..], k);
      }
    }
  }
}
