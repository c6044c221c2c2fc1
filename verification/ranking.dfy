/**
 * Ordering ids by a score held in a map: the model of sorting the entries of
 * a `HashMap` by value with a stable sort, optionally limiting the result,
 * and of filtering entries by a threshold. The order in which the map hands
 * out its entries is a parameter, so every property below holds for every
 * order, i.e. up to ties.
 */
module Ranking {

  datatype Direction = Ascending | Descending

  /** Score `x` may stand before score `y` in direction `dir`. */
  predicate InOrder(dir: Direction, x: int, y: int)
  {
    match dir
    case Ascending => x <= y
    case Descending => x >= y
  }

  /** Every id of `s` has a score. */
  predicate Scored(s: seq<int>, score: map<int, int>)
  {
    forall i :: 0 <= i < |s| ==> s[i] in score
  }

  /** No id occurs twice in `s`. */
  ghost predicate Distinct(s: seq<int>)
  {
    forall x :: multiset(s)[x] <= 1
  }

  /** `order` lists every key of `m` exactly once: a possible iteration order of the map `m`. */
  ghost predicate Enumerates<V>(order: seq<int>, m: map<int, V>)
  {
    Distinct(order) && forall x :: x in order <==> x in m
  }

  /** An enumeration of a score map's keys has a score for every id. */
  lemma {:induction false} EnumeratesScored(order: seq<int>, score: map<int, int>)
    requires Enumerates(order, score)
    ensures Scored(order, score)
  {
    forall i | 0 <= i < |order| ensures order[i] in score {
      var x := order[i];
      assert x in order;
      assert x in order <==> x in score;
    }
  }

  /** `s` is ordered by score in direction `dir`. */
  predicate Ranked(s: seq<int>, score: map<int, int>, dir: Direction)
    requires Scored(s, score)
  {
    forall i, j :: 0 <= i < j < |s| ==> InOrder(dir, score[s[i]], score[s[j]])
  }

  /** Insert `x` in front of the first id it may precede, so that it stays ahead of ids with an equal score. */
  function Insert(x: int, s: seq<int>, score: map<int, int>, dir: Direction): (r: seq<int>)
    requires x in score && Scored(s, score)
    ensures multiset(r) == multiset(s) + multiset{x}
    ensures Scored(r, score)
  {
    if s == [] || InOrder(dir, score[x], score[s[0]]) then
      [x] + s
    else
      assert s == [s[0]] + s[1..];
      [s[0]] + Insert(x, s[1..], score, dir)
  }

  /** Inserting into a ranked sequence keeps it ranked. */
  lemma {:induction false} InsertRanked(x: int, s: seq<int>, score: map<int, int>, dir: Direction)
    requires x in score && Scored(s, score) && Ranked(s, score, dir)
    ensures Ranked(Insert(x, s, score, dir), score, dir)
  {
    if s != [] && !InOrder(dir, score[x], score[s[0]]) {
      var rest := Insert(x, s[1..], score, dir);
      InsertRanked(x, s[1..], score, dir);
      forall y | y in rest ensures InOrder(dir, score[s[0]], score[y]) {
        assert y in multiset(rest);
        if y != x {
          var j :| 0 <= j < |s[1..]| && s[1..][j] == y;
          assert s[j + 1] == y;
        }
      }
      var r := [s[0]] + rest;
      forall i, j | 0 <= i < j < |r| ensures InOrder(dir, score[r[i]], score[r[j]]) {
        if i == 0 {
          assert r[j] == rest[j - 1];
          assert rest[j - 1] in rest;
        } else {
          assert r[i] == rest[i - 1] && r[j] == rest[j - 1];
        }
      }
    } else if s != [] {
      var r := [x] + s;
      forall i, j | 0 <= i < j < |r| ensures InOrder(dir, score[r[i]], score[r[j]]) {
        if i == 0 && j > 1 {
          assert InOrder(dir, score[s[0]], score[s[j - 1]]);
        }
      }
    }
  }

  /** A stable sort of `s` by score in direction `dir`. */
  function Sort(s: seq<int>, score: map<int, int>, dir: Direction): (r: seq<int>)
    requires Scored(s, score)
    ensures multiset(r) == multiset(s)
    ensures Scored(r, score) && Ranked(r, score, dir)
  {
    if s == [] then []
    else
      assert s == [s[0]] + s[1..];
      var rest := Sort(s[1..], score, dir);
      InsertRanked(s[0], rest, score, dir);
      Insert(s[0], rest, score, dir)
  }

  /** The first `n` ids of `s` once sorted: `sorted(...).limit(n)`. */
  function Select(s: seq<int>, score: map<int, int>, dir: Direction, n: nat): seq<int>
    requires Scored(s, score)
  {
    var sorted := Sort(s, score, dir);
    sorted[..if n < |sorted| then n else |sorted|]
  }

  /** The ids of `s` whose score is at least `threshold`, in their original order, each kept at most as often as it occurs. */
  function AtLeast(s: seq<int>, score: map<int, int>, threshold: int): (r: seq<int>)
    requires Scored(s, score)
    ensures Scored(r, score)
    ensures forall x :: x in r <==> x in s && score[x] >= threshold
    ensures multiset(r) <= multiset(s)
  {
    if s == [] then []
    else
      assert s == [s[0]] + s[1..];
      (if score[s[0]] >= threshold then [s[0]] else []) + AtLeast(s[1..], score, threshold)
  }

  /** A duplicate-free sequence has as many elements as its set of elements. */
  lemma {:induction false} DistinctSize(s: seq<int>)
    requires Distinct(s)
    ensures |set x | x in s| == |s|
  {
    if s != [] {
      var h, t := s[0], s[1..];
      assert multiset(s)[h] <= 1;
      assert s == [h] + t;
      assert multiset(s) == multiset{h} + multiset(t);
      forall x ensures multiset(t)[x] <= 1 {
        assert multiset(s)[x] <= 1;
      }
      DistinctSize(s[1..]);
      assert s[0] !in multiset(s[1..]);
      assert (set x | x in s) == (set x | x in s[1..]) + {s[0]};
    }
  }

  /** A prefix of a ranked duplicate-free sequence: no id past the prefix ranks strictly ahead of one in it. */
  lemma PrefixSpec(t: seq<int>, k: nat, score: map<int, int>, dir: Direction)
    requires k <= |t| && Scored(t, score) && Ranked(t, score, dir) && Distinct(t)
    ensures Distinct(t[..k])
    ensures forall x :: x in t[..k] ==> x in t
    ensures forall x, y :: x in t && x !in t[..k] && y in t[..k] ==> InOrder(dir, score[y], score[x])
  {
    var p := t[..k];
    assert t == p + t[k..];
    assert multiset(t) == multiset(p) + multiset(t[k..]);
    forall x ensures multiset(p)[x] <= 1 {
      assert multiset(t)[x] <= 1;
    }
    forall m | 0 <= m < k ensures t[m] in p {
      assert p[m] == t[m];
    }
    forall x, y | x in t && x !in p && y in p ensures InOrder(dir, score[y], score[x]) {
      var j :| 0 <= j < |t| && t[j] == x;
      var i :| 0 <= i < k && p[i] == y;
      assert t[i] == y;
      assert k <= j;
      assert InOrder(dir, score[t[i]], score[t[j]]);
    }
  }

  /** An enumeration of a map's keys is as long as the map has keys. */
  lemma {:induction false} EnumerationSize<V>(order: seq<int>, m: map<int, V>)
    requires Enumerates(order, m)
    ensures |order| == |m.Keys|
  {
    DistinctSize(order);
    forall x ensures x in (set y | y in order) <==> x in m.Keys {
      assert x in order <==> x in m;
    }
    assert (set y | y in order) == m.Keys;
  }

  /**
   * What `sorted(...).limit(n)` yields from a duplicate-free sequence: `min(n, |s|)`
   * distinct ids of `s`, ordered by score, and no id left out ranks strictly
   * ahead of an id kept.
   */
  lemma SelectSpec(s: seq<int>, score: map<int, int>, dir: Direction, n: nat)
    requires Scored(s, score) && Distinct(s)
    ensures var r := Select(s, score, dir, n);
      && |r| == (if n < |s| then n else |s|)
      && Distinct(r)
      && (forall x :: x in r ==> x in s)
      && Scored(r, score) && Ranked(r, score, dir)
      && (forall x, y :: x in s && x !in r && y in r ==> InOrder(dir, score[y], score[x]))
  {
    var sorted := Sort(s, score, dir);
    var k := if n < |sorted| then n else |sorted|;
    assert |sorted| == |s| by {
      assert |multiset(sorted)| == |multiset(s)|;
    }
    forall x ensures x in sorted <==> x in s {
      assert x in sorted <==> x in multiset(sorted);
      assert x in s <==> x in multiset(s);
    }
    PrefixSpec(sorted, k, score, dir);
  }
}
