/**
 * Grouping a sequence of (key, amount) entries: the model of a `HashMap`
 * filled by `merge(key, amount, sum)` and of `groupingBy(..., counting())`.
 * A count is the sum of the amount 1 per entry.
 */
module Grouping {

  /** The keys that occur in `entries`. */
  function Keys<K(==,!new)>(entries: seq<(K, int)>): set<K>
  {
    if entries == [] then {} else Keys(entries[..|entries| - 1]) + {entries[|entries| - 1].0}
  }

  /** A key is among the keys exactly when some entry carries it. */
  lemma {:induction false} KeysMembership<K(!new)>(entries: seq<(K, int)>)
    ensures forall k :: k in Keys(entries) <==> exists i :: 0 <= i < |entries| && entries[i].0 == k
  {
    if entries != [] {
      var init := entries[..|entries| - 1];
      KeysMembership(init);
      assert forall i :: 0 <= i < |init| ==> init[i] == entries[i];
    }
  }

  /** The sum of the amounts paired with `k` in `entries`. */
  function SumFor<K(==,!new)>(entries: seq<(K, int)>, k: K): int
  {
    if entries == [] then 0
    else
      var last := entries[|entries| - 1];
      SumFor(entries[..|entries| - 1], k) + (if last.0 == k then last.1 else 0)
  }

  /** The sum of all amounts in `entries`. */
  function Total<K(==,!new)>(entries: seq<(K, int)>): int
  {
    if entries == [] then 0 else Total(entries[..|entries| - 1]) + entries[|entries| - 1].1
  }

  /** The grouped map: one key per occurring key, mapped to the sum of its amounts. */
  function Group<K(==,!new)>(entries: seq<(K, int)>): map<K, int>
  {
    map k | k in Keys(entries) :: SumFor(entries, k)
  }

  /** Entries that give every key the amount 1, so that grouping them counts occurrences. */
  function Ones<K(==,!new)>(ks: seq<K>): seq<(K, int)>
  {
    seq(|ks|, i requires 0 <= i < |ks| => (ks[i], 1))
  }

  /** The number of occurrences of each key of `ks`, as `groupingBy(..., counting())` builds it. */
  function Tally<K(==,!new)>(ks: seq<K>): (counts: map<K, int>)
    ensures forall k :: k in counts <==> k in ks
    ensures forall k :: k in counts ==> counts[k] == multiset(ks)[k] >= 1
  {
    KeysMembership(Ones(ks));
    assert forall i :: 0 <= i < |ks| ==> Ones(ks)[i].0 == ks[i];
    forall k | k in Keys(Ones(ks)) ensures SumFor(Ones(ks), k) == multiset(ks)[k] {
      SumForOnes(ks, k);
    }
    Group(Ones(ks))
  }

  /** Grouping counts each key as often as it occurs. */
  lemma {:induction false} SumForOnes<K(!new)>(ks: seq<K>, k: K)
    ensures SumFor(Ones(ks), k) == multiset(ks)[k]
  {
    if ks != [] {
      var init := ks[..|ks| - 1];
      assert ks == init + [ks[|ks| - 1]];
      assert Ones(ks)[..|ks| - 1] == Ones(init);
      SumForOnes(init, k);
    }
  }

  /** A key that never occurs has nothing summed for it. */
  lemma {:induction false} SumForAbsent<K(!new)>(entries: seq<(K, int)>, k: K)
    requires k !in Keys(entries)
    ensures SumFor(entries, k) == 0
  {
    if entries != [] {
      var init := entries[..|entries| - 1];
      assert Keys(entries) == Keys(init) + {entries[|entries| - 1].0};
      SumForAbsent(init, k);
    }
  }

  /**
   * Appending one entry to the input merges its amount into the grouped map,
   * exactly as `merge(k, v, sum)` does on a `HashMap`.
   */
  lemma GroupSnoc<K(!new)>(entries: seq<(K, int)>, k: K, v: int)
    ensures var g := Group(entries);
            Group(entries + [(k, v)]) == g[k := (if k in g then g[k] else 0) + v]
  {
    var longer := entries + [(k, v)];
    assert longer[..|longer| - 1] == entries;
    var g := Group(entries);
    assert Keys(longer) == Keys(entries) + {k};
    if k !in g {
      SumForAbsent(entries, k);
    }
  }

  /** The sum of the values of a finite map (in no particular order). */
  ghost function SumValues<K(!new)>(m: map<K, int>): int
    decreases |m.Keys|
  {
    if m == map[] then 0
    else
      var k := Pick(m.Keys);
      m[k] + SumValues(m - {k})
  }

  /** Some element of a non-empty set. */
  ghost function Pick<K(!new)>(s: set<K>): K
    requires s != {}
  {
    var k :| k in s; k
  }

  /** Removing any key takes its value off the sum, whichever key `SumValues` happens to pick. */
  lemma {:induction false} SumValuesRemove<K(!new)>(m: map<K, int>, k: K)
    requires k in m
    ensures SumValues(m) == m[k] + SumValues(m - {k})
    decreases |m.Keys|
  {
    var j := Pick(m.Keys);
    if j != k {
      assert (m - {j}).Keys == m.Keys - {j};
      assert (m - {k}).Keys == m.Keys - {k};
      SumValuesRemove(m - {j}, k);
      SumValuesRemove(m - {k}, j);
      assert m - {j} - {k} == m - {k} - {j};
    }
  }

  /** Setting one key changes the sum by the difference of its new and old value. */
  lemma SumValuesUpdate<K(!new)>(m: map<K, int>, k: K, v: int)
    ensures SumValues(m[k := v]) == SumValues(m) - (if k in m then m[k] else 0) + v
  {
    SumValuesRemove(m[k := v], k);
    assert m[k := v] - {k} == m - {k};
    if k in m {
      SumValuesRemove(m, k);
    } else {
      assert m - {k} == m;
    }
  }

  /** Grouping loses no amount: the values of the grouped map add up to the total of the entries. */
  lemma {:induction false} GroupTotal<K(!new)>(entries: seq<(K, int)>)
    ensures SumValues(Group(entries)) == Total(entries)
  {
    if entries == [] {
      assert Group(entries) == map[];
    } else {
      var init := entries[..|entries| - 1];
      var k, v := entries[|entries| - 1].0, entries[|entries| - 1].1;
      assert entries == init + [(k, v)];
      var g := Group(init);
      var before := if k in g then g[k] else 0;
      GroupTotal(init);
      GroupSnoc(init, k, v);
      SumValuesUpdate(g, k, before + v);
      calc {
        SumValues(Group(entries));
        SumValues(g[k := before + v]);
        SumValues(g) + v;
        Total(init) + v;
      }
    }
  }

  /** The total of `Ones(ks)` is the number of keys. */
  lemma {:induction false} TotalOnes<K(!new)>(ks: seq<K>)
    ensures Total(Ones(ks)) == |ks|
  {
    if ks != [] {
      var init := ks[..|ks| - 1];
      assert Ones(ks)[..|ks| - 1] == Ones(init);
      TotalOnes(init);
    }
  }

  /** The counts of a tally add up to the number of counted keys. */
  lemma TallyTotal<K(!new)>(ks: seq<K>)
    ensures SumValues(Tally(ks)) == |ks|
  {
    GroupTotal(Ones(ks));
    TotalOnes(ks);
  }

  /** The total only depends on the amounts, not on the keys they are paired with. */
  lemma {:induction false} TotalOfAmounts<K(!new), L(!new)>(a: seq<(K, int)>, b: seq<(L, int)>)
    requires |a| == |b|
    requires forall i :: 0 <= i < |a| ==> a[i].1 == b[i].1
    ensures Total(a) == Total(b)
  {
    if a != [] {
      TotalOfAmounts(a[..|a| - 1], b[..|b| - 1]);
    }
  }
}
