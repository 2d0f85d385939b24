/**
 * The reference cost table of lib/benchmarks.ts and its lookup: the city is
 * matched after lower-casing, then the duration is resolved in three tiers
 * (the exact duration, else the shortest longer one, else the longest).
 */
module Benchmarks {
  import opened Types

  /** Per city (lower case), per duration in months, the reference monthly costs. */
  const Table: map<string, map<int, BenchmarkData>> := map[
    "toronto" := map[
      6 := BenchmarkData(1300.0, 450.0, 150.0, 250.0),
      12 := BenchmarkData(1200.0, 400.0, 150.0, 250.0),
      18 := BenchmarkData(1200.0, 400.0, 150.0, 250.0),
      24 := BenchmarkData(1200.0, 400.0, 150.0, 250.0)],
    "vancouver" := map[
      6 := BenchmarkData(1400.0, 450.0, 160.0, 260.0),
      12 := BenchmarkData(1350.0, 420.0, 160.0, 260.0),
      18 := BenchmarkData(1350.0, 420.0, 160.0, 260.0),
      24 := BenchmarkData(1350.0, 420.0, 160.0, 260.0)],
    "montreal" := map[
      6 := BenchmarkData(1000.0, 400.0, 90.0, 200.0),
      12 := BenchmarkData(950.0, 380.0, 90.0, 200.0)],
    "ottawa" := map[
      6 := BenchmarkData(1100.0, 400.0, 120.0, 220.0),
      12 := BenchmarkData(1050.0, 380.0, 120.0, 220.0)]
  ]

  /** The cities of the table and the durations listed for each. */
  lemma TableKeys()
    ensures Table.Keys == {"toronto", "vancouver", "montreal", "ottawa"}
    ensures Table["toronto"].Keys == {6, 12, 18, 24}
    ensures Table["vancouver"].Keys == {6, 12, 18, 24}
    ensures Table["montreal"].Keys == {6, 12}
    ensures Table["ottawa"].Keys == {6, 12}
  {
  }

  /** Every city has at least one duration, and no duration is 0. */
  lemma TableDurationsPositive()
    ensures forall city :: city in Table ==> 6 in Table[city] && forall d :: d in Table[city] ==> d > 0
  {
    TableKeys();
  }

  // ---------------------------------------------------------------------
  // Lower-casing
  // ---------------------------------------------------------------------

  function LowerChar(c: char): char
  {
    if 'A' <= c <= 'Z' then (c as int + 32) as char else c
  }

  /** `s.toLowerCase()` for the letters A to Z; every other character is kept. */
  function ToLower(s: string): (r: string)
    ensures |r| == |s| && forall i :: 0 <= i < |s| ==> r[i] == LowerChar(s[i])
  {
    seq(|s|, i requires 0 <= i < |s| => LowerChar(s[i]))
  }

  // ---------------------------------------------------------------------
  // Sorted duration keys
  // ---------------------------------------------------------------------

  lemma {:induction false} MinExists(s: set<int>)
    requires s != {}
    ensures exists m :: m in s && forall y :: y in s ==> m <= y
    decreases |s|
  {
    if forall y :: y !in s {
      assert false;
    }
    var x :| x in s;
    if forall y :: y in s ==> y == x {
      assert forall y :: y in s ==> x <= y;
    } else {
      var z :| z in s && z != x;
      var rest := s - {x};
      assert z in rest;
      MinExists(rest);
      var m :| m in rest && forall y :: y in rest ==> m <= y;
      assert forall y :: y in s ==> y == x || y in rest;
      if x < m {
        assert forall y :: y in s ==> x <= y;
      } else {
        assert forall y :: y in s ==> m <= y;
      }
    }
  }

  /** The least element of a non-empty set. */
  function SetMin(s: set<int>): (m: int)
    requires s != {}
    ensures m in s && forall y :: y in s ==> m <= y
  {
    MinExists(s);
    var m :| m in s && forall y :: y in s ==> m <= y;
    m
  }

  /** `Object.keys(table).map(Number).sort((a, b) => a - b)`: the durations, ascending. */
  function SortedKeys(keys: set<int>): (r: seq<int>)
    ensures StrictlyIncreasing(r)
    ensures forall k :: k in keys <==> k in r
    decreases keys
  {
    if keys == {} then []
    else
      var m := SetMin(keys);
      var rest := SortedKeys(keys - {m});
      [m] + rest
  }

  /** The first element of `xs` that is at least `duration`, or `None` when no element is. */
  function FindAtLeast(xs: seq<int>, duration: int): (r: Option<int>)
    ensures r.Some? ==> r.value in xs && r.value >= duration
    ensures r.None? <==> forall x :: x in xs ==> x < duration
  {
    if xs == [] then None
    else if xs[0] >= duration then Some(xs[0])
    else
      assert forall x :: x in xs ==> x == xs[0] || x in xs[1..];
      FindAtLeast(xs[1..], duration)
  }

  ghost predicate StrictlyIncreasing(xs: seq<int>)
  {
    forall i, j :: 0 <= i < j < |xs| ==> xs[i] < xs[j]
  }

  /** On an ascending list, the first element at least `duration` is the least such element. */
  lemma {:induction false} FindAtLeastIsLeast(xs: seq<int>, duration: int)
    requires StrictlyIncreasing(xs)
    ensures var r := FindAtLeast(xs, duration);
      r.Some? ==> forall x :: x in xs && x >= duration ==> r.value <= x
  {
    if xs != [] {
      if xs[0] >= duration {
        forall x | x in xs ensures xs[0] <= x {
          var p :| 0 <= p < |xs| && xs[p] == x;
          assert p == 0 || xs[0] < xs[p];
        }
      } else {
        var tail := xs[1..];
        assert StrictlyIncreasing(tail) by {
          forall i, j | 0 <= i < j < |tail| ensures tail[i] < tail[j] {
            assert tail[i] == xs[i + 1] && tail[j] == xs[j + 1];
          }
        }
        FindAtLeastIsLeast(tail, duration);
        assert forall x :: x in xs && x >= duration ==> x in tail;
      }
    }
  }

  /** The last element of an ascending list is its greatest. */
  lemma LastIsGreatest(xs: seq<int>)
    requires StrictlyIncreasing(xs) && xs != []
    ensures forall x :: x in xs ==> x <= xs[|xs| - 1]
  {
    forall x | x in xs ensures x <= xs[|xs| - 1] {
      var p :| 0 <= p < |xs| && xs[p] == x;
      assert p == |xs| - 1 || xs[p] < xs[|xs| - 1];
    }
  }

  // ---------------------------------------------------------------------
  // Duration resolution and lookup
  // ---------------------------------------------------------------------

  /**
   * The duration whose entry is used: the requested one when present; else
   * the first sorted key at least as long, unless that key is 0 (falsy);
   * else the last sorted key, unless it is 0 or there is none.
   */
  function ResolveDuration(keys: set<int>, duration: int): (r: Option<int>)
    ensures r.Some? ==> r.value in keys
    ensures duration in keys ==> r == Some(duration)
  {
    var sorted := SortedKeys(keys);
    if duration in keys then Some(duration)
    else
      var closest := FindAtLeast(sorted, duration);
      if closest.Some? && closest.value != 0 then Some(closest.value)
      else if |sorted| > 0 && sorted[|sorted| - 1] != 0 then Some(sorted[|sorted| - 1])
      else None
  }

  /**
   * Tier two: when some key is at least the requested duration (and no key
   * is 0), the result is the least such key.
   */
  lemma ResolveShortestAtLeast(keys: set<int>, duration: int, k0: int)
    requires 0 !in keys && k0 in keys && k0 >= duration
    ensures var r := ResolveDuration(keys, duration);
      && r.Some? && r.value >= duration
      && forall k :: k in keys && k >= duration ==> r.value <= k
  {
    if duration !in keys {
      var sorted := SortedKeys(keys);
      assert k0 in sorted;
      var closest := FindAtLeast(sorted, duration);
      assert closest.Some?;
      assert closest.value in keys;
      FindAtLeastIsLeast(sorted, duration);
      assert ResolveDuration(keys, duration) == closest;
    }
  }

  /**
   * Tier three: when every key is shorter than the requested duration (and
   * no key is 0), the result is the greatest key.
   */
  lemma ResolveLongest(keys: set<int>, duration: int, k0: int)
    requires 0 !in keys && k0 in keys
    requires forall k :: k in keys ==> k < duration
    ensures var r := ResolveDuration(keys, duration);
      && r.Some? && forall k :: k in keys ==> k <= r.value
  {
    var sorted := SortedKeys(keys);
    assert duration !in keys;
    assert FindAtLeast(sorted, duration).None?;
    assert k0 in sorted;
    LastIsGreatest(sorted);
    assert sorted[|sorted| - 1] in keys;
    assert ResolveDuration(keys, duration) == Some(sorted[|sorted| - 1]);
  }

  /** With no keys at all there is nothing to resolve to. */
  lemma ResolveNoKeys(duration: int)
    ensures ResolveDuration({}, duration) == None
  {
    assert SortedKeys({}) == [];
  }

  /**
   * An exact duration key is also what the tier-two search finds, so tiers
   * one and two agree.
   */
  lemma ExactIsShortestAtLeast(keys: set<int>, duration: int)
    requires duration in keys
    ensures FindAtLeast(SortedKeys(keys), duration) == Some(duration)
  {
    var sorted := SortedKeys(keys);
    assert duration in sorted;
    FindAtLeastIsLeast(sorted, duration);
  }

  /** Keys without 0 always resolve to one of them. */
  lemma ResolveSomeKey(keys: set<int>, duration: int, k0: int)
    requires 0 !in keys && k0 in keys
    ensures ResolveDuration(keys, duration).Some?
  {
    if k0 >= duration {
      ResolveShortestAtLeast(keys, duration, k0);
    } else if k :| k in keys && k >= duration {
      ResolveShortestAtLeast(keys, duration, k);
    } else {
      ResolveLongest(keys, duration, k0);
    }
  }

  /**
   * The reference figures for a city and a stay length, or `None` when the
   * city (compared in lower case) is not in the table.
   */
  function GetBenchmark(city: string, durationMonths: int): (r: Option<BenchmarkData>)
    ensures ToLower(city) !in Table ==> r == None
    ensures ToLower(city) in Table ==>
      var table := Table[ToLower(city)];
      && r.Some?
      && (exists d :: d in table && r.value == table[d])
      && (durationMonths in table ==> r == Some(table[durationMonths]))
  {
    var cityKey := ToLower(city);
    if cityKey !in Table then None
    else
      var table := Table[cityKey];
      TableDurationsPositive();
      ResolveSomeKey(table.Keys, durationMonths, 6);
      match ResolveDuration(table.Keys, durationMonths)
      case Some(d) => Some(table[d])
      case None => None
  }

  /** A known city gives the entry of the shortest duration at least as long as the one asked for. */
  lemma GetBenchmarkShortestAtLeast(city: string, durationMonths: int, d: int)
    requires ToLower(city) in Table
    requires d in Table[ToLower(city)] && d >= durationMonths
    requires forall k :: k in Table[ToLower(city)] && k >= durationMonths ==> d <= k
    ensures GetBenchmark(city, durationMonths) == Some(Table[ToLower(city)][d])
  {
    TableDurationsPositive();
    ResolveShortestAtLeast(Table[ToLower(city)].Keys, durationMonths, d);
  }

  /** A known city asked for a stay longer than every entry gives the longest entry. */
  lemma GetBenchmarkLongest(city: string, durationMonths: int, d: int)
    requires ToLower(city) in Table
    requires d in Table[ToLower(city)]
    requires forall k :: k in Table[ToLower(city)] ==> k <= d && k < durationMonths
    ensures GetBenchmark(city, durationMonths) == Some(Table[ToLower(city)][d])
  {
    TableDurationsPositive();
    ResolveLongest(Table[ToLower(city)].Keys, durationMonths, d);
  }

  /** Lookups are case-insensitive: an exact key of a capitalised city name. */
  lemma GetBenchmarkExactExample()
    ensures GetBenchmark("Toronto", 12) == Some(Table["toronto"][12])
  {
    TableKeys();
    assert ToLower("Toronto") == "toronto";
  }

  /** A stay between two entries resolves to the next longer entry. */
  lemma GetBenchmarkRoundsUpExample()
    ensures GetBenchmark("toronto", 9) == Some(Table["toronto"][12])
    ensures GetBenchmark("ottawa", 1) == Some(Table["ottawa"][6])
  {
    TableKeys();
    assert ToLower("toronto") == "toronto";
    assert ToLower("ottawa") == "ottawa";
    GetBenchmarkShortestAtLeast("toronto", 9, 12);
    GetBenchmarkShortestAtLeast("ottawa", 1, 6);
  }

  /** Thirty months falls back to the longest entry, in Toronto and in Montreal. */
  lemma GetBenchmarkLongestExamples()
    ensures GetBenchmark("toronto", 30) == Some(Table["toronto"][24])
    ensures GetBenchmark("montreal", 24) == Some(Table["montreal"][12])
  {
    TableKeys();
    assert ToLower("toronto") == "toronto";
    assert ToLower("montreal") == "montreal";
    GetBenchmarkLongest("toronto", 30, 24);
    GetBenchmarkLongest("montreal", 24, 12);
  }

  /** A city missing from the table has no figures. */
  lemma GetBenchmarkUnknownCityExample()
    ensures GetBenchmark("Atlantis", 12) == None
  {
    TableKeys();
    assert ToLower("Atlantis") == "atlantis";
  }
}
