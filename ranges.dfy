/**
 * The episode-range summariser of source/utils.py: coerce every index to an integer,
 * sort, and compress runs of consecutive values into "a" or "a-b" tokens.
 */
module Ranges {
  import opened Wrappers
  import opened Numerals

  /** A run of consecutive integers `start, start + 1, ..., end`. */
  datatype Run = Run(start: int, end: int)

  predicate Sorted(s: seq<int>) {
    forall i, j :: 0 <= i < j < |s| ==> s[i] <= s[j]
  }

  predicate StrictlySorted(s: seq<int>) {
    forall i, j :: 0 <= i < j < |s| ==> s[i] < s[j]
  }

  /** Inserts `x` before the first element it does not exceed. */
  function Insert(x: int, s: seq<int>): seq<int> {
    if s == [] || x <= s[0] then [x] + s else [s[0]] + Insert(x, s[1..])
  }

  /** Python's `sorted(nums)` on integers, as an insertion sort. */
  function SortAsc(s: seq<int>): seq<int> {
    if s == [] then [] else Insert(s[0], SortAsc(s[1..]))
  }

  lemma {:induction false} InsertPermutation(x: int, s: seq<int>)
    ensures multiset(Insert(x, s)) == multiset(s) + multiset{x}
  {
    if s != [] && x > s[0] {
      InsertPermutation(x, s[1..]);
      assert s == [s[0]] + s[1..];
    }
  }

  /** The sort keeps every element with its multiplicity. */
  lemma {:induction false} SortAscPermutation(s: seq<int>)
    ensures multiset(SortAsc(s)) == multiset(s)
  {
    if s != [] {
      SortAscPermutation(s[1..]);
      InsertPermutation(s[0], SortAsc(s[1..]));
      assert s == [s[0]] + s[1..];
    }
  }

  lemma ConsSorted(a: int, t: seq<int>)
    requires Sorted(t) && forall y :: y in multiset(t) ==> a <= y
    ensures Sorted([a] + t)
  {
    forall i, j | 0 <= i < j < |[a] + t|
      ensures ([a] + t)[i] <= ([a] + t)[j]
    {
      if i == 0 {
        assert t[j - 1] in multiset(t);
      }
    }
  }

  lemma {:induction false} InsertSorted(x: int, s: seq<int>)
    requires Sorted(s)
    ensures Sorted(Insert(x, s))
  {
    if s != [] && x > s[0] {
      var t := s[1..];
      assert Sorted(t);
      InsertSorted(x, t);
      InsertPermutation(x, t);
      forall y | y in multiset(Insert(x, t))
        ensures s[0] <= y
      {
        if y != x {
          assert y in multiset(t);
          var k :| 0 <= k < |t| && t[k] == y;
          assert s[k + 1] == y;
        }
      }
      ConsSorted(s[0], Insert(x, t));
    }
  }

  /** The sort's output is in ascending order (and, by its contract, a permutation of its input). */
  lemma {:induction false} SortAscSorted(s: seq<int>)
    ensures Sorted(SortAsc(s))
  {
    if s != [] {
      SortAscSorted(s[1..]);
      InsertSorted(s[0], SortAsc(s[1..]));
    }
  }

  /** Sorting an already sorted list leaves it as it is. */
  lemma {:induction false} SortAscIdentity(s: seq<int>)
    requires Sorted(s)
    ensures SortAsc(s) == s
  {
    if s != [] {
      assert Sorted(s[1..]);
      SortAscIdentity(s[1..]);
      assert s == [s[0]] + s[1..];
    }
  }

  /** `list(map(int, nums))`: None when some element is None (int(None) raises TypeError). */
  function AsInts(nums: seq<Option<int>>): (r: Option<seq<int>>)
    ensures r.Some? <==> forall i :: 0 <= i < |nums| ==> nums[i].Some?
    ensures r.Some? ==> |r.value| == |nums| && forall i :: 0 <= i < |nums| ==> r.value[i] == nums[i].value
  {
    if nums == [] then Some([])
    else match nums[0]
      case None => None
      case Some(v) =>
        match AsInts(nums[1..])
        case None => None
        case Some(rest) => Some([v] + rest)
  }

  /** One step of the scan: `n` extends the last run when it is that run's end plus one. */
  function Step(rs: seq<Run>, n: int): (r: seq<Run>)
    requires |rs| > 0
    ensures |r| > 0 && r[|r| - 1].end == n
  {
    var last := rs[|rs| - 1];
    if n == last.end + 1 then rs[..|rs| - 1] + [Run(last.start, n)]
    else rs + [Run(n, n)]
  }

  /** The runs the left-to-right scan produces for a non-empty list. */
  function Runs(s: seq<int>): (r: seq<Run>)
    requires |s| > 0
    ensures |r| > 0 && r[|r| - 1].end == s[|s| - 1]
  {
    if |s| == 1 then [Run(s[0], s[0])] else Step(Runs(s[..|s| - 1]), s[|s| - 1])
  }

  lemma RunsSnoc(s: seq<int>, n: int)
    requires |s| > 0
    ensures Runs(s + [n]) == Step(Runs(s), n)
  {
    assert (s + [n])[..|s|] == s;
  }

  /** The text of one run: `"a"` for a single value, `"a-b"` otherwise. */
  function Token(r: Run): string {
    if r.start == r.end then IntToString(r.start)
    else IntToString(r.start) + "-" + IntToString(r.end)
  }

  function Tokens(rs: seq<Run>): (t: seq<string>)
    ensures |t| == |rs|
  {
    if rs == [] then [] else Tokens(rs[..|rs| - 1]) + [Token(rs[|rs| - 1])]
  }

  /** `[a, a + 1, ..., b]`, empty when `b < a`. */
  function Interval(a: int, b: int): (r: seq<int>)
    ensures |r| == if b < a then 0 else b - a + 1
    decreases b - a
  {
    if b < a then [] else Interval(a, b - 1) + [b]
  }

  /** The values a list of runs stands for, in order. */
  function Expand(rs: seq<Run>): seq<int> {
    if rs == [] then [] else Expand(rs[..|rs| - 1]) + Interval(rs[|rs| - 1].start, rs[|rs| - 1].end)
  }

  /** What `summarize_ranges(nums)` returns; None is the `return None` of the except branch. */
  function Summary(nums: seq<Option<int>>): Option<seq<string>> {
    if nums == [] then Some([])
    else match AsInts(nums)
      case None => None
      case Some(ints) => Some(Tokens(Runs(SortAsc(ints))))
  }

  /** The summariser, as written: coerce, sort, then scan with `start`/`end` and flush runs. */
  method SummarizeRanges(nums: seq<Option<int>>) returns (result: Option<seq<string>>)
    ensures nums == [] ==> result == Some([])
    ensures (exists i :: 0 <= i < |nums| && nums[i].None?) ==> result == None
    ensures result == Summary(nums)
  {
    if nums == [] {
      return Some([]);
    }
    var converted := AsInts(nums);
    if converted.None? {
      return None;
    }
    var sorted := SortAsc(converted.value);
    SortAscPermutation(converted.value);
    assert |sorted| > 0 by {
      assert |multiset(sorted)| == |multiset(converted.value)|;
    }
    var tokens := ScanRuns(sorted);
    return Some(tokens);
  }

  /** The scan of the summariser over the sorted indices, with its `start`/`end` pair. */
  method ScanRuns(sorted: seq<int>) returns (tokens: seq<string>)
    requires |sorted| > 0
    ensures tokens == Tokens(Runs(sorted))
  {
    tokens := [];
    ghost var flushed: seq<Run> := [];
    var start, end := sorted[0], sorted[0];
    var k := 1;
    while k < |sorted|
      invariant 1 <= k <= |sorted|
      invariant flushed + [Run(start, end)] == Runs(sorted[..k])
      invariant tokens == Tokens(flushed)
    {
      var n := sorted[k];
      RunsPrefix(sorted, k);
      StepOnto(flushed, Run(start, end), n);
      if n == end + 1 {
        end := n;
      } else {
        TokensSnoc(flushed, Run(start, end));
        if start == end {
          tokens := tokens + [IntToString(start)];
        } else {
          tokens := tokens + [IntToString(start) + "-" + IntToString(end)];
        }
        flushed := flushed + [Run(start, end)];
        start, end := n, n;
      }
      k := k + 1;
    }
    TokensSnoc(flushed, Run(start, end));
    if start == end {
      tokens := tokens + [IntToString(start)];
    } else {
      tokens := tokens + [IntToString(start) + "-" + IntToString(end)];
    }
    assert sorted[..k] == sorted;
  }

  lemma RunsPrefix(s: seq<int>, k: int)
    requires 1 <= k < |s|
    ensures Runs(s[..k + 1]) == Step(Runs(s[..k]), s[k])
  {
    assert s[..k + 1][..k] == s[..k];
  }

  /** A scan step on the flushed runs followed by the open run `r`. */
  lemma StepOnto(flushed: seq<Run>, r: Run, n: int)
    ensures Step(flushed + [r], n)
      == if n == r.end + 1 then flushed + [Run(r.start, n)] else (flushed + [r]) + [Run(n, n)]
  {
    assert (flushed + [r])[..|flushed|] == flushed;
  }

  lemma TokensSnoc(rs: seq<Run>, r: Run)
    ensures Tokens(rs + [r]) == Tokens(rs) + [Token(r)]
  {
    assert (rs + [r])[..|rs|] == rs;
  }

  lemma ExpandAppend(rs: seq<Run>, r: Run)
    ensures Expand(rs + [r]) == Expand(rs) + Interval(r.start, r.end)
  {
    assert (rs + [r])[..|rs|] == rs;
  }

  /**
   * The scan loses and reorders nothing: the runs, expanded back into their values,
   * are the scanned list itself, and every run is non-empty.
   */
  lemma {:induction false} RunsExpand(s: seq<int>)
    requires |s| > 0
    ensures Expand(Runs(s)) == s
    ensures forall i :: 0 <= i < |Runs(s)| ==> Runs(s)[i].start <= Runs(s)[i].end
  {
    if |s| > 1 {
      var p := s[..|s| - 1];
      RunsExpand(p);
      StepExpand(Runs(p), s[|s| - 1]);
      StepNonEmpty(Runs(p), s[|s| - 1]);
      assert s == p + [s[|s| - 1]];
    }
  }

  /** One scan step adds exactly `n` to the values the runs stand for. */
  lemma StepExpand(rs: seq<Run>, n: int)
    requires |rs| > 0 && rs[|rs| - 1].start <= rs[|rs| - 1].end
    ensures Expand(Step(rs, n)) == Expand(rs) + [n]
  {
    var last := rs[|rs| - 1];
    var st := Step(rs, n);
    if n == last.end + 1 {
      var init := rs[..|rs| - 1];
      assert st == init + [Run(last.start, last.end + 1)];
      assert Expand(rs) == Expand(init) + Interval(last.start, last.end);
      ExtendExpand(init, last);
    } else {
      assert st == rs + [Run(n, n)];
      SingletonExpand(rs, n);
    }
  }

  /** A new one-value run adds that value to the expansion. */
  lemma SingletonExpand(rs: seq<Run>, n: int)
    ensures Expand(rs + [Run(n, n)]) == Expand(rs) + [n]
  {
    ExpandAppend(rs, Run(n, n));
    assert Interval(n, n) == [n];
  }

  /** Growing the last run by one value adds that value to the expansion. */
  lemma ExtendExpand(init: seq<Run>, last: Run)
    requires last.start <= last.end
    ensures Expand(init + [Run(last.start, last.end + 1)])
      == Expand(init) + Interval(last.start, last.end) + [last.end + 1]
  {
    var n := last.end + 1;
    ExpandAppend(init, Run(last.start, n));
    var before, run := Expand(init), Interval(last.start, last.end);
    assert Interval(last.start, n) == run + [n];
    SnocAssoc(before, run, n);
  }

  lemma SnocAssoc(a: seq<int>, b: seq<int>, n: int)
    ensures a + (b + [n]) == (a + b) + [n]
  {
  }

  /** One scan step keeps every run non-empty. */
  lemma StepNonEmpty(rs: seq<Run>, n: int)
    requires |rs| > 0 && forall i :: 0 <= i < |rs| ==> rs[i].start <= rs[i].end
    ensures forall i :: 0 <= i < |Step(rs, n)| ==> Step(rs, n)[i].start <= Step(rs, n)[i].end
  {
    var r := Step(rs, n);
    forall i | 0 <= i < |r|
      ensures r[i].start <= r[i].end
    {
      if i < |rs| - 1 {
        assert r[i] == rs[i];
      }
    }
  }

  predicate NoJoin(rs: seq<Run>) {
    forall i :: 0 <= i < |rs| - 1 ==> rs[i + 1].start != rs[i].end + 1
  }

  predicate Ascending(rs: seq<Run>) {
    forall i :: 0 <= i < |rs| - 1 ==> rs[i].end <= rs[i + 1].start
  }

  predicate Gapped(rs: seq<Run>) {
    forall i :: 0 <= i < |rs| - 1 ==> rs[i].end + 2 <= rs[i + 1].start
  }

  lemma StepNoJoin(rs: seq<Run>, n: int)
    requires |rs| > 0 && NoJoin(rs)
    ensures NoJoin(Step(rs, n))
  {
    var r := Step(rs, n);
    if n == rs[|rs| - 1].end + 1 {
      forall i | 0 <= i < |r| - 1
        ensures r[i + 1].start != r[i].end + 1
      {
        assert r[i] == rs[i] && r[i + 1].start == rs[i + 1].start;
      }
    } else {
      forall i | 0 <= i < |r| - 1
        ensures r[i + 1].start != r[i].end + 1
      {
        assert r[i] == rs[i];
      }
    }
  }

  lemma StepAscending(rs: seq<Run>, n: int)
    requires |rs| > 0 && Ascending(rs) && rs[|rs| - 1].end <= n
    ensures Ascending(Step(rs, n))
  {
    var r := Step(rs, n);
    if n == rs[|rs| - 1].end + 1 {
      forall i | 0 <= i < |r| - 1
        ensures r[i].end <= r[i + 1].start
      {
        assert r[i] == rs[i] && r[i + 1].start == rs[i + 1].start;
      }
    } else {
      forall i | 0 <= i < |r| - 1
        ensures r[i].end <= r[i + 1].start
      {
        assert r[i] == rs[i];
      }
    }
  }

  lemma StepGapped(rs: seq<Run>, n: int)
    requires |rs| > 0 && Gapped(rs) && rs[|rs| - 1].end < n
    ensures Gapped(Step(rs, n))
  {
    var r := Step(rs, n);
    if n == rs[|rs| - 1].end + 1 {
      forall i | 0 <= i < |r| - 1
        ensures r[i].end + 2 <= r[i + 1].start
      {
        assert r[i] == rs[i] && r[i + 1].start == rs[i + 1].start;
      }
    } else {
      forall i | 0 <= i < |r| - 1
        ensures r[i].end + 2 <= r[i + 1].start
      {
        assert r[i] == rs[i];
      }
    }
  }

  /**
   * Consecutive runs never join up (the next run does not start at the previous end plus one);
   * on sorted input the runs come in ascending order, and on input without duplicates
   * every two runs are separated by at least one missing value.
   */
  lemma {:induction false} RunsSeparated(s: seq<int>)
    requires |s| > 0
    ensures NoJoin(Runs(s))
    ensures Sorted(s) ==> Ascending(Runs(s))
    ensures StrictlySorted(s) ==> Gapped(Runs(s))
  {
    if |s| > 1 {
      var p := s[..|s| - 1];
      RunsSeparated(p);
      var rs, n := Runs(p), s[|s| - 1];
      assert rs[|rs| - 1].end == s[|s| - 2];
      StepNoJoin(rs, n);
      if Sorted(s) {
        assert Sorted(p);
        assert s[|s| - 2] <= s[|s| - 1];
        StepAscending(rs, n);
      }
      if StrictlySorted(s) {
        assert StrictlySorted(p);
        assert s[|s| - 2] < s[|s| - 1];
        StepGapped(rs, n);
      }
    }
  }

  /** No value occurs twice. */
  predicate Distinct(s: seq<int>) {
    forall i, j :: 0 <= i < j < |s| ==> s[i] != s[j]
  }

  lemma {:induction false} DistinctCount(s: seq<int>, v: int)
    requires Distinct(s)
    ensures multiset(s)[v] <= 1
  {
    if s != [] {
      assert s == [s[0]] + s[1..];
      assert Distinct(s[1..]);
      DistinctCount(s[1..], v);
      if v == s[0] {
        assert v !in s[1..];
      }
    }
  }

  /** A value at two positions is counted at least twice. */
  lemma TwiceCounted(t: seq<int>, i: int, j: int)
    requires 0 <= i < j < |t| && t[i] == t[j]
    ensures multiset(t)[t[i]] >= 2
  {
    assert t == t[..j] + t[j..];
    assert t[i] == t[..j][i];
    assert t[j] == t[j..][0];
  }

  /**
   * Sorting a list without repeated values gives a strictly increasing list, so the runs of
   * duplicate-free input are separated by at least one missing value.
   */
  lemma DistinctRunsGapped(ints: seq<int>)
    requires |ints| > 0 && Distinct(ints)
    ensures StrictlySorted(SortAsc(ints))
    ensures Gapped(Runs(SortAsc(ints)))
  {
    var t := SortAsc(ints);
    SortAscSorted(ints);
    SortAscPermutation(ints);
    forall i, j | 0 <= i < j < |t|
      ensures t[i] < t[j]
    {
      if t[i] == t[j] {
        TwiceCounted(t, i, j);
        DistinctCount(ints, t[i]);
        assert false;
      }
    }
    assert |t| > 0 by {
      assert |multiset(t)| == |multiset(ints)|;
    }
    RunsSeparated(t);
  }

  /** Each value of a run occurs in its expansion, and nothing else does. */
  lemma {:induction false} InInterval(a: int, b: int, x: int)
    ensures x in Interval(a, b) <==> a <= x <= b
    decreases b - a
  {
    if a <= b {
      InInterval(a, b - 1, x);
    }
  }

  predicate Covered(rs: seq<Run>, x: int) {
    exists i :: 0 <= i < |rs| && rs[i].start <= x <= rs[i].end
  }

  lemma {:induction false} InExpand(rs: seq<Run>, x: int)
    ensures x in Expand(rs) <==> Covered(rs, x)
  {
    if rs != [] {
      var init, last := rs[..|rs| - 1], rs[|rs| - 1];
      InExpand(init, x);
      InInterval(last.start, last.end, x);
      if x in Expand(rs) && x !in Interval(last.start, last.end) {
        var i :| 0 <= i < |init| && init[i].start <= x <= init[i].end;
        assert rs[i] == init[i];
      }
      if exists i :: 0 <= i < |rs| && rs[i].start <= x <= rs[i].end {
        var i :| 0 <= i < |rs| && rs[i].start <= x <= rs[i].end;
        if i < |init| {
          assert init[i] == rs[i];
        }
      }
    }
  }

  /** A value is covered by some run exactly when it is one of the summarised indices. */
  lemma SummaryCovers(ints: seq<int>, x: int)
    requires |ints| > 0
    ensures |SortAsc(ints)| > 0
    ensures x in ints <==> Covered(Runs(SortAsc(ints)), x)
  {
    var sorted := SortAsc(ints);
    SortAscPermutation(ints);
    assert |sorted| == |ints| by {
      assert |multiset(sorted)| == |multiset(ints)|;
    }
    RunsExpand(sorted);
    InExpand(Runs(sorted), x);
    assert x in ints <==> x in multiset(ints);
    assert x in sorted <==> x in multiset(sorted);
  }

  /** Summing `b - a + 1` over the runs gives back the number of summarised indices. */
  function TotalLength(rs: seq<Run>): int {
    if rs == [] then 0 else TotalLength(rs[..|rs| - 1]) + (rs[|rs| - 1].end - rs[|rs| - 1].start + 1)
  }

  lemma {:induction false} TotalLengthExpand(rs: seq<Run>)
    requires forall i :: 0 <= i < |rs| ==> rs[i].start <= rs[i].end
    ensures TotalLength(rs) == |Expand(rs)|
  {
    if rs != [] {
      TotalLengthExpand(rs[..|rs| - 1]);
    }
  }

  lemma SummaryLength(ints: seq<int>)
    requires |ints| > 0
    ensures |SortAsc(ints)| > 0
    ensures TotalLength(Runs(SortAsc(ints))) == |ints|
  {
    var sorted := SortAsc(ints);
    SortAscPermutation(ints);
    assert |sorted| == |ints| by {
      assert |multiset(sorted)| == |multiset(ints)|;
    }
    RunsExpand(sorted);
    TotalLengthExpand(Runs(sorted));
  }

  /** The runs of the docstring example, shifted by any offset `a`. */
  lemma DocstringRuns(a: int)
    ensures Runs([a, a + 1, a + 2, a + 4, a + 5, a + 7]) == [Run(a, a + 2), Run(a + 4, a + 5), Run(a + 7, a + 7)]
  {
    var s1 := [a];
    var s2 := s1 + [a + 1];
    var s3 := s2 + [a + 2];
    var s4 := s3 + [a + 4];
    var s5 := s4 + [a + 5];
    var s6 := s5 + [a + 7];
    RunsSnoc(s1, a + 1);
    RunsSnoc(s2, a + 2);
    RunsSnoc(s3, a + 4);
    RunsSnoc(s4, a + 5);
    RunsSnoc(s5, a + 7);
    assert Runs(s2) == [Run(a, a + 1)];
    assert Runs(s3) == [Run(a, a + 2)];
    assert Runs(s4) == [Run(a, a + 2), Run(a + 4, a + 4)];
    assert Runs(s5) == [Run(a, a + 2), Run(a + 4, a + 5)];
    assert s6 == [a, a + 1, a + 2, a + 4, a + 5, a + 7];
  }

  lemma {:induction false} AsIntsPresent(nums: seq<Option<int>>, ints: seq<int>)
    requires |nums| == |ints| && forall i :: 0 <= i < |nums| ==> nums[i] == Some(ints[i])
    ensures AsInts(nums) == Some(ints)
  {
    if nums != [] {
      AsIntsPresent(nums[1..], ints[1..]);
      assert ints == [ints[0]] + ints[1..];
    }
  }

  lemma DocstringTokens()
    ensures Tokens([Run(0, 2), Run(4, 5), Run(7, 7)]) == ["0-2", "4-5", "7"]
  {
    var r1, r2, r3 := Run(0, 2), Run(4, 5), Run(7, 7);
    assert [r1][..0] == [];
    assert Token(r1) == "0-2" by {
      assert IntToString(0) == "0" && IntToString(2) == "2";
    }
    assert Token(r2) == "4-5" by {
      assert IntToString(4) == "4" && IntToString(5) == "5";
    }
    assert Token(r3) == "7" by {
      assert IntToString(7) == "7";
    }
    assert Tokens([r1]) == ["0-2"];
    assert [r1, r2][..1] == [r1];
    assert Tokens([r1, r2]) == ["0-2", "4-5"];
    assert [r1, r2, r3][..2] == [r1, r2];
  }

  /** Present, already sorted indices are summarised by scanning them as they are. */
  lemma SummarySorted(nums: seq<Option<int>>, ints: seq<int>)
    requires |nums| == |ints| > 0 && forall i :: 0 <= i < |nums| ==> nums[i] == Some(ints[i])
    requires Sorted(ints)
    ensures Summary(nums) == Some(Tokens(Runs(ints)))
  {
    AsIntsPresent(nums, ints);
    SortAscIdentity(ints);
  }

  /** The docstring's indices shifted by `a` summarise to the shifted runs. */
  lemma DocstringShifted(a: int)
    ensures Summary([Some(a), Some(a + 1), Some(a + 2), Some(a + 4), Some(a + 5), Some(a + 7)])
      == Some(Tokens([Run(a, a + 2), Run(a + 4, a + 5), Run(a + 7, a + 7)]))
  {
    SummarySorted([Some(a), Some(a + 1), Some(a + 2), Some(a + 4), Some(a + 5), Some(a + 7)],
                  [a, a + 1, a + 2, a + 4, a + 5, a + 7]);
    DocstringRuns(a);
  }

  /** The docstring example `[0, 1, 2, 4, 5, 7]` gives `['0-2', '4-5', '7']`. */
  lemma DocstringExample(nums: seq<Option<int>>)
    requires nums == [Some(0), Some(1), Some(2), Some(4), Some(5), Some(7)]
    ensures Summary(nums) == Some(["0-2", "4-5", "7"])
  {
    DocstringShifted(0);
    DocstringTokens();
  }

  /** A value repeated and then followed by its successor: the repeat opens a second run. */
  lemma DuplicateRuns(a: int)
    ensures Runs([a, a, a + 1]) == [Run(a, a), Run(a, a + 1)]
  {
    RunsSnoc([a], a);
    RunsSnoc([a, a], a + 1);
    assert [a] + [a] == [a, a];
    assert [a, a] + [a + 1] == [a, a, a + 1];
  }

  /** A repeated value is not absorbed: `[3, 3, 4]` gives `['3', '3-4']`. */
  lemma DuplicateExample(nums: seq<Option<int>>)
    requires nums == [Some(3), Some(3), Some(4)]
    ensures Summary(nums) == Some(["3", "3-4"])
  {
    var s := [3, 3, 4];
    SummarySorted(nums, s);
    DuplicateRuns(3);
    var r1, r2 := Run(3, 3), Run(3, 4);
    assert [r1][..0] == [];
    assert [r1, r2][..1] == [r1];
    assert Token(r1) == "3" && Token(r2) == "3-4" by {
      assert IntToString(3) == "3" && IntToString(4) == "4";
    }
    assert Tokens([r1]) == ["3"];
    assert Tokens([r1, r2]) == ["3", "3-4"];
  }

  /** A single index `x` gives `[str(x)]`. */
  lemma SingleExample(x: int)
    ensures Summary([Some(x)]) == Some([IntToString(x)])
  {
    var nums: seq<Option<int>> := [Some(x)];
    assert nums[1..] == [];
    assert AsInts(nums[1..]) == Some([]);
    assert nums[0] == Some(x);
    assert [x] + [] == [x];
    assert AsInts(nums) == Some([x] + []);
    assert AsInts(nums) == Some([x]);
    assert SortAsc([x]) == [x];
    assert Runs([x]) == [Run(x, x)];
    assert [Run(x, x)][..0] == [];
    assert Tokens([Run(x, x)]) == [IntToString(x)];
    assert Summary(nums) == Some([IntToString(x)]);
  }
}
