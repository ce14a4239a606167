/**
The timelines of `utils/grid.py`: binary search among the ranges and the events of
a timeline, and the slices that show what lies in a window.
*/
module Timeline {

  datatype Range = Range(start: int, end: int)

  // Ranges in order, each of them running forwards, that at most touch.
  ghost predicate Ordered(ranges: seq<Range>) {
    && (forall i :: 0 <= i < |ranges| ==> ranges[i].start <= ranges[i].end)
    && (forall i, j :: 0 <= i < j < |ranges| ==> ranges[i].end <= ranges[j].start)
  }

  ghost predicate Separated(ranges: seq<Range>) {
    forall i, j :: 0 <= i < j < |ranges| ==> ranges[i].end < ranges[j].start
  }

  predicate Contains(r: Range, key: int) {
    r.start <= key <= r.end
  }

  ghost predicate Covered(ranges: seq<Range>, key: int) {
    exists i :: 0 <= i < |ranges| && Contains(ranges[i], key)
  }

  predicate Meets(r: Range, start: int, end: int) {
    r.start <= end && start <= r.end
  }

  // The search as a function of the bounds it has left.
  function Found(ranges: seq<Range>, key: int, l: int, u: int): (i: int)
    requires 0 <= l && u < |ranges| && l <= u + 1
    ensures -1 <= i < |ranges|
    ensures i >= 0 ==> l <= i <= u && Contains(ranges[i], key)
    decreases u - l + 1
  {
    if l > u then -1
    else
      var i := (l + u) / 2;
      if Contains(ranges[i], key) then i
      else if key < ranges[i].start then Found(ranges, key, l, i - 1)
      else Found(ranges, key, i + 1, u)
  }

  function Search(ranges: seq<Range>, key: int): int {
    Found(ranges, key, 0, |ranges| - 1)
  }

  // How often a number can be halved.
  function Halvings(n: nat): nat {
    if n == 0 then 0 else 1 + Halvings(n / 2)
  }

  lemma {:induction false} HalvingsGrow(a: nat, b: nat)
    requires a <= b
    ensures Halvings(a) <= Halvings(b)
    decreases b
  {
    if a > 0 {
      HalvingsGrow(a / 2, b / 2);
    }
  }

  lemma {:induction false} HalvingsAre(n: nat)
    ensures Halvings(0) == 0 && Halvings(2 * n + 1) == Halvings(n) + 1
    ensures n > 0 ==> Halvings(2 * n) == Halvings(n) + 1
  {
  }

  // One turn leaves at most half of what was to be searched, on either side.
  lemma {:induction false} TurnLeavesHalf(l: int, u: int, i: int, n: nat, turns: nat)
    requires l <= u && i == (l + u) / 2 && turns + Halvings(u - l + 1) <= Halvings(n)
    ensures l <= i <= u && turns + 1 <= Halvings(n)
    ensures turns + 1 + Halvings(i - l) <= Halvings(n) && turns + 1 + Halvings(u - i) <= Halvings(n)
  {
    HalvingsGrow(i - l, (u - l + 1) / 2);
    HalvingsGrow(u - i, (u - l + 1) / 2);
  }

  method SearchRange(ranges: seq<Range>, key: int) returns (index: int, ghost turns: nat)
    ensures index == Search(ranges, key)
    ensures turns <= Halvings(|ranges|)
  {
    var l, u := 0, |ranges| - 1;
    turns := 0;
    while l <= u
      invariant 0 <= l <= u + 1 <= |ranges|
      invariant turns + Halvings(u - l + 1) <= Halvings(|ranges|)
      invariant Found(ranges, key, l, u) == Search(ranges, key)
      decreases u - l + 1
    {
      var i := (l + u) / 2;
      TurnLeavesHalf(l, u, i, |ranges|, turns);
      turns := turns + 1;
      if key >= ranges[i].start && key <= ranges[i].end {
        return i, turns;
      } else if key < ranges[i].start {
        u := i - 1;
      } else {
        l := i + 1;
      }
    }
    return -1, turns;
  }

  // The search misses nothing: it fails only where no range contains the key.
  lemma {:induction false} FoundIfAny(ranges: seq<Range>, key: int, l: int, u: int)
    requires Ordered(ranges) && 0 <= l && u < |ranges| && l <= u + 1
    ensures Found(ranges, key, l, u) == -1 ==> forall i :: l <= i <= u ==> !Contains(ranges[i], key)
    decreases u - l + 1
  {
    if l <= u {
      var i := (l + u) / 2;
      if Contains(ranges[i], key) {
      } else if key < ranges[i].start {
        FoundIfAny(ranges, key, l, i - 1);
      } else {
        FoundIfAny(ranges, key, i + 1, u);
      }
    }
  }

  // The search returns a range containing the key, or -1 exactly if there is none; in
  // separated ranges that range is the only one.
  lemma {:induction false} SearchMeaning(ranges: seq<Range>, key: int)
    requires Ordered(ranges)
    ensures -1 <= Search(ranges, key) < |ranges|
    ensures Search(ranges, key) == -1 <==> !Covered(ranges, key)
    ensures Covered(ranges, key) <==> exists i :: 0 <= i < |ranges| && ranges[i].start <= key <= ranges[i].end
    ensures Search(ranges, key) >= 0 ==> ranges[Search(ranges, key)].start <= key <= ranges[Search(ranges, key)].end
    ensures Separated(ranges) && Search(ranges, key) >= 0 ==>
      forall i :: 0 <= i < |ranges| && Contains(ranges[i], key) ==> i == Search(ranges, key)
  {
    FoundIfAny(ranges, key, 0, |ranges| - 1);
  }

  // ----- windows of ranges -----

  function RangesBounds(ranges: seq<Range>, start: int, end: int): (b: (int, int)) {
    var s, e := Search(ranges, start), Search(ranges, end);
    if s == -1 && e == -1 then (0, 0)
    else if s == -1 then (0, e + 1)
    else if e == -1 then (s, |ranges|)
    else (s, e + 1)
  }

  // What slicing a Python list gives, for bounds that are not negative.
  function Slice<T>(xs: seq<T>, lo: int, hi: int): seq<T>
    requires 0 <= lo && 0 <= hi
  {
    var h := if hi > |xs| then |xs| else hi;
    if lo >= h then [] else xs[lo..h]
  }

  // The elements at the places from `lo` up to `hi`, as far as there are any.
  ghost predicate IsSlice<T(!new)>(xs: seq<T>, lo: int, hi: int, shown: seq<T>)
    requires 0 <= lo
  {
    && (lo < hi && lo < |xs| ==> |shown| == (if hi < |xs| then hi else |xs|) - lo)
    && (hi <= lo || |xs| <= lo ==> shown == [])
    && forall k :: 0 <= k < |shown| && lo + k < |xs| ==> shown[k] == xs[lo + k]
  }

  lemma {:induction false} SliceIs<T(!new)>(xs: seq<T>, lo: int, hi: int, shown: seq<T>)
    requires 0 <= lo && 0 <= hi
    ensures shown == Slice(xs, lo, hi) <==> IsSlice(xs, lo, hi, shown)
  {
    var slice := Slice(xs, lo, hi);
    if IsSlice(xs, lo, hi, shown) {
      assert |shown| == |slice|;
      assert forall k :: 0 <= k < |shown| ==> shown[k] == slice[k];
    }
  }

  method GetRangesBounds(ranges: seq<Range>, start: int, end: int) returns (lo: int, hi: int)
    ensures (lo, hi) == RangesBounds(ranges, start, end)
    ensures Ordered(ranges) && !Covered(ranges, start) && !Covered(ranges, end) ==> lo == hi == 0
  {
    if Ordered(ranges) {
      SearchMeaning(ranges, start);
      SearchMeaning(ranges, end);
    }
    var s, _ := SearchRange(ranges, start);
    var e, _ := SearchRange(ranges, end);
    if s == -1 && e == -1 {
      return 0, 0;
    } else if s == -1 {
      return 0, e + 1;
    } else if e == -1 {
      return s, |ranges|;
    } else {
      return s, e + 1;
    }
  }

  method GetRanges(ranges: seq<Range>, start: int, end: int) returns (shown: seq<Range>)
    ensures var (lo, hi) := RangesBounds(ranges, start, end);
            0 <= lo && 0 <= hi && IsSlice(ranges, lo, hi, shown)
  {
    ghost var (lo, hi) := RangesBounds(ranges, start, end);
    SliceIs(ranges, lo, hi, Slice(ranges, lo, hi));
    var s, _ := SearchRange(ranges, start);
    var e, _ := SearchRange(ranges, end);
    if s == -1 && e == -1 {
      return [];
    } else if s == -1 {
      return ranges[0..e + 1];
    } else if e == -1 {
      return ranges[s..|ranges|];
    } else {
      return Slice(ranges, s, e + 1);
    }
  }

  // The window shows exactly the ranges that meet it.
  ghost predicate Exact(ranges: seq<Range>, start: int, end: int) {
    var (lo, hi) := RangesBounds(ranges, start, end);
    forall i :: 0 <= i < |ranges| ==> (lo <= i < hi <==> Meets(ranges[i], start, end))
  }

  // With both ends covered the window shows exactly the ranges that meet it, with one end
  // covered at least those.
  lemma {:induction false} WindowShowsAll(ranges: seq<Range>, start: int, end: int)
    requires Ordered(ranges) && Separated(ranges) && start <= end
    requires Covered(ranges, start) || Covered(ranges, end)
    ensures var (lo, hi) := RangesBounds(ranges, start, end);
            forall i :: 0 <= i < |ranges| && ranges[i].start <= end && start <= ranges[i].end ==> lo <= i < hi
    ensures Covered(ranges, start) && Covered(ranges, end) ==> Exact(ranges, start, end)
  {
    SearchMeaning(ranges, start);
    SearchMeaning(ranges, end);
  }

  // Place `k` is where a range that fills the window would be inserted.
  predicate FitsBefore(ranges: seq<Range>, start: int, end: int, k: int) {
    && 0 <= k <= |ranges|
    && (k > 0 ==> ranges[k - 1].end < start)
    && (k < |ranges| ==> end < ranges[k].start)
  }

  // What a caller can check to know whether the window is exact: with both ends uncovered,
  // nothing is shown, so that the window must lie between two ranges; an uncovered end shows
  // everything up to its side of the timeline.
  ghost predicate WindowFits(ranges: seq<Range>, start: int, end: int) {
    && (!Covered(ranges, start) && Covered(ranges, end) ==> start <= ranges[0].end)
    && (Covered(ranges, start) && !Covered(ranges, end) ==> ranges[|ranges| - 1].start <= end)
    && (!Covered(ranges, start) && !Covered(ranges, end) ==> exists k :: FitsBefore(ranges, start, end, k))
  }

  // The place just after the ranges that end before a key.
  lemma {:induction false} InsertionPoint(ranges: seq<Range>, key: int) returns (k: nat)
    requires Ordered(ranges)
    ensures k <= |ranges| && forall i :: 0 <= i < |ranges| ==> (i < k <==> ranges[i].end < key)
  {
    k := |ranges|;
    while k > 0 && ranges[k - 1].end >= key
      invariant 0 <= k <= |ranges| && forall i :: k <= i < |ranges| ==> ranges[i].end >= key
    {
      k := k - 1;
    }
  }

  lemma {:induction false} NoneMeetsIffFits(ranges: seq<Range>, start: int, end: int)
    requires Ordered(ranges) && start <= end
    ensures (forall i :: 0 <= i < |ranges| ==> !Meets(ranges[i], start, end)) <==> exists k :: FitsBefore(ranges, start, end, k)
  {
    if forall i :: 0 <= i < |ranges| ==> !Meets(ranges[i], start, end) {
      var k := InsertionPoint(ranges, start);
      assert k < |ranges| ==> !Meets(ranges[k], start, end);
      assert FitsBefore(ranges, start, end, k);
    }
  }

  lemma {:induction false} ExactIffWindowFits(ranges: seq<Range>, start: int, end: int)
    requires Ordered(ranges) && Separated(ranges) && start <= end
    ensures Exact(ranges, start, end) <==> WindowFits(ranges, start, end)
  {
    SearchMeaning(ranges, start);
    SearchMeaning(ranges, end);
    if !Covered(ranges, start) && Covered(ranges, end) {
      assert Meets(ranges[0], start, end) <==> start <= ranges[0].end;
    }
    if Covered(ranges, start) && !Covered(ranges, end) {
      var n := |ranges| - 1;
      assert Meets(ranges[n], start, end) <==> ranges[n].start <= end;
    }
    if !Covered(ranges, start) && !Covered(ranges, end) {
      NoneMeetsIffFits(ranges, start, end);
    }
  }

  // Touching ranges are enough to break it: every window with covered ends is exact if and
  // only if the ranges do not touch.
  lemma {:induction false} ExactIffSeparated(ranges: seq<Range>)
    requires Ordered(ranges)
    ensures Separated(ranges) <==>
      forall start, end :: start <= end && Covered(ranges, start) && Covered(ranges, end) ==> Exact(ranges, start, end)
  {
    if Separated(ranges) {
      forall start, end | start <= end && Covered(ranges, start) && Covered(ranges, end)
        ensures Exact(ranges, start, end)
      {
        WindowShowsAll(ranges, start, end);
      }
    } else {
      var i, j :| 0 <= i < j < |ranges| && ranges[i].end >= ranges[j].start;
      var key := ranges[i].end;
      SearchMeaning(ranges, key);
      assert Contains(ranges[i], key) && Contains(ranges[j], key);
      assert Meets(ranges[i], key, key) && Meets(ranges[j], key, key);
      assert !Exact(ranges, key, key);
    }
  }

  // ----- events -----

  ghost predicate Sorted(times: seq<int>) {
    forall i, j :: 0 <= i < j < |times| ==> times[i] <= times[j]
  }

  ghost predicate StrictlySorted(times: seq<int>) {
    forall i, j :: 0 <= i < j < |times| ==> times[i] < times[j]
  }

  function FoundEvent(times: seq<int>, key: int, l: int, u: int): (i: int)
    requires 0 <= l <= u + 1 <= |times|
    ensures l <= i <= u + 1
    decreases u - l + 1
  {
    if l > u then l
    else
      var i := (l + u) / 2;
      if key == times[i] then i
      else if key < times[i] then FoundEvent(times, key, l, i - 1)
      else FoundEvent(times, key, i + 1, u)
  }

  function SearchTime(times: seq<int>, key: int): (i: int)
    ensures 0 <= i <= |times|
  {
    FoundEvent(times, key, 0, |times| - 1)
  }

  method SearchEvent(times: seq<int>, key: int) returns (index: int, ghost turns: nat)
    ensures index == SearchTime(times, key)
    ensures turns <= Halvings(|times|)
  {
    var l, u := 0, |times| - 1;
    turns := 0;
    while l <= u
      invariant 0 <= l <= u + 1 <= |times|
      invariant turns + Halvings(u - l + 1) <= Halvings(|times|)
      invariant FoundEvent(times, key, l, u) == SearchTime(times, key)
      decreases u - l + 1
    {
      var i := (l + u) / 2;
      TurnLeavesHalf(l, u, i, |times|, turns);
      turns := turns + 1;
      if key == times[i] {
        return i, turns;
      } else if key < times[i] {
        u := i - 1;
      } else {
        l := i + 1;
      }
    }
    return l, turns;
  }

  // In sorted times the search finds the key, or else the first later time.
  lemma {:induction false} FoundEventMeaning(times: seq<int>, key: int, l: int, u: int)
    requires Sorted(times) && 0 <= l <= u + 1 <= |times|
    requires forall i :: 0 <= i < l ==> times[i] < key
    requires forall i :: u < i < |times| ==> key < times[i]
    ensures var i := FoundEvent(times, key, l, u);
            || (i < |times| && times[i] == key)
            || ((forall j :: 0 <= j < i ==> times[j] < key) && (forall j :: i <= j < |times| ==> key < times[j]))
    decreases u - l + 1
  {
    if l <= u {
      var i := (l + u) / 2;
      if key == times[i] {
      } else if key < times[i] {
        FoundEventMeaning(times, key, l, i - 1);
      } else {
        FoundEventMeaning(times, key, i + 1, u);
      }
    }
  }

  // In strictly increasing times it returns the first index that is not before the key.
  lemma {:induction false} SearchTimeMeaning(times: seq<int>, key: int)
    requires StrictlySorted(times)
    ensures forall i :: 0 <= i < |times| ==> (i < SearchTime(times, key) <==> times[i] < key)
  {
    FoundEventMeaning(times, key, 0, |times| - 1);
  }

  method GetEvents(times: seq<int>, start: int, end: int) returns (shown: seq<int>)
    ensures IsSlice(times, SearchTime(times, start), SearchTime(times, end) + 1, shown)
  {
    SliceIs(times, SearchTime(times, start), SearchTime(times, end) + 1, Slice(times, SearchTime(times, start), SearchTime(times, end) + 1));
    var s, _ := SearchEvent(times, start);
    var e, _ := SearchEvent(times, end);
    return Slice(times, s, e + 1);
  }

  method GetEventsBounds(times: seq<int>, start: int, end: int) returns (lo: int, hi: int)
    ensures (lo, hi) == (SearchTime(times, start), SearchTime(times, end) + 1)
  {
    var s, _ := SearchEvent(times, start);
    var e, _ := SearchEvent(times, end);
    return s, e + 1;
  }

  // Event `i` is shown in the window.
  predicate Shown(times: seq<int>, start: int, end: int, i: int) {
    0 <= i < |times| && SearchTime(times, start) <= i < SearchTime(times, end) + 1
  }

  // The window shows the events inside it and, if no event lies on its end, the first one
  // after it.
  lemma {:induction false} EventWindow(times: seq<int>, start: int, end: int, i: int)
    requires StrictlySorted(times) && start <= end && 0 <= i < |times|
    ensures Shown(times, start, end, i) <==>
            || start <= times[i] <= end
            || (end < times[i] && (forall j :: 0 <= j < i ==> times[j] < end))
  {
    SearchTimeMeaning(times, start);
    SearchTimeMeaning(times, end);
    var e := SearchTime(times, end);
    assert e < |times| ==> times[e] >= end;
    assert forall j :: 0 <= j < e ==> times[j] < end;
  }

  // Events at the same time break it: every window shows all the events inside it if and
  // only if no two are at the same time.
  lemma {:induction false} CompleteIffStrict(times: seq<int>)
    requires Sorted(times)
    ensures StrictlySorted(times) <==>
      forall start, end, i :: start <= end && 0 <= i < |times| && start <= times[i] <= end ==> Shown(times, start, end, i)
  {
    if StrictlySorted(times) {
      forall start, end, i | start <= end && 0 <= i < |times| && start <= times[i] <= end
        ensures Shown(times, start, end, i)
      {
        EventWindow(times, start, end, i);
      }
    } else {
      var i, j :| 0 <= i < j < |times| && times[i] >= times[j];
      var key := times[i];
      assert key <= times[i] <= key && key <= times[j] <= key;
      assert !Shown(times, key, key, i) || !Shown(times, key, key, j);
    }
  }
}
