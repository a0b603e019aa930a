/** Byte ranges: normalizing them, searching them, and picking offsets around them. */
module Ranges {
  import opened Wrappers

  /** The offsets from `begin` up to but not including `end`. */
  datatype Range = Range(begin: nat, end: nat)

  predicate In(r: Range, x: nat) { r.begin <= x < r.end }

  predicate Covered(rs: seq<Range>, x: nat) { exists i :: 0 <= i < |rs| && In(rs[i], x) }

  predicate NonEmpty(rs: seq<Range>) { forall i :: 0 <= i < |rs| ==> rs[i].begin < rs[i].end }

  predicate SortedByBegin(rs: seq<Range>) {
    forall i, j :: 0 <= i < j < |rs| ==> rs[i].begin <= rs[j].begin
  }

  method OffsetInRanges(offset: nat, ranges: seq<Range>) returns (found: bool)
    ensures found == Covered(ranges, offset)
  {
    for i := 0 to |ranges|
      invariant forall k :: 0 <= k < i ==> !In(ranges[k], offset)
    {
      if offset >= ranges[i].begin && offset < ranges[i].end {
        assert In(ranges[i], offset);
        return true;
      }
    }
    found := false;
  }

  // ---------- sorting ----------

  predicate LexLess(a: Range, b: Range) { a.begin < b.begin || (a.begin == b.begin && a.end < b.end) }

  predicate SortedLex(rs: seq<Range>) {
    forall i, j :: 0 <= i < j < |rs| ==> !LexLess(rs[j], rs[i])
  }

  ghost predicate SameCover(a: seq<Range>, b: seq<Range>) { forall x: nat :: Covered(a, x) <==> Covered(b, x) }

  lemma SameElementsSameCover(a: seq<Range>, b: seq<Range>)
    requires multiset(a) == multiset(b)
    ensures SameCover(a, b)
    ensures NonEmpty(a) <==> NonEmpty(b)
  {
    assert forall r :: r in a <==> r in multiset(a);
    assert forall r :: r in b <==> r in multiset(b);
    forall x: nat
      ensures Covered(a, x) <==> Covered(b, x)
    {
      assert Covered(a, x) <==> exists r :: r in a && In(r, x);
      assert Covered(b, x) <==> exists r :: r in b && In(r, x);
    }
    assert NonEmpty(a) <==> forall r :: r in a ==> r.begin < r.end;
    assert NonEmpty(b) <==> forall r :: r in b ==> r.begin < r.end;
  }

  /** The library sort, by insertion. */
  method Sort(ranges: seq<Range>) returns (out: seq<Range>)
    ensures multiset(out) == multiset(ranges) && SortedLex(out)
  {
    out := [];
    for i := 0 to |ranges|
      invariant multiset(out) == multiset(ranges[..i]) && SortedLex(out)
    {
      out := Insert(out, ranges[i]);
      assert ranges[..i + 1] == ranges[..i] + [ranges[i]];
    }
    assert ranges[..|ranges|] == ranges;
  }

  method Insert(sorted: seq<Range>, r: Range) returns (out: seq<Range>)
    requires SortedLex(sorted)
    ensures multiset(out) == multiset(sorted) + multiset{r} && SortedLex(out)
  {
    var at := 0;
    while at < |sorted| && !LexLess(r, sorted[at])
      invariant at <= |sorted|
      invariant forall k :: 0 <= k < at ==> !LexLess(r, sorted[k])
    {
      at := at + 1;
    }
    out := sorted[..at] + [r] + sorted[at..];
    assert sorted == sorted[..at] + sorted[at..];
    InsertKeepsOrder(sorted, r, at);
  }

  lemma InsertKeepsOrder(sorted: seq<Range>, r: Range, at: nat)
    requires SortedLex(sorted) && at <= |sorted|
    requires forall k :: 0 <= k < at ==> !LexLess(r, sorted[k])
    requires at < |sorted| ==> LexLess(r, sorted[at])
    ensures SortedLex(sorted[..at] + [r] + sorted[at..])
  {
    forall k | at <= k < |sorted|
      ensures !LexLess(sorted[k], r)
    {
      assert k > at ==> !LexLess(sorted[k], sorted[at]);
    }
  }

  // ---------- normalize_ranges ----------

  /** Non-empty ranges in order, with at least one uncovered offset between neighbours. */
  predicate Gapped(rs: seq<Range>) {
    NonEmpty(rs) && forall i :: 0 <= i < |rs| - 1 ==> rs[i].end < rs[i + 1].begin
  }

  lemma {:induction false} GappedOrder(rs: seq<Range>, i: nat, j: nat)
    requires Gapped(rs) && i < j < |rs|
    ensures rs[i].end < rs[j].begin
  {
    if i + 1 < j {
      GappedOrder(rs, i, j - 1);
    }
  }

  lemma GappedHead(rs: seq<Range>, x: nat)
    requires Gapped(rs) && rs != []
    ensures Covered(rs, x) ==> rs[0].begin <= x
    ensures rs[0].begin <= x < rs[0].end ==> Covered(rs, x)
    ensures x == rs[0].end ==> !Covered(rs, x)
    ensures Covered(rs[1..], x) <==> Covered(rs, x) && x > rs[0].end
    ensures Gapped(rs[1..])
  {
    forall j | 0 < j < |rs|
      ensures rs[0].end < rs[j].begin
    {
      GappedOrder(rs, 0, j);
    }
    if rs[0].begin <= x < rs[0].end {
      assert In(rs[0], x);
    }
    if Covered(rs, x) && x > rs[0].end {
      var i :| 0 <= i < |rs| && In(rs[i], x);
      assert In(rs[1..][i - 1], x);
    }
    if Covered(rs[1..], x) {
      var i :| 0 <= i < |rs[1..]| && In(rs[1..][i], x);
      assert In(rs[i + 1], x);
    }
  }

  lemma FirstIsCovered(rs: seq<Range>)
    requires Gapped(rs)
    ensures rs != [] ==> Covered(rs, rs[0].begin)
    ensures rs == [] ==> forall x: nat :: !Covered(rs, x)
  {
    if rs != [] {
      assert In(rs[0], rs[0].begin);
    }
  }

  /** Gapped ranges are canonical: what they cover determines them. */
  lemma {:induction false} GappedIsCanonical(a: seq<Range>, b: seq<Range>)
    requires Gapped(a) && Gapped(b) && SameCover(a, b)
    ensures a == b
  {
    FirstIsCovered(a);
    FirstIsCovered(b);
    if a != [] && b != [] {
      forall x: nat
        ensures Covered(a[1..], x) <==> Covered(b[1..], x)
        ensures a[0] == b[0]
      {
        FirstRangesAgree(a, b);
        GappedHead(a, x);
        GappedHead(b, x);
      }
      FirstRangesAgree(a, b);
      GappedHead(a, 0);
      GappedHead(b, 0);
      GappedIsCanonical(a[1..], b[1..]);
      assert a == [a[0]] + a[1..] && b == [b[0]] + b[1..];
    }
  }

  lemma FirstRangesAgree(a: seq<Range>, b: seq<Range>)
    requires Gapped(a) && Gapped(b) && SameCover(a, b) && a != [] && b != []
    ensures a[0] == b[0]
  {
    GappedHead(a, a[0].begin);
    GappedHead(b, a[0].begin);
    GappedHead(a, b[0].begin);
    GappedHead(b, b[0].begin);
    GappedHead(a, a[0].end);
    GappedHead(b, a[0].end);
    GappedHead(a, b[0].end);
    GappedHead(b, b[0].end);
  }

  lemma CoveredAppend(rs: seq<Range>, r: Range, x: nat)
    ensures Covered(rs + [r], x) <==> Covered(rs, x) || In(r, x)
  {
    if Covered(rs, x) {
      var i :| 0 <= i < |rs| && In(rs[i], x);
      assert In((rs + [r])[i], x);
    }
    if In(r, x) {
      assert In((rs + [r])[|rs|], x);
    }
  }

  method RemoveEmpty(ranges: seq<Range>) returns (kept: seq<Range>)
    ensures NonEmpty(kept) && SameCover(kept, ranges)
  {
    kept := [];
    for i := 0 to |ranges|
      invariant NonEmpty(kept) && SameCover(kept, ranges[..i])
    {
      assert ranges[..i + 1] == ranges[..i] + [ranges[i]];
      forall x: nat
        ensures Covered(ranges[..i + 1], x) <==> Covered(ranges[..i], x) || In(ranges[i], x)
        ensures Covered(kept + [ranges[i]], x) <==> Covered(kept, x) || In(ranges[i], x)
      {
        CoveredAppend(ranges[..i], ranges[i], x);
        CoveredAppend(kept, ranges[i], x);
      }
      if !(ranges[i].end <= ranges[i].begin) {
        kept := kept + [ranges[i]];
      }
    }
    assert ranges[..|ranges|] == ranges;
  }

  /** The last range made to reach as far as `r`. */
  function Widened(merged: seq<Range>, r: Range): seq<Range>
    requires merged != []
  {
    var last := merged[|merged| - 1];
    merged[..|merged| - 1] + [last.(end := Max(last.end, r.end))]
  }

  lemma WidenedCovers(merged: seq<Range>, r: Range)
    requires Gapped(merged) && merged != []
    requires merged[|merged| - 1].begin <= r.begin <= merged[|merged| - 1].end
    ensures Gapped(Widened(merged, r))
    ensures forall x: nat :: Covered(Widened(merged, r), x) <==> Covered(merged, x) || In(r, x)
  {
    var n := |merged| - 1;
    var last := merged[n];
    assert merged == merged[..n] + [last];
    forall x: nat
      ensures Covered(Widened(merged, r), x) <==> Covered(merged, x) || In(r, x)
    {
      CoveredAppend(merged[..n], last, x);
      CoveredAppend(merged[..n], last.(end := Max(last.end, r.end)), x);
    }
  }

  method Merge(sorted: seq<Range>) returns (merged: seq<Range>)
    requires NonEmpty(sorted) && SortedLex(sorted)
    ensures Gapped(merged) && SameCover(merged, sorted)
  {
    merged := [];
    for i := 0 to |sorted|
      invariant Gapped(merged) && SameCover(merged, sorted[..i])
      invariant merged != [] ==> forall k :: i <= k < |sorted| ==> merged[|merged| - 1].begin <= sorted[k].begin
    {
      var r := sorted[i];
      ghost var before := merged;
      assert sorted[..i + 1] == sorted[..i] + [r];
      if merged == [] || r.begin > merged[|merged| - 1].end {
        merged := merged + [r];
        forall x: nat
          ensures Covered(merged, x) <==> Covered(before, x) || In(r, x)
        {
          CoveredAppend(before, r, x);
        }
      } else {
        WidenedCovers(merged, r);
        merged := Widened(merged, r);
      }
      forall x: nat
        ensures Covered(sorted[..i + 1], x) <==> Covered(sorted[..i], x) || In(r, x)
      {
        CoveredAppend(sorted[..i], r, x);
      }
    }
    assert sorted[..|sorted|] == sorted;
  }

  /** The result is gapped and covers exactly what was covered; no other gapped list does. */
  method NormalizeRanges(ranges: seq<Range>) returns (merged: seq<Range>)
    ensures Gapped(merged) && SameCover(merged, ranges)
    ensures forall other :: Gapped(other) && SameCover(other, ranges) ==> other == merged
  {
    var kept := RemoveEmpty(ranges);
    var sorted := Sort(kept);
    SameElementsSameCover(sorted, kept);
    merged := Merge(sorted);
    forall other | Gapped(other) && SameCover(other, ranges)
      ensures other == merged
    {
      GappedIsCanonical(other, merged);
    }
  }

  // ---------- is_protected: a binary search by `begin` ----------

  /** The last range that begins at or before `x` holds `x`. */
  predicate LastCovers(rs: seq<Range>, x: nat) {
    exists i :: 0 <= i < |rs| && In(rs[i], x) && (i + 1 < |rs| ==> x < rs[i + 1].begin)
  }

  function Middle(lo: nat, hi: nat): (mid: nat)
    requires lo < hi
    ensures lo <= mid < hi
  {
    lo + (hi - lo) / 2
  }

  /** Where bisecting for the first range that begins after `x` ends, whatever the order of the ranges. */
  function UpperBound(rs: seq<Range>, x: nat, lo: nat, hi: nat): (u: nat)
    requires lo <= hi <= |rs|
    ensures lo <= u <= hi
    decreases hi - lo
  {
    if lo == hi then lo else
    var mid := Middle(lo, hi);
    if x < rs[mid].begin then UpperBound(rs, x, lo, mid) else UpperBound(rs, x, mid + 1, hi)
  }

  /** The range just before that one holds `x`. */
  predicate SearchHits(rs: seq<Range>, x: nat) {
    var u := UpperBound(rs, x, 0, |rs|);
    u > 0 && In(rs[u - 1], x)
  }

  /** The search computes its answer on ranges in any order; on sorted ones that is the promised one. */
  method IsProtected(ranges: seq<Range>, offset: nat) returns (found: bool)
    ensures found == SearchHits(ranges, offset)
    ensures SortedByBegin(ranges) ==> found == LastCovers(ranges, offset)
    ensures found ==> Covered(ranges, offset)
  {
    hide SortedByBegin, LastCovers, Covered, Middle;
    HitsWhatIsCovered(ranges, offset);
    if SortedByBegin(ranges) {
      SortedIsPartitioned(ranges, offset);
      SearchHitsLast(ranges, offset);
    }
    if ranges == [] {
      return false;
    }
    var lo, hi := 0, |ranges|;
    while lo < hi
      invariant 0 <= lo <= hi <= |ranges|
      invariant UpperBound(ranges, offset, lo, hi) == UpperBound(ranges, offset, 0, |ranges|)
    {
      var mid := Middle(lo, hi);
      if offset < ranges[mid].begin {
        hi := mid;
      } else {
        lo := mid + 1;
      }
    }
    if lo == 0 {
      return false;
    }
    found := offset >= ranges[lo - 1].begin && offset < ranges[lo - 1].end;
  }

  lemma HitsWhatIsCovered(rs: seq<Range>, x: nat)
    ensures SearchHits(rs, x) ==> Covered(rs, x)
  {
  }

  /** The ranges that begin at or before `x` come first. */
  predicate PartitionedAt(rs: seq<Range>, x: nat) {
    forall i, j :: 0 <= i < j < |rs| && rs[j].begin <= x ==> rs[i].begin <= x
  }

  lemma SortedIsPartitioned(rs: seq<Range>, x: nat)
    requires SortedByBegin(rs)
    ensures PartitionedAt(rs, x)
  {
  }

  lemma {:induction false} UpperBoundSplits(rs: seq<Range>, x: nat, lo: nat, hi: nat)
    requires lo <= hi <= |rs| && PartitionedAt(rs, x)
    requires forall k :: 0 <= k < lo ==> rs[k].begin <= x
    requires forall k :: hi <= k < |rs| ==> x < rs[k].begin
    ensures forall k :: 0 <= k < |rs| ==> (rs[k].begin <= x <==> k < UpperBound(rs, x, lo, hi))
    decreases hi - lo
  {
    hide Middle;
    if lo < hi {
      var mid := Middle(lo, hi);
      if x < rs[mid].begin {
        UpperBoundSplits(rs, x, lo, mid);
      } else {
        UpperBoundSplits(rs, x, mid + 1, hi);
      }
    }
  }

  /** Where the ranges are partitioned, the search looks at the last one that begins at or before the offset. */
  lemma SearchHitsLast(rs: seq<Range>, x: nat)
    requires PartitionedAt(rs, x)
    ensures SearchHits(rs, x) <==> LastCovers(rs, x)
  {
    UpperBoundSplits(rs, x, 0, |rs|);
    var u := UpperBound(rs, x, 0, |rs|);
    if LastCovers(rs, x) {
      var i :| 0 <= i < |rs| && In(rs[i], x) && (i + 1 < |rs| ==> x < rs[i + 1].begin);
      assert i + 1 == u;
    }
    if u > 0 && In(rs[u - 1], x) {
      assert u < |rs| ==> x < rs[u].begin;
    }
  }

  // ---------- ranges that nobody sorted ----------

  lemma {:induction false} UpperBoundGrows(rs: seq<Range>, x: nat, y: nat, lo: nat, hi: nat)
    requires lo <= hi <= |rs| && x <= y
    ensures UpperBound(rs, x, lo, hi) <= UpperBound(rs, y, lo, hi)
    decreases hi - lo
  {
    hide Middle;
    if lo < hi {
      var mid := Middle(lo, hi);
      if y < rs[mid].begin {
        UpperBoundGrows(rs, x, y, lo, mid);
      } else if rs[mid].begin <= x {
        UpperBoundGrows(rs, x, y, mid + 1, hi);
      }
    }
  }

  /** No offset is in two of the ranges. */
  predicate Disjoint(rs: seq<Range>) {
    forall i, j :: 0 <= i < j < |rs| ==> rs[i].end <= rs[j].begin || rs[j].end <= rs[i].begin
  }

  lemma FoundInItsRange(rs: seq<Range>, i: nat)
    requires NonEmpty(rs) && Disjoint(rs) && i < |rs| && SearchHits(rs, rs[i].begin)
    ensures UpperBound(rs, rs[i].begin, 0, |rs|) == i + 1
  {
    assert In(rs[i], rs[i].begin);
  }

  /** Without overlaps the search agrees with the linear scan at every offset if and only if the ranges are sorted. */
  lemma DisjointSearchExactlyWhenSorted(rs: seq<Range>)
    requires NonEmpty(rs) && Disjoint(rs)
    ensures (forall x: nat :: SearchHits(rs, x) <==> Covered(rs, x)) <==> SortedByBegin(rs)
  {
    hide SearchHits, UpperBound, Covered;
    if SortedByBegin(rs) {
      SearchAgreesExactlyWhen(rs);
      forall x: nat
        ensures SearchHits(rs, x) <==> Covered(rs, x)
      {
        SearchHitsLast(rs, x);
        assert LastCovers(rs, x) <==> Covered(rs, x);
      }
    }
    if forall x: nat :: SearchHits(rs, x) <==> Covered(rs, x) {
      forall i, j | 0 <= i < j < |rs|
        ensures rs[i].begin <= rs[j].begin
      {
        BeginsAreFound(rs, i);
        BeginsAreFound(rs, j);
        if rs[j].begin < rs[i].begin {
          UpperBoundGrows(rs, rs[j].begin, rs[i].begin, 0, |rs|);
        }
      }
    }
  }

  lemma BeginsAreFound(rs: seq<Range>, i: nat)
    requires NonEmpty(rs) && Disjoint(rs) && i < |rs|
    requires forall x: nat :: SearchHits(rs, x) <==> Covered(rs, x)
    ensures UpperBound(rs, rs[i].begin, 0, |rs|) == i + 1
  {
    assert In(rs[i], rs[i].begin) && Covered(rs, rs[i].begin);
    FoundInItsRange(rs, i);
  }

  /** Ranges 5..6 and 0..3, as a global recipe may list them: offset 5 is covered and not found. */
  lemma UnsortedExample()
    ensures var rs := [Range(5, 6), Range(0, 3)];
      NonEmpty(rs) && Disjoint(rs) && Covered(rs, 5) && !SearchHits(rs, 5)
  {
    var rs := [Range(5, 6), Range(0, 3)];
    assert In(rs[0], 5);
    assert UpperBound(rs, 5, 0, 2) == UpperBound(rs, 5, 2, 2);
  }

  /** No range reaches past the end of a later one into offsets the search leaves to that later one. */
  predicate NothingHidden(rs: seq<Range>) {
    forall i, j :: 0 <= i < j < |rs| ==> !Hides(rs, i, j)
  }

  predicate Hides(rs: seq<Range>, i: nat, j: nat)
    requires i < j < |rs|
  {
    rs[j].end < rs[i].end && (j + 1 < |rs| ==> rs[j].end < rs[j + 1].begin)
  }

  lemma LastCoversIsCovered(rs: seq<Range>, x: nat)
    ensures LastCovers(rs, x) ==> Covered(rs, x)
  {
  }

  lemma {:induction false} LastBeginning(rs: seq<Range>, i: nat, x: nat) returns (last: nat)
    requires SortedByBegin(rs) && i < |rs| && rs[i].begin <= x
    ensures i <= last < |rs| && rs[last].begin <= x && (last + 1 < |rs| ==> x < rs[last + 1].begin)
    decreases |rs| - i
  {
    if i + 1 < |rs| && rs[i + 1].begin <= x {
      last := LastBeginning(rs, i + 1, x);
    } else {
      last := i;
    }
  }

  lemma SearchFinds(rs: seq<Range>, x: nat)
    requires SortedByBegin(rs) && NothingHidden(rs) && Covered(rs, x)
    ensures LastCovers(rs, x)
  {
    var i :| 0 <= i < |rs| && In(rs[i], x);
    var last := LastBeginning(rs, i, x);
    if i < last {
      assert !Hides(rs, i, last);
    }
    assert In(rs[last], x);
  }

  /** The offset just past range `j` that the search misses when range `i` still covers it. */
  lemma SearchMisses(rs: seq<Range>, i: nat, j: nat)
    requires SortedByBegin(rs) && NonEmpty(rs) && i < j < |rs|
    requires Hides(rs, i, j)
    ensures Covered(rs, rs[j].end) && !LastCovers(rs, rs[j].end)
  {
    var x := rs[j].end;
    assert In(rs[i], x);
    forall k | 0 <= k < |rs| && In(rs[k], x)
      ensures k + 1 < |rs| && rs[k + 1].begin <= x
    {
      assert k < j;
    }
  }

  /**
    The binary search agrees with the linear scan at every offset if and only if nothing is hidden.
    Sorting by `begin`, which is all the loader does, is not enough.
   */
  lemma SearchAgreesExactlyWhen(rs: seq<Range>)
    requires SortedByBegin(rs) && NonEmpty(rs)
    ensures (forall x: nat :: LastCovers(rs, x) <==> Covered(rs, x)) <==> NothingHidden(rs)
  {
    if NothingHidden(rs) {
      forall x: nat
        ensures LastCovers(rs, x) <==> Covered(rs, x)
      {
        LastCoversIsCovered(rs, x);
        if Covered(rs, x) {
          SearchFinds(rs, x);
        }
      }
    } else {
      var i, j :| 0 <= i < j < |rs| && Hides(rs, i, j);
      SearchMisses(rs, i, j);
    }
  }

  /** Normalized ranges hide nothing. */
  lemma GappedHidesNothing(rs: seq<Range>)
    requires Gapped(rs)
    ensures SortedByBegin(rs) && NonEmpty(rs) && NothingHidden(rs)
  {
    forall i, j | 0 <= i < j < |rs|
      ensures rs[i].begin <= rs[j].begin && rs[i].end <= rs[j].end
    {
      GappedOrder(rs, i, j);
    }
  }

  /** Ranges 0..10 and 2..3, as the loader sorts them: offset 5 is covered and not found. */
  lemma HiddenOffsetExample()
    ensures var rs := [Range(0, 10), Range(2, 3)];
      SortedByBegin(rs) && NonEmpty(rs) && Covered(rs, 5) && !LastCovers(rs, 5)
  {
    var rs := [Range(0, 10), Range(2, 3)];
    assert In(rs[0], 5);
  }

  // ---------- picking offsets ----------

  /** A draw from a uniform distribution: any value of its range. */
  method Draw(low: nat, high: nat) returns (x: nat)
    requires low <= high
    ensures low <= x <= high
  {
    x :| low <= x <= high;
  }

  method RandomOffset(size: nat) returns (x: nat)
    ensures if size == 0 then x == 0 else x < size
  {
    if size == 0 {
      return 0;
    }
    x := Draw(0, size - 1);
  }

  predicate InOrClamped(r: Range, x: nat, size: nat) { In(r, x) || (size <= r.begin && x == size - 1) }

  /** A draw inside one of the focus ranges, clamped to the buffer. */
  method DrawFocus(focus: seq<Range>, size: nat) returns (candidate: nat)
    requires size > 0 && NonEmpty(focus)
    ensures candidate < size
    ensures focus != [] ==> exists i :: 0 <= i < |focus| && InOrClamped(focus[i], candidate, size)
  {
    if focus != [] {
      var i := Draw(0, |focus| - 1);
      var r := focus[i];
      var begin := Min(r.begin, size - 1);
      var end := Min(Max(r.end, r.begin + 1), size);
      candidate := Draw(begin, end - 1);
      assert InOrClamped(focus[i], candidate, size);
    } else {
      candidate := RandomOffset(size);
    }
  }

  predicate Drawable(focus: seq<Range>, size: nat, x: nat) {
    x < size && (focus != [] ==> exists i :: 0 <= i < |focus| && InOrClamped(focus[i], x, size))
  }

  predicate AllHit(protect: seq<Range>, size: nat) { forall x :: 0 <= x < size ==> SearchHits(protect, x) }

  /**
    What the mutator may choose, the ranges sorted or not: an unprotected draw, or any unprotected
    offset once a draw can be protected; only 0 if the search calls every offset protected.
   */
  ghost predicate Pickable(focus: seq<Range>, protect: seq<Range>, size: nat, x: nat) {
    && x < size
    && if AllHit(protect, size) then x == 0
       else !SearchHits(protect, x) && (Drawable(focus, size, x) || DrawsHit(focus, protect, size))
  }

  ghost predicate DrawsHit(focus: seq<Range>, protect: seq<Range>, size: nat) {
    exists c: nat :: Drawable(focus, size, c) && SearchHits(protect, c)
  }

  /**
    The mutator's choice is inside the buffer, and one of those above.  With sorted ranges it
    is unprotected whenever any offset is, and 0 when every offset is protected.
   */
  method ChooseFocusOffset(focus: seq<Range>, protect: seq<Range>, size: nat) returns (offset: nat)
    requires NonEmpty(focus)
    ensures if size == 0 then offset == 0 else Pickable(focus, protect, size, offset)
    ensures SortedByBegin(protect) && (exists x :: 0 <= x < size && !LastCovers(protect, x)) ==>
      !LastCovers(protect, offset)
    ensures SortedByBegin(protect) && (forall x :: 0 <= x < size ==> LastCovers(protect, x)) ==> offset == 0
  {
    hide SortedByBegin, LastCovers, SearchHits;
    if size == 0 {
      return 0;
    }
    SortedHits(protect);
    for attempt := 0 to 16
      invariant attempt > 0 ==> DrawsHit(focus, protect, size)
    {
      var candidate := DrawFocus(focus, size);
      assert Drawable(focus, size, candidate);
      var protected := IsProtected(protect, candidate);
      if !protected {
        return candidate;
      }
    }
    var start := RandomOffset(size);
    for i := 0 to size
      invariant forall k :: 0 <= k < i ==> SearchHits(protect, Wrap(start, k, size))
    {
      var cand := Wrap(start, i, size);
      var protected := IsProtected(protect, cand);
      if !protected {
        return cand;
      }
    }
    forall x | 0 <= x < size
      ensures SearchHits(protect, x)
    {
      WrapsAround(start, x, size);
    }
    offset := 0;
  }

  lemma SortedHits(protect: seq<Range>)
    ensures SortedByBegin(protect) ==> forall x: nat :: SearchHits(protect, x) <==> LastCovers(protect, x)
  {
    hide SearchHits, LastCovers, SortedByBegin;
    if SortedByBegin(protect) {
      forall x: nat
        ensures SearchHits(protect, x) <==> LastCovers(protect, x)
      {
        SortedIsPartitioned(protect, x);
        SearchHitsLast(protect, x);
      }
    }
  }

  /** What may be chosen among sorted ranges is unprotected, or everything is protected and it is 0. */
  lemma PickableIsFree(focus: seq<Range>, protect: seq<Range>, size: nat, x: nat)
    requires Pickable(focus, protect, size, x) && SortedByBegin(protect) && LastCovers(protect, x)
    ensures x == 0 && forall y :: 0 <= y < size ==> LastCovers(protect, y)
  {
    hide SearchHits, LastCovers, SortedByBegin;
    SortedHits(protect);
  }

  function Wrap(start: nat, i: nat, size: nat): (x: nat)
    requires size > 0
    ensures x < size
  {
    (start + i) % size
  }

  /** Every offset comes up in the scan that starts anywhere and wraps around. */
  lemma WrapsAround(start: nat, x: nat, size: nat)
    requires start < size && x < size
    ensures exists k :: 0 <= k < size && Wrap(start, k, size) == x
  {
    var k := if x >= start then x - start else x + size - start;
    assert start + k == x || start + k == x + size;
    assert Wrap(start, k, size) == x;
  }

  /** A draw from the focus that no range covers; once a draw may be covered, the first offset that is not may come. */
  ghost predicate Selectable(focus: seq<Range>, protect: seq<Range>, size: nat, x: nat) {
    || Drawable(focus, size, x)
    || (DrawsCovered(focus, protect, size) && forall y: nat :: y < x ==> Covered(protect, y))
  }

  ghost predicate DrawsCovered(focus: seq<Range>, protect: seq<Range>, size: nat) {
    exists c: nat :: Drawable(focus, size, c) && Covered(protect, c)
  }

  /** The controller's choice: nothing exactly when every offset is protected. */
  method SelectMutationOffset(focus: seq<Range>, protect: seq<Range>, size: nat) returns (offset: Option<nat>)
    ensures offset.None? <==> forall x :: 0 <= x < size ==> Covered(protect, x)
    ensures offset.Some? ==> offset.value < size && !Covered(protect, offset.value)
    ensures offset.Some? && NonEmpty(focus) ==> Selectable(focus, protect, size, offset.value)
  {
    if size == 0 {
      return None;
    }
    for attempt := 0 to 32
      invariant attempt > 0 && NonEmpty(focus) ==> DrawsCovered(focus, protect, size)
    {
      var candidate := 0;
      if focus != [] {
        var i := Draw(0, |focus| - 1);
        var begin := Min(focus[i].begin, size - 1);
        var end := Min(Max(focus[i].end, focus[i].begin + 1), size);
        if end <= begin {
          continue;
        }
        candidate := Draw(begin, end - 1);
        assert NonEmpty(focus) ==> InOrClamped(focus[i], candidate, size);
      } else {
        candidate := Draw(0, size - 1);
      }
      assert NonEmpty(focus) ==> Drawable(focus, size, candidate);
      var protected := OffsetInRanges(candidate, protect);
      if !protected {
        return Some(candidate);
      }
    }
    for candidate := 0 to size
      invariant forall x :: 0 <= x < candidate ==> Covered(protect, x)
    {
      var protected := OffsetInRanges(candidate, protect);
      if !protected {
        return Some(candidate);
      }
    }
    offset := None;
  }

  /** With nothing hidden the two choosers protect the same offsets. */
  lemma ChoosersAgree(protect: seq<Range>, offset: nat)
    requires SortedByBegin(protect) && NothingHidden(protect) && !LastCovers(protect, offset)
    ensures !Covered(protect, offset)
  {
    if Covered(protect, offset) {
      SearchFinds(protect, offset);
    }
  }
}
