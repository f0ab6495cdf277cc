/** pkg/intervalstore: a list of inclusive uint64 ranges, merged in place as ranges are added. */
module Intervals {
  import opened Common
  import opened IntervalsText

  /** x + 1 as the machine computes it. */
  function Inc(x: Uint64): Uint64 { if x == MAX_UINT64 then 0 else x + 1 }

  /** Sorted, disjoint, non-adjacent, and nothing under the lower bound. */
  predicate WellFormed(lower: Uint64, r: seq<Range>) {
    && (forall k :: 0 <= k < |r| ==> lower <= r[k].lo <= r[k].hi)
    && (forall k, m :: 0 <= k < m < |r| ==> r[k].hi + 1 < r[m].lo)
  }

  predicate Covers(r: seq<Range>, x: int) { exists k :: 0 <= k < |r| && r[k].lo <= x <= r[k].hi }

  /** The values of `now` are those of `was` and those of lo..hi. */
  ghost predicate CoversSum(now: seq<Range>, was: seq<Range>, lo: int, hi: int) {
    forall x :: Covers(now, x) <==> Covers(was, x) || lo <= x <= hi
  }

  predicate StrictlyInside(r: seq<Range>, k: nat, start: Uint64, end: Uint64) {
    k < |r| && r[k].lo < start && end + 1 < r[k].hi
  }

  /** What a caller can check before add, to know that the list stays well formed. */
  predicate AddKeeps(lower: Uint64, r: seq<Range>, start: Uint64, end: Uint64) {
    || end < lower
    || (var s := Max(start, lower);
        && (forall k :: 0 <= k < |r| ==> !StrictlyInside(r, k, s, end))
        && (end < MAX_UINT64 || |r| == 0 || (|r| == 1 && s <= r[0].hi + 1)))
  }

  /** Ranges before `below` end too early to touch start..end, those from `upto` on begin too late. */
  ghost predicate Splits(r: seq<Range>, start: Uint64, end: Uint64, below: nat, upto: nat) {
    && below <= upto <= |r|
    && (forall k :: 0 <= k < |r| ==> (k < below <==> r[k].hi + 1 < start))
    && (forall k :: 0 <= k < |r| ==> (k < upto <==> r[k].lo <= end + 1))
  }

  /** The list in which everything from below to upto is one range. */
  ghost function Spliced(r: seq<Range>, start: Uint64, end: Uint64, below: nat, upto: nat): seq<Range>
    requires below <= upto <= |r|
  {
    var lo := if below < upto then Min(start, r[below].lo) else start;
    var hi := if below < upto then Max(end, r[upto - 1].hi) else end;
    r[..below] + [Range(lo, hi)] + r[upto..]
  }

  /** Everything from the lower bound on is stored. */
  predicate Full(lower: Uint64, r: seq<Range>) { r != [] && r[0] == Range(lower, MAX_UINT64) }

  /** The first gap has no end. */
  predicate OpenEnded(lower: Uint64, r: seq<Range>) { r == [] || (|r| == 1 && r[0].lo == lower) }

  /** The first gap is the single value 0. */
  predicate Ambiguous(lower: Uint64, r: seq<Range>) { r != [] && lower == 0 && r[0].lo == 1 }

  ghost predicate FirstMissing(lower: Uint64, r: seq<Range>, x: int) {
    lower <= x && !Covers(r, x) && forall y :: lower <= y < x ==> Covers(r, y)
  }

  class Intervals {
    var start: Uint64
    var ranges: seq<Range>

    constructor (lower: Uint64)
      ensures start == lower && ranges == []
    {
      start := lower;
      ranges := [];
    }

    /** Whatever the list was, as a set it grows by exactly the clipped range; it stays merged exactly when AddKeeps. */
    method Add(from: Uint64, end: Uint64)
      modifies `ranges
      ensures from <= end && WellFormed(start, old(ranges)) ==>
                && CoversSum(ranges, old(ranges), Max(from, start), end)
                && (WellFormed(start, ranges) <==> AddKeeps(start, old(ranges), from, end))
    {
      hide WellFormed, CoversSum, AddKeeps, Splits, Scanned, Written;
      var s: Uint64 := if from < start then start else from;
      if end < start {
        ClippedAway(start, ranges, from, end);
        return;
      }
      ghost var r := ranges;
      ghost var below, upto;
      var v;
      v, below, upto := Scan(s, end);
      if from <= end && WellFormed(start, r) { Outcome(start, r, from, end, below, upto, v); }
      Splice(v);
    }

    /**
     * The first gap, cut at the ceiling unless that is 0. An end of 0 stands for a gap without end;
     * the one list for which 0 is also the last value of the first gap is read wrongly. A list that
     * holds everything reports a gap from 0.
     */
    method Next(ceiling: Uint64) returns (s: Uint64, e: Uint64, empty: bool)
      ensures WellFormed(start, ranges) && !Full(start, ranges) && ceiling == 0 ==>
                && FirstMissing(start, ranges, s) && !empty
                && (OpenEnded(start, ranges) ==> e == 0 && forall x :: s <= x ==> !Covers(ranges, x))
                && (!OpenEnded(start, ranges) ==>
                      s <= e && Covers(ranges, e + 1) && forall x :: s <= x <= e ==> !Covers(ranges, x))
                && (e == 0 <==> OpenEnded(start, ranges) || Ambiguous(start, ranges))
      ensures WellFormed(start, ranges) && !Full(start, ranges) && ceiling > 0 ==>
                && (empty <==> forall x :: start <= x <= ceiling ==> Covers(ranges, x))
                && (empty ==> s == e == ceiling)
                && (!empty ==> FirstMissing(start, ranges, s) && s <= e <= ceiling)
                && (!empty ==> ((forall x :: s <= x <= e ==> !Covers(ranges, x)) <==> !Ambiguous(start, ranges)))
                && (!empty && e < ceiling ==> Covers(ranges, e + 1))
      ensures WellFormed(start, ranges) && Full(start, ranges) ==> s == 0 && e == ceiling && !empty
    {
      if |ranges| == 0 {
        s, e := start, 0;
      } else if ranges[0].lo != start {
        s, e := start, if ranges[0].lo == 0 then MAX_UINT64 else ranges[0].lo - 1;
      } else if |ranges| == 1 {
        s, e := Inc(ranges[0].hi), 0;
      } else {
        s, e := Inc(ranges[0].hi), if ranges[1].lo == 0 then MAX_UINT64 else ranges[1].lo - 1;
      }
      if WellFormed(start, ranges) && !Full(start, ranges) { Gap(start, ranges, s); }
      empty := false;
      if ceiling > 0 {
        var ceilingHitStart, ceilingHitEnd := false, false;
        if s > ceiling { s := ceiling; ceilingHitStart := true; }
        if e == 0 || e > ceiling { e := ceiling; ceilingHitEnd := true; }
        empty := ceilingHitStart && ceilingHitEnd;
      }
    }

    /** The lower bound and the ranges as text. */
    method MarshalBinary() returns (data: string)
      ensures data == Encoded(start, ranges)
    {
      var d := [FormatUint(start)];
      for j := 0 to |ranges|
        invariant d == [FormatUint(start)] + RangeTexts(ranges[..j])
      {
        d := d + [RangeText(ranges[j])];
        assert RangeTexts(ranges[..j + 1]) == RangeTexts(ranges[..j]) + [RangeText(ranges[j])];
      }
      assert ranges[..|ranges|] == ranges;
      data := Join(d, ';');
    }

    /**
     * Reads the text and adds its ranges one by one. A merged list comes back as it was,
     * unless it has several ranges and the last one ends at the last uint64.
     */
    method UnmarshalBinary(data: string) returns (ok: bool)
      modifies this
      ensures ok <==> Decoded(data).Some?
      ensures ok ==> start == Decoded(data).value.lower
      ensures ok && Decoded(data).value.ranges == [] ==> ranges == old(ranges)
      ensures ok && Decoded(data).value.ranges != [] ==> Rebuilt(start, Decoded(data).value.ranges, ranges)
    {
      var d := Split(data, ';');
      var lower := ParseUint(d[0]);
      if lower.None? { return false; }
      start := lower.value;
      if |d| == 1 { return true; }
      ranges := [];
      ghost var read := [];
      for j := 1 to |d|
        invariant start == lower.value
        invariant ParseRanges(d[1..][..j - 1]) == Some(read) && |read| == j - 1 && Rebuilt(start, read, ranges)
      {
        assert d[1..][..j][..j - 1] == d[1..][..j - 1] && d[1..][..j][j - 1] == d[j];
        var g := ParseRange(d[j]);
        if g.None? {
          ParseFails(d[1..], j);
          return false;
        }
        if WellFormed(start, read + [g.value]) { Appended(start, read, g.value); }
        Add(g.value.lo, g.value.hi);
        if WellFormed(start, read + [g.value]) { AppendedOnce(start, read, g.value, ranges); }
        read := read + [g.value];
      }
      assert d[1..][..|d| - 1] == d[1..];
      ok := true;
    }

    /** The write-back of add. */
    method Splice(v: Visit)
      requires -1 <= v.minStartJ < |ranges| && -1 <= v.maxEndJ < |ranges| && v.j <= |ranges|
      modifies `ranges
      ensures v.minStartJ <= v.maxEndJ ==> ranges == Written(old(ranges), v)
    {
      var Visit(lo, hi, minStartJ, maxEndJ, j) := v;
      if minStartJ < 0 && maxEndJ < 0 {
        ranges := ranges[..j] + [Range(lo, hi)] + ranges[j..];
        return;
      }
      if minStartJ >= 0 { ranges := ranges[minStartJ := Range(lo, ranges[minStartJ].hi)]; }
      if maxEndJ >= 0 { ranges := ranges[maxEndJ := Range(ranges[maxEndJ].lo, hi)]; }
      if minStartJ >= 0 && maxEndJ >= 0 && minStartJ != maxEndJ {
        ranges := ranges[maxEndJ := Range(lo, ranges[maxEndJ].hi)];
        ranges := ranges[..minStartJ] + ranges[maxEndJ..];
      }
    }

    /** The loop of add: which range the new one starts in, which it ends in, and its extended ends. */
    method Scan(s: Uint64, e: Uint64) returns (v: Visit, ghost below: nat, ghost upto: nat)
      ensures -1 <= v.minStartJ < |ranges| && -1 <= v.maxEndJ < |ranges| && v.j <= |ranges|
      ensures WellFormed(start, ranges) && s <= e ==>
                Splits(ranges, s, e, below, upto) && Scanned(ranges, s, e, below, upto, v)
    {
      hide WellFormed, Splits, Progress, Scanned;
      var lo: Uint64, hi: Uint64 := s, e;
      var endCheck := if e == MAX_UINT64 then e else e + 1;
      var minStartJ, maxEndJ := -1, -1;
      var j := 0;
      ghost var valid := WellFormed(start, ranges) && s <= e;
      below, upto := 0, 0;
      if valid {
        below, upto := Border(start, ranges, s, e);
        Beginning(ranges, s, e, below, upto);
      }
      while j < |ranges|
        invariant j <= |ranges| && -1 <= minStartJ < j && -1 <= maxEndJ < j
        invariant valid ==> Progress(ranges, s, e, below, upto, Visit(lo, hi, minStartJ, maxEndJ, j))
        invariant valid && j == |ranges| ==> Scanned(ranges, s, e, below, upto, Visit(lo, hi, minStartJ, maxEndJ, j))
      {
        ghost var v0 := Visit(lo, hi, minStartJ, maxEndJ, j);
        var r := ranges[j];
        if minStartJ < 0 {
          if (lo <= r.lo && endCheck >= r.lo) || (lo <= Inc(r.hi) && endCheck >= r.hi) {
            if r.lo < lo { lo := r.lo; }
            minStartJ := j;
          }
        }
        if (lo <= r.hi && endCheck >= r.hi) || (lo <= r.lo && endCheck >= r.lo) {
          if r.hi > hi { hi := r.hi; }
          maxEndJ := j;
        }
        if valid { OneRange(start, ranges, s, e, below, upto, v0, Visit(lo, hi, minStartJ, maxEndJ, j)); }
        if Inc(hi) <= r.lo { break; }
        j := j + 1;
      }
      v := Visit(lo, hi, minStartJ, maxEndJ, j);
    }
  }

  datatype Visit = Visit(lo: Uint64, hi: Uint64, minStartJ: int, maxEndJ: int, j: nat)

  /** The first touched range reaches to the last uint64, so that its end plus one wraps and add does not see the
      start. */
  ghost predicate Wrapped(r: seq<Range>, s: Uint64, below: nat, v: Visit) {
    below < |r| && v.minStartJ == -1 && v.lo == s && r[below].hi == MAX_UINT64 && r[below].lo < s
  }

  /** The new range starts in range `below` (or just before it). */
  ghost predicate StartsAt(r: seq<Range>, s: Uint64, below: nat, v: Visit) {
    below < |r| && v.minStartJ == below && v.lo == Min(s, r[below].lo)
  }

  ghost predicate Untouched(s: Uint64, e: Uint64, v: Visit) {
    v.minStartJ == -1 && v.maxEndJ == -1 && v.lo == s && v.hi == e
  }

  /** The state of the loop after v.j ranges. */
  ghost predicate Progress(r: seq<Range>, s: Uint64, e: Uint64, below: nat, upto: nat, v: Visit) {
    if e == MAX_UINT64 then v.j == 0 && Untouched(s, e, v)
    else if StrictlyInside(r, below, s, e) then v.j <= upto && Untouched(s, e, v)
    else if v.j <= below then Untouched(s, e, v)
    else
      && v.j <= upto <= |r| && v.maxEndJ == v.j - 1 && v.hi == Max(e, r[v.j - 1].hi)
      && (StartsAt(r, s, below, v) || (below == upto - 1 && Wrapped(r, s, below, v)))
  }

  /** The state the loop ends in. */
  ghost predicate Scanned(r: seq<Range>, s: Uint64, e: Uint64, below: nat, upto: nat, v: Visit) {
    if e == MAX_UINT64 then
      if r != [] && below == 0 then v.maxEndJ == 0 && v.hi == e && (StartsAt(r, s, 0, v) || Wrapped(r, s, 0, v))
      else v.j == 0 && Untouched(s, e, v)
    else if StrictlyInside(r, below, s, e) then v.j == upto && Untouched(s, e, v)
    else if below == upto then v.j == below && Untouched(s, e, v)
    else
      && below < upto <= |r| && v.maxEndJ == upto - 1 && v.hi == Max(e, r[upto - 1].hi)
      && (StartsAt(r, s, below, v) || (below == upto - 1 && Wrapped(r, s, below, v)))
  }

  /** What add writes back after its loop. */
  ghost function Written(r: seq<Range>, v: Visit): seq<Range>
    requires -1 <= v.minStartJ < |r| && -1 <= v.maxEndJ < |r| && v.j <= |r|
  {
    if v.minStartJ < 0 && v.maxEndJ < 0 then r[..v.j] + [Range(v.lo, v.hi)] + r[v.j..]
    else if v.minStartJ < 0 then r[v.maxEndJ := Range(r[v.maxEndJ].lo, v.hi)]
    else if v.maxEndJ < 0 then r[v.minStartJ := Range(v.lo, r[v.minStartJ].hi)]
    else r[..v.minStartJ] + [Range(v.lo, v.hi)] + r[v.maxEndJ + 1..]
  }

  lemma Outcome(lower: Uint64, r: seq<Range>, from: Uint64, end: Uint64, below: nat, upto: nat, v: Visit)
    requires WellFormed(lower, r) && from <= end && lower <= end
    requires -1 <= v.minStartJ < |r| && -1 <= v.maxEndJ < |r| && v.j <= |r|
    requires Splits(r, Max(from, lower), end, below, upto) && Scanned(r, Max(from, lower), end, below, upto, v)
    ensures v.minStartJ <= v.maxEndJ
    ensures CoversSum(Written(r, v), r, Max(from, lower), end)
    ensures WellFormed(lower, Written(r, v)) <==> AddKeeps(lower, r, from, end)
  {
    hide WellFormed, CoversSum, Splits, Scanned, Written, Spliced;
    var s: Uint64 := Max(from, lower);
    if end == MAX_UINT64 {
      ToTheTop(lower, r, s, below, upto, v);
    } else if StrictlyInside(r, below, s, end) {
      InsideIsDoubled(lower, r, s, end, below, upto);
      StoresInside(r, s, end, below, upto, v);
    } else {
      Merges(lower, r, s, end, below, upto);
      StoresSpliced(r, s, end, below, upto, v);
      NoneInside(lower, r, s, end, below, upto);
    }
  }

  lemma ClippedAway(lower: Uint64, r: seq<Range>, from: Uint64, end: Uint64)
    requires end < lower
    ensures CoversSum(r, r, Max(from, lower), end) && AddKeeps(lower, r, from, end)
  {}

  lemma StoresInside(r: seq<Range>, s: Uint64, e: Uint64, below: nat, upto: nat, v: Visit)
    requires e < MAX_UINT64 && StrictlyInside(r, below, s, e) && Scanned(r, s, e, below, upto, v)
    requires -1 <= v.minStartJ < |r| && -1 <= v.maxEndJ < |r| && v.j <= |r|
    ensures v.minStartJ <= v.maxEndJ && upto <= |r| && Written(r, v) == r[..upto] + [Range(s, e)] + r[upto..]
  {}

  lemma StoresSpliced(r: seq<Range>, s: Uint64, e: Uint64, below: nat, upto: nat, v: Visit)
    requires e < MAX_UINT64 && !StrictlyInside(r, below, s, e) && Splits(r, s, e, below, upto)
             && Scanned(r, s, e, below, upto, v)
    requires -1 <= v.minStartJ < |r| && -1 <= v.maxEndJ < |r| && v.j <= |r|
    ensures v.minStartJ <= v.maxEndJ && Written(r, v) == Spliced(r, s, e, below, upto)
  {}

  /** Replacing the touched ranges by one keeps the list merged and adds exactly start..end. */
  lemma Merges(lower: Uint64, r: seq<Range>, s: Uint64, e: Uint64, below: nat, upto: nat)
    requires WellFormed(lower, r) && lower <= s <= e && Splits(r, s, e, below, upto)
    ensures WellFormed(lower, Spliced(r, s, e, below, upto)) && CoversSum(Spliced(r, s, e, below, upto), r, s, e)
  {
    var q := Spliced(r, s, e, below, upto);
    SplicedFormed(lower, r, s, e, below, upto);
    hide WellFormed, Covers, Splits;
    forall x ensures Covers(q, x) <==> Covers(r, x) || s <= x <= e {
      CoversInserted(r, q, below, upto, x);
      TouchedCovers(lower, r, s, e, below, upto, x);
    }
  }

  lemma SplicedFormed(lower: Uint64, r: seq<Range>, s: Uint64, e: Uint64, below: nat, upto: nat)
    requires WellFormed(lower, r) && lower <= s <= e && Splits(r, s, e, below, upto)
    ensures WellFormed(lower, Spliced(r, s, e, below, upto))
  {
    var lo := if below < upto then Min(s, r[below].lo) else s;
    var hi := if below < upto then Max(e, r[upto - 1].hi) else e;
    assert below < upto ==> r[below].lo <= r[upto - 1].lo <= r[upto - 1].hi;
    assert forall k :: 0 <= k < below ==> r[..below][k].hi + 1 < lo;
    assert forall k :: 0 <= k < |r| - upto ==> hi + 1 < r[upto..][k].lo;
    Joined(lower, r[..below], Range(lo, hi), r[upto..]);
  }

  lemma Joined(lower: Uint64, a: seq<Range>, g: Range, b: seq<Range>)
    requires WellFormed(lower, a) && WellFormed(lower, b) && lower <= g.lo <= g.hi
    requires forall k :: 0 <= k < |a| ==> a[k].hi + 1 < g.lo
    requires forall k :: 0 <= k < |b| ==> g.hi + 1 < b[k].lo
    ensures WellFormed(lower, a + [g] + b)
  {}

  /** The touched ranges and the new one are together one block of values. */
  lemma TouchedCovers(lower: Uint64, r: seq<Range>, s: Uint64, e: Uint64, below: nat, upto: nat, x: int)
    requires WellFormed(lower, r) && lower <= s <= e && Splits(r, s, e, below, upto)
    ensures var q := Spliced(r, s, e, below, upto);
      q[below].lo <= x <= q[below].hi <==> Covers(r[below..upto], x) || s <= x <= e
  {
    var q := Spliced(r, s, e, below, upto);
    assert below < upto ==> r[below..upto][0] == r[below] && r[below..upto][upto - below - 1] == r[upto - 1];
  }

  /** Values of a list in which the slice below..upto was replaced by one range. */
  lemma CoversInserted(r: seq<Range>, q: seq<Range>, below: nat, upto: nat, x: int)
    requires below <= upto <= |r| && |q| == |r| - (upto - below) + 1
    requires q == r[..below] + [q[below]] + r[upto..]
    ensures Covers(r, x) <==> Covers(r[..below], x) || Covers(r[below..upto], x) || Covers(r[upto..], x)
    ensures Covers(q, x) <==> Covers(r[..below], x) || q[below].lo <= x <= q[below].hi || Covers(r[upto..], x)
  {
    CoversConcat(r[..below], [q[below]] + r[upto..], x);
    CoversConcat([q[below]], r[upto..], x);
    assert q == r[..below] + ([q[below]] + r[upto..]);
    assert Covers([q[below]], x) <==> q[below].lo <= x <= q[below].hi by {
      if q[below].lo <= x <= q[below].hi { assert [q[below]][0] == q[below]; }
    }
    CoversConcat(r[..below], r[below..], x);
    CoversConcat(r[below..upto], r[upto..], x);
    assert r == r[..below] + r[below..] && r[below..] == r[below..upto] + r[upto..];
  }

  lemma CoversConcat(a: seq<Range>, b: seq<Range>, x: int)
    ensures Covers(a + b, x) <==> Covers(a, x) || Covers(b, x)
  {
    if k :| 0 <= k < |a| && a[k].lo <= x <= a[k].hi { assert (a + b)[k] == a[k]; }
    if k :| 0 <= k < |b| && b[k].lo <= x <= b[k].hi { assert (a + b)[|a| + k] == b[k]; }
  }

  lemma NoneInside(lower: Uint64, r: seq<Range>, s: Uint64, e: Uint64, below: nat, upto: nat)
    requires WellFormed(lower, r) && lower <= s <= e && Splits(r, s, e, below, upto) && !StrictlyInside(r, below, s, e)
    ensures forall k :: 0 <= k < |r| ==> !StrictlyInside(r, k, s, e)
  {}

  /** A range strictly inside a stored one is inserted after it: nothing new is covered, and the list is no longer
      disjoint. */
  lemma InsideIsDoubled(lower: Uint64, r: seq<Range>, s: Uint64, e: Uint64, below: nat, upto: nat)
    requires WellFormed(lower, r) && s <= e && Splits(r, s, e, below, upto) && StrictlyInside(r, below, s, e)
    ensures var q := r[..upto] + [Range(s, e)] + r[upto..]; CoversSum(q, r, s, e) && !WellFormed(lower, q)
  {
    var q := r[..upto] + [Range(s, e)] + r[upto..];
    forall x ensures Covers(q, x) <==> Covers(r, x) || s <= x <= e {
      CoversInserted(r, q, upto, upto, x);
      if s <= x <= e { assert r[below].lo <= x <= r[below].hi; }
    }
    assert q[below] == r[below] && q[upto] == Range(s, e);
  }

  /** A range up to the last uint64 leaves the loop at the first stored range. */
  lemma ToTheTop(lower: Uint64, r: seq<Range>, s: Uint64, below: nat, upto: nat, v: Visit)
    requires WellFormed(lower, r) && lower <= s && Splits(r, s, MAX_UINT64, below, upto)
    requires -1 <= v.minStartJ < |r| && -1 <= v.maxEndJ < |r| && v.j <= |r|
    requires Scanned(r, s, MAX_UINT64, below, upto, v)
    ensures v.minStartJ <= v.maxEndJ && CoversSum(Written(r, v), r, s, MAX_UINT64)
    ensures WellFormed(lower, Written(r, v)) <==> |r| == 0 || (|r| == 1 && s <= r[0].hi + 1)
  {
    var n := if r != [] && below == 0 then 1 else 0;
    var q := [Range(if n == 1 then Min(s, r[0].lo) else s, MAX_UINT64)] + r[n..];
    assert n == 1 ==> r[0].lo <= r[0].hi && s <= r[0].hi + 1;
    hide Written, Scanned, WellFormed, Splits, CoversSum;
    TopWritten(r, s, below, upto, v, n);
    TopFormed(lower, r, s, below, upto, n, q);
    TopCovers(lower, r, s, n, q);
  }

  lemma TopWritten(r: seq<Range>, s: Uint64, below: nat, upto: nat, v: Visit, n: nat)
    requires -1 <= v.minStartJ < |r| && -1 <= v.maxEndJ < |r| && v.j <= |r|
    requires Scanned(r, s, MAX_UINT64, below, upto, v) && n == if r != [] && below == 0 then 1 else 0
    requires n == 1 ==> r[0].lo <= r[0].hi && s <= r[0].hi + 1
    ensures v.minStartJ <= v.maxEndJ
    ensures Written(r, v) == [Range(if n == 1 then Min(s, r[0].lo) else s, MAX_UINT64)] + r[n..]
  {}

  lemma TopCovers(lower: Uint64, r: seq<Range>, s: Uint64, n: nat, q: seq<Range>)
    requires WellFormed(lower, r) && n <= 1 && (n == 1 ==> r != [] && s <= r[0].hi + 1)
    requires n <= |r| && q == [Range(if n == 1 then Min(s, r[0].lo) else s, MAX_UINT64)] + r[n..]
    ensures CoversSum(q, r, s, MAX_UINT64)
  {
    var lo := q[0].lo;
    forall x ensures Covers(q, x) <==> Covers(r, x) || s <= x <= MAX_UINT64 {
      assert q == r[..0] + [q[0]] + r[n..];
      CoversInserted(r, q, 0, n, x);
      assert n == 1 && lo <= x < s ==> r[0..1][0].lo <= x <= r[0..1][0].hi;
    }
  }

  lemma TopFormed(lower: Uint64, r: seq<Range>, s: Uint64, below: nat, upto: nat, n: nat, q: seq<Range>)
    requires WellFormed(lower, r) && lower <= s && Splits(r, s, MAX_UINT64, below, upto)
    requires n == if r != [] && below == 0 then 1 else 0
    requires q == [Range(if n == 1 then Min(s, r[0].lo) else s, MAX_UINT64)] + r[n..]
    ensures WellFormed(lower, q) <==> |r| == 0 || (|r| == 1 && s <= r[0].hi + 1)
    ensures n == 1 ==> s <= r[0].hi + 1
  {
    assert 1 < |q| ==> q[0].hi == MAX_UINT64 && q[1].lo <= MAX_UINT64;
  }

  /** A list built by adding the ranges of `read` in turn. */
  ghost predicate Rebuilt(lower: Uint64, read: seq<Range>, now: seq<Range>) {
    WellFormed(lower, read) ==>
      && (forall x :: Covers(now, x) <==> Covers(read, x))
      && (now == read <==> |read| < 2 || read[|read| - 1].hi < MAX_UINT64)
  }

  /** Adding a range behind all others is safe below the last uint64. */
  lemma Appended(lower: Uint64, read: seq<Range>, g: Range)
    requires WellFormed(lower, read + [g])
    ensures WellFormed(lower, read) && lower <= g.lo <= g.hi
    ensures |read| < 2 || read[|read| - 1].hi < MAX_UINT64
    ensures AddKeeps(lower, read, g.lo, g.hi) <==> |read| == 0 || g.hi < MAX_UINT64
  {
    var q := read + [g];
    assert q[|read|] == g && forall k :: 0 <= k < |read| ==> q[k] == read[k];
    assert forall k :: 0 <= k < |read| ==> read[k].hi + 1 < g.lo;
  }

  lemma AppendedOnce(lower: Uint64, read: seq<Range>, g: Range, now: seq<Range>)
    requires WellFormed(lower, read + [g]) && CoversSum(now, read, g.lo, g.hi)
    requires WellFormed(lower, now) <==> |read| == 0 || g.hi < MAX_UINT64
    ensures Rebuilt(lower, read + [g], now)
  {
    hide WellFormed;
    forall x ensures Covers(now, x) <==> Covers(read + [g], x) {
      CoversConcat(read, [g], x);
      assert Covers([g], x) <==> g.lo <= x <= g.hi by { assert [g][0] == g; }
    }
    if WellFormed(lower, now) { Canonical(lower, now, read + [g]); }
  }

  lemma {:induction false} ParseFails(parts: seq<string>, j: nat)
    requires j <= |parts| && ParseRanges(parts[..j]).None?
    ensures ParseRanges(parts).None?
    decreases |parts| - j
  {
    if j == |parts| {
      assert parts[..j] == parts;
    } else {
      assert parts[..j + 1][..j] == parts[..j];
      ParseFails(parts, j + 1);
    }
  }

  lemma Gap(lower: Uint64, r: seq<Range>, s: Uint64)
    requires WellFormed(lower, r) && !Full(lower, r)
    requires s == if r != [] && r[0].lo == lower then Inc(r[0].hi) else lower
    ensures FirstMissing(lower, r, s)
    ensures OpenEnded(lower, r) ==> forall x :: s <= x ==> !Covers(r, x)
    ensures !OpenEnded(lower, r) ==>
      var n := if r[0].lo == lower then 1 else 0;
      Covers(r, r[n].lo) && s < r[n].lo && forall x :: s <= x < r[n].lo ==> !Covers(r, x)
  {}

  /** A well-formed list is determined by the values it covers. */
  lemma {:induction false} Canonical(lower: Uint64, a: seq<Range>, b: seq<Range>)
    requires WellFormed(lower, a) && WellFormed(lower, b)
    requires forall x :: Covers(a, x) <==> Covers(b, x)
    ensures a == b
  {
    hide WellFormed, Covers;
    if a != [] { Head(lower, a); }
    if b != [] { Head(lower, b); }
    if a == [] {
      NothingCovered(b);
    } else if b == [] {
      NothingCovered(a);
    } else {
      SameHead(a, b);
      forall x ensures Covers(a[1..], x) <==> Covers(b[1..], x) {
        TailCovers(lower, a, x);
        TailCovers(lower, b, x);
      }
      Canonical(lower, a[1..], b[1..]);
      assert a == [a[0]] + a[1..] && b == [b[0]] + b[1..];
    }
  }

  lemma TailCovers(lower: Uint64, a: seq<Range>, x: int)
    requires WellFormed(lower, a) && a != []
    ensures Covers(a[1..], x) <==> Covers(a, x) && a[0].hi < x
  {
    if k :| 0 <= k < |a| && a[k].lo <= x <= a[k].hi && a[0].hi < x { assert a[1..][k - 1] == a[k]; }
  }

  lemma NothingCovered(b: seq<Range>)
    requires (b != [] ==> Covers(b, b[0].lo)) && forall x :: Covers(b, x) <==> Covers([], x)
    ensures b == []
  {}

  /** The first range is a whole block of values, and the block the list begins with. */
  ghost predicate Leads(a: seq<Range>, h: Range) {
    h.lo <= h.hi && !Covers(a, h.hi + 1) && (forall x :: x < h.lo ==> !Covers(a, x))
    && forall x :: h.lo <= x <= h.hi ==> Covers(a, x)
  }

  lemma Head(lower: Uint64, a: seq<Range>)
    requires WellFormed(lower, a) && a != []
    ensures Leads(a, a[0]) && Covers(a, a[0].lo) && WellFormed(lower, a[1..])
  {}

  lemma SameHead(a: seq<Range>, b: seq<Range>)
    requires a != [] && b != [] && Leads(a, a[0]) && Leads(b, b[0])
    requires forall x :: Covers(a, x) <==> Covers(b, x)
    ensures a[0] == b[0]
  {
    hide Covers;
    assert Covers(a, a[0].lo) && Covers(b, b[0].lo);
  }

  /** Adding 3..5 to 1..9 leaves two overlapping ranges; adding 20..max after 1..9 leaves an unsorted list. */
  method AddCanBreak(top: bool) returns (ranges: seq<Range>)
    ensures !WellFormed(1, ranges)
  {
    var i := new Intervals(1);
    i.Add(1, 9);
    ghost var one := [Range(1, 9)];
    assert forall x :: Covers(one, x) <==> 1 <= x <= 9 by { assert one[0] == Range(1, 9); }
    Canonical(1, i.ranges, one);
    assert StrictlyInside(one, 0, 3, 5);
    if top {
      i.Add(20, MAX_UINT64);
    } else {
      i.Add(3, 5);
    }
    ranges := i.ranges;
  }

  lemma Beginning(r: seq<Range>, s: Uint64, e: Uint64, below: nat, upto: nat)
    requires Splits(r, s, e, below, upto)
    ensures Progress(r, s, e, below, upto, Visit(s, e, -1, -1, 0))
    ensures r == [] ==> Scanned(r, s, e, below, upto, Visit(s, e, -1, -1, 0))
  {}

  /** One round of the loop, before its test for leaving. */
  /** What one round of the loop makes of its variables. */
  ghost predicate Round(r: seq<Range>, e: Uint64, v: Visit, w: Visit)
    requires v.j < |r|
  {
    var endCheck := if e == MAX_UINT64 then e else e + 1;
    var g := r[v.j];
    var starts := v.minStartJ < 0 && ((v.lo <= g.lo && endCheck >= g.lo) || (v.lo <= Inc(g.hi) && endCheck >= g.hi));
    var lo := if starts && g.lo < v.lo then g.lo else v.lo;
    var ends := (lo <= g.hi && endCheck >= g.hi) || (lo <= g.lo && endCheck >= g.lo);
    && w.lo == lo && w.minStartJ == (if starts then v.j else v.minStartJ) && w.j == v.j
    && w.hi == (if ends && g.hi > v.hi then g.hi else v.hi) && w.maxEndJ == (if ends then v.j else v.maxEndJ)
  }

  /** The loop ends with the round, or goes on. */
  ghost predicate Goes(r: seq<Range>, s: Uint64, e: Uint64, below: nat, upto: nat, v: Visit, w: Visit)
    requires v.j < |r|
  {
    && (Inc(w.hi) <= r[v.j].lo ==> Scanned(r, s, e, below, upto, w))
    && (!(Inc(w.hi) <= r[v.j].lo) ==> Progress(r, s, e, below, upto, w.(j := v.j + 1)))
    && (!(Inc(w.hi) <= r[v.j].lo) && v.j + 1 == |r| ==> Scanned(r, s, e, below, upto, w.(j := |r|)))
  }

  /** Where the current range lies. */
  ghost predicate Here(r: seq<Range>, s: Uint64, e: Uint64, below: nat, upto: nat, j: nat)
    requires j < |r|
  {
    && below <= upto <= |r|
    && r[j].lo <= r[j].hi
    && (j < below <==> r[j].hi + 1 < s)
    && (j < upto <==> r[j].lo <= e + 1)
    && (j > 0 ==> r[j - 1].hi + 1 < r[j].lo)
    && (j + 1 < |r| ==> (j + 1 < upto <==> r[j + 1].lo <= e + 1) && r[j].hi + 1 < r[j + 1].lo)
    && (below < j ==> r[below].lo <= r[below].hi && s <= r[below].hi + 1 < r[j].lo)
  }

  lemma OneRange(lower: Uint64, r: seq<Range>, s: Uint64, e: Uint64, below: nat, upto: nat, v: Visit, w: Visit)
    requires WellFormed(lower, r) && s <= e && Splits(r, s, e, below, upto) && v.j < |r|
    requires Progress(r, s, e, below, upto, v) && Round(r, e, v, w)
    ensures Goes(r, s, e, below, upto, v, w)
  {
    assert Here(r, s, e, below, upto, v.j);
    hide WellFormed, Splits, Round, Goes;
    if e == MAX_UINT64 {
      ToTheEnd(r, s, e, below, upto, v, w);
    } else if StrictlyInside(r, below, s, e) {
      Inside(r, s, e, below, upto, v, w);
    } else if v.j <= below {
      AtTheStart(r, s, e, below, upto, v, w);
    } else {
      FurtherOn(r, s, e, below, upto, v, w);
    }
  }

  lemma ToTheEnd(r: seq<Range>, s: Uint64, e: Uint64, below: nat, upto: nat, v: Visit, w: Visit)
    requires s <= e == MAX_UINT64 && v.j < |r| && Here(r, s, e, below, upto, v.j)
    requires Progress(r, s, e, below, upto, v) && Round(r, e, v, w)
    ensures Goes(r, s, e, below, upto, v, w)
  {}

  lemma Inside(r: seq<Range>, s: Uint64, e: Uint64, below: nat, upto: nat, v: Visit, w: Visit)
    requires s <= e < MAX_UINT64 && v.j < |r| && Here(r, s, e, below, upto, v.j) && StrictlyInside(r, below, s, e)
    requires Progress(r, s, e, below, upto, v) && Round(r, e, v, w)
    ensures Goes(r, s, e, below, upto, v, w)
  {
    assert Untouched(s, e, v);
    assert Untouched(s, e, w);
    assert v.j > below ==> v.j == upto;
    assert v.j <= below ==> v.j < upto;
  }

  lemma AtTheStart(r: seq<Range>, s: Uint64, e: Uint64, below: nat, upto: nat, v: Visit, w: Visit)
    requires s <= e < MAX_UINT64 && v.j < |r| && Here(r, s, e, below, upto, v.j) && !StrictlyInside(r, below, s, e)
    requires v.j <= below && Progress(r, s, e, below, upto, v) && Round(r, e, v, w)
    ensures Goes(r, s, e, below, upto, v, w)
  {}

  lemma FurtherOn(r: seq<Range>, s: Uint64, e: Uint64, below: nat, upto: nat, v: Visit, w: Visit)
    requires s <= e < MAX_UINT64 && v.j < |r| && Here(r, s, e, below, upto, v.j) && !StrictlyInside(r, below, s, e)
    requires v.j > below && Progress(r, s, e, below, upto, v) && Round(r, e, v, w)
    ensures Goes(r, s, e, below, upto, v, w)
  {}

  lemma Border(lower: Uint64, r: seq<Range>, s: Uint64, e: Uint64) returns (below: nat, upto: nat)
    requires WellFormed(lower, r) && s <= e
    ensures Splits(r, s, e, below, upto)
  {
    below := 0;
    while below < |r| && r[below].hi + 1 < s
      invariant below <= |r|
      invariant forall k :: 0 <= k < below ==> r[k].hi + 1 < s
    { below := below + 1; }
    upto := below;
    while upto < |r| && r[upto].lo <= e + 1
      invariant below <= upto <= |r|
      invariant forall k :: 0 <= k < upto ==> r[k].lo <= e + 1
    { upto := upto + 1; }
  }
}
