/**
 * The two segment planners: `calculateSegmentsByInterval` walks from 0 in
 * fixed steps and clamps the last segment to the video's duration;
 * `calculateSegmentsByTimestamps` reads a comma-separated list of cut
 * points, rejects the whole list when any piece is bad, adds 0 and the
 * duration, removes duplicates, sorts, and pairs neighbours.
 */
module Segments {
  import opened Wrappers
  import opened Text
  import opened Timestamp

  /** One time slice of the video, in seconds. */
  datatype Segment = Segment(start: real, end: real, duration: real)

  /** Each segment has positive length, records it, and ends where the next one starts. */
  ghost predicate Contiguous(segs: seq<Segment>) {
    && (forall i :: 0 <= i < |segs| ==>
          segs[i].start < segs[i].end && segs[i].duration == segs[i].end - segs[i].start)
    && (forall i :: 0 <= i < |segs| - 1 ==> segs[i].end == segs[i + 1].start)
  }

  /** The segments cover [0, d] exactly: no gap, no overlap, no empty piece. */
  ghost predicate Tiles(segs: seq<Segment>, d: real) {
    |segs| > 0 && segs[0].start == 0.0 && segs[|segs| - 1].end == d && Contiguous(segs)
  }

  function Min(a: real, b: real): real {
    if a <= b then a else b
  }

  // ---------------------------------------------------------------------
  // By interval

  /** The least integer not below `x`. */
  function Ceil(x: real): (c: int)
    ensures c as real - 1.0 < x <= c as real
  {
    if x.Floor as real == x then x.Floor else x.Floor + 1
  }

  /** How many segments a step of `step` seconds cuts `d` seconds into: ceil(d / step), none when d <= 0. */
  function IntervalCount(step: real, d: real): nat
    requires step > 0.0
  {
    if d <= 0.0 then 0 else Ceil(d / step)
  }

  /** Segment `i` of the interval plan: from i*step to (i+1)*step, clamped to `d`. */
  function IntervalSegment(step: real, d: real, i: nat): Segment {
    var start := i as real * step;
    var end := Min(start + step, d);
    Segment(start, end, end - start)
  }

  /** The whole interval plan, in closed form. */
  function IntervalPlan(step: real, d: real): (segs: seq<Segment>)
    requires step > 0.0
    ensures |segs| == IntervalCount(step, d)
    ensures forall i :: 0 <= i < |segs| ==> segs[i] == IntervalSegment(step, d, i)
  {
    seq(IntervalCount(step, d), i requires 0 <= i => IntervalSegment(step, d, i))
  }

  lemma MulMonotone(a: real, b: real, c: real)
    requires a < b && c > 0.0
    ensures a * c < b * c
  {
  }

  /** Step `k` of the walk is still inside the video exactly when k < ceil(d / step). */
  lemma IntervalCountBound(step: real, d: real, k: nat)
    requires step > 0.0
    ensures k as real * step < d <==> k < IntervalCount(step, d)
  {
    if d > 0.0 {
      var q := d / step;
      assert q * step == d;
      var n := Ceil(q);
      assert IntervalCount(step, d) == n;
      if k < n {
        assert k as real < q;
        MulMonotone(k as real, q, step);
        assert k as real * step < d;
      } else {
        assert q <= k as real;
        if q < k as real {
          MulMonotone(q, k as real, step);
          assert d < k as real * step;
        } else {
          assert k as real * step == d;
        }
      }
    }
  }

  /** `calculateSegmentsByInterval(step)` on a video of `d` seconds. */
  method SegmentsByInterval(step: real, d: real) returns (segs: seq<Segment>)
    requires step > 0.0
    ensures segs == IntervalPlan(step, d)
  {
    ghost var n := IntervalCount(step, d);
    IntervalCountBound(step, d, 0);
    segs := [];
    var current := 0.0;
    while current < d
      invariant |segs| <= n
      invariant forall i :: 0 <= i < |segs| ==> segs[i] == IntervalSegment(step, d, i)
      invariant |segs| < n ==> current == |segs| as real * step
      invariant |segs| == n ==> current >= d
      decreases n - |segs|
    {
      var endTime := Min(current + step, d);
      IntervalCountBound(step, d, |segs| + 1);
      segs := segs + [Segment(current, endTime, endTime - current)];
      current := endTime;
    }
    IntervalCountBound(step, d, |segs|);
  }

  /** Segment `i` of the plan lies inside the video and has positive length. */
  lemma IntervalSegmentInside(step: real, d: real, i: nat)
    requires step > 0.0 && i < IntervalCount(step, d)
    ensures var seg := IntervalSegment(step, d, i);
      0.0 <= seg.start < seg.end <= d && seg.duration == seg.end - seg.start && seg.duration <= step
  {
    IntervalCountBound(step, d, i);
  }

  /** Every segment but the last is a full step and ends where the next begins. */
  lemma IntervalSegmentsMeet(step: real, d: real, i: nat)
    requires step > 0.0 && i + 1 < IntervalCount(step, d)
    ensures IntervalSegment(step, d, i).end == IntervalSegment(step, d, i + 1).start
    ensures IntervalSegment(step, d, i).duration == step
  {
    IntervalCountBound(step, d, i + 1);
    assert (i + 1) as real * step == i as real * step + step;
  }

  /** The interval plan tiles [0, d] into ceil(d / step) pieces, all of length `step` but the last, which is no longer. */
  lemma IntervalPlanTiles(step: real, d: real)
    requires step > 0.0 && d > 0.0
    ensures var segs := IntervalPlan(step, d);
      && Tiles(segs, d)
      && |segs| == Ceil(d / step)
      && (forall i :: 0 <= i < |segs| - 1 ==> segs[i].duration == step)
      && segs[|segs| - 1].duration <= step
  {
    var segs := IntervalPlan(step, d);
    var n := |segs|;
    IntervalCountBound(step, d, 0);
    IntervalCountBound(step, d, n);
    IntervalSegmentInside(step, d, n - 1);
    forall i | 0 <= i < n
      ensures segs[i].start < segs[i].end && segs[i].duration == segs[i].end - segs[i].start
    {
      IntervalSegmentInside(step, d, i);
    }
    forall i | 0 <= i < n - 1
      ensures segs[i].end == segs[i + 1].start && segs[i].duration == step
    {
      IntervalSegmentsMeet(step, d, i);
    }
  }

  /** A video without positive duration gets no interval segments. */
  lemma IntervalPlanEmpty(step: real, d: real)
    requires step > 0.0 && d <= 0.0
    ensures IntervalPlan(step, d) == []
  {
  }

  // ---------------------------------------------------------------------
  // By timestamps

  /** The values of a sequence, as a set. */
  function Elems(s: seq<real>): set<real> {
    set x | x in s
  }

  predicate StrictlyIncreasing(s: seq<real>) {
    forall i, j :: 0 <= i < j < |s| ==> s[i] < s[j]
  }

  predicate Ascending(s: seq<real>) {
    forall i, j :: 0 <= i < j < |s| ==> s[i] <= s[j]
  }

  /** Neighbouring cut points paired into segments. */
  function Consecutive(cuts: seq<real>): (segs: seq<Segment>)
    ensures |segs| == if |cuts| == 0 then 0 else |cuts| - 1
  {
    if |cuts| == 0 then []
    else seq(|cuts| - 1, i requires 0 <= i < |cuts| - 1 => Segment(cuts[i], cuts[i + 1], cuts[i + 1] - cuts[i]))
  }

  /** Insert a new value into a strictly increasing sequence. */
  function InsertSorted(x: real, s: seq<real>): (r: seq<real>)
    requires StrictlyIncreasing(s) && x !in s
    ensures StrictlyIncreasing(r) && Elems(r) == Elems(s) + {x} && |r| == |s| + 1
  {
    if s == [] then [x]
    else if x < s[0] then
      PrependLeast(x, s);
      [x] + s
    else
      var rest := InsertSorted(x, s[1..]);
      assert s == [s[0]] + s[1..];
      PrependLeast(s[0], rest);
      [s[0]] + rest
  }

  /** A value below every value of a strictly increasing sequence can go in front of it. */
  lemma PrependLeast(h: real, t: seq<real>)
    requires StrictlyIncreasing(t)
    requires forall v :: v in Elems(t) ==> h < v
    ensures StrictlyIncreasing([h] + t) && Elems([h] + t) == {h} + Elems(t)
  {
    var r := [h] + t;
    forall i, j | 0 <= i < j < |r|
      ensures r[i] < r[j]
    {
      assert r[j] == t[j - 1] && t[j - 1] in Elems(t);
      if i > 0 {
        assert r[i] == t[i - 1];
      }
    }
    assert forall k :: 0 <= k < |t| ==> r[k + 1] == t[k];
  }

  /** The distinct values of a sequence in ascending order. */
  function SortedValues(s: seq<real>): (r: seq<real>)
    ensures StrictlyIncreasing(r) && Elems(r) == Elems(s)
  {
    if s == [] then []
    else
      var init := s[..|s| - 1];
      var last := s[|s| - 1];
      var r := SortedValues(init);
      assert Elems(s) == Elems(init) + {last} by {
        assert s == init + [last];
      }
      if last in r then r else InsertSorted(last, r)
  }

  lemma ElemsEmpty(s: seq<real>)
    ensures Elems(s) == {} <==> s == []
  {
    if s != [] {
      assert s[0] in Elems(s);
    }
  }

  lemma HeadIsLeast(s: seq<real>, x: real)
    requires StrictlyIncreasing(s) && x in Elems(s)
    ensures s[0] <= x
  {
  }

  lemma ElemsTail(s: seq<real>)
    requires StrictlyIncreasing(s) && s != []
    ensures Elems(s[1..]) == Elems(s) - {s[0]}
  {
    assert s == [s[0]] + s[1..];
  }

  /** A set has one strictly increasing enumeration. */
  lemma {:induction false} StrictlyIncreasingUnique(a: seq<real>, b: seq<real>)
    requires StrictlyIncreasing(a) && StrictlyIncreasing(b) && Elems(a) == Elems(b)
    ensures a == b
    decreases |a|
  {
    ElemsEmpty(a);
    ElemsEmpty(b);
    if a != [] {
      assert a[0] in Elems(a) && b[0] in Elems(b);
      HeadIsLeast(a, b[0]);
      HeadIsLeast(b, a[0]);
      ElemsTail(a);
      ElemsTail(b);
      StrictlyIncreasingUnique(a[1..], b[1..]);
      assert a == [a[0]] + a[1..] && b == [b[0]] + b[1..];
    }
  }

  /** The comma-separated pieces of the timestamp field, each trimmed. */
  function Pieces(text: string): seq<string> {
    var raw := Split(text, ',');
    seq(|raw|, i requires 0 <= i < |raw| => Trim(raw[i]))
  }

  /** A piece the planner keeps: it parses, and the time lies within the video. */
  predicate Accepted(piece: string, d: real) {
    var v := ParseTimestamp(piece);
    v.Some? && 0.0 <= v.value <= d
  }

  predicate AllAccepted(pieces: seq<string>, d: real) {
    forall i :: 0 <= i < |pieces| ==> Accepted(pieces[i], d)
  }

  /** The planner refuses the whole field: it is blank, or one piece is not accepted. */
  predicate RejectsField(text: string, d: real) {
    Trim(text) == "" || !AllAccepted(Pieces(text), d)
  }

  /** The times the pieces denote, in input order. */
  function Times(pieces: seq<string>, d: real): (ts: seq<real>)
    requires AllAccepted(pieces, d)
    ensures |ts| == |pieces|
    ensures forall i :: 0 <= i < |ts| ==> ParseTimestamp(pieces[i]) == Some(ts[i]) && 0.0 <= ts[i] <= d
  {
    seq(|pieces|, i requires 0 <= i < |pieces| => ParseTimestamp(pieces[i]).value)
  }

  /** Every cut point: 0, the times in input order, then the duration. */
  function Cuts(text: string, d: real): seq<real>
    requires !RejectsField(text, d)
  {
    [0.0] + Times(Pieces(text), d) + [d]
  }

  /** What `calculateSegmentsByTimestamps` promises: nothing for a rejected field, else neighbouring distinct cut points, ascending. */
  function TimestampPlan(text: string, d: real): Option<seq<Segment>> {
    if RejectsField(text, d) then None
    else Some(Consecutive(SortedValues(Cuts(text, d))))
  }

  lemma MultisetOfAppend(u: seq<real>, y: real)
    ensures forall x :: multiset(u + [y])[x] == multiset(u)[x] + (if x == y then 1 else 0)
  {
    assert multiset(u + [y]) == multiset(u) + multiset{y};
  }

  /** `[...new Set(xs)]`: each value of `xs` exactly once. */
  method Dedupe(xs: seq<real>) returns (u: seq<real>)
    ensures forall x :: multiset(u)[x] == if x in xs then 1 else 0
  {
    u := [];
    for i := 0 to |xs|
      invariant forall x :: multiset(u)[x] == if x in xs[..i] then 1 else 0
    {
      assert xs[..i + 1] == xs[..i] + [xs[i]];
      if xs[i] !in u {
        MultisetOfAppend(u, xs[i]);
        u := u + [xs[i]];
      }
    }
    assert xs[..|xs|] == xs;
  }

  /** `.sort((a, b) => a - b)`: ascending, a permutation of the input. */
  method SortAscending(xs: seq<real>) returns (s: seq<real>)
    ensures Ascending(s) && multiset(s) == multiset(xs)
  {
    s := [];
    for i := 0 to |xs|
      invariant Ascending(s) && multiset(s) == multiset(xs[..i])
    {
      var x := xs[i];
      var k := 0;
      while k < |s| && s[k] <= x
        invariant 0 <= k <= |s|
        invariant forall m :: 0 <= m < k ==> s[m] <= x
      {
        k := k + 1;
      }
      InsertAt(s, k, x);
      assert xs[..i + 1] == xs[..i] + [x];
      s := s[..k] + [x] + s[k..];
    }
    assert xs[..|xs|] == xs;
  }

  /** One step of the insertion: `x` placed after the values up to it keeps the order and adds `x` once. */
  lemma InsertAt(s: seq<real>, k: nat, x: real)
    requires Ascending(s) && k <= |s|
    requires forall m :: 0 <= m < k ==> s[m] <= x
    requires k < |s| ==> x < s[k]
    ensures Ascending(s[..k] + [x] + s[k..])
    ensures multiset(s[..k] + [x] + s[k..]) == multiset(s) + multiset{x}
  {
    var r := s[..k] + [x] + s[k..];
    InsertedIndices(s, k, x);
    InsertedAscending(s, r, k, x);
    InsertedCount(s, k, x);
  }

  lemma InsertedIndices(s: seq<real>, k: nat, x: real)
    requires k <= |s|
    ensures var r := s[..k] + [x] + s[k..];
      && |r| == |s| + 1 && r[k] == x
      && (forall i :: 0 <= i < k ==> r[i] == s[i])
      && (forall i :: k < i < |r| ==> r[i] == s[i - 1])
  {
  }

  lemma InsertedCount(s: seq<real>, k: nat, x: real)
    requires k <= |s|
    ensures multiset(s[..k] + [x] + s[k..]) == multiset(s) + multiset{x}
  {
    assert s == s[..k] + s[k..];
  }

  /** The order half of `InsertAt`, by indices alone. */
  lemma InsertedAscending(s: seq<real>, r: seq<real>, k: nat, x: real)
    requires Ascending(s) && k <= |s| && |r| == |s| + 1
    requires forall m :: 0 <= m < k ==> s[m] <= x
    requires k < |s| ==> x < s[k]
    requires forall i :: 0 <= i < k ==> r[i] == s[i]
    requires r[k] == x
    requires forall i :: k < i < |r| ==> r[i] == s[i - 1]
    ensures Ascending(r)
  {
    forall i, j | 0 <= i < j < |r|
      ensures r[i] <= r[j]
    {
      if j < k {
        assert r[i] == s[i] && r[j] == s[j];
      } else if j == k {
        assert r[i] == s[i];
      } else if i < k {
        assert r[i] == s[i] && r[j] == s[j - 1];
        assert s[i] <= x < s[k] <= s[j - 1];
      } else if i == k {
        assert r[j] == s[j - 1] && s[k] <= s[j - 1];
      } else {
        assert r[i] == s[i - 1] && r[j] == s[j - 1];
      }
    }
  }

  lemma RepeatCounts(s: seq<real>, i: nat, j: nat)
    requires i < j < |s|
    ensures multiset(s)[s[j]] >= (if s[i] == s[j] then 2 else 1)
  {
    assert s == s[..j] + s[j..];
    assert s[i] in s[..j] && s[j] in s[j..];
    assert multiset(s) == multiset(s[..j]) + multiset(s[j..]);
  }

  /** An ascending sequence that holds each value once is strictly increasing. */
  lemma AscendingDistinct(s: seq<real>)
    requires Ascending(s) && forall x :: multiset(s)[x] <= 1
    ensures StrictlyIncreasing(s)
  {
    forall i, j | 0 <= i < j < |s|
      ensures s[i] < s[j]
    {
      RepeatCounts(s, i, j);
    }
  }

  /** The loop over the pieces: their times, or nothing as soon as one piece is not accepted. */
  method CollectTimes(parts: seq<string>, d: real) returns (r: Option<seq<real>>)
    ensures r == if AllAccepted(parts, d) then Some(Times(parts, d)) else None
  {
    var times := [];
    var i := 0;
    while i < |parts|
      invariant 0 <= i <= |parts|
      invariant AllAccepted(parts[..i], d)
      invariant times == Times(parts[..i], d)
    {
      var seconds := ParseTimestamp(parts[i]);
      if seconds.None? || seconds.value < 0.0 || seconds.value > d {
        assert !Accepted(parts[i], d);
        return None;
      }
      assert parts[..i + 1] == parts[..i] + [parts[i]];
      times := times + [seconds.value];
      i := i + 1;
    }
    assert parts[..i] == parts;
    return Some(times);
  }

  /** `[...new Set(cuts)].sort((a, b) => a - b)`: the distinct cut points, ascending. */
  method DistinctAscending(cuts: seq<real>) returns (unique: seq<real>)
    ensures unique == SortedValues(cuts)
  {
    unique := Dedupe(cuts);
    unique := SortAscending(unique);
    AscendingDistinct(unique);
    assert Elems(unique) == Elems(cuts) by {
      forall x
        ensures x in unique <==> x in cuts
      {
        assert x in unique <==> multiset(unique)[x] > 0;
      }
    }
    StrictlyIncreasingUnique(unique, SortedValues(cuts));
  }

  /** The loop that pairs each cut point with the next. */
  method PairNeighbours(cuts: seq<real>) returns (segments: seq<Segment>)
    ensures segments == Consecutive(cuts)
  {
    segments := [];
    var i := 0;
    while i < |cuts| - 1
      invariant 0 <= i <= |Consecutive(cuts)|
      invariant segments == Consecutive(cuts)[..i]
    {
      segments := segments + [Segment(cuts[i], cuts[i + 1], cuts[i + 1] - cuts[i])];
      i := i + 1;
    }
    assert Consecutive(cuts)[..i] == Consecutive(cuts);
  }

  /** `calculateSegmentsByTimestamps(text)` on a video of `d` seconds. */
  method SegmentsByTimestamps(text: string, d: real) returns (r: Option<seq<Segment>>)
    ensures r == TimestampPlan(text, d)
  {
    if Trim(text) == "" {
      return None;
    }
    var parts := Pieces(text);
    var times := CollectTimes(parts, d);
    if times.None? {
      return None;
    }
    var timestamps := [0.0] + times.value + [d];
    var unique := DistinctAscending(timestamps);
    var segments := PairNeighbours(unique);
    return Some(segments);
  }

  // ---------------------------------------------------------------------
  // What the timestamp plan promises

  lemma LastIsGreatest(s: seq<real>, x: real)
    requires StrictlyIncreasing(s) && x in Elems(s)
    ensures s[|s| - 1] >= x
  {
  }

  /** Pairing a strictly increasing list gives segments laid end to end. */
  lemma ConsecutiveContiguous(cuts: seq<real>)
    requires StrictlyIncreasing(cuts)
    ensures Contiguous(Consecutive(cuts))
  {
    var segs := Consecutive(cuts);
    forall i | 0 <= i < |segs|
      ensures segs[i].start < segs[i].end && segs[i].duration == segs[i].end - segs[i].start
    {
      assert segs[i] == Segment(cuts[i], cuts[i + 1], cuts[i + 1] - cuts[i]);
    }
    forall i | 0 <= i < |segs| - 1
      ensures segs[i].end == segs[i + 1].start
    {
      assert segs[i].end == cuts[i + 1] == segs[i + 1].start;
    }
  }

  /** Every cut point lies within [0, d]. */
  lemma CutsInRange(text: string, d: real)
    requires !RejectsField(text, d)
    ensures d >= 0.0
    ensures forall x :: x in Elems(Cuts(text, d)) ==> 0.0 <= x <= d
  {
    AcceptedFieldDuration(text, d);
    ElemsBounded([0.0] + Times(Pieces(text), d) + [d], d);
  }

  /** An accepted field names at least one time within [0, d], so d is not negative. */
  lemma AcceptedFieldDuration(text: string, d: real)
    requires !RejectsField(text, d)
    ensures d >= 0.0
  {
    var ps := Pieces(text);
    assert |ps| == |Split(text, ',')| >= 1;
    var ts := Times(ps, d);
    assert 0.0 <= ts[0] <= d;
  }

  lemma ElemsBounded(ts: seq<real>, d: real)
    requires forall i :: 0 <= i < |ts| ==> 0.0 <= ts[i] <= d
    ensures forall x :: x in Elems(ts) ==> 0.0 <= x <= d
  {
    forall x | x in Elems(ts)
      ensures 0.0 <= x <= d
    {
      var k :| 0 <= k < |ts| && ts[k] == x;
    }
  }

  /** An accepted field on a video with positive duration is cut into segments that tile [0, d]. */
  lemma TimestampPlanTiles(text: string, d: real)
    requires d > 0.0 && TimestampPlan(text, d).Some?
    ensures Tiles(TimestampPlan(text, d).value, d)
  {
    var cuts := Cuts(text, d);
    var b := SortedValues(cuts);
    CutsInRange(text, d);
    assert cuts[0] == 0.0 && cuts[|cuts| - 1] == d;
    assert 0.0 in Elems(b) && d in Elems(b);
    HeadIsLeast(b, 0.0);
    LastIsGreatest(b, d);
    assert b[0] in Elems(cuts) && b[|b| - 1] in Elems(cuts);
    ConsecutiveContiguous(b);
  }

  /** Appending one comma-free piece to the field appends its trimmed text to the pieces. */
  lemma PiecesAppend(text: string, p: string)
    requires ',' !in p
    ensures Pieces(text + "," + p) == Pieces(text) + [Trim(p)]
  {
    SplitConcat(text, ',', p);
    SplitWithoutSep(p, ',');
    assert text + "," + p == text + [','] + p;
  }

  /** A piece naming a time that is already a cut point (0, the duration, or a repeat) adds no segment. */
  lemma RepeatedCutAddsNothing(text: string, p: string, d: real)
    requires ',' !in p && !RejectsField(text, d)
    requires Accepted(Trim(p), d) && ParseTimestamp(Trim(p)).value in Elems(Cuts(text, d))
    ensures TimestampPlan(text + "," + p, d) == TimestampPlan(text, d)
  {
    var longer := text + "," + p;
    var ps := Pieces(text);
    PiecesAppend(text, p);
    TrimNotBlank(longer, |text|);
    TimesSnoc(ps, Trim(p), d);
    var v := ParseTimestamp(Trim(p)).value;
    ElemsSnoc(Times(ps, d), v);
    CutsElems(text, d);
    TimestampPlanOfTimeSet(longer, text, d);
  }

  /** The times of the pieces with one accepted piece more. */
  lemma TimesSnoc(ps: seq<string>, q: string, d: real)
    requires AllAccepted(ps, d) && Accepted(q, d)
    ensures AllAccepted(ps + [q], d)
    ensures Times(ps + [q], d) == Times(ps, d) + [ParseTimestamp(q).value]
  {
    var qs := ps + [q];
    assert forall i :: 0 <= i < |ps| ==> qs[i] == ps[i];
  }

  lemma ElemsSnoc(s: seq<real>, v: real)
    ensures Elems(s + [v]) == Elems(s) + {v}
  {
    assert forall i :: 0 <= i < |s| ==> (s + [v])[i] == s[i];
  }

  /** In particular, naming 0 or the duration itself changes nothing. */
  lemma BoundaryCutsAddNothing(text: string, p: string, d: real)
    requires ',' !in p && !RejectsField(text, d)
    requires ParseTimestamp(Trim(p)) == Some(0.0) || ParseTimestamp(Trim(p)) == Some(d)
    ensures TimestampPlan(text + "," + p, d) == TimestampPlan(text, d)
  {
    var cuts := Cuts(text, d);
    assert cuts[0] == 0.0 && cuts[|cuts| - 1] == d;
    CutsInRange(text, d);
    RepeatedCutAddsNothing(text, p, d);
  }

  /** The values of a list with one value added at each end. */
  lemma ElemsFramed(x: real, ts: seq<real>, y: real)
    ensures Elems([x] + ts + [y]) == {x, y} + Elems(ts)
  {
    var s := [x] + ts + [y];
    forall v | v in Elems(s)
      ensures v in {x, y} + Elems(ts)
    {
      var k :| 0 <= k < |s| && s[k] == v;
      if 0 < k < |s| - 1 {
        assert v == ts[k - 1];
      }
    }
    forall v | v in Elems(ts)
      ensures v in Elems(s)
    {
      var k :| 0 <= k < |ts| && ts[k] == v;
      assert s[k + 1] == v;
    }
  }

  /** The cut points of an accepted field, as a set: 0, the duration and the pieces' times. */
  lemma CutsElems(text: string, d: real)
    requires !RejectsField(text, d)
    ensures Elems(Cuts(text, d)) == {0.0, d} + Elems(Times(Pieces(text), d))
  {
    ElemsFramed(0.0, Times(Pieces(text), d), d);
  }

  /**
   * The plan depends only on the set of times the field names, together with 0 and the
   * duration: the order of the pieces, repeated times and pieces at 0 or at the duration
   * make no difference, wherever they stand in the field.
   */
  lemma TimestampPlanOfTimeSet(a: string, b: string, d: real)
    requires !RejectsField(a, d) && !RejectsField(b, d)
    requires {0.0, d} + Elems(Times(Pieces(a), d)) == {0.0, d} + Elems(Times(Pieces(b), d))
    ensures TimestampPlan(a, d) == TimestampPlan(b, d)
  {
    CutsElems(a, d);
    CutsElems(b, d);
    StrictlyIncreasingUnique(SortedValues(Cuts(a, d)), SortedValues(Cuts(b, d)));
  }

  /** One piece that is not accepted refuses the whole comma-joined field, whatever the other pieces are. */
  lemma BadPieceRefusesField(ps: seq<string>, k: nat, d: real)
    requires |ps| >= 1 && forall i :: 0 <= i < |ps| ==> ',' !in ps[i]
    requires k < |ps| && !Accepted(Trim(ps[k]), d)
    ensures TimestampPlan(Join(ps, ','), d) == None
  {
    PiecesOfJoin(ps);
    var pieces := Pieces(Join(ps, ','));
    assert !Accepted(pieces[k], d);
    assert RejectsField(Join(ps, ','), d);
  }

  /** A non-blank comma-joined field whose every piece is accepted is planned. */
  lemma GoodPiecesPlanField(ps: seq<string>, d: real)
    requires |ps| >= 1 && forall i :: 0 <= i < |ps| ==> ',' !in ps[i]
    requires Trim(Join(ps, ',')) != "" && forall i :: 0 <= i < |ps| ==> Accepted(Trim(ps[i]), d)
    ensures TimestampPlan(Join(ps, ','), d).Some?
  {
    PiecesOfJoin(ps);
    var pieces := Pieces(Join(ps, ','));
    assert AllAccepted(pieces, d);
  }

  lemma PiecesOfJoin(ps: seq<string>)
    requires |ps| >= 1 && forall k :: 0 <= k < |ps| ==> ',' !in ps[k]
    ensures |Pieces(Join(ps, ','))| == |ps|
    ensures forall k :: 0 <= k < |ps| ==> Pieces(Join(ps, ','))[k] == Trim(ps[k])
  {
    SplitJoin(ps, ',');
  }

  lemma PiecesOfPair(a: string, b: string)
    requires Trimmed(a) && Trimmed(b) && ',' !in a && ',' !in b
    ensures Pieces(a + "," + b) == [a, b]
  {
    assert a + "," + b == a + [','] + b;
    SplitPair(a, ',', b);
    TrimUnpadded(a);
    TrimUnpadded(b);
  }

  lemma CutsOfPair(a: string, b: string, x: real, y: real, d: real)
    requires Trimmed(a) && Trimmed(b) && ',' !in a && ',' !in b && a != ""
    requires ParseTimestamp(a) == Some(x) && ParseTimestamp(b) == Some(y)
    requires 0.0 <= x <= d && 0.0 <= y <= d
    ensures !RejectsField(a + "," + b, d) && Cuts(a + "," + b, d) == [0.0, x, y, d]
  {
    PiecesOfPair(a, b);
    TrimNotBlank(a + "," + b, |a|);
    assert AllAccepted([a, b], d);
  }

  lemma SortedFour(x: real, y: real, d: real)
    requires 0.0 < x < y < d
    ensures SortedValues([0.0, x, y, d]) == [0.0, x, y, d]
    ensures SortedValues([0.0, y, x, d]) == [0.0, x, y, d]
  {
    var cuts := [0.0, x, y, d];
    assert Elems([0.0, y, x, d]) == Elems(cuts);
    StrictlyIncreasingUnique(SortedValues(cuts), cuts);
    StrictlyIncreasingUnique(SortedValues([0.0, y, x, d]), cuts);
  }

  lemma ConsecutiveFour(x: real, y: real, d: real)
    ensures Consecutive([0.0, x, y, d]) == [Segment(0.0, x, x), Segment(x, y, y - x), Segment(y, d, d - y)]
  {
  }

  /** The token "30", as a value the examples below can name without re-reading it. */
  lemma Thirty() returns (a: string)
    ensures a == "30" && Trimmed(a) && ',' !in a && ParseTimestamp(a) == Some(30.0)
  {
    a := "30";
    ParseSeconds(a);
    assert DigitsValue("3") == 3;
  }

  lemma Sixty() returns (b: string)
    ensures b == "60" && Trimmed(b) && ',' !in b && ParseTimestamp(b) == Some(60.0)
  {
    b := "60";
    ParseSeconds(b);
    assert DigitsValue("6") == 6;
  }

  /** Two cut points strictly inside the video, in either order, give three segments. */
  lemma TwoCutPlan(a: string, b: string, x: real, y: real, d: real)
    requires Trimmed(a) && Trimmed(b) && ',' !in a && ',' !in b && a != "" && b != ""
    requires ParseTimestamp(a) == Some(x) && ParseTimestamp(b) == Some(y)
    requires 0.0 < x < y < d
    ensures TimestampPlan(a + "," + b, d) == Some([Segment(0.0, x, x), Segment(x, y, y - x), Segment(y, d, d - y)])
    ensures TimestampPlan(b + "," + a, d) == TimestampPlan(a + "," + b, d)
  {
    CutsOfPair(a, b, x, y, d);
    CutsOfPair(b, a, y, x, d);
    SortedFour(x, y, d);
    ConsecutiveFour(x, y, d);
  }

  /** `"30,60"` on a 90-second video: three 30-second segments, and `"60,30"` plans the same. */
  lemma ExampleThirtySixty()
    ensures TimestampPlan("30" + "," + "60", 90.0)
         == Some([Segment(0.0, 30.0, 30.0), Segment(30.0, 60.0, 30.0), Segment(60.0, 90.0, 30.0)])
    ensures TimestampPlan("60" + "," + "30", 90.0) == TimestampPlan("30" + "," + "60", 90.0)
  {
    var a := Thirty();
    var b := Sixty();
    TwoCutPlan(a, b, 30.0, 60.0, 90.0);
  }

  /** An accepted field yields segments exactly when the video has positive duration. */
  lemma TimestampPlanNonEmpty(text: string, d: real)
    requires !RejectsField(text, d)
    ensures TimestampPlan(text, d).value != [] <==> d > 0.0
  {
    CutsInRange(text, d);
    if d > 0.0 {
      TimestampPlanTiles(text, d);
    } else {
      TimestampPlanZero(text, d);
    }
  }

  /** On a video of no length every cut point is 0, so nothing is cut. */
  lemma TimestampPlanZero(text: string, d: real)
    requires !RejectsField(text, d) && d == 0.0
    ensures TimestampPlan(text, d) == Some([])
  {
    var cuts := Cuts(text, d);
    CutsInRange(text, d);
    assert cuts[0] == 0.0;
    assert Elems(cuts) == Elems([0.0]) by {
      forall x | x in Elems(cuts)
        ensures x == 0.0
      {
      }
    }
    StrictlyIncreasingUnique(SortedValues(cuts), [0.0]);
  }
}
