/**
 * Channel construction (sup_res_chnl.py: get_sr_vals and the touch-count loop of main).
 *
 * Every pivot anchors a band [lo, hi] that absorbs, in pivot-list order, each
 * pivot that keeps the band within the current maximum width; every absorbed
 * pivot is worth 20. The band then earns 1 per recent bar whose high or low
 * lies inside it.
 */
module Channels {
  import opened Wrappers

  /** The running state of get_sr_vals: the band bounds and the pivot weight. */
  datatype Band = Band(hi: int, lo: int, numpp: int)

  /** One entry of the candidate list: strength, high bound, low bound. */
  datatype Candidate = Candidate(strength: int, hi: int, lo: int)

  /** Width of the band if cpp were merged into it. */
  function MergedWidth(b: Band, cpp: int): int {
    if cpp <= b.hi then b.hi - cpp else cpp - b.lo
  }

  /** cpp fits the maximum width cw; an absent (NaN) width admits nothing. */
  predicate Fits(b: Band, cpp: int, cw: Option<int>) {
    cw.Some? && MergedWidth(b, cpp) <= cw.value
  }

  /** One iteration of get_sr_vals' loop. */
  function Step(b: Band, cpp: int, cw: Option<int>): (r: Band)
    ensures r.lo <= b.lo && b.hi <= r.hi
    ensures r.numpp == b.numpp + (if Fits(b, cpp, cw) then 20 else 0)
    ensures !Fits(b, cpp, cw) ==> r == b
    ensures Fits(b, cpp, cw) && b.lo <= b.hi ==> r.lo <= cpp <= r.hi
    ensures Fits(b, cpp, cw) && b.hi - b.lo <= cw.value ==> r.hi - r.lo <= cw.value
  {
    if !Fits(b, cpp, cw) then b
    else if cpp <= b.hi then Band(b.hi, Min(b.lo, cpp), b.numpp + 20)
    else Band(Max(b.hi, cpp), b.lo, b.numpp + 20)
  }

  /** The band anchored at vals[anchor] after scanning vals[..k]. */
  function BandAfter(vals: seq<int>, cw: Option<int>, anchor: nat, k: nat): (r: Band)
    requires anchor < |vals| && k <= |vals|
    ensures r.lo <= vals[anchor] <= r.hi
    ensures 0 <= r.numpp <= 20 * k && r.numpp % 20 == 0
  {
    if k == 0 then Band(vals[anchor], vals[anchor], 0)
    else Step(BandAfter(vals, cw, anchor, k - 1), vals[k - 1], cw)
  }

  /** Pivot y is absorbed into the band anchored at `anchor`. */
  predicate Accepts(vals: seq<int>, cw: Option<int>, anchor: nat, y: nat)
    requires anchor < |vals| && y < |vals|
  {
    Fits(BandAfter(vals, cw, anchor, y), vals[y], cw)
  }

  /** The indices among the first k pivots that the band absorbs. */
  ghost function AcceptedSet(vals: seq<int>, cw: Option<int>, anchor: nat, k: nat): set<nat>
    requires anchor < |vals| && k <= |vals|
  {
    set y: nat | y < k && Accepts(vals, cw, anchor, y)
  }

  /** The result of get_sr_vals(anchor, vals, cwidth, bar) where cw = cwidth[bar]. */
  function SrVals(vals: seq<int>, cw: Option<int>, anchor: nat): (r: Band)
    requires anchor < |vals|
    ensures r.lo <= vals[anchor] <= r.hi
    ensures 0 <= r.numpp <= 20 * |vals| && r.numpp % 20 == 0
  {
    BandAfter(vals, cw, anchor, |vals|)
  }

  /**
   * The band always contains its anchor and stays within a non-negative width;
   * with no usable width it is the anchor alone with no weight.
   */
  lemma {:induction false} BandBounds(vals: seq<int>, cw: Option<int>, anchor: nat, k: nat)
    requires anchor < |vals| && k <= |vals|
    ensures var b := BandAfter(vals, cw, anchor, k);
      b.lo <= vals[anchor] <= b.hi &&
      (cw.Some? && cw.value >= 0 ==> b.hi - b.lo <= cw.value) &&
      (cw.None? || cw.value < 0 ==> b == Band(vals[anchor], vals[anchor], 0))
  {
    if k > 0 {
      BandBounds(vals, cw, anchor, k - 1);
    }
  }

  /** Scanning further only widens the band. */
  lemma {:induction false} BandWidens(vals: seq<int>, cw: Option<int>, anchor: nat, j: nat, k: nat)
    requires anchor < |vals| && j <= k <= |vals|
    ensures BandAfter(vals, cw, anchor, k).lo <= BandAfter(vals, cw, anchor, j).lo
    ensures BandAfter(vals, cw, anchor, j).hi <= BandAfter(vals, cw, anchor, k).hi
  {
    if j < k {
      BandWidens(vals, cw, anchor, j, k - 1);
    }
  }

  /** Every absorbed pivot lies inside the band from then on. */
  lemma {:induction false} AcceptedInside(vals: seq<int>, cw: Option<int>, anchor: nat, y: nat, k: nat)
    requires anchor < |vals| && y < k <= |vals|
    requires Accepts(vals, cw, anchor, y)
    ensures BandAfter(vals, cw, anchor, k).lo <= vals[y] <= BandAfter(vals, cw, anchor, k).hi
  {
    BandBounds(vals, cw, anchor, y);
    BandWidens(vals, cw, anchor, y + 1, k);
  }

  /** numpp is 20 times the number of absorbed pivots. */
  lemma {:induction false} NumppCounts(vals: seq<int>, cw: Option<int>, anchor: nat, k: nat)
    requires anchor < |vals| && k <= |vals|
    ensures BandAfter(vals, cw, anchor, k).numpp == 20 * |AcceptedSet(vals, cw, anchor, k)|
  {
    if k > 0 {
      NumppCounts(vals, cw, anchor, k - 1);
      AcceptedSetStep(vals, cw, anchor, k);
      var before := AcceptedSet(vals, cw, anchor, k - 1);
      if Accepts(vals, cw, anchor, k - 1) {
        assert |before + {k - 1}| == |before| + 1;
      }
    }
  }

  /** Scanning one more pivot adds it to the absorbed set exactly when it is absorbed. */
  lemma AcceptedSetStep(vals: seq<int>, cw: Option<int>, anchor: nat, k: nat)
    requires anchor < |vals| && 0 < k <= |vals|
    ensures k - 1 !in AcceptedSet(vals, cw, anchor, k - 1)
    ensures AcceptedSet(vals, cw, anchor, k) ==
            AcceptedSet(vals, cw, anchor, k - 1) + (if Accepts(vals, cw, anchor, k - 1) then {k - 1} else {})
  {
  }

  /** With a usable width the anchor absorbs itself, so numpp is at least 20. */
  lemma {:induction false} AnchorAccepted(vals: seq<int>, cw: Option<int>, anchor: nat)
    requires anchor < |vals| && cw.Some? && cw.value >= 0
    ensures Accepts(vals, cw, anchor, anchor)
    ensures SrVals(vals, cw, anchor).numpp >= 20
  {
    BandBounds(vals, cw, anchor, anchor);
    NumppCounts(vals, cw, anchor, |vals|);
    assert anchor in AcceptedSet(vals, cw, anchor, |vals|);
  }

  /**
   * With a usable width, every pivot inside the final band was absorbed: when
   * the scan reached it, the band was no wider than the final one, so merging
   * it kept the band within the width.
   */
  lemma InsideAccepted(vals: seq<int>, cw: Option<int>, anchor: nat, y: nat)
    requires anchor < |vals| && y < |vals| && cw.Some? && cw.value >= 0
    requires SrVals(vals, cw, anchor).lo <= vals[y] <= SrVals(vals, cw, anchor).hi
    ensures Accepts(vals, cw, anchor, y)
  {
    BandBounds(vals, cw, anchor, y);
    BandBounds(vals, cw, anchor, |vals|);
    BandWidens(vals, cw, anchor, y, |vals|);
  }

  /** Both bounds of a band are pivot values: each only ever moves to the pivot just absorbed. */
  lemma {:induction false} BandBoundsArePivots(vals: seq<int>, cw: Option<int>, anchor: nat, k: nat)
    requires anchor < |vals| && k <= |vals|
    ensures var b := BandAfter(vals, cw, anchor, k);
      (exists j :: 0 <= j < |vals| && vals[j] == b.lo) && (exists j :: 0 <= j < |vals| && vals[j] == b.hi)
  {
    if k == 0 {
      assert vals[anchor] == BandAfter(vals, cw, anchor, 0).lo == BandAfter(vals, cw, anchor, 0).hi;
    } else {
      BandBoundsArePivots(vals, cw, anchor, k - 1);
      var p := BandAfter(vals, cw, anchor, k - 1);
      var q := BandAfter(vals, cw, anchor, k);
      if q.lo != p.lo {
        assert vals[k - 1] == q.lo;
      }
      if q.hi != p.hi {
        assert vals[k - 1] == q.hi;
      }
    }
  }

  /** Everything the band built by get_sr_vals promises. */
  lemma SrValsProperties(vals: seq<int>, cw: Option<int>, anchor: nat)
    requires anchor < |vals|
    ensures var b := SrVals(vals, cw, anchor);
      b.lo <= vals[anchor] <= b.hi &&
      (cw.Some? && cw.value >= 0 ==> b.hi - b.lo <= cw.value && b.numpp >= 20) &&
      (cw.None? ==> b.numpp == 0) &&
      b.numpp == 20 * |AcceptedSet(vals, cw, anchor, |vals|)| &&
      (forall y :: 0 <= y < |vals| && Accepts(vals, cw, anchor, y) ==> b.lo <= vals[y] <= b.hi) &&
      (cw.Some? && cw.value >= 0 ==>
         forall y :: 0 <= y < |vals| && b.lo <= vals[y] <= b.hi ==> Accepts(vals, cw, anchor, y))
  {
    BandBounds(vals, cw, anchor, |vals|);
    NumppCounts(vals, cw, anchor, |vals|);
    if cw.Some? && cw.value >= 0 {
      AnchorAccepted(vals, cw, anchor);
    }
    forall y | 0 <= y < |vals| && Accepts(vals, cw, anchor, y)
      ensures SrVals(vals, cw, anchor).lo <= vals[y] <= SrVals(vals, cw, anchor).hi
    {
      AcceptedInside(vals, cw, anchor, y, |vals|);
    }
    if cw.Some? && cw.value >= 0 {
      forall y | 0 <= y < |vals| && SrVals(vals, cw, anchor).lo <= vals[y] <= SrVals(vals, cw, anchor).hi
        ensures Accepts(vals, cw, anchor, y)
      {
        InsideAccepted(vals, cw, anchor, y);
      }
    }
  }

  /**
   * get_sr_vals(ind, pivotvals, cwidth, barIndex): grow a band from
   * pivotvals[ind] over all pivots in list order.
   */
  method GetSrVals(ind: nat, pivotvals: seq<int>, cwidth: seq<Option<int>>, barIndex: nat)
    returns (hi: int, lo: int, numpp: int)
    requires ind < |pivotvals| && barIndex < |cwidth|
    ensures Band(hi, lo, numpp) == SrVals(pivotvals, cwidth[barIndex], ind)
    ensures lo <= pivotvals[ind] <= hi
    ensures cwidth[barIndex].Some? && cwidth[barIndex].value >= 0 ==>
              hi - lo <= cwidth[barIndex].value && numpp >= 20
    ensures cwidth[barIndex].None? ==> numpp == 0
  {
    lo := pivotvals[ind];
    hi := lo;
    numpp := 0;
    for y := 0 to |pivotvals|
      invariant Band(hi, lo, numpp) == BandAfter(pivotvals, cwidth[barIndex], ind, y)
    {
      var cpp := pivotvals[y];
      var wdth := if cpp <= hi then hi - cpp else cpp - lo;
      if cwidth[barIndex].Some? && wdth <= cwidth[barIndex].value {
        if cpp <= hi {
          lo := Min(lo, cpp);
        } else {
          hi := Max(hi, cpp);
        }
        numpp := numpp + 20;
      }
    }
    SrValsProperties(pivotvals, cwidth[barIndex], ind);
  }

  /** Bar j's high or low lies in [l, h]. */
  predicate Touches(high: seq<int>, low: seq<int>, j: nat, l: int, h: int)
    requires j < |high| && j < |low|
  {
    (high[j] <= h && high[j] >= l) || (low[j] <= h && low[j] >= l)
  }

  /** The number of bars in [from, to) that touch [l, h]. */
  function CountTouches(high: seq<int>, low: seq<int>, l: int, h: int, from: nat, to: nat): (n: nat)
    requires to <= |high| && to <= |low|
    ensures n <= (if from <= to then to - from else 0)
    ensures l > h ==> n == 0
    decreases if from <= to then to - from else 0
  {
    if from >= to then 0
    else (if Touches(high, low, from, l, h) then 1 else 0) + CountTouches(high, low, l, h, from + 1, to)
  }

  /** The count is the size of the set of touching bars, so each bar counts once. */
  lemma {:induction false} CountTouchesIsSetSize(high: seq<int>, low: seq<int>, l: int, h: int, from: nat, to: nat)
    requires to <= |high| && to <= |low|
    ensures CountTouches(high, low, l, h, from, to) ==
            |set j: nat | from <= j < to && Touches(high, low, j, l, h)|
    ensures CountTouches(high, low, l, h, from, to) <= (if from <= to then to - from else 0)
    decreases if from <= to then to - from else 0
  {
    if from < to {
      CountTouchesIsSetSize(high, low, l, h, from + 1, to);
      var rest := set j: nat | from + 1 <= j < to && Touches(high, low, j, l, h);
      if Touches(high, low, from, l, h) {
        assert (set j: nat | from <= j < to && Touches(high, low, j, l, h)) == {from} + rest;
      } else {
        assert (set j: nat | from <= j < to && Touches(high, low, j, l, h)) == rest;
      }
    }
  }

  /** A band containing [l, h] is touched by at least as many bars. */
  lemma {:induction false} CountTouchesWider(high: seq<int>, low: seq<int>, l: int, h: int, l2: int, h2: int,
                                             from: nat, to: nat)
    requires to <= |high| && to <= |low| && l2 <= l && h <= h2
    ensures CountTouches(high, low, l, h, from, to) <= CountTouches(high, low, l2, h2, from, to)
    decreases if from <= to then to - from else 0
  {
    if from < to {
      CountTouchesWider(high, low, l, h, l2, h2, from + 1, to);
    }
  }

  /** First bar of the touch window: the loopback+1 bars before barIndex, clipped at 0. */
  function TouchStart(barIndex: nat, loopback: nat): nat {
    if barIndex >= loopback + 1 then barIndex - 1 - loopback else 0
  }

  /**
   * The touch-count loop of main for one band [l, h]: walk back over at most
   * loopback+1 bars before barIndex, counting those that touch the band.
   */
  method TouchCount(high: seq<int>, low: seq<int>, barIndex: nat, loopback: nat, h: int, l: int)
    returns (s: int)
    requires |high| == |low| && barIndex < |high|
    ensures s == CountTouches(high, low, l, h, TouchStart(barIndex, loopback), barIndex)
    ensures 0 <= s <= Min(loopback + 1, barIndex)
  {
    s := 0;
    for y2 := 0 to loopback + 1
      invariant s == CountTouches(high, low, l, h, Max(barIndex - y2, 0), barIndex)
      invariant s <= Min(y2, barIndex)
    {
      if barIndex - 1 < y2 {
        continue;
      }
      var j := barIndex - 1 - y2;
      if (high[j] <= h && high[j] >= l) || (low[j] <= h && low[j] >= l) {
        s := s + 1;
      }
    }
  }

  /** The candidate anchored at pivot i before touches are added. */
  function PivotCandidate(vals: seq<int>, cw: Option<int>, i: nat): (p: Candidate)
    requires i < |vals|
    ensures p.lo <= vals[i] <= p.hi
    ensures 0 <= p.strength <= 20 * |vals| && p.strength % 20 == 0
  {
    var b := SrVals(vals, cw, i);
    Candidate(b.numpp, b.hi, b.lo)
  }

  /** The get-levels loop of main: one candidate per pivot, in pivot order. */
  method BuildCandidates(pivotvals: seq<int>, cwidth: seq<Option<int>>, barIndex: nat)
    returns (supres: seq<Candidate>)
    requires barIndex < |cwidth|
    ensures |supres| == |pivotvals|
    ensures forall i :: 0 <= i < |pivotvals| ==> supres[i] == PivotCandidate(pivotvals, cwidth[barIndex], i)
    ensures forall i :: 0 <= i < |pivotvals| ==> supres[i].lo <= pivotvals[i] <= supres[i].hi
  {
    supres := [];
    for x1 := 0 to |pivotvals|
      invariant |supres| == x1
      invariant forall i :: 0 <= i < x1 ==> supres[i] == PivotCandidate(pivotvals, cwidth[barIndex], i)
      invariant forall i :: 0 <= i < x1 ==> supres[i].lo <= pivotvals[i] <= supres[i].hi
    {
      var hi, lo, strength := GetSrVals(x1, pivotvals, cwidth, barIndex);
      supres := supres + [Candidate(strength, hi, lo)];
    }
  }

  /** The candidate anchored at pivot i with its touch bonus added. */
  function Candidates(vals: seq<int>, cw: Option<int>, high: seq<int>, low: seq<int>, barIndex: nat, loopback: nat)
    : (c: seq<Candidate>)
    requires |high| == |low| && barIndex < |high|
    ensures |c| == |vals|
    ensures forall i :: 0 <= i < |vals| ==>
      c[i].lo <= vals[i] <= c[i].hi &&
      SrVals(vals, cw, i).numpp <= c[i].strength <= SrVals(vals, cw, i).numpp + (barIndex - TouchStart(barIndex, loopback))
  {
    seq(|vals|, i requires 0 <= i < |vals| =>
      var p := PivotCandidate(vals, cw, i);
      p.(strength := p.strength + CountTouches(high, low, p.lo, p.hi, TouchStart(barIndex, loopback), barIndex)))
  }

  /** The "add each HL to strength" loop of main, in place on the candidate array. */
  method AddTouches(supres: array<Candidate>, high: seq<int>, low: seq<int>, barIndex: nat, loopback: nat)
    requires |high| == |low| && barIndex < |high|
    modifies supres
    ensures forall i :: 0 <= i < supres.Length ==>
              supres[i] == old(supres[i]).(strength := old(supres[i]).strength +
                CountTouches(high, low, old(supres[i]).lo, old(supres[i]).hi, TouchStart(barIndex, loopback), barIndex))
  {
    for x2 := 0 to supres.Length
      invariant forall i :: 0 <= i < supres.Length ==>
                  supres[i] == if i < x2 then old(supres[i]).(strength := old(supres[i]).strength +
                    CountTouches(high, low, old(supres[i]).lo, old(supres[i]).hi, TouchStart(barIndex, loopback), barIndex))
                  else old(supres[i])
    {
      var h := supres[x2].hi;
      var l := supres[x2].lo;
      var s := TouchCount(high, low, barIndex, loopback, h, l);
      supres[x2] := supres[x2].(strength := supres[x2].strength + s);
    }
  }

  /**
   * Every candidate is a band around its anchor, no wider than a non-negative
   * maximum width, whose strength is its pivot weight plus at most
   * loopback+1 touches; with a usable width it is worth at least 20.
   */
  lemma CandidatesValid(vals: seq<int>, cw: Option<int>, high: seq<int>, low: seq<int>, barIndex: nat, loopback: nat, i: nat)
    requires |high| == |low| && barIndex < |high| && i < |vals|
    ensures var c := Candidates(vals, cw, high, low, barIndex, loopback)[i];
      c.lo <= vals[i] <= c.hi &&
      (cw.Some? && cw.value >= 0 ==> c.hi - c.lo <= cw.value && c.strength >= 20) &&
      SrVals(vals, cw, i).numpp <= c.strength <= SrVals(vals, cw, i).numpp + Min(loopback + 1, barIndex) &&
      c.strength >= 0
  {
    SrValsProperties(vals, cw, i);
    var b := SrVals(vals, cw, i);
    var from := TouchStart(barIndex, loopback);
    CountTouchesIsSetSize(high, low, b.lo, b.hi, from, barIndex);
  }

  /** A set that holds all of a and one element more is larger. */
  lemma SubsetSmaller<T>(a: set<T>, b: set<T>, x: T)
    requires a <= b && x in b && x !in a
    ensures |a| < |b|
  {
    assert b == a + (b - a);
    assert a * (b - a) == {};
    assert x in b - a;
  }

  /**
   * With a usable width, a band that contains the band of anchor i and
   * reaches beyond it absorbs every pivot the smaller one absorbs, and one
   * more: the pivot at its outer bound.
   */
  lemma WiderBandAbsorbsMore(vals: seq<int>, cw: Option<int>, i: nat, j: nat)
    requires i < |vals| && j < |vals| && cw.Some? && cw.value >= 0
    requires var bi := SrVals(vals, cw, i); var bj := SrVals(vals, cw, j);
      bj.lo <= bi.lo && bi.hi <= bj.hi && (bj.lo < bi.lo || bi.hi < bj.hi)
    ensures SrVals(vals, cw, i).numpp < SrVals(vals, cw, j).numpp
  {
    var bi := SrVals(vals, cw, i);
    var bj := SrVals(vals, cw, j);
    SrValsProperties(vals, cw, i);
    SrValsProperties(vals, cw, j);
    var ai := AcceptedSet(vals, cw, i, |vals|);
    var aj := AcceptedSet(vals, cw, j, |vals|);
    assert ai <= aj;
    BandBoundsArePivots(vals, cw, j, |vals|);
    var x: nat :| x < |vals| && vals[x] == (if bj.lo < bi.lo then bj.lo else bj.hi);
    assert x in aj;
    SubsetSmaller(ai, aj, x);
  }

  /**
   * A candidate band that strictly contains another is strictly stronger: it
   * absorbs more pivots and is touched by at least as many bars.
   */
  lemma ContainingBandStronger(vals: seq<int>, cw: Option<int>, high: seq<int>, low: seq<int>, barIndex: nat,
                               loopback: nat, i: nat, j: nat)
    requires |high| == |low| && barIndex < |high| && i < |vals| && j < |vals|
    requires var c := Candidates(vals, cw, high, low, barIndex, loopback);
      c[j].lo <= c[i].lo && c[i].hi <= c[j].hi && (c[j].lo < c[i].lo || c[i].hi < c[j].hi)
    ensures var c := Candidates(vals, cw, high, low, barIndex, loopback);
      c[i].strength < c[j].strength
  {
    var bi := SrVals(vals, cw, i);
    var bj := SrVals(vals, cw, j);
    var from := TouchStart(barIndex, loopback);
    if cw.Some? && cw.value >= 0 {
      WiderBandAbsorbsMore(vals, cw, i, j);
      CountTouchesWider(high, low, bi.lo, bi.hi, bj.lo, bj.hi, from, barIndex);
    } else {
      BandBounds(vals, cw, i, |vals|);
      BandBounds(vals, cw, j, |vals|);
      assert false;
    }
  }
}
