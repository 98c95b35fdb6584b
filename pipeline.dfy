/**
 * The indicator end to end (sup_res_chnl.py: main up to the output loop).
 *
 * Pivot highs and lows are found in two source series, collected newest
 * first, and those more than loopback bars before the last bar are removed.
 * Then at every pivot bar the channels are rebuilt from that final pivot
 * list, using that bar's maximum width and touch window; the level array the
 * last pivot bar leaves behind is the indicator's result.
 */
module Pipeline {
  import opened Wrappers
  import opened Pivots
  import opened Channels
  import opened Ranking
  import opened Classify

  /** The bar data of main, one entry per bar. */
  datatype Series = Series(open: seq<int>, high: seq<int>, low: seq<int>, close: seq<int>)

  predicate WellFormed(s: Series) {
    |s.open| == |s.high| && |s.low| == |s.high| && |s.close| == |s.high|
  }

  /** The two choices of ppsrc: "High/Low" and "Close/Open". */
  datatype PivotSource = HighLow | CloseOpen

  /** The inputs of main the core uses: prd, ppsrc, minstrength and loopback. */
  datatype Config = Config(prd: nat, ppsrc: PivotSource, minstrength: int, loopback: nat)

  /**
   * src1 and src2 of main: high and low, or the larger and the smaller of
   * close and open.
   */
  function PivotSources(s: Series, ppsrc: PivotSource): (r: (seq<int>, seq<int>))
    requires WellFormed(s)
    ensures |r.0| == |s.high| && |r.1| == |s.high|
    ensures ppsrc == HighLow ==> r.0 == s.high && r.1 == s.low
    ensures ppsrc == CloseOpen ==> forall i :: 0 <= i < |s.high| ==>
              r.1[i] <= r.0[i] &&
              ((r.0[i] == s.close[i] && r.1[i] == s.open[i]) || (r.0[i] == s.open[i] && r.1[i] == s.close[i]))
  {
    match ppsrc
    case HighLow => (s.high, s.low)
    case CloseOpen =>
      (seq(|s.high|, i requires 0 <= i < |s.high| => Max(s.close[i], s.open[i])),
       seq(|s.high|, i requires 0 <= i < |s.high| => Min(s.close[i], s.open[i])))
  }

  /** pivotvals and pivotlocs of main, newest pivot first. */
  datatype PivotList = PivotList(vals: seq<int>, locs: seq<int>)

  /** Bar b has a pivot high or a pivot low. */
  predicate IsPivotBar(ph: seq<Option<int>>, pl: seq<Option<int>>, b: int)
    requires 0 <= b < |ph| && b < |pl|
  {
    ph[b].Some? || pl[b].Some?
  }

  /** The value recorded for a pivot bar: the pivot high when there is one, else the pivot low. */
  function PivotValue(h: Option<int>, l: Option<int>): int
    requires h.Some? || l.Some?
  {
    if h.Some? then h.value else l.value
  }

  /** The pivot list after bars 0..n-1: each pivot bar is inserted at the front. */
  function Collected(ph: seq<Option<int>>, pl: seq<Option<int>>, n: nat): (p: PivotList)
    requires n <= |ph| && n <= |pl|
    ensures |p.vals| == |p.locs|
  {
    if n == 0 then PivotList([], [])
    else
      var p := Collected(ph, pl, n - 1);
      if IsPivotBar(ph, pl, n - 1) then
        PivotList([PivotValue(ph[n - 1], pl[n - 1])] + p.vals, [n - 1] + p.locs)
      else p
  }

  /** Bar indices strictly decrease along the list. */
  predicate NewestFirst(locs: seq<int>) {
    forall i, j :: 0 <= i < j < |locs| ==> locs[i] > locs[j]
  }

  /**
   * The collected list has one entry per pivot bar before n, newest first,
   * each holding that bar's pivot value.
   */
  lemma {:induction false} CollectedProperties(ph: seq<Option<int>>, pl: seq<Option<int>>, n: nat)
    requires n <= |ph| && n <= |pl|
    ensures var p := Collected(ph, pl, n);
      NewestFirst(p.locs) &&
      (forall k :: 0 <= k < |p.locs| ==>
         0 <= p.locs[k] < n && IsPivotBar(ph, pl, p.locs[k]) &&
         p.vals[k] == PivotValue(ph[p.locs[k]], pl[p.locs[k]])) &&
      (forall b :: 0 <= b < n && IsPivotBar(ph, pl, b) ==> b in p.locs)
  {
    if n > 0 {
      CollectedProperties(ph, pl, n - 1);
      var q := Collected(ph, pl, n - 1);
      var p := Collected(ph, pl, n);
      if IsPivotBar(ph, pl, n - 1) {
        forall k | 0 < k < |p.locs|
          ensures p.locs[k] == q.locs[k - 1] && p.vals[k] == q.vals[k - 1]
        {
        }
      }
    }
  }

  /** The collection loop of main (lines 309-314). */
  method CollectPivots(ph: seq<Option<int>>, pl: seq<Option<int>>) returns (p: PivotList)
    requires |ph| == |pl|
    ensures p == Collected(ph, pl, |ph|)
  {
    var vals: seq<int> := [];
    var locs: seq<int> := [];
    var b := 0;
    while b < |ph|
      invariant b <= |ph|
      invariant PivotList(vals, locs) == Collected(ph, pl, b)
    {
      if ph[b].Some? || pl[b].Some? {
        vals := [if ph[b].Some? then ph[b].value else pl[b].value] + vals;
        locs := [b] + locs;
      }
      b := b + 1;
    }
    p := PivotList(vals, locs);
  }

  /** A pivot at bar loc is kept when it is at most loopback bars before bar `last`. */
  predicate Recent(loc: int, last: int, loopback: nat) {
    last - loc <= loopback
  }

  /** The entries of p from position x on. */
  function Suffix(p: PivotList, x: nat): PivotList
    requires |p.vals| == |p.locs| && x <= |p.locs|
  {
    PivotList(p.vals[x..], p.locs[x..])
  }

  /** p without the pivots that are not recent, in the same order. */
  function Evicted(p: PivotList, last: int, loopback: nat): (r: PivotList)
    requires |p.vals| == |p.locs|
    ensures |r.vals| == |r.locs| <= |p.locs|
    decreases |p.locs|
  {
    if |p.locs| == 0 then p
    else
      var rest := Evicted(Suffix(p, 1), last, loopback);
      if Recent(p.locs[0], last, loopback) then PivotList([p.vals[0]] + rest.vals, [p.locs[0]] + rest.locs)
      else rest
  }

  /**
   * On a newest-first list the pivots kept are a prefix: position k survives
   * exactly when its pivot is recent.
   */
  lemma {:induction false} EvictedPrefix(p: PivotList, last: int, loopback: nat)
    requires |p.vals| == |p.locs| && NewestFirst(p.locs)
    ensures var r := Evicted(p, last, loopback);
      r.vals == p.vals[..|r.vals|] && r.locs == p.locs[..|r.locs|] &&
      forall k :: 0 <= k < |p.locs| ==> (Recent(p.locs[k], last, loopback) <==> k < |r.locs|)
    decreases |p.locs|
  {
    if |p.locs| > 0 {
      var q := Suffix(p, 1);
      assert NewestFirst(q.locs) by {
        forall i, j | 0 <= i < j < |q.locs| ensures q.locs[i] > q.locs[j] {
          assert q.locs[i] == p.locs[i + 1] && q.locs[j] == p.locs[j + 1];
        }
      }
      EvictedPrefix(q, last, loopback);
      var rest := Evicted(q, last, loopback);
      var r := Evicted(p, last, loopback);
      if Recent(p.locs[0], last, loopback) {
        assert r.vals == [p.vals[0]] + q.vals[..|rest.vals|];
        assert r.locs == [p.locs[0]] + q.locs[..|rest.locs|];
        forall k | 0 < k < |p.locs|
          ensures Recent(p.locs[k], last, loopback) <==> k < |r.locs|
        {
          assert p.locs[k] == q.locs[k - 1];
        }
      } else {
        if |rest.locs| > 0 {
          assert false;
        }
        forall k | 0 < k < |p.locs|
          ensures !Recent(p.locs[k], last, loopback)
        {
          assert p.locs[k] < p.locs[0];
        }
      }
    }
  }

  /** Removing position x from p. */
  function DeleteAt(p: PivotList, x: nat): PivotList
    requires |p.vals| == |p.locs| && x < |p.locs|
  {
    PivotList(p.vals[..x] + p.vals[x + 1..], p.locs[..x] + p.locs[x + 1..])
  }

  /** The state of the removal loop at position x: p's entries before x, then the kept entries from x on. */
  function EvictedFrom(p: PivotList, x: nat, last: int, loopback: nat): (r: PivotList)
    requires |p.vals| == |p.locs| && x <= |p.locs|
    ensures |r.vals| == |r.locs|
  {
    var rest := Evicted(Suffix(p, x), last, loopback);
    PivotList(p.vals[..x] + rest.vals, p.locs[..x] + rest.locs)
  }

  /** Before the loop nothing has been removed; after it, the whole list has been filtered. */
  lemma EvictedFromEnds(p: PivotList, last: int, loopback: nat)
    requires |p.vals| == |p.locs|
    ensures EvictedFrom(p, |p.locs|, last, loopback) == p
    ensures EvictedFrom(p, 0, last, loopback) == Evicted(p, last, loopback)
  {
    assert p.vals[..|p.locs|] == p.vals && p.locs[..|p.locs|] == p.locs;
    assert Suffix(p, 0) == p && p.vals[..0] == [] && p.locs[..0] == [];
  }

  /** One step of the removal loop: entry x is deleted exactly when it is not recent. */
  lemma EvictedFromStep(p: PivotList, x: nat, last: int, loopback: nat)
    requires |p.vals| == |p.locs| && x < |p.locs|
    ensures var r := EvictedFrom(p, x + 1, last, loopback);
      x < |r.locs| && r.locs[x] == p.locs[x] &&
      EvictedFrom(p, x, last, loopback) == if Recent(p.locs[x], last, loopback) then r else DeleteAt(r, x)
  {
    var r := EvictedFrom(p, x + 1, last, loopback);
    var rest := Evicted(Suffix(p, x + 1), last, loopback);
    assert Suffix(Suffix(p, x), 1) == Suffix(p, x + 1);
    assert r.locs[x] == p.locs[x];
    if Recent(p.locs[x], last, loopback) {
      assert p.vals[..x + 1] + rest.vals == p.vals[..x] + ([p.vals[x]] + rest.vals);
      assert p.locs[..x + 1] + rest.locs == p.locs[..x] + ([p.locs[x]] + rest.locs);
    } else {
      assert r.vals[..x] + r.vals[x + 1..] == p.vals[..x] + rest.vals;
      assert r.locs[..x] + r.locs[x + 1..] == p.locs[..x] + rest.locs;
    }
  }

  /**
   * The removal loop of main (lines 316-321): walk the list from its end,
   * deleting every pivot more than loopback bars before bar `last`.
   */
  method EvictOld(p: PivotList, last: int, loopback: nat) returns (r: PivotList)
    requires |p.vals| == |p.locs|
    ensures r == Evicted(p, last, loopback)
  {
    EvictedFromEnds(p, last, loopback);
    r := p;
    var x: nat := |p.locs|;
    while x > 0
      invariant x <= |p.locs|
      invariant r == EvictedFrom(p, x, last, loopback)
    {
      x := x - 1;
      EvictedFromStep(p, x, last, loopback);
      if last - r.locs[x] > loopback {
        r := DeleteAt(r, x);
      }
    }
  }

  /** The level array a rebuild at bar b is meant to leave: the selection, passed through the corrected sort. */
  function LevelsAt(vals: seq<int>, cw: Option<int>, high: seq<int>, low: seq<int>, b: nat,
                    loopback: nat, minstrength: int): (sr: seq<int>)
    requires |high| == |low| && b < |high|
    ensures |sr| == 2 * Slots
  {
    var c := Candidates(vals, cw, high, low, b, loopback);
    var P := Select(c, minstrength).picks;
    SwapSorted(Ranked(StrensOf(c, P), LevelsOf(c, P))).sr
  }

  /**
   * The rebuild of main at a pivot bar (lines 323-392): build the candidates,
   * add touches, select in place and sort.
   */
  method Recompute(sr: array<int>, vals: seq<int>, cwidth: seq<Option<int>>, high: seq<int>, low: seq<int>,
                   b: nat, loopback: nat, minstrength: int)
    requires sr.Length == 2 * Slots && |high| == |low| && b < |high| && b < |cwidth|
    modifies sr
    ensures sr[..] == LevelsAt(vals, cwidth[b], high, low, b, loopback, minstrength)
  {
    var cands := BuildCandidates(vals, cwidth, b);
    var supres := new Candidate[|cands|](i requires 0 <= i < |cands| => cands[i]);
    AddTouches(supres, high, low, b, loopback);
    assert supres[..] == Candidates(vals, cwidth[b], high, low, b, loopback);
    ghost var c := supres[..];
    var stren := SelectStrongest(supres, minstrength, sr);
    SortSlots(stren, sr);
    SortAfterSelectionIdle(c, minstrength);
  }

  /** The sort never changes what the selection wrote, so a rebuild stores the selection itself. */
  lemma LevelsAtSelection(vals: seq<int>, cw: Option<int>, high: seq<int>, low: seq<int>, b: nat,
                          loopback: nat, minstrength: int)
    requires |high| == |low| && b < |high|
    ensures var c := Candidates(vals, cw, high, low, b, loopback);
      LevelsAt(vals, cw, high, low, b, loopback, minstrength) == LevelsOf(c, Select(c, minstrength).picks)
  {
    var c := Candidates(vals, cw, high, low, b, loopback);
    SortAfterSelectionIdle(c, minstrength);
  }

  /**
   * A rebuild commits at most ten channels, at most one per pivot: its picks
   * are distinct pivot positions, each eligible at the threshold.
   */
  lemma RebuildPicks(vals: seq<int>, cw: Option<int>, high: seq<int>, low: seq<int>, b: nat,
                     loopback: nat, minstrength: int)
    requires |high| == |low| && b < |high|
    ensures var c := Candidates(vals, cw, high, low, b, loopback);
      var P := Select(c, minstrength).picks;
      |P| <= Slots && |P| <= |vals| &&
      (forall k :: 0 <= k < |P| ==> P[k] < |vals| && Eligible(c[P[k]], minstrength * 20)) &&
      (forall m, k :: 0 <= m < k < |P| ==> P[m] != P[k])
  {
    var c := Candidates(vals, cw, high, low, b, loopback);
    PicksEligible(c, minstrength * 20, |c|, Slots);
    PicksDistinct(c, minstrength * 20, |c|, Slots);
  }

  /**
   * Slot k of a rebuild: the (hi, lo) pair of the k-th committed channel, a
   * band around its pivot no wider than a usable maximum width, or 0 and 0
   * when fewer than k + 1 channels were committed.
   */
  lemma StoredSlot(vals: seq<int>, cw: Option<int>, high: seq<int>, low: seq<int>, b: nat,
                   loopback: nat, minstrength: int, k: nat)
    requires |high| == |low| && b < |high| && k < Slots
    ensures var c := Candidates(vals, cw, high, low, b, loopback);
      var P := Select(c, minstrength).picks;
      var sr := LevelsAt(vals, cw, high, low, b, loopback, minstrength);
      if k < |P| then
        sr[2 * k] == c[P[k]].hi && sr[2 * k + 1] == c[P[k]].lo &&
        sr[2 * k + 1] <= vals[P[k]] <= sr[2 * k] &&
        (cw.Some? && cw.value >= 0 ==> sr[2 * k] - sr[2 * k + 1] <= cw.value)
      else sr[2 * k] == 0 && sr[2 * k + 1] == 0
  {
    var c := Candidates(vals, cw, high, low, b, loopback);
    var P := Select(c, minstrength).picks;
    LevelsAtSelection(vals, cw, high, low, b, loopback, minstrength);
    LevelsOfSlot(c, P, k);
    if k < |P| {
      CandidatesValid(vals, cw, high, low, b, loopback, P[k]);
    }
  }

  /**
   * Committed channels do not overlap: no committed channel has a bound
   * inside an earlier one (the selection drops those), and no earlier one has
   * a bound strictly inside a later one (it would then lie wholly inside the
   * later band, which would be the stronger).
   */
  lemma RebuildDisjoint(vals: seq<int>, cw: Option<int>, high: seq<int>, low: seq<int>, b: nat,
                        loopback: nat, minstrength: int, m: nat, k: nat)
    requires |high| == |low| && b < |high|
    requires m < k < |Select(Candidates(vals, cw, high, low, b, loopback), minstrength).picks|
    ensures var sr := LevelsAt(vals, cw, high, low, b, loopback, minstrength);
      !(sr[2 * m + 1] <= sr[2 * k] <= sr[2 * m]) && !(sr[2 * m + 1] <= sr[2 * k + 1] <= sr[2 * m]) &&
      !(sr[2 * k + 1] < sr[2 * m] < sr[2 * k]) && !(sr[2 * k + 1] < sr[2 * m + 1] < sr[2 * k])
  {
    var c := Candidates(vals, cw, high, low, b, loopback);
    var P := Select(c, minstrength).picks;
    PicksDisjoint(c, minstrength * 20, |c|, Slots);
    assert P == Selection(c, minstrength * 20, |c|, Slots).picks;
    assert !Overlaps(c[P[k]], c[P[m]].hi, c[P[m]].lo);
    LevelsAtSelection(vals, cw, high, low, b, loopback, minstrength);
    LevelsOfSlot(c, P, m);
    LevelsOfSlot(c, P, k);
    var hm, lm, hk, lk := c[P[m]].hi, c[P[m]].lo, c[P[k]].hi, c[P[k]].lo;
    if (lk < hm < hk) || (lk < lm < hk) {
      RebuildPicks(vals, cw, high, low, b, loopback, minstrength);
      assert lk < lm <= hm < hk;
      ContainingBandStronger(vals, cw, high, low, b, loopback, P[m], P[k]);
      RebuildByStrength(vals, cw, high, low, b, loopback, minstrength);
      assert false;
    }
  }

  /** Committed channels come strongest first. */
  lemma RebuildByStrength(vals: seq<int>, cw: Option<int>, high: seq<int>, low: seq<int>, b: nat,
                          loopback: nat, minstrength: int)
    ensures var c := Candidates(vals, cw, high, low, b, loopback);
      var P := Select(c, minstrength).picks;
      forall m, k :: 0 <= m < k < |P| ==> c[P[m]].strength >= c[P[k]].strength
    requires |high| == |low| && b < |high|
  {
    var c := Candidates(vals, cw, high, low, b, loopback);
    var P := Select(c, minstrength).picks;
    PicksNonIncreasing(c, minstrength * 20, |c|, Slots);
    assert P == Selection(c, minstrength * 20, |c|, Slots).picks;
    forall m, k | 0 <= m < k < |P| ensures c[P[m]].strength >= c[P[k]].strength {
      NonIncreasingStep(c, P, m, k);
    }
  }

  /** The last pivot bar before bar n, if any. */
  function LastPivotBefore(ph: seq<Option<int>>, pl: seq<Option<int>>, n: nat): (r: Option<nat>)
    requires n <= |ph| && n <= |pl|
    ensures r.Some? ==> r.value < n && IsPivotBar(ph, pl, r.value) &&
                        forall b :: r.value < b < n ==> !IsPivotBar(ph, pl, b)
    ensures r.None? ==> forall b :: 0 <= b < n ==> !IsPivotBar(ph, pl, b)
  {
    if n == 0 then None
    else if IsPivotBar(ph, pl, n - 1) then Some(n - 1)
    else LastPivotBefore(ph, pl, n - 1)
  }

  /** The level array before any rebuild: all zero. */
  function NoLevels(): (sr: seq<int>)
    ensures |sr| == 2 * Slots
  {
    seq(2 * Slots, _ => 0)
  }

  /**
   * The level array after the rebuild loop has seen bars 0..n-1: each pivot
   * bar rebuilds from scratch, so only the last one before n matters.
   */
  function LevelsAfter(vals: seq<int>, cwidth: seq<Option<int>>, high: seq<int>, low: seq<int>,
                       ph: seq<Option<int>>, pl: seq<Option<int>>, n: nat, loopback: nat, minstrength: int)
    : (sr: seq<int>)
    requires |high| == |low| && |cwidth| == |high| && n <= |high| && n <= |ph| && n <= |pl|
    ensures |sr| == 2 * Slots
  {
    match LastPivotBefore(ph, pl, n)
    case None => NoLevels()
    case Some(b) => LevelsAt(vals, cwidth[b], high, low, b, loopback, minstrength)
  }

  /** One more bar: a pivot bar replaces the level array by its rebuild, any other bar keeps it. */
  lemma LevelsAfterStep(vals: seq<int>, cwidth: seq<Option<int>>, high: seq<int>, low: seq<int>,
                        ph: seq<Option<int>>, pl: seq<Option<int>>, n: nat, loopback: nat, minstrength: int)
    requires |high| == |low| && |cwidth| == |high| && n < |high| && n < |ph| && n < |pl|
    ensures LevelsAfter(vals, cwidth, high, low, ph, pl, n + 1, loopback, minstrength) ==
            if IsPivotBar(ph, pl, n) then LevelsAt(vals, cwidth[n], high, low, n, loopback, minstrength)
            else LevelsAfter(vals, cwidth, high, low, ph, pl, n, loopback, minstrength)
  {
  }

  /** Before the rebuild loop has seen any bar, the level array is all zero. */
  lemma LevelsAfterStart(vals: seq<int>, cwidth: seq<Option<int>>, high: seq<int>, low: seq<int>,
                         ph: seq<Option<int>>, pl: seq<Option<int>>, loopback: nat, minstrength: int)
    requires |high| == |low| && |cwidth| == |high|
    ensures LevelsAfter(vals, cwidth, high, low, ph, pl, 0, loopback, minstrength) == NoLevels()
  {
  }

  /** The level array main starts from (line 271). */
  method ZeroLevels() returns (levels: array<int>)
    ensures fresh(levels) && levels[..] == NoLevels()
  {
    levels := new int[2 * Slots](_ => 0);
  }

  /** One bar of the rebuild loop: rebuild the level array when bar b is a pivot bar. */
  method RebuildAtBar(levels: array<int>, vals: seq<int>, cwidth: seq<Option<int>>, high: seq<int>, low: seq<int>,
                      ph: seq<Option<int>>, pl: seq<Option<int>>, b: nat, loopback: nat, minstrength: int)
    requires |high| == |low| && |cwidth| == |high| && |ph| == |high| && |pl| == |high| && b < |high|
    requires levels[..] == LevelsAfter(vals, cwidth, high, low, ph, pl, b, loopback, minstrength)
    modifies levels
    ensures levels[..] == LevelsAfter(vals, cwidth, high, low, ph, pl, b + 1, loopback, minstrength)
  {
    LevelsAfterStep(vals, cwidth, high, low, ph, pl, b, loopback, minstrength);
    if ph[b].Some? || pl[b].Some? {
      Recompute(levels, vals, cwidth, high, low, b, loopback, minstrength);
    }
  }

  /** Pivot highs and pivot lows of the two source series. */
  function PivotSeries(s: Series, cfg: Config): (r: (seq<Option<int>>, seq<Option<int>>))
    requires WellFormed(s)
    ensures |r.0| == |s.high| && |r.1| == |s.high|
  {
    var srcs := PivotSources(s, cfg.ppsrc);
    (PivotSpec(srcs.0, cfg.prd, cfg.prd, Highest), PivotSpec(srcs.1, cfg.prd, cfg.prd, Lowest))
  }

  /** The pivot list the rebuilds use: all pivots, newest first, the old ones removed. */
  function FinalPivots(s: Series, cfg: Config): (p: PivotList)
    requires WellFormed(s)
    ensures |p.vals| == |p.locs|
  {
    var pv := PivotSeries(s, cfg);
    Evicted(Collected(pv.0, pv.1, |s.high|), |s.high| - 1, cfg.loopback)
  }

  /** The level array main ends with. */
  function FinalLevels(s: Series, cfg: Config, cwidth: seq<Option<int>>): (sr: seq<int>)
    requires WellFormed(s) && |cwidth| == |s.high|
    ensures |sr| == 2 * Slots
  {
    var pv := PivotSeries(s, cfg);
    LevelsAfter(FinalPivots(s, cfg).vals, cwidth, s.high, s.low, pv.0, pv.1, |s.high|, cfg.loopback, cfg.minstrength)
  }

  /**
   * The final pivot list holds, newest first, exactly the pivot bars at most
   * loopback bars before the last bar, each with its pivot value.
   */
  lemma FinalPivotsProperties(s: Series, cfg: Config)
    requires WellFormed(s)
    ensures var pv := PivotSeries(s, cfg);
      var p := FinalPivots(s, cfg);
      NewestFirst(p.locs) &&
      (forall k :: 0 <= k < |p.locs| ==>
         0 <= p.locs[k] < |s.high| && IsPivotBar(pv.0, pv.1, p.locs[k]) &&
         Recent(p.locs[k], |s.high| - 1, cfg.loopback) &&
         p.vals[k] == PivotValue(pv.0[p.locs[k]], pv.1[p.locs[k]])) &&
      (forall b :: 0 <= b < |s.high| && IsPivotBar(pv.0, pv.1, b) && Recent(b, |s.high| - 1, cfg.loopback) ==>
         b in p.locs)
  {
    var pv := PivotSeries(s, cfg);
    KeptPivots(pv.0, pv.1, |s.high|, |s.high| - 1, cfg.loopback);
  }

  /** The pivots of bars 0..n-1 that survive the removal relative to bar `last`. */
  lemma KeptPivots(ph: seq<Option<int>>, pl: seq<Option<int>>, n: nat, last: int, loopback: nat)
    requires n <= |ph| && n <= |pl|
    ensures var p := Evicted(Collected(ph, pl, n), last, loopback);
      NewestFirst(p.locs) &&
      (forall k :: 0 <= k < |p.locs| ==>
         0 <= p.locs[k] < n && IsPivotBar(ph, pl, p.locs[k]) && Recent(p.locs[k], last, loopback) &&
         p.vals[k] == PivotValue(ph[p.locs[k]], pl[p.locs[k]])) &&
      (forall b :: 0 <= b < n && IsPivotBar(ph, pl, b) && Recent(b, last, loopback) ==> b in p.locs)
  {
    var q := Collected(ph, pl, n);
    var p := Evicted(q, last, loopback);
    CollectedProperties(ph, pl, n);
    EvictedPrefix(q, last, loopback);
    forall k | 0 <= k < |p.locs| ensures p.locs[k] == q.locs[k] && p.vals[k] == q.vals[k] {
    }
    forall b | 0 <= b < n && IsPivotBar(ph, pl, b) && Recent(b, last, loopback)
      ensures b in p.locs
    {
      var k :| 0 <= k < |q.locs| && q.locs[k] == b;
      assert p.locs[k] == b;
    }
  }

  /**
   * main up to the output loop: find and collect the pivots, remove the old
   * ones, and rebuild the level array at every pivot bar.
   */
  method SupportResistance(s: Series, cfg: Config, cwidth: seq<Option<int>>) returns (sr: seq<int>)
    requires WellFormed(s) && |cwidth| == |s.high|
    ensures sr == FinalLevels(s, cfg, cwidth)
  {
    var srcs := PivotSources(s, cfg.ppsrc);
    var ph := PivotHigh(srcs.0, cfg.prd, cfg.prd);
    var pl := PivotLow(srcs.1, cfg.prd, cfg.prd);
    var collected := CollectPivots(ph, pl);
    var p := EvictOld(collected, |s.high| - 1, cfg.loopback);
    assert (ph, pl) == PivotSeries(s, cfg) && p == FinalPivots(s, cfg);
    sr := RebuildAtPivotBars(p.vals, cwidth, s.high, s.low, ph, pl, cfg.loopback, cfg.minstrength);
  }

  /** The rebuild loop of main (lines 323-392): the level array is rebuilt at every pivot bar. */
  method RebuildAtPivotBars(vals: seq<int>, cwidth: seq<Option<int>>, high: seq<int>, low: seq<int>,
                            ph: seq<Option<int>>, pl: seq<Option<int>>, loopback: nat, minstrength: int)
    returns (sr: seq<int>)
    requires |high| == |low| && |cwidth| == |high| && |ph| == |high| && |pl| == |high|
    ensures sr == LevelsAfter(vals, cwidth, high, low, ph, pl, |high|, loopback, minstrength)
  {
    var levels := ZeroLevels();
    LevelsAfterStart(vals, cwidth, high, low, ph, pl, loopback, minstrength);
    for b := 0 to |high|
      invariant levels[..] == LevelsAfter(vals, cwidth, high, low, ph, pl, b, loopback, minstrength)
    {
      RebuildAtBar(levels, vals, cwidth, high, low, ph, pl, b, loopback, minstrength);
    }
    sr := levels[..];
  }

  /**
   * Every slot of the final level array is ordered (lo <= hi) and is either
   * empty (0 and 0) or a channel around one of the final pivots.
   */
  lemma FinalSlots(s: Series, cfg: Config, cwidth: seq<Option<int>>, k: nat)
    requires WellFormed(s) && |cwidth| == |s.high| && k < Slots
    ensures var sr := FinalLevels(s, cfg, cwidth);
      var vals := FinalPivots(s, cfg).vals;
      sr[2 * k + 1] <= sr[2 * k] &&
      ((sr[2 * k] == 0 && sr[2 * k + 1] == 0) || exists i :: 0 <= i < |vals| && sr[2 * k + 1] <= vals[i] <= sr[2 * k])
  {
    var pv := PivotSeries(s, cfg);
    var vals := FinalPivots(s, cfg).vals;
    match LastPivotBefore(pv.0, pv.1, |s.high|)
    case None =>
    case Some(b) =>
      StoredSlot(vals, cwidth[b], s.high, s.low, b, cfg.loopback, cfg.minstrength, k);
      var c := Candidates(vals, cwidth[b], s.high, s.low, b, cfg.loopback);
      var P := Select(c, cfg.minstrength).picks;
      if k < |P| {
        RebuildPicks(vals, cwidth[b], s.high, s.low, b, cfg.loopback, cfg.minstrength);
        var i := P[k];
        assert 0 <= i < |vals|;
      }
  }

  /**
   * The colour of a final slot whose top is non-zero says where the close
   * lies: under the channel, over it, or inside it; an empty slot has no colour.
   */
  lemma FinalColors(s: Series, cfg: Config, cwidth: seq<Option<int>>, k: nat, close: int)
    requires WellFormed(s) && |cwidth| == |s.high| && k < Slots
    ensures var sr := FinalLevels(s, cfg, cwidth);
      ColorDefined(2 * k, close, sr) &&
      (sr[2 * k] == 0 ==> GetColor(2 * k, close, sr) == None) &&
      (sr[2 * k] != 0 ==>
         (GetColor(2 * k, close, sr) == Some(Resistance) <==> close < sr[2 * k + 1]) &&
         (GetColor(2 * k, close, sr) == Some(Support) <==> sr[2 * k] < close) &&
         (GetColor(2 * k, close, sr) == Some(InChannel) <==> sr[2 * k + 1] <= close <= sr[2 * k]))
  {
    FinalSlots(s, cfg, cwidth, k);
    SlotColor(FinalLevels(s, cfg, cwidth), k, close);
  }

  /** The colour of an ordered slot of a 20-entry level array. */
  lemma SlotColor(sr: seq<int>, k: nat, close: int)
    requires |sr| == 2 * Slots && k < Slots && sr[2 * k + 1] <= sr[2 * k]
    ensures ColorDefined(2 * k, close, sr) &&
      (sr[2 * k] == 0 ==> GetColor(2 * k, close, sr) == None) &&
      (sr[2 * k] != 0 ==>
         (GetColor(2 * k, close, sr) == Some(Resistance) <==> close < sr[2 * k + 1]) &&
         (GetColor(2 * k, close, sr) == Some(Support) <==> sr[2 * k] < close) &&
         (GetColor(2 * k, close, sr) == Some(InChannel) <==> sr[2 * k + 1] <= close <= sr[2 * k]))
  {
    if sr[2 * k] != 0 {
      ColorOfChannel(2 * k, close, sr);
    }
  }

  /** A series whose bars are all the same has no pivots, so main ends with no channel at all. */
  lemma FlatSeriesHasNoChannels(s: Series, cfg: Config, cwidth: seq<Option<int>>)
    requires WellFormed(s) && |cwidth| == |s.high| && cfg.prd >= 1
    requires forall i :: 0 <= i < |s.high| ==>
               s.high[i] == s.high[0] && s.low[i] == s.low[0] && s.open[i] == s.open[0] && s.close[i] == s.close[0]
    ensures FinalLevels(s, cfg, cwidth) == NoLevels()
  {
    var srcs := PivotSources(s, cfg.ppsrc);
    var pv := PivotSeries(s, cfg);
    assert forall i :: 0 <= i < |srcs.0| ==> srcs.0[i] == srcs.0[0];
    assert forall i :: 0 <= i < |srcs.1| ==> srcs.1[i] == srcs.1[0];
    FlatSeriesHasNoPivots(srcs.0, cfg.prd, Highest);
    FlatSeriesHasNoPivots(srcs.1, cfg.prd, Lowest);
    assert LastPivotBefore(pv.0, pv.1, |s.high|) == None;
  }
}
