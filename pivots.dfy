/**
 * Pivot detection (sup_res_chnl.py: exclude_repeats, pivothigh, pivotlow).
 *
 * A bar is a pivot high (low) when its price is the largest (smallest) over the
 * window of `left` bars before it and `right` bars after it, and no other bar
 * within `right` bars of it carries the same raw price.
 */
module Pivots {
  import opened Wrappers

  /** Which extreme a detector looks for: talib MAX for highs, talib MIN for lows. */
  datatype Extreme = Highest | Lowest

  /** `a` is at least as extreme as `b` in direction `e`. */
  predicate AtLeast(e: Extreme, a: int, b: int) {
    if e == Highest then a >= b else a <= b
  }

  /** The extreme element of a non-empty sequence. */
  function SeqExtreme(s: seq<int>, e: Extreme): int
    requires |s| > 0
  {
    if |s| == 1 then s[0]
    else
      var rest := SeqExtreme(s[1..], e);
      if AtLeast(e, s[0], rest) then s[0] else rest
  }

  /** The extreme is an element of the sequence and at least as extreme as every element. */
  lemma {:induction false} SeqExtremeIsExtreme(s: seq<int>, e: Extreme)
    requires |s| > 0
    ensures SeqExtreme(s, e) in s
    ensures forall i :: 0 <= i < |s| ==> AtLeast(e, SeqExtreme(s, e), s[i])
  {
    if |s| > 1 {
      SeqExtremeIsExtreme(s[1..], e);
      assert forall i :: 1 <= i < |s| ==> s[i] == s[1..][i - 1];
    }
  }

  /**
   * talib's MAX / MIN with time period `t`: position k holds the extreme of
   * x[k-t+1..k] once a full window is available, and no value before that.
   */
  function Rolling(x: seq<int>, t: nat, e: Extreme): (r: seq<Option<int>>)
    requires t >= 1
    ensures |r| == |x|
  {
    seq(|x|, k requires 0 <= k < |x| =>
      if k >= t - 1 then Some(SeqExtreme(x[k - t + 1..k + 1], e)) else None)
  }

  /**
   * What talib promises of MAX / MIN: no value before a full window, then a
   * value taken from the window that is at least as extreme as all of it.
   */
  lemma RollingWindow(x: seq<int>, t: nat, e: Extreme)
    requires t >= 1
    ensures var r := Rolling(x, t, e);
      (forall k :: 0 <= k < |x| ==> (r[k].Some? <==> k >= t - 1)) &&
      forall k :: t - 1 <= k < |x| ==>
        r[k].value in x[k - t + 1..k + 1] &&
        forall j :: k - t + 1 <= j <= k ==> AtLeast(e, r[k].value, x[j])
  {
    var r := Rolling(x, t, e);
    forall k | t - 1 <= k < |x|
      ensures forall j :: k - t + 1 <= j <= k ==> AtLeast(e, r[k].value, x[j])
    {
      var w := x[k - t + 1..k + 1];
      SeqExtremeIsExtreme(w, e);
      assert forall j :: k - t + 1 <= j <= k ==> x[j] == w[j - (k - t + 1)];
    }
    forall k | t - 1 <= k < |x|
      ensures r[k].value in x[k - t + 1..k + 1]
    {
      SeqExtremeIsExtreme(x[k - t + 1..k + 1], e);
    }
  }

  /** src[k] is the extreme of src over the window [k-left, k+right], which lies inside src. */
  predicate IsWindowExtreme(src: seq<int>, left: nat, right: nat, k: int, e: Extreme) {
    left <= k && k + right < |src| &&
    forall j :: k - left <= j <= k + right ==> AtLeast(e, src[k], src[j])
  }

  /** Some bar other than i, at most `sp` bars away from it, has raw value v. */
  predicate Repeated(smpl: seq<int>, i: int, sp: nat, v: int)
    requires sp <= i && i + sp < |smpl|
  {
    exists j :: i - sp <= j <= i + sp && j != i && smpl[j] == v
  }

  /** What exclude_repeats leaves of the candidate array p. */
  function Excluded(p: seq<Option<int>>, smpl: seq<int>, sp: nat): (r: seq<Option<int>>)
    requires |p| == |smpl|
    ensures |r| == |p|
  {
    seq(|p|, i requires 0 <= i < |p| =>
      if sp <= i < |p| - sp && p[i].Some? && Repeated(smpl, i, sp, p[i].value) then None else p[i])
  }

  /**
   * exclude_repeats only ever blanks an entry, never looks at the first and
   * last `sp` entries, and leaves a survivor in the checked range only when
   * it differs from every raw neighbour within `sp` bars.
   */
  lemma ExcludedShape(p: seq<Option<int>>, smpl: seq<int>, sp: nat)
    requires |p| == |smpl|
    ensures var r := Excluded(p, smpl, sp);
      (forall i :: 0 <= i < |p| ==> r[i] == p[i] || r[i] == None) &&
      (forall i :: 0 <= i < |p| && !(sp <= i < |p| - sp) ==> r[i] == p[i]) &&
      (forall i :: sp <= i < |p| - sp && r[i].Some? ==>
         forall j :: i - sp <= j <= i + sp && j != i ==> smpl[j] != r[i].value)
  {
  }

  /** After the first `j` rounds of the inner loop at bar i, value v has been matched. */
  predicate MatchedSoFar(smpl: seq<int>, i: int, sp: nat, j: nat, v: int)
    requires sp <= i && i + sp < |smpl| && j <= sp
  {
    (exists d :: i + 1 <= d < i + 1 + j && smpl[d] == v) ||
    (exists d :: i - sp <= d < i - sp + j && smpl[d] == v)
  }

  /**
   * exclude_repeats: blank every present entry of pv at an index i in
   * [sp, |pv|-sp) whose value equals a raw sample within sp bars of i.
   */
  method ExcludeRepeats(pv: array<Option<int>>, smpl: seq<int>, sp: nat)
    requires pv.Length == |smpl|
    modifies pv
    ensures pv[..] == Excluded(old(pv[..]), smpl, sp)
  {
    ghost var p := pv[..];
    var i := sp;
    while i < pv.Length - sp
      invariant sp <= i
      invariant i <= pv.Length - sp || i == sp
      invariant forall k :: 0 <= k < pv.Length ==>
                  pv[k] == if k < i then Excluded(p, smpl, sp)[k] else p[k]
    {
      var j := 0;
      while j < sp
        invariant 0 <= j <= sp
        invariant forall k :: 0 <= k < pv.Length && k != i ==>
                    pv[k] == if k < i then Excluded(p, smpl, sp)[k] else p[k]
        invariant pv[i] == if p[i].Some? && MatchedSoFar(smpl, i, sp, j, p[i].value) then None else p[i]
      {
        if pv[i] == Some(smpl[i + 1 + j]) {
          pv[i] := None;
        }
        if pv[i] == Some(smpl[i - sp + j]) {
          pv[i] := None;
        }
        j := j + 1;
      }
      assert p[i].Some? ==>
        (MatchedSoFar(smpl, i, sp, sp, p[i].value) <==> Repeated(smpl, i, sp, p[i].value));
      i := i + 1;
    }
  }

  /**
   * Declarative reference for pivothigh / pivotlow: bar k carries its own price
   * exactly when it is the window extreme and, if it lies in [right, |src|-right),
   * no other bar within `right` bars has the same price.
   */
  function PivotSpec(src: seq<int>, left: nat, right: nat, e: Extreme): (r: seq<Option<int>>)
    ensures |r| == |src|
  {
    seq(|src|, k requires 0 <= k < |src| =>
      if IsWindowExtreme(src, left, right, k, e) &&
         !(right <= k < |src| - right && Repeated(src, k, right, src[k]))
      then Some(src[k]) else None)
  }

  /**
   * A reported pivot is its bar's own price, at least `left` bars from the
   * start and `right` bars from the end, and the extreme of its window; a
   * series shorter than one window has no pivot.
   */
  lemma PivotSpecShape(src: seq<int>, left: nat, right: nat, e: Extreme)
    ensures var r := PivotSpec(src, left, right, e);
      (forall k :: 0 <= k < |src| && r[k].Some? ==>
         left <= k < |src| - right && r[k].value == src[k] &&
         forall j :: k - left <= j <= k + right ==> AtLeast(e, src[k], src[j])) &&
      (left + right + 1 > |src| ==> forall k :: 0 <= k < |src| ==> r[k] == None)
  {
  }

  /** (a + s) % n for a in [0, n): the position np.roll(x, -s) reads from. */
  lemma RollIndex(a: nat, s: nat, n: nat)
    requires a < n
    ensures a + s < n ==> (a + s) % n == a + s
    ensures n <= a + s && s < n ==> (a + s) % n == a + s - n
  {
    if n <= a + s && s < n {
      var q := a + s - n;
      assert 0 <= q < n;
      assert a + s == 1 * n + q;
    }
  }

  /**
   * The rolled window extreme at k equals src[k] exactly when src[k] is the
   * extreme of its symmetric window: the shift by `right` moves the trailing
   * window's value back onto its peak, and the wrapped tail is all absent.
   */
  lemma {:induction false} RolledExtreme(src: seq<int>, left: nat, right: nat, e: Extreme, k: nat)
    requires k < |src|
    ensures Rolling(src, left + 1 + right, e)[(k + right) % |src|] == Some(src[k])
            <==> IsWindowExtreme(src, left, right, k, e)
  {
    if k + right < |src| {
      RollIndex(k, right, |src|);
      RolledInside(src, left, right, e, k);
    } else {
      RolledWrapped(src, left, right, e, k);
    }
  }

  /** Without wrap-around the roll reads the window that ends `right` bars after k. */
  lemma RolledInside(src: seq<int>, left: nat, right: nat, e: Extreme, k: nat)
    requires k + right < |src|
    ensures Rolling(src, left + 1 + right, e)[k + right] == Some(src[k]) <==> IsWindowExtreme(src, left, right, k, e)
  {
    if k >= left {
      RollingAtWindow(src, left, right, e, k);
      WindowExtremeAt(src, left, right, e, k);
    } else {
      RollingAt(src, left + 1 + right, e, k + right);
    }
  }

  /** The rolled entry `right` bars after k is the extreme of k's symmetric window. */
  lemma RollingAtWindow(src: seq<int>, left: nat, right: nat, e: Extreme, k: nat)
    requires left <= k && k + right < |src|
    ensures Rolling(src, left + 1 + right, e)[k + right] == Some(SeqExtreme(src[k - left..k + right + 1], e))
  {
    var t := left + 1 + right;
    RollingAt(src, t, e, k + right);
    var start := k + right - t + 1;
    assert start == k - left;
    assert src[start..k + right + 1] == src[k - left..k + right + 1];
  }

  /** A position that wraps around reads one of the first t-1 rolled entries, which are all absent. */
  lemma RolledWrapped(src: seq<int>, left: nat, right: nat, e: Extreme, k: nat)
    requires k < |src| <= k + right
    ensures Rolling(src, left + 1 + right, e)[(k + right) % |src|] == None
  {
    var idx := (k + right) % |src|;
    if right < |src| {
      RollIndex(k, right, |src|);
    }
    assert idx < right;
    RollingAt(src, left + 1 + right, e, idx);
  }

  /** One entry of the rolling extreme. */
  lemma RollingAt(x: seq<int>, t: nat, e: Extreme, k: nat)
    requires t >= 1 && k < |x|
    ensures Rolling(x, t, e)[k] == if k >= t - 1 then Some(SeqExtreme(x[k - t + 1..k + 1], e)) else None
  {
  }

  /** The extreme of the window around k is src[k] exactly when src[k] is the window extreme. */
  lemma WindowExtremeAt(src: seq<int>, left: nat, right: nat, e: Extreme, k: nat)
    requires left <= k && k + right < |src|
    ensures SeqExtreme(src[k - left..k + right + 1], e) == src[k] <==> IsWindowExtreme(src, left, right, k, e)
  {
    var w := src[k - left..k + right + 1];
    var m := SeqExtreme(w, e);
    SeqExtremeIsExtreme(w, e);
    assert forall j :: k - left <= j <= k + right ==> src[j] == w[j - (k - left)];
    if IsWindowExtreme(src, left, right, k, e) {
      var jm :| 0 <= jm < |w| && w[jm] == m;
      assert AtLeast(e, src[k], m);
      assert AtLeast(e, m, w[left]);
    }
  }

  /**
   * pivothigh / pivotlow with `e` choosing talib MAX or MIN: roll the rolling
   * extreme back by `right`, blank every position where it differs from the
   * source, then blank repeats.
   */
  method FindPivots(src: seq<int>, left: nat, right: nat, e: Extreme) returns (r: seq<Option<int>>)
    ensures r == PivotSpec(src, left, right, e)
  {
    var n := |src|;
    var ext := Rolling(src, left + 1 + right, e);
    var pivots := new Option<int>[n](k requires 0 <= k < n => ext[(k + right) % n]);
    forall k | 0 <= k < n && pivots[k] != Some(src[k]) {
      pivots[k] := None;
    }
    forall k | 0 <= k < n
      ensures pivots[k] == if IsWindowExtreme(src, left, right, k, e) then Some(src[k]) else None
    {
      RolledExtreme(src, left, right, e, k);
    }
    ghost var masked := pivots[..];
    ExcludeRepeats(pivots, src, right);
    r := pivots[..];
    MaskedThenExcluded(src, left, right, e, masked);
  }

  /** Blanking repeats in the masked window extremes gives the reference pivots. */
  lemma MaskedThenExcluded(src: seq<int>, left: nat, right: nat, e: Extreme, masked: seq<Option<int>>)
    requires |masked| == |src|
    requires forall k :: 0 <= k < |src| ==>
               masked[k] == if IsWindowExtreme(src, left, right, k, e) then Some(src[k]) else None
    ensures Excluded(masked, src, right) == PivotSpec(src, left, right, e)
  {
  }

  /** pivothigh(high, left, right). */
  method PivotHigh(high: seq<int>, left: nat, right: nat) returns (r: seq<Option<int>>)
    ensures r == PivotSpec(high, left, right, Highest)
  {
    r := FindPivots(high, left, right, Highest);
  }

  /** pivotlow(low, left, right). */
  method PivotLow(low: seq<int>, left: nat, right: nat) returns (r: seq<Option<int>>)
    ensures r == PivotSpec(low, left, right, Lowest)
  {
    r := FindPivots(low, left, right, Lowest);
  }

  /**
   * With equal radii, as the caller always uses them, no reported pivot has
   * another bar within `prd` bars at the same price: a flat top or bottom
   * yields no pivot at all.
   */
  lemma {:induction false} PlateauSuppressed(src: seq<int>, prd: nat, e: Extreme, k: nat, j: int)
    requires k < |src| && PivotSpec(src, prd, prd, e)[k].Some?
    requires 0 <= j < |src| && j != k && k - prd <= j <= k + prd
    ensures src[j] != src[k]
  {
    var r := PivotSpec(src, prd, prd, e);
    assert IsWindowExtreme(src, prd, prd, k, e);
    assert prd <= k < |src| - prd;
    assert !Repeated(src, k, prd, src[k]);
  }

  /** A constant price series has no pivot when the radius is at least one. */
  lemma {:induction false} FlatSeriesHasNoPivots(src: seq<int>, prd: nat, e: Extreme)
    requires prd >= 1
    requires forall i :: 0 <= i < |src| ==> src[i] == src[0]
    ensures forall k :: 0 <= k < |src| ==> PivotSpec(src, prd, prd, e)[k] == None
  {
    forall k | 0 <= k < |src|
      ensures PivotSpec(src, prd, prd, e)[k] == None
    {
      if prd <= k && k + prd < |src| {
        assert src[k + 1] == src[k];
      }
    }
  }
}
