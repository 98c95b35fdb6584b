/**
 * Channel ranking (sup_res_chnl.py: the selection loop of main, changeit and
 * the exchange sort).
 *
 * Up to ten times, the first candidate of greatest strength that reaches the
 * threshold is committed to the next pair of the 20-entry level array, and
 * every candidate with a bound inside the committed range is disqualified by
 * setting its strength to -1.
 */
module Ranking {
  import opened Wrappers
  import opened Channels

  /** Number of channel slots; the level array holds a (hi, lo) pair per slot. */
  const Slots := 10

  /** A candidate the selection scan may take: above the -1 start value and at the threshold. */
  predicate Eligible(c: Candidate, thr: int) {
    c.strength > -1 && c.strength >= thr
  }

  /**
   * The scan over c[..k] for the strongest eligible candidate (stl, with -1
   * for none): the first index of greatest strength wins.
   */
  function StrongestIn(c: seq<Candidate>, thr: int, k: nat): (stl: int)
    requires k <= |c|
    ensures -1 <= stl < k
    ensures stl == -1 <==> forall i :: 0 <= i < k ==> !Eligible(c[i], thr)
    ensures stl >= 0 ==> Eligible(c[stl], thr)
    ensures stl >= 0 ==> forall i :: 0 <= i < k && Eligible(c[i], thr) ==> c[i].strength <= c[stl].strength
    ensures stl >= 0 ==> forall i :: 0 <= i < stl && Eligible(c[i], thr) ==> c[i].strength < c[stl].strength
  {
    if k == 0 then -1
    else
      var p := StrongestIn(c, thr, k - 1);
      var stv := if p < 0 then -1 else c[p].strength;
      if c[k - 1].strength > stv && c[k - 1].strength >= thr then k - 1 else p
  }

  function Strongest(c: seq<Candidate>, thr: int): (stl: int)
    ensures -1 <= stl < |c|
    ensures stl >= 0 ==> Eligible(c[stl], thr)
  {
    StrongestIn(c, thr, |c|)
  }

  /** A bound of candidate c lies in [ll, hh]. */
  predicate Overlaps(c: Candidate, hh: int, ll: int) {
    (c.hi <= hh && c.hi >= ll) || (c.lo <= hh && c.lo >= ll)
  }

  /** Set the strength of every candidate overlapping [ll, hh] to -1. */
  function Disqualify(c: seq<Candidate>, hh: int, ll: int): (r: seq<Candidate>)
    ensures |r| == |c|
  {
    seq(|c|, i requires 0 <= i < |c| => if Overlaps(c[i], hh, ll) then c[i].(strength := -1) else c[i])
  }

  /** The committed candidate indices and the candidate list left behind. */
  datatype Round = Round(picks: seq<nat>, remaining: seq<Candidate>)

  /**
   * The selection loop with `rounds` iterations left and `slots` free slots:
   * a round that finds no eligible candidate commits nothing.
   */
  function Selection(c: seq<Candidate>, thr: int, rounds: nat, slots: nat): (r: Round)
    ensures |r.remaining| == |c|
    ensures |r.picks| <= rounds && |r.picks| <= slots
    ensures forall k :: 0 <= k < |r.picks| ==> r.picks[k] < |c|
    decreases rounds
  {
    if rounds == 0 || slots == 0 then Round([], c)
    else
      var stl := Strongest(c, thr);
      if stl < 0 then Selection(c, thr, rounds - 1, slots)
      else
        var rest := Selection(Disqualify(c, c[stl].hi, c[stl].lo), thr, rounds - 1, slots - 1);
        Round([stl] + rest.picks, rest.remaining)
  }

  /** The selection as main runs it: one round per candidate, at most ten slots. */
  function Select(c: seq<Candidate>, minstrength: int): (r: Round)
    ensures |r.remaining| == |c| && |r.picks| <= Slots && |r.picks| <= |c|
  {
    Selection(c, minstrength * 20, |c|, Slots)
  }

  /** Candidate i is overlapped by one of the first k committed bands. */
  predicate ClaimedBy(c: seq<Candidate>, picks: seq<nat>, k: nat, i: nat)
    requires k <= |picks| && i < |c|
    requires forall m :: 0 <= m < |picks| ==> picks[m] < |c|
  {
    exists m :: 0 <= m < k && Overlaps(c[i], c[picks[m]].hi, c[picks[m]].lo)
  }

  /** Candidate b is candidate a, possibly disqualified. */
  predicate SameOrDropped(a: Candidate, b: Candidate) {
    b.hi == a.hi && b.lo == a.lo && (b == a || b.strength == -1)
  }

  /** The first round commits: a round and a slot are left, and some candidate is eligible. */
  predicate Commits(c: seq<Candidate>, thr: int, rounds: nat, slots: nat) {
    rounds > 0 && slots > 0 && Strongest(c, thr) >= 0
  }

  /** The candidate list after the first commit. */
  function AfterFirst(c: seq<Candidate>, thr: int): seq<Candidate>
    requires Strongest(c, thr) >= 0
  {
    var stl := Strongest(c, thr);
    Disqualify(c, c[stl].hi, c[stl].lo)
  }

  /** Once no candidate is eligible, the remaining rounds commit nothing and change nothing. */
  lemma {:induction false} IdleRounds(c: seq<Candidate>, thr: int, rounds: nat, slots: nat)
    requires Strongest(c, thr) < 0
    ensures Selection(c, thr, rounds, slots) == Round([], c)
    decreases rounds
  {
    if rounds > 0 && slots > 0 {
      IdleRounds(c, thr, rounds - 1, slots);
    }
  }

  /**
   * The candidates left behind are the originals or disqualified ones, and
   * every committed candidate was eligible in the list it started from.
   */
  lemma {:induction false} PicksEligible(c: seq<Candidate>, thr: int, rounds: nat, slots: nat)
    ensures var r := Selection(c, thr, rounds, slots);
      (forall k :: 0 <= k < |r.picks| ==> Eligible(c[r.picks[k]], thr)) &&
      (forall i :: 0 <= i < |c| ==> SameOrDropped(c[i], r.remaining[i]))
    decreases rounds
  {
    if rounds == 0 || slots == 0 {
    } else if Strongest(c, thr) < 0 {
      IdleRounds(c, thr, rounds, slots);
    } else {
      var d := AfterFirst(c, thr);
      PicksEligible(d, thr, rounds - 1, slots - 1);
      var rest := Selection(d, thr, rounds - 1, slots - 1);
      forall k | 0 <= k < |rest.picks| ensures Eligible(c[rest.picks[k]], thr) {
        assert Eligible(d[rest.picks[k]], thr);
      }
    }
  }

  /** Later picks survive the first commit: they are unchanged and do not overlap it. */
  lemma RestUntouched(c: seq<Candidate>, thr: int, rounds: nat, slots: nat)
    requires Commits(c, thr, rounds, slots)
    ensures var stl := Strongest(c, thr);
      var d := AfterFirst(c, thr);
      var Q := Selection(d, thr, rounds - 1, slots - 1).picks;
      Selection(c, thr, rounds, slots).picks == [stl] + Q &&
      forall k :: 0 <= k < |Q| ==> d[Q[k]] == c[Q[k]] && !Overlaps(c[Q[k]], c[stl].hi, c[stl].lo)
  {
    var d := AfterFirst(c, thr);
    PicksEligible(d, thr, rounds - 1, slots - 1);
  }

  /** Committed strengths never increase from one slot to the next. */
  lemma {:induction false} PicksNonIncreasing(c: seq<Candidate>, thr: int, rounds: nat, slots: nat)
    ensures var P := Selection(c, thr, rounds, slots).picks;
      forall k :: 0 <= k < |P| - 1 ==> c[P[k]].strength >= c[P[k + 1]].strength
    decreases rounds
  {
    if rounds == 0 || slots == 0 {
    } else if Strongest(c, thr) < 0 {
      IdleRounds(c, thr, rounds, slots);
    } else {
      var d := AfterFirst(c, thr);
      PicksNonIncreasing(d, thr, rounds - 1, slots - 1);
      RestUntouched(c, thr, rounds, slots);
      PicksEligible(c, thr, rounds, slots);
    }
  }

  /** No committed band has a bound inside an earlier committed band. */
  lemma {:induction false} PicksDisjoint(c: seq<Candidate>, thr: int, rounds: nat, slots: nat)
    ensures var P := Selection(c, thr, rounds, slots).picks;
      forall m, k :: 0 <= m < k < |P| ==> !Overlaps(c[P[k]], c[P[m]].hi, c[P[m]].lo)
    decreases rounds
  {
    if rounds == 0 || slots == 0 {
    } else if Strongest(c, thr) < 0 {
      IdleRounds(c, thr, rounds, slots);
    } else {
      var d := AfterFirst(c, thr);
      PicksDisjoint(d, thr, rounds - 1, slots - 1);
      RestUntouched(c, thr, rounds, slots);
      var P := Selection(c, thr, rounds, slots).picks;
      var Q := Selection(d, thr, rounds - 1, slots - 1).picks;
      forall m, k | 0 <= m < k < |P|
        ensures !Overlaps(c[P[k]], c[P[m]].hi, c[P[m]].lo)
      {
        if m > 0 {
          assert P[k] == Q[k - 1] && P[m] == Q[m - 1];
        }
      }
    }
  }

  /** Being claimed by the first k+1 picks is being claimed by the first pick or by k later ones. */
  lemma ClaimShift(c: seq<Candidate>, thr: int, rounds: nat, slots: nat, k: nat, i: nat)
    requires Commits(c, thr, rounds, slots)
    requires var P := Selection(c, thr, rounds, slots).picks; k < |P| && i < |c|
    ensures var stl := Strongest(c, thr);
      var d := AfterFirst(c, thr);
      var P := Selection(c, thr, rounds, slots).picks;
      var Q := Selection(d, thr, rounds - 1, slots - 1).picks;
      ClaimedBy(c, P, k + 1, i) <==> Overlaps(c[i], c[stl].hi, c[stl].lo) || ClaimedBy(d, Q, k, i)
  {
    RestUntouched(c, thr, rounds, slots);
    var d := AfterFirst(c, thr);
    var P := Selection(c, thr, rounds, slots).picks;
    var Q := Selection(d, thr, rounds - 1, slots - 1).picks;
    if Overlaps(c[i], c[P[0]].hi, c[P[0]].lo) {
      assert ClaimedBy(c, P, k + 1, i);
    }
    if ClaimedBy(c, P, k + 1, i) {
      var m :| 0 <= m < k + 1 && Overlaps(c[i], c[P[m]].hi, c[P[m]].lo);
      if m > 0 {
        assert Overlaps(d[i], d[Q[m - 1]].hi, d[Q[m - 1]].lo);
      }
    }
    if ClaimedBy(d, Q, k, i) {
      var m :| 0 <= m < k && Overlaps(d[i], d[Q[m]].hi, d[Q[m]].lo);
      assert Overlaps(c[i], c[P[m + 1]].hi, c[P[m + 1]].lo);
    }
  }

  /** The strongest eligible candidate is at least as strong as any eligible one, and stronger than any before it. */
  lemma StrongestBeats(c: seq<Candidate>, thr: int, i: nat)
    requires Strongest(c, thr) >= 0 && i < |c| && Eligible(c[i], thr)
    ensures c[i].strength <= c[Strongest(c, thr)].strength
    ensures i < Strongest(c, thr) ==> c[i].strength < c[Strongest(c, thr)].strength
  {
  }

  /** A selection that commits anything starts with a committing round. */
  lemma PicksNonEmpty(c: seq<Candidate>, thr: int, rounds: nat, slots: nat)
    ensures |Selection(c, thr, rounds, slots).picks| > 0 ==> Commits(c, thr, rounds, slots)
  {
    if rounds > 0 && slots > 0 && Strongest(c, thr) < 0 {
      IdleRounds(c, thr, rounds, slots);
    }
  }

  /**
   * Slot k holds the first candidate of greatest strength among the eligible
   * ones that no earlier committed band overlaps.
   */
  lemma PicksStrongest(c: seq<Candidate>, thr: int, rounds: nat, slots: nat)
    ensures var P := Selection(c, thr, rounds, slots).picks;
      forall k, i :: 0 <= k < |P| && 0 <= i < |c| && Eligible(c[i], thr) && !ClaimedBy(c, P, k, i) ==>
        c[i].strength <= c[P[k]].strength && (i < P[k] ==> c[i].strength < c[P[k]].strength)
  {
    var P := Selection(c, thr, rounds, slots).picks;
    forall k, i | 0 <= k < |P| && 0 <= i < |c| && Eligible(c[i], thr) && !ClaimedBy(c, P, k, i)
      ensures c[i].strength <= c[P[k]].strength && (i < P[k] ==> c[i].strength < c[P[k]].strength)
    {
      PickBeats(c, thr, rounds, slots, k, i);
    }
  }

  /** PicksStrongest for one slot k and one candidate i. */
  lemma {:induction false} PickBeats(c: seq<Candidate>, thr: int, rounds: nat, slots: nat, k: nat, i: nat)
    requires var P := Selection(c, thr, rounds, slots).picks;
      k < |P| && i < |c| && Eligible(c[i], thr) && !ClaimedBy(c, P, k, i)
    ensures var P := Selection(c, thr, rounds, slots).picks;
      c[i].strength <= c[P[k]].strength && (i < P[k] ==> c[i].strength < c[P[k]].strength)
    decreases rounds
  {
    PicksNonEmpty(c, thr, rounds, slots);
    if k == 0 {
      RestUntouched(c, thr, rounds, slots);
      StrongestBeats(c, thr, i);
    } else {
      PickShift(c, thr, rounds, slots, k, i);
      PickBeats(AfterFirst(c, thr), thr, rounds - 1, slots - 1, k - 1, i);
    }
  }

  /**
   * For a later slot k, candidate i and pick k are seen unchanged by the
   * selection after the first commit, as candidate i and its pick k - 1.
   */
  lemma PickShift(c: seq<Candidate>, thr: int, rounds: nat, slots: nat, k: nat, i: nat)
    requires Commits(c, thr, rounds, slots)
    requires var P := Selection(c, thr, rounds, slots).picks;
      0 < k < |P| && i < |c| && Eligible(c[i], thr) && !ClaimedBy(c, P, k, i)
    ensures var d := AfterFirst(c, thr);
      var P := Selection(c, thr, rounds, slots).picks;
      var Q := Selection(d, thr, rounds - 1, slots - 1).picks;
      k - 1 < |Q| && P[k] == Q[k - 1] && d[i] == c[i] && d[Q[k - 1]] == c[P[k]] &&
      Eligible(d[i], thr) && !ClaimedBy(d, Q, k - 1, i)
  {
    RestUntouched(c, thr, rounds, slots);
    ClaimShift(c, thr, rounds, slots, k - 1, i);
  }

  /** A candidate that no committed band overlaps is left exactly as it was. */
  lemma {:induction false} UnclaimedKept(c: seq<Candidate>, thr: int, rounds: nat, slots: nat)
    ensures var r := Selection(c, thr, rounds, slots);
      forall i :: 0 <= i < |c| && !ClaimedBy(c, r.picks, |r.picks|, i) ==> r.remaining[i] == c[i]
    decreases rounds
  {
    if rounds == 0 || slots == 0 {
    } else if Strongest(c, thr) < 0 {
      IdleRounds(c, thr, rounds, slots);
    } else {
      var d := AfterFirst(c, thr);
      UnclaimedKept(d, thr, rounds - 1, slots - 1);
      var r := Selection(c, thr, rounds, slots);
      var Q := Selection(d, thr, rounds - 1, slots - 1).picks;
      RestUntouched(c, thr, rounds, slots);
      forall i | 0 <= i < |c| && !ClaimedBy(c, r.picks, |r.picks|, i)
        ensures r.remaining[i] == c[i]
      {
        ClaimShift(c, thr, rounds, slots, |Q|, i);
      }
    }
  }

  /** With lo <= hi everywhere, a committed band disqualifies itself: no candidate is committed twice. */
  lemma {:induction false} PicksDistinct(c: seq<Candidate>, thr: int, rounds: nat, slots: nat)
    requires forall i :: 0 <= i < |c| ==> c[i].lo <= c[i].hi
    ensures var P := Selection(c, thr, rounds, slots).picks;
      forall m, k :: 0 <= m < k < |P| ==> P[m] != P[k]
  {
    PicksDisjoint(c, thr, rounds, slots);
    var P := Selection(c, thr, rounds, slots).picks;
    forall m, k | 0 <= m < k < |P|
      ensures P[m] != P[k]
    {
      assert Overlaps(c[P[m]], c[P[m]].hi, c[P[m]].lo);
      assert !Overlaps(c[P[k]], c[P[m]].hi, c[P[m]].lo);
    }
  }

  /** The number of eligible candidates. */
  function EligibleCount(c: seq<Candidate>, thr: int): nat {
    if c == [] then 0 else (if Eligible(c[0], thr) then 1 else 0) + EligibleCount(c[1..], thr)
  }

  /** Disqualifying never makes a candidate eligible, and dropping an eligible one lowers the count. */
  lemma {:induction false} EligibleCountDrops(c: seq<Candidate>, d: seq<Candidate>, thr: int, s: nat)
    requires |d| == |c| && s < |c|
    requires forall i :: 0 <= i < |c| ==> (Eligible(d[i], thr) ==> Eligible(c[i], thr))
    requires Eligible(c[s], thr) && !Eligible(d[s], thr)
    ensures EligibleCount(d, thr) < EligibleCount(c, thr)
  {
    if s == 0 {
      EligibleCountMono(c[1..], d[1..], thr);
    } else {
      EligibleCountDrops(c[1..], d[1..], thr, s - 1);
    }
  }

  lemma {:induction false} EligibleCountMono(c: seq<Candidate>, d: seq<Candidate>, thr: int)
    requires |d| == |c|
    requires forall i :: 0 <= i < |c| ==> (Eligible(d[i], thr) ==> Eligible(c[i], thr))
    ensures EligibleCount(d, thr) <= EligibleCount(c, thr)
  {
    if c != [] {
      EligibleCountMono(c[1..], d[1..], thr);
    }
  }

  lemma {:induction false} EligibleCountZero(c: seq<Candidate>, thr: int)
    requires forall i :: 0 <= i < |c| ==> !Eligible(c[i], thr)
    ensures EligibleCount(c, thr) == 0
  {
    if c != [] {
      EligibleCountZero(c[1..], thr);
    }
  }

  lemma {:induction false} EligibleCountBound(c: seq<Candidate>, thr: int)
    ensures EligibleCount(c, thr) <= |c|
  {
    if c != [] {
      EligibleCountBound(c[1..], thr);
    }
  }

  /**
   * Given enough rounds, the selection stops only when every slot is filled
   * or no eligible candidate is left.
   */
  lemma {:induction false} SelectionExhausts(c: seq<Candidate>, thr: int, rounds: nat, slots: nat)
    requires forall i :: 0 <= i < |c| ==> c[i].lo <= c[i].hi
    requires rounds >= EligibleCount(c, thr)
    ensures var r := Selection(c, thr, rounds, slots);
      |r.picks| == slots || forall i :: 0 <= i < |c| ==> !Eligible(r.remaining[i], thr)
    decreases rounds
  {
    if rounds == 0 || slots == 0 {
      if slots != 0 {
        forall i | 0 <= i < |c| ensures !Eligible(c[i], thr) {
          if Eligible(c[i], thr) {
            EligibleCountDrops(c, c[i := c[i].(strength := -1)], thr, i);
          }
        }
      }
    } else {
      var stl := Strongest(c, thr);
      if stl < 0 {
        EligibleCountZero(c, thr);
        SelectionExhausts(c, thr, rounds - 1, slots);
      } else {
        var d := Disqualify(c, c[stl].hi, c[stl].lo);
        assert Overlaps(c[stl], c[stl].hi, c[stl].lo);
        EligibleCountDrops(c, d, thr, stl);
        forall i | 0 <= i < |d| ensures d[i].lo <= d[i].hi {
        }
        SelectionExhausts(d, thr, rounds - 1, slots - 1);
      }
    }
  }

  /** The 20-entry level array after committing `picks`: (hi, lo) per slot, 0 when unused. */
  function LevelsOf(c: seq<Candidate>, picks: seq<nat>): (sr: seq<int>)
    requires |picks| <= Slots
    requires forall k :: 0 <= k < |picks| ==> picks[k] < |c|
    ensures |sr| == 2 * Slots
  {
    seq(2 * Slots, j requires 0 <= j < 2 * Slots =>
      if j / 2 < |picks| then (if j % 2 == 0 then c[picks[j / 2]].hi else c[picks[j / 2]].lo) else 0)
  }

  /** The 10-entry strength array after committing `picks`, 0 when unused. */
  function StrensOf(c: seq<Candidate>, picks: seq<nat>): (stren: seq<int>)
    requires |picks| <= Slots
    requires forall k :: 0 <= k < |picks| ==> picks[k] < |c|
    ensures |stren| == Slots
  {
    seq(Slots, k requires 0 <= k < Slots => if k < |picks| then c[picks[k]].strength else 0)
  }

  /** Slot k of the level array holds the k-th committed band, or 0 and 0 past the last one. */
  lemma LevelsOfSlot(c: seq<Candidate>, picks: seq<nat>, k: nat)
    requires |picks| <= Slots && k < Slots
    requires forall m :: 0 <= m < |picks| ==> picks[m] < |c|
    ensures var sr := LevelsOf(c, picks);
      if k < |picks| then sr[2 * k] == c[picks[k]].hi && sr[2 * k + 1] == c[picks[k]].lo
      else sr[2 * k] == 0 && sr[2 * k + 1] == 0
  {
    assert (2 * k) / 2 == k && (2 * k) % 2 == 0 && (2 * k + 1) / 2 == k && (2 * k + 1) % 2 == 1;
  }

  /** Committing one more candidate writes its bounds into the next pair of level slots. */
  lemma LevelsOfAppend(c: seq<Candidate>, picks: seq<nat>, p: nat)
    requires |picks| < Slots && p < |c|
    requires forall k :: 0 <= k < |picks| ==> picks[k] < |c|
    ensures LevelsOf(c, picks + [p]) ==
            LevelsOf(c, picks)[2 * |picks| := c[p].hi][2 * |picks| + 1 := c[p].lo]
    ensures StrensOf(c, picks + [p]) == StrensOf(c, picks)[|picks| := c[p].strength]
  {
    var a := LevelsOf(c, picks + [p]);
    var b := LevelsOf(c, picks)[2 * |picks| := c[p].hi][2 * |picks| + 1 := c[p].lo];
    forall j | 0 <= j < 2 * Slots ensures a[j] == b[j] {
      if j / 2 < |picks| {
        assert (picks + [p])[j / 2] == picks[j / 2];
      }
    }
  }

  /** The scan of the selection loop for the strongest eligible candidate. */
  method FindStrongest(supres: array<Candidate>, thr: int) returns (stl: int)
    ensures stl == Strongest(supres[..], thr)
    ensures stl >= 0 ==> stl < supres.Length && Eligible(supres[stl], thr)
    ensures stl < 0 ==> forall i :: 0 <= i < supres.Length ==> !Eligible(supres[i], thr)
  {
    var stv := -1;
    stl := -1;
    for y3 := 0 to supres.Length
      invariant stl == StrongestIn(supres[..], thr, y3)
      invariant stv == if stl < 0 then -1 else supres[stl].strength
    {
      if supres[y3].strength > stv && supres[y3].strength >= thr {
        stv := supres[y3].strength;
        stl := y3;
      }
    }
  }

  /** The "make included pivot points' strength" loop: disqualify every overlapping candidate in place. */
  method DisqualifyOverlapping(supres: array<Candidate>, hh: int, ll: int)
    modifies supres
    ensures supres[..] == Disqualify(old(supres[..]), hh, ll)
  {
    for y32 := 0 to supres.Length
      invariant forall i :: 0 <= i < supres.Length ==>
                  supres[i] == if i < y32 then Disqualify(old(supres[..]), hh, ll)[i] else old(supres[i])
    {
      if (supres[y32].hi <= hh && supres[y32].hi >= ll) || (supres[y32].lo <= hh && supres[y32].lo >= ll) {
        supres[y32] := supres[y32].(strength := -1);
      }
    }
  }

  /** A round that finds an eligible candidate commits it and continues on the disqualified list. */
  lemma CommitRound(c: seq<Candidate>, thr: int, rounds: nat, slots: nat)
    requires Commits(c, thr, rounds, slots)
    ensures var stl := Strongest(c, thr);
      var rest := Selection(AfterFirst(c, thr), thr, rounds - 1, slots - 1);
      Selection(c, thr, rounds, slots) == Round([stl] + rest.picks, rest.remaining)
  {
  }

  /** Commit candidate stl to slot src: write its bounds and strength, then disqualify its overlaps. */
  method CommitSlot(supres: array<Candidate>, sr: array<int>, stren: array<int>, src: nat, stl: nat)
    requires sr.Length == 2 * Slots && stren.Length == Slots && src < Slots && stl < supres.Length
    requires sr != stren
    modifies supres, sr, stren
    ensures sr[..] == old(sr[..])[2 * src := old(supres[stl]).hi][2 * src + 1 := old(supres[stl]).lo]
    ensures stren[..] == old(stren[..])[src := old(supres[stl]).strength]
    ensures supres[..] == Disqualify(old(supres[..]), old(supres[stl]).hi, old(supres[stl]).lo)
  {
    var hh := supres[stl].hi;
    var ll := supres[stl].lo;
    sr[src * 2] := hh;
    sr[src * 2 + 1] := ll;
    stren[src] := supres[stl].strength;
    DisqualifyOverlapping(supres, hh, ll);
  }

  /** Disqualifying keeps every candidate the original or a disqualified copy of it. */
  lemma DisqualifyKeepsBounds(c0: seq<Candidate>, c: seq<Candidate>, hh: int, ll: int)
    requires |c| == |c0|
    requires forall i :: 0 <= i < |c| ==> SameOrDropped(c0[i], c[i])
    ensures forall i :: 0 <= i < |c| ==> SameOrDropped(c0[i], Disqualify(c, hh, ll)[i])
  {
  }

  /**
   * The state of the selection loop after committing `picks`: every candidate
   * keeps its bounds and is either untouched or disqualified, and the level
   * and strength arrays hold the committed candidates.
   */
  ghost predicate Tracks(c0: seq<Candidate>, picks: seq<nat>, cur: seq<Candidate>, levels: seq<int>, strens: seq<int>) {
    |picks| <= Slots && |cur| == |c0| &&
    (forall k :: 0 <= k < |picks| ==> picks[k] < |c0|) &&
    (forall i :: 0 <= i < |c0| ==> SameOrDropped(c0[i], cur[i])) &&
    levels == LevelsOf(c0, picks) && strens == StrensOf(c0, picks)
  }

  /** The picks so far, followed by what the remaining rounds select from `cur`, make up the whole selection. */
  ghost predicate OnTrack(c0: seq<Candidate>, thr: int, n: nat, cur: seq<Candidate>, picks: seq<nat>, rounds: nat, slots: nat) {
    var s := Selection(cur, thr, rounds, slots);
    Selection(c0, thr, n, Slots) == Round(picks + s.picks, s.remaining)
  }

  /** Before the first round nothing is committed and every round is still to run. */
  lemma OnTrackStart(c0: seq<Candidate>, thr: int, n: nat)
    ensures OnTrack(c0, thr, n, c0, [], n, Slots)
  {
    assert [] + Selection(c0, thr, n, Slots).picks == Selection(c0, thr, n, Slots).picks;
  }

  /** Zeroed level and strength arrays track an empty selection. */
  lemma TracksStart(c0: seq<Candidate>, levels: seq<int>, strens: seq<int>)
    requires |levels| == 2 * Slots && |strens| == Slots
    requires forall j :: 0 <= j < |levels| ==> levels[j] == 0
    requires forall j :: 0 <= j < |strens| ==> strens[j] == 0
    ensures Tracks(c0, [], c0, levels, strens)
  {
  }

  /** A round that commits stl keeps the loop on track. */
  lemma OnTrackCommit(c0: seq<Candidate>, thr: int, n: nat, cur: seq<Candidate>, post: seq<Candidate>, picks: seq<nat>,
                      stl: nat, rounds: nat, slots: nat)
    requires OnTrack(c0, thr, n, cur, picks, rounds, slots) && rounds > 0 && slots > 0
    requires stl == Strongest(cur, thr) && post == AfterFirst(cur, thr)
    ensures OnTrack(c0, thr, n, post, picks + [stl], rounds - 1, slots - 1)
  {
    CommitRound(cur, thr, rounds, slots);
    var rest := Selection(post, thr, rounds - 1, slots - 1);
    assert picks + ([stl] + rest.picks) == (picks + [stl]) + rest.picks;
  }

  /** A round with nothing eligible keeps the loop on track. */
  lemma OnTrackIdle(c0: seq<Candidate>, thr: int, n: nat, cur: seq<Candidate>, picks: seq<nat>, rounds: nat, slots: nat)
    requires OnTrack(c0, thr, n, cur, picks, rounds, slots) && rounds > 0
    requires Strongest(cur, thr) < 0
    ensures OnTrack(c0, thr, n, cur, picks, rounds - 1, slots)
  {
    IdleRounds(cur, thr, rounds, slots);
    IdleRounds(cur, thr, rounds - 1, slots);
  }

  /** When the rounds or the slots run out, the picks so far are the whole selection. */
  lemma OnTrackDone(c0: seq<Candidate>, thr: int, n: nat, cur: seq<Candidate>, picks: seq<nat>, rounds: nat, slots: nat)
    requires OnTrack(c0, thr, n, cur, picks, rounds, slots) && (rounds == 0 || slots == 0)
    ensures Selection(c0, thr, n, Slots) == Round(picks, cur)
  {
    assert picks + [] == picks;
  }

  /** A finished loop whose picks and candidates are the whole selection leaves exactly what Select specifies. */
  lemma SelectDone(c0: seq<Candidate>, minstrength: int, cur: seq<Candidate>, picks: seq<nat>,
                   levels: seq<int>, strens: seq<int>)
    requires Selection(c0, minstrength * 20, |c0|, Slots) == Round(picks, cur)
    requires Tracks(c0, picks, cur, levels, strens)
    ensures var r := Select(c0, minstrength);
      cur == r.remaining && levels == LevelsOf(c0, r.picks) && strens == StrensOf(c0, r.picks)
  {
  }

  /**
   * One round of the selection loop: find the strongest eligible candidate
   * and, if there is one, commit it to slot src. The ghost results are the
   * picks and the free slots after the round.
   */
  method SelectionRound(supres: array<Candidate>, sr: array<int>, stren: array<int>, thr: int, src: nat,
                        ghost c0: seq<Candidate>, ghost n: nat, ghost picks: seq<nat>, ghost rounds: nat, ghost slots: nat)
    returns (stl: int, ghost picks': seq<nat>, ghost slots': nat)
    requires sr.Length == 2 * Slots && stren.Length == Slots && sr != stren
    requires src < Slots && |picks| == src && slots == Slots - src && rounds > 0
    requires Tracks(c0, picks, supres[..], sr[..], stren[..])
    requires OnTrack(c0, thr, n, supres[..], picks, rounds, slots)
    modifies supres, sr, stren
    ensures stl == Strongest(old(supres[..]), thr)
    ensures stl < 0 ==> supres[..] == old(supres[..]) && sr[..] == old(sr[..]) && stren[..] == old(stren[..])
    ensures stl >= 0 ==> supres[..] == AfterFirst(old(supres[..]), thr)
    ensures picks' == if stl >= 0 then picks + [stl] else picks
    ensures slots' == if stl >= 0 then slots - 1 else slots
    ensures Tracks(c0, picks', supres[..], sr[..], stren[..])
    ensures OnTrack(c0, thr, n, supres[..], picks', rounds - 1, slots')
  {
    ghost var pre := supres[..];
    stl := FindStrongest(supres, thr);
    if stl >= 0 {
      assert pre[stl] == c0[stl];
      CommitSlot(supres, sr, stren, src, stl);
      DisqualifyKeepsBounds(c0, pre, c0[stl].hi, c0[stl].lo);
      LevelsOfAppend(c0, picks, stl);
      picks', slots' := picks + [stl], slots - 1;
      OnTrackCommit(c0, thr, n, pre, supres[..], picks, stl, rounds, slots);
    } else {
      picks', slots' := picks, slots;
      OnTrackIdle(c0, thr, n, pre, picks, rounds, slots);
    }
  }

  /**
   * The loop of lines 359-385: at most |c0| rounds, stopping early once every
   * slot is filled. The ghost result is the list of committed candidates.
   */
  method SelectionLoop(supres: array<Candidate>, sr: array<int>, stren: array<int>, thr: int, ghost c0: seq<Candidate>)
    returns (ghost picks: seq<nat>)
    requires sr.Length == 2 * Slots && stren.Length == Slots && sr != stren
    requires Tracks(c0, [], supres[..], sr[..], stren[..])
    requires OnTrack(c0, thr, |c0|, supres[..], [], |c0|, Slots)
    modifies supres, sr, stren
    ensures Tracks(c0, picks, supres[..], sr[..], stren[..])
    ensures Selection(c0, thr, |c0|, Slots) == Round(picks, supres[..])
  {
    var n := supres.Length;
    var src := 0;
    picks := [];
    var iter := 0;
    ghost var rounds: nat, slots: nat := n, Slots;
    while iter < n
      invariant 0 <= iter <= n && 0 <= src < Slots && |picks| == src
      invariant rounds == n - iter && slots == Slots - src
      invariant Tracks(c0, picks, supres[..], sr[..], stren[..])
      invariant OnTrack(c0, thr, n, supres[..], picks, rounds, slots)
    {
      var stl;
      stl, picks, slots := SelectionRound(supres, sr, stren, thr, src, c0, n, picks, rounds, slots);
      rounds := rounds - 1;
      if stl >= 0 {
        src := src + 1;
        if src >= Slots {
          break;
        }
      }
      iter := iter + 1;
    }
    OnTrackDone(c0, thr, n, supres[..], picks, rounds, slots);
  }

  /**
   * Lines 357-385 of main: zero the level array, then run the selection loop
   * over the candidate array in place, returning the strength array.
   */
  method SelectStrongest(supres: array<Candidate>, minstrength: int, sr: array<int>) returns (stren: array<int>)
    requires sr.Length == 2 * Slots
    modifies supres, sr
    ensures fresh(stren) && stren.Length == Slots
    ensures var r := Select(old(supres[..]), minstrength);
      supres[..] == r.remaining &&
      sr[..] == LevelsOf(old(supres[..]), r.picks) &&
      stren[..] == StrensOf(old(supres[..]), r.picks)
  {
    ghost var c0 := supres[..];
    var thr := minstrength * 20;
    stren := new int[Slots](_ => 0);
    forall j | 0 <= j < sr.Length {
      sr[j] := 0;
    }
    assert supres[..] == c0;
    TracksStart(c0, sr[..], stren[..]);
    OnTrackStart(c0, thr, |c0|);
    ghost var picks := SelectionLoop(supres, sr, stren, thr, c0);
    SelectDone(c0, minstrength, supres[..], picks, sr[..], stren[..]);
  }

  /** changeit's effect: exchange slots x and y, i.e. entries 2x<->2y and 2x+1<->2y+1. */
  function Exchanged(sr: seq<int>, x: nat, y: nat): (r: seq<int>)
    requires 2 * x + 1 < |sr| && 2 * y + 1 < |sr|
    ensures |r| == |sr|
  {
    var a := sr[2 * y := sr[2 * x]][2 * x := sr[2 * y]];
    a[2 * y + 1 := a[2 * x + 1]][2 * x + 1 := a[2 * y + 1]]
  }

  /** For two different slots, the exchange swaps their two entries and leaves every other entry alone. */
  lemma ExchangedSwaps(sr: seq<int>, x: nat, y: nat)
    requires 2 * x + 1 < |sr| && 2 * y + 1 < |sr|
    ensures var r := Exchanged(sr, x, y);
      r[2 * x] == sr[2 * y] && r[2 * y] == sr[2 * x] &&
      r[2 * x + 1] == sr[2 * y + 1] && r[2 * y + 1] == sr[2 * x + 1] &&
      forall j :: 0 <= j < |sr| && j != 2 * x && j != 2 * y && j != 2 * x + 1 && j != 2 * y + 1 ==> r[j] == sr[j]
  {
  }

  /** Exchanging the same two slots twice restores the array. */
  lemma ExchangedInvolution(sr: seq<int>, x: nat, y: nat)
    requires 2 * x + 1 < |sr| && 2 * y + 1 < |sr|
    ensures Exchanged(Exchanged(sr, x, y), x, y) == sr
  {
    ExchangedSwaps(sr, x, y);
    ExchangedSwaps(Exchanged(sr, x, y), x, y);
    var r := Exchanged(Exchanged(sr, x, y), x, y);
    assert forall j :: 0 <= j < |sr| ==> r[j] == sr[j];
  }

  /** changeit(x, y, sr), in place. */
  method ChangeIt(x: nat, y: nat, sr: array<int>)
    requires 2 * x + 1 < sr.Length && 2 * y + 1 < sr.Length
    modifies sr
    ensures sr[..] == Exchanged(old(sr[..]), x, y)
  {
    var tmp := sr[y * 2];
    sr[y * 2] := sr[x * 2];
    sr[x * 2] := tmp;
    tmp := sr[(y * 2) + 1];
    sr[(y * 2) + 1] := sr[(x * 2) + 1];
    sr[(x * 2) + 1] := tmp;
  }

  /** The strength and level arrays the sort works on. */
  datatype Ranked = Ranked(stren: seq<int>, sr: seq<int>)

  predicate WellSized(r: Ranked) {
    |r.stren| == Slots && |r.sr| == 2 * Slots
  }

  /**
   * One comparison of the sort as written: when slot y is stronger than slot
   * x, stren[y] takes stren[x] (stren[x] is never given the saved value) and
   * the level pairs are exchanged.
   */
  function CompareExchange(r: Ranked, x: nat, y: nat): (q: Ranked)
    requires WellSized(r) && x < y < Slots
    ensures WellSized(q)
    ensures q.stren[x] == r.stren[x] && q.stren[y] == Min(r.stren[x], r.stren[y])
  {
    if r.stren[y] > r.stren[x] then Ranked(r.stren[y := r.stren[x]], Exchanged(r.sr, x, y)) else r
  }

  /** One row of the sort: slot x compared with slots y..9 in turn. */
  function SortRow(r: Ranked, x: nat, y: nat): (q: Ranked)
    requires WellSized(r) && x < y <= Slots
    ensures WellSized(q)
    decreases Slots - y
  {
    if y == Slots then r else SortRow(CompareExchange(r, x, y), x, y + 1)
  }

  /** The sort's rows from row x on, x in 0..8. */
  function SortFrom(r: Ranked, x: nat): (q: Ranked)
    requires WellSized(r) && x <= Slots - 1
    ensures WellSized(q)
    decreases Slots - 1 - x
  {
    if x == Slots - 1 then r else SortFrom(SortRow(r, x, x + 1), x + 1)
  }

  function Sorted(r: Ranked): (q: Ranked)
    requires WellSized(r)
    ensures WellSized(q)
  {
    SortFrom(r, 0)
  }

  predicate NonIncreasing(s: seq<int>) {
    forall i, j :: 0 <= i < j < |s| ==> s[i] >= s[j]
  }

  /** On a non-increasing strength array a row finds nothing to exchange. */
  lemma {:induction false} SortRowIdle(r: Ranked, x: nat, y: nat)
    requires WellSized(r) && x < y <= Slots
    requires NonIncreasing(r.stren)
    ensures SortRow(r, x, y) == r
    decreases Slots - y
  {
    if y < Slots {
      assert CompareExchange(r, x, y) == r;
      SortRowIdle(r, x, y + 1);
    }
  }

  /** On a non-increasing strength array the sort finds nothing to exchange. */
  lemma {:induction false} SortFromIdle(r: Ranked, x: nat)
    requires WellSized(r) && x <= Slots - 1
    requires NonIncreasing(r.stren)
    ensures SortFrom(r, x) == r
    decreases Slots - 1 - x
  {
    if x < Slots - 1 {
      SortRowIdle(r, x, x + 1);
      SortFromIdle(r, x + 1);
    }
  }

  /**
   * After the selection the strength array is non-increasing (committed
   * strengths are non-increasing and non-negative, unused slots are 0), so
   * the sort as written and the corrected sort both leave the arrays as the
   * selection wrote them: the missing write-back never shows in main.
   */
  lemma SortAfterSelectionIdle(c: seq<Candidate>, minstrength: int)
    ensures var P := Select(c, minstrength).picks;
      var r := Ranked(StrensOf(c, P), LevelsOf(c, P));
      Sorted(r) == r && SwapSorted(r) == r
  {
    var P := Select(c, minstrength).picks;
    SelectionStrensNonIncreasing(c, minstrength);
    SortFromIdle(Ranked(StrensOf(c, P), LevelsOf(c, P)), 0);
    SwapFromIdle(Ranked(StrensOf(c, P), LevelsOf(c, P)), 0);
  }

  /** The strength array the selection leaves is non-increasing, unused slots included. */
  lemma SelectionStrensNonIncreasing(c: seq<Candidate>, minstrength: int)
    ensures NonIncreasing(StrensOf(c, Select(c, minstrength).picks))
  {
    PicksEligible(c, minstrength * 20, |c|, Slots);
    PicksNonIncreasing(c, minstrength * 20, |c|, Slots);
    var P := Select(c, minstrength).picks;
    var s := StrensOf(c, P);
    forall i, j | 0 <= i < j < |s|
      ensures s[i] >= s[j]
    {
      if j < |P| {
        NonIncreasingStep(c, P, i, j);
      }
    }
  }

  /** Adjacent non-increase extends to any two committed slots. */
  lemma {:induction false} NonIncreasingStep(c: seq<Candidate>, P: seq<nat>, i: nat, j: nat)
    requires forall k :: 0 <= k < |P| ==> P[k] < |c|
    requires forall k :: 0 <= k < |P| - 1 ==> c[P[k]].strength >= c[P[k + 1]].strength
    requires i <= j < |P|
    ensures c[P[i]].strength >= c[P[j]].strength
    decreases j - i
  {
    if i < j {
      NonIncreasingStep(c, P, i + 1, j);
    }
  }

  /** One comparison moves a row one pair along. */
  lemma SortRowStep(r: Ranked, x: nat, y: nat)
    requires WellSized(r) && x < y < Slots
    ensures WellSized(CompareExchange(r, x, y))
    ensures SortRow(r, x, y) == SortRow(CompareExchange(r, x, y), x, y + 1)
  {
  }

  /** A row that has run to the end leaves the arrays as they are. */
  lemma SortRowDone(r: Ranked, x: nat)
    requires WellSized(r) && x < Slots
    ensures SortRow(r, x, Slots) == r
  {
  }

  /** The sort from row x is row x followed by the sort from row x+1. */
  lemma SortFromRow(r: Ranked, x: nat)
    requires WellSized(r) && x < Slots - 1
    ensures SortFrom(r, x) == SortFrom(SortRow(r, x, x + 1), x + 1)
  {
  }

  /** The body of the sort's inner loop: one comparison, as written. */
  method CompareSlots(stren: array<int>, sr: array<int>, x: nat, y: nat)
    requires stren.Length == Slots && sr.Length == 2 * Slots && stren != sr && x < y < Slots
    modifies stren, sr
    ensures Ranked(stren[..], sr[..]) == CompareExchange(Ranked(old(stren[..]), old(sr[..])), x, y)
  {
    if stren[y] > stren[x] {
      var tmp := stren[y];  // saved but never written back, as in the source
      stren[y] := stren[x];
      ChangeIt(x, y, sr);
    }
  }

  /** The inner loop of the sort (lines 388-392): compare slot x with each later slot. */
  method SortRowInPlace(stren: array<int>, sr: array<int>, x: nat)
    requires stren.Length == Slots && sr.Length == 2 * Slots && stren != sr && x < Slots - 1
    modifies stren, sr
    ensures Ranked(stren[..], sr[..]) == SortRow(Ranked(old(stren[..]), old(sr[..])), x, x + 1)
  {
    ghost var goal := SortRow(Ranked(stren[..], sr[..]), x, x + 1);
    var y4 := x + 1;
    while y4 < Slots
      invariant x < y4 <= Slots
      invariant goal == SortRow(Ranked(stren[..], sr[..]), x, y4)
    {
      SortRowStep(Ranked(stren[..], sr[..]), x, y4);
      CompareSlots(stren, sr, x, y4);
      y4 := y4 + 1;
    }
    SortRowDone(Ranked(stren[..], sr[..]), x);
  }

  /** The exchange sort of main (lines 387-392) as written. */
  method SortSlots(stren: array<int>, sr: array<int>)
    requires stren.Length == Slots && sr.Length == 2 * Slots && stren != sr
    modifies stren, sr
    ensures Ranked(stren[..], sr[..]) == Sorted(Ranked(old(stren[..]), old(sr[..])))
  {
    ghost var goal := SortFrom(Ranked(stren[..], sr[..]), 0);
    var x4 := 0;
    while x4 < Slots - 1
      invariant x4 <= Slots - 1
      invariant goal == SortFrom(Ranked(stren[..], sr[..]), x4)
    {
      SortFromRow(Ranked(stren[..], sr[..]), x4);
      SortRowInPlace(stren, sr, x4);
      x4 := x4 + 1;
    }
  }

  /**
   * One comparison of the exchange sort as evidently intended: when slot y is
   * stronger than slot x, the two strengths and the two level pairs trade places.
   */
  function SwapCompare(r: Ranked, x: nat, y: nat): Ranked
    requires WellSized(r) && x < y < Slots
  {
    if r.stren[y] > r.stren[x] then Ranked(r.stren[y := r.stren[x]][x := r.stren[y]], Exchanged(r.sr, x, y)) else r
  }

  /** One row of the corrected sort: slot x compared with slots y..9 in turn. */
  function SwapRow(r: Ranked, x: nat, y: nat): (q: Ranked)
    requires WellSized(r) && x < y <= Slots
    ensures WellSized(q)
    decreases Slots - y
  {
    if y == Slots then r else SwapRow(SwapCompare(r, x, y), x, y + 1)
  }

  /** The corrected sort's rows from row x on. */
  function SwapFrom(r: Ranked, x: nat): (q: Ranked)
    requires WellSized(r) && x <= Slots - 1
    ensures WellSized(q)
    decreases Slots - 1 - x
  {
    if x == Slots - 1 then r else SwapFrom(SwapRow(r, x, x + 1), x + 1)
  }

  /** The exchange sort with the strength swap written back. */
  function SwapSorted(r: Ranked): (q: Ranked)
    requires WellSized(r)
    ensures WellSized(q)
  {
    SwapFrom(r, 0)
  }

  /** Slot k as one entry: its strength and its level pair. */
  function SlotEntries(r: Ranked): seq<(int, int, int)>
    requires WellSized(r)
  {
    seq(Slots, k requires 0 <= k < Slots => (r.stren[k], r.sr[2 * k], r.sr[2 * k + 1]))
  }

  /** Slots before x are settled: each is at least as strong as every later slot. */
  predicate Settled(st: seq<int>, x: nat) {
    forall i, j :: 0 <= i < x && i < j < |st| ==> st[i] >= st[j]
  }

  /** Slot x is at least as strong as slots x+1..y-1. */
  predicate RowLeads(st: seq<int>, x: nat, y: nat) {
    forall j :: x < j < y && j < |st| ==> x < |st| && st[x] >= st[j]
  }

  /** A corrected comparison trades two whole slots or does nothing. */
  lemma SwapCompareEntries(r: Ranked, x: nat, y: nat)
    requires WellSized(r) && x < y < Slots
    ensures WellSized(SwapCompare(r, x, y))
    ensures var e := SlotEntries(r);
      SlotEntries(SwapCompare(r, x, y)) == if r.stren[y] > r.stren[x] then e[x := e[y]][y := e[x]] else e
  {
    if r.stren[y] > r.stren[x] {
      ExchangedSwaps(r.sr, x, y);
      var e := SlotEntries(r);
      var a := SlotEntries(SwapCompare(r, x, y));
      var b := e[x := e[y]][y := e[x]];
      forall k | 0 <= k < Slots ensures a[k] == b[k] {
      }
    }
  }

  /** Trading two entries keeps the multiset of entries. */
  lemma TradeKeepsMultiset<T>(e: seq<T>, x: nat, y: nat)
    requires x < y < |e|
    ensures multiset(e[x := e[y]][y := e[x]]) == multiset(e)
  {
    var f := e[x := e[y]];
    assert multiset(f) == multiset(e) - multiset{e[x]} + multiset{e[y]};
    assert multiset(f[y := e[x]]) == multiset(f) - multiset{e[y]} + multiset{e[x]};
  }

  /** A corrected comparison keeps settled slots settled and moves the stronger of x and y to x. */
  lemma SwapCompareSettles(r: Ranked, x: nat, y: nat)
    requires WellSized(r) && x < y < Slots
    requires Settled(r.stren, x) && RowLeads(r.stren, x, y)
    ensures Settled(SwapCompare(r, x, y).stren, x) && RowLeads(SwapCompare(r, x, y).stren, x, y + 1)
  {
    var q := SwapCompare(r, x, y);
    forall i, j | 0 <= i < x && i < j < Slots ensures q.stren[i] >= q.stren[j] {
      assert r.stren[i] >= r.stren[x] && r.stren[i] >= r.stren[y] && r.stren[i] >= r.stren[j];
    }
  }

  /** A corrected comparison keeps every slot, only moved. */
  lemma SwapCompareKeeps(r: Ranked, x: nat, y: nat)
    requires WellSized(r) && x < y < Slots
    ensures WellSized(SwapCompare(r, x, y))
    ensures multiset(SlotEntries(SwapCompare(r, x, y))) == multiset(SlotEntries(r))
  {
    SwapCompareEntries(r, x, y);
    if r.stren[y] > r.stren[x] {
      TradeKeepsMultiset(SlotEntries(r), x, y);
    }
  }

  /** Once slot x leads all later slots, slot x is settled too. */
  lemma RowDoneSettles(st: seq<int>, x: nat)
    requires x < |st| && Settled(st, x) && RowLeads(st, x, |st|)
    ensures Settled(st, x + 1)
  {
    forall i, j | 0 <= i < x + 1 && i < j < |st| ensures st[i] >= st[j] {
      if i == x {
        assert RowLeads(st, x, |st|);
      }
    }
  }

  /** A corrected row keeps settled slots settled and leaves slot x stronger than the rest. */
  lemma {:induction false} SwapRowSettles(r: Ranked, x: nat, y: nat)
    requires WellSized(r) && x < y <= Slots
    requires Settled(r.stren, x) && RowLeads(r.stren, x, y)
    ensures Settled(SwapRow(r, x, y).stren, x + 1)
    ensures multiset(SlotEntries(SwapRow(r, x, y))) == multiset(SlotEntries(r))
    decreases Slots - y
  {
    if y < Slots {
      SwapCompareKeeps(r, x, y);
      SwapCompareSettles(r, x, y);
      SwapRowSettles(SwapCompare(r, x, y), x, y + 1);
    } else {
      RowDoneSettles(r.stren, x);
    }
  }

  /** The corrected sort from row x on, started with slots before x settled. */
  lemma {:induction false} SwapFromSorts(r: Ranked, x: nat)
    requires WellSized(r) && x <= Slots - 1 && Settled(r.stren, x)
    ensures NonIncreasing(SwapFrom(r, x).stren)
    ensures multiset(SlotEntries(SwapFrom(r, x))) == multiset(SlotEntries(r))
    decreases Slots - 1 - x
  {
    if x < Slots - 1 {
      SwapRowSettles(r, x, x + 1);
      SwapFromSorts(SwapRow(r, x, x + 1), x + 1);
    } else {
      assert NonIncreasing(r.stren) by {
        forall i, j | 0 <= i < j < |r.stren| ensures r.stren[i] >= r.stren[j] {
          assert i < x;
        }
      }
    }
  }

  /**
   * The intended property of the corrected sort: strengths end non-increasing
   * and every slot, strength and level pair together, is kept, only moved.
   */
  lemma SwapSortedSorts(r: Ranked)
    requires WellSized(r)
    ensures NonIncreasing(SwapSorted(r).stren)
    ensures multiset(SlotEntries(SwapSorted(r))) == multiset(SlotEntries(r))
  {
    SwapFromSorts(r, 0);
  }

  /** On a non-increasing strength array a corrected row changes nothing. */
  lemma {:induction false} SwapRowIdle(r: Ranked, x: nat, y: nat)
    requires WellSized(r) && x < y <= Slots
    requires NonIncreasing(r.stren)
    ensures SwapRow(r, x, y) == r
    decreases Slots - y
  {
    if y < Slots {
      assert SwapCompare(r, x, y) == r;
      SwapRowIdle(r, x, y + 1);
    }
  }

  /** On a non-increasing strength array the corrected sort changes nothing. */
  lemma {:induction false} SwapFromIdle(r: Ranked, x: nat)
    requires WellSized(r) && x <= Slots - 1
    requires NonIncreasing(r.stren)
    ensures SwapFrom(r, x) == r
    decreases Slots - 1 - x
  {
    if x < Slots - 1 {
      SwapRowIdle(r, x, x + 1);
      SwapFromIdle(r, x + 1);
    }
  }

  /** The strengths 1, 2, 3, 0, ... once slots 1 and 2 have taken slot 0's strength. */
  lemma FirstRowFlattens(s: seq<int>)
    requires |s| == Slots && s[0] == 1
    requires forall k :: 3 <= k < Slots ==> s[k] == 0
    ensures NonIncreasing(s[1 := 1][2 := 1])
  {
  }

  /** The first two comparisons of the sort as written on strengths 1, 2, 3: both exchange, and both write 1. */
  lemma FirstTwoCompares(r: Ranked)
    requires WellSized(r)
    requires r.stren[0] == 1 && r.stren[1] == 2 && r.stren[2] == 3
    ensures var r2 := CompareExchange(CompareExchange(r, 0, 1), 0, 2);
      r2.sr[0] == r.sr[4] && r2.sr[1] == r.sr[5] &&
      r2.sr[2] == r.sr[0] && r2.sr[3] == r.sr[1] &&
      r2.sr[4] == r.sr[2] && r2.sr[5] == r.sr[3] &&
      r2.stren == r.stren[1 := 1][2 := 1]
  {
  }

  /**
   * The sort as written misorders channels: with strengths 1, 2, 3 in slots
   * 0, 1, 2, the first row moves slot 1's pair to slot 0 and then slot 2's
   * pair there, but never raises stren[0], so the pair of strength 2 ends
   * behind the pair of strength 1 and the first three strengths all read 1.
   */
  lemma SortAsWrittenMisorders(r: Ranked)
    requires WellSized(r)
    requires r.stren[0] == 1 && r.stren[1] == 2 && r.stren[2] == 3
    requires forall k :: 3 <= k < Slots ==> r.stren[k] == 0
    ensures var q := Sorted(r);
      q.sr[0] == r.sr[4] && q.sr[1] == r.sr[5] &&
      q.sr[2] == r.sr[0] && q.sr[3] == r.sr[1] &&
      q.sr[4] == r.sr[2] && q.sr[5] == r.sr[3] &&
      q.stren[0] == 1 && q.stren[1] == 1 && q.stren[2] == 1
  {
    var r1 := CompareExchange(r, 0, 1);
    var r2 := CompareExchange(r1, 0, 2);
    FirstTwoCompares(r);
    SortFromRow(r, 0);
    SortRowStep(r, 0, 1);
    SortRowStep(r1, 0, 2);
    FirstRowFlattens(r.stren);
    SortRowIdle(r2, 0, 3);
    SortFromIdle(r2, 1);
  }
}
