# Support and resistance channels — a Dafny model

This project models the core of `sup_res_chnl.py`, a Python port of the
TradingView "Support Resistance Channels" indicator, and proves properties of
it. The script works over one price series (open, high, low, close per bar):

1. **Pivot detection** (`pivothigh`, `pivotlow`, `exclude_repeats`). A bar is
   a pivot high (low) when its source value is the maximum (minimum) of the
   `prd` bars on each side, and no other bar within `prd` bars has the same
   value.
2. **Pivot list** (`main`, lines 309-321). All pivots are collected newest
   first. The pivots further than `loopback` bars behind the last bar are
   removed.
3. **Channel construction** (`get_sr_vals` and the touch loop). Every pivot
   anchors a band `[lo, hi]`. The band grows by scanning the pivot list and
   absorbs each pivot that keeps it within the channel width; each absorbed
   pivot, the anchor included, adds 20 to the strength. Each bar in the
   trailing `loopback + 1` bars whose high or low lies in the band adds 1 more.
4. **Ranking** (selection loop and exchange sort). The selection loop commits
   the strongest band that reaches `minstrength * 20` to the next of 10 slots
   of the level array `suportresistance`. It then sets to -1 the strength of
   every band with a bound inside the committed one, and repeats. An exchange
   sort (`changeit`) follows.
5. **Classification** (`get_level`, `get_color`). A slot reads 0 as "no
   channel". A channel is resistance, support or "price in channel" depending
   on where a close lies.

The model has one module per part:

- `wrappers.dfy` holds `Option` and `Min`/`Max`.
- `pivots.dfy` holds pivot detection. Its reference definition `PivotSpec` is
  proved equal to the rolling-extreme, roll, mask and exclude pipeline the
  source runs.
- `channels.dfy` holds band growth and touch counting.
- `ranking.dfy` holds the selection, `changeit` and the sort. It also holds
  the corrected sort described under Findings.
- `classify.dfy` holds `get_level` and `get_color`.
- `pipeline.dfy` holds `main`'s loops and the end-to-end statements about the
  final level array.

Modelling choices:

- The loops that work in place are methods over arrays, proved against
  specification functions. These are `exclude_repeats`, the candidate array
  with its touch bonus and disqualification, the level and strength arrays,
  and the sort.
- Expressions are functions.
- Prices are integers, and NaN is `None`.

### Where the code departs from what the indicator suggests (the model follows the code)

- **The pivot list.** A pivot only becomes known `right` bars after it forms,
  so one might expect each rebuild to see only the pivots known by then. In
  the code, the list is built once from all bars and evicted once against the
  last bar. Every rebuild then uses that same list, including pivots that lie
  after the rebuild bar.
- **Self-absorption.** The band scan compares the anchor with every pivot of
  the list, itself included, so the anchor absorbs itself. A band with a
  non-negative width therefore has strength at least 20
  (`Channels.AnchorAccepted`).
- **When selection stops.** The selection loop does not stop when nothing
  reaches the threshold. It runs all its `len(pivotvals)` rounds and only
  breaks when the 10 slots are full. The idle rounds change nothing
  (`Ranking.IdleRounds`), so the result is the same.
- **The committed band.** The disqualifying loop also sets the committed
  band's own strength to -1, because its own bounds lie in its range. This is
  what keeps a band from being committed twice (`Ranking.PicksDistinct`).
- **The sort.** The exchange sort reads as meant to order the slots by
  non-increasing strength. As written, it does not; see Findings. On what the
  selection produces, it never exchanges anything, so the commit order stands
  (`Ranking.SortAfterSelectionIdle`).
- **Parameter ranges.** The code checks no parameter range, and neither does
  the model.

## Model

| member | source | states |
|---|---|---|
| Pivots.SeqExtremeIsExtreme | sup_res_chnl.py:232 | the extreme of a non-empty window is one of its values and is at least as extreme as every value in it |
| Pivots.Rolling | sup_res_chnl.py:232 | talib MAX / MIN with period t >= 1: one entry per bar, absent for the first t-1 bars, then the extreme of the last t values (the window property is stated by Pivots.RollingWindow) |
| Pivots.RollingWindow | sup_res_chnl.py:232 | the rolling extreme of period t is absent for the first t-1 bars; after that it is a value of the last t bars, at least as extreme as all of them |
| Pivots.RollingAt | sup_res_chnl.py:232 | helper lemma, unfolds the definition: the rolling extreme at bar k is the extreme of bars k-t+1..k, or absent before bar t-1 |
| Pivots.RolledExtreme | sup_res_chnl.py:232-234 | after the roll by -right, the entry at k equals src[k] exactly when src[k] is the extreme of its window k-left..k+right |
| Pivots.RolledInside | sup_res_chnl.py:233-234 | without wrap-around, the rolled entry at k+right equals src[k] iff k is its window's extreme |
| Pivots.RollingAtWindow | sup_res_chnl.py:232-233 | the rolled entry for bar k is the extreme of the window around k |
| Pivots.RolledWrapped | sup_res_chnl.py:233 | the last `right` bars receive the leading absent entries by wrap-around, so they are never pivots |
| Pivots.WindowExtremeAt | sup_res_chnl.py:232-234 | the window's extreme equals src[k] iff src[k] is at least as extreme as every bar of the window |
| Pivots.ExcludeRepeats | sup_res_chnl.py:197-216 | the in-place loop leaves exactly the reference exclusion of the old array |
| Pivots.Excluded | sup_res_chnl.py:197-216 | what exclude_repeats leaves: one entry per bar, blanked exactly where an entry in [sp, n-sp) repeats a raw sample within sp bars (Pivots.ExcludedShape states the consequences) |
| Pivots.ExcludedShape | sup_res_chnl.py:210-216 | exclusion only blanks entries. It never touches the first or last sp entries. A survivor differs from every sample within sp bars on both sides |
| Pivots.MaskedThenExcluded | sup_res_chnl.py:234-237 | masking the rolled extremes and then excluding repeats gives the reference pivot definition |
| Pivots.PivotSpec | sup_res_chnl.py:219-261 | the reference pivot definition: one entry per bar, holding src[k] exactly when k is the extreme of its window and, inside [right, n-right), no other bar within right bars has its value |
| Pivots.PivotSpecShape | sup_res_chnl.py:219-261 | a pivot at k has left <= k < n-right, carries src[k], and is the extreme of src[k-left..k+right]; a series shorter than one window has no pivot |
| Pivots.FindPivots | sup_res_chnl.py:232-237 | rolling extreme, roll, mask and exclusion together compute the reference pivot definition |
| Pivots.PivotHigh | sup_res_chnl.py:219-238 | pivothigh is the reference definition with the maximum |
| Pivots.PivotLow | sup_res_chnl.py:241-261 | pivotlow is the reference definition with the minimum |
| Pivots.PlateauSuppressed | sup_res_chnl.py:210-215 | no other bar within prd bars of a pivot has the pivot's value, so flat tops and bottoms yield no pivot |
| Pivots.FlatSeriesHasNoPivots | sup_res_chnl.py:219-261 | a constant series has no pivot at all |
| Channels.Step | sup_res_chnl.py:115-122 | one scan step: the band only widens; numpp grows by 20 exactly when the pivot fits; a pivot that does not fit leaves the band as it is; a fitting pivot ends inside the band, and a band within the width stays within it |
| Channels.BandAfter | sup_res_chnl.py:110-122 | the band after scanning the first k pivots contains its anchor, and numpp is a multiple of 20 between 0 and 20k |
| Channels.BandBounds | sup_res_chnl.py:110-122 | the band always contains the anchor and stays within a non-negative width; with a NaN or negative width it is the anchor alone with count 0 |
| Channels.BandWidens | sup_res_chnl.py:118-121 | bounds only widen as the scan goes on |
| Channels.AcceptedInside | sup_res_chnl.py:117-121 | every accepted pivot lies inside the band from then on |
| Channels.NumppCounts | sup_res_chnl.py:122 | numpp is 20 times the number of accepted pivots |
| Channels.AcceptedSetStep | sup_res_chnl.py:114-122 | each scan step adds pivot y to the accepted set exactly when it fits |
| Channels.AnchorAccepted | sup_res_chnl.py:110-122 | with a non-negative width the anchor accepts itself, so numpp >= 20 |
| Channels.SrVals | sup_res_chnl.py:93-123 | get_sr_vals' band contains its anchor, and numpp is a multiple of 20 at most 20 times the number of pivots |
| Channels.InsideAccepted | sup_res_chnl.py:114-122 | with a non-negative width, every pivot inside the final band was absorbed when the scan reached it |
| Channels.BandBoundsArePivots | sup_res_chnl.py:110-122 | both bounds of a band are pivot values |
| Channels.SrValsProperties | sup_res_chnl.py:93-123 | lo <= anchor <= hi; hi-lo <= width and numpp >= 20 when the width is non-negative; numpp = 0 when it is NaN; numpp counts the accepted pivots; a pivot is accepted iff it lies in [lo, hi] (the "if" direction needs a non-negative width) |
| Channels.GetSrVals | sup_res_chnl.py:93-123 | the scanning loop returns the band of the reference fold, with its bounds and width properties |
| Channels.CountTouches | sup_res_chnl.py:344-353 | the touch count over bars [from, to) is at most to - from, and 0 for an empty band (lo > hi) |
| Channels.CountTouchesIsSetSize | sup_res_chnl.py:344-353 | the touch bonus is the number of distinct bars in the window whose high or low is in the band |
| Channels.CountTouchesWider | sup_res_chnl.py:344-353 | a band containing another is touched by at least as many bars |
| Channels.TouchCount | sup_res_chnl.py:342-353 | the loop counts the touches among bars max(0, b-1-loopback)..b-1, and 0 <= s <= min(loopback+1, b) |
| Channels.PivotCandidate | sup_res_chnl.py:333-336 | the get_sr_vals triple appended for pivot i: a band around the pivot whose strength is a multiple of 20 between 0 and 20 times the number of pivots |
| Channels.BuildCandidates | sup_res_chnl.py:332-336 | one candidate per pivot, each the band of that anchor and containing its pivot |
| Channels.Candidates | sup_res_chnl.py:332-354 | one candidate per pivot, each a band around its pivot whose strength is its numpp plus at most the number of bars in the touch window |
| Channels.AddTouches | sup_res_chnl.py:339-354 | each candidate's strength grows by its own touch count; its bounds are unchanged |
| Channels.CandidatesValid | sup_res_chnl.py:332-354 | every candidate contains its pivot and keeps within the width; its strength lies between numpp and numpp + min(loopback+1, b) |
| Channels.WiderBandAbsorbsMore | sup_res_chnl.py:93-123 | with a non-negative width, a band strictly containing another band absorbs strictly more pivots |
| Channels.ContainingBandStronger | sup_res_chnl.py:332-354 | a candidate whose band strictly contains another candidate's band is strictly stronger |
| Ranking.Strongest | sup_res_chnl.py:361-366 | the stv/stl scan over all candidates: -1 or an index of an eligible candidate (Ranking.StrongestIn states which one) |
| Ranking.StrongestIn | sup_res_chnl.py:362-367 | the scan finds -1 iff nothing is eligible, else an eligible candidate at least as strong as all eligible ones and strictly stronger than every eligible one before it |
| Ranking.FindStrongest | sup_res_chnl.py:362-367 | the scanning loop finds the strongest eligible candidate, first on ties, or -1 when none is eligible |
| Ranking.StrongestBeats | sup_res_chnl.py:362-367 | no eligible candidate beats the one found, and none before it ties with it |
| Ranking.Select | sup_res_chnl.py:359-385 | the selection as main runs it (threshold minstrength*20, one round per candidate, 10 slots): at most min(10, number of candidates) commits, and a candidate list of the same length |
| Ranking.Selection | sup_res_chnl.py:360-385 | the selection commits at most one band per round and at most one per slot, each a valid candidate index |
| Ranking.IdleRounds | sup_res_chnl.py:361-368 | once nothing is eligible, the remaining rounds commit nothing and change nothing |
| Ranking.CommitRound | sup_res_chnl.py:368-383 | helper lemma, unfolds the definition: a committing round commits the strongest band, then the rest of the selection runs on the disqualified candidates |
| Ranking.RestUntouched | sup_res_chnl.py:376-383 | bands committed later are untouched by the first disqualification and do not overlap the first band |
| Ranking.PicksEligible | sup_res_chnl.py:365-381 | every committed band reaches minstrength*20; every candidate ends unchanged or disqualified |
| Ranking.PicksNonIncreasing | sup_res_chnl.py:360-385 | committed strengths never increase in commit order |
| Ranking.PicksDisjoint | sup_res_chnl.py:376-381 | no later-committed band has a bound inside an earlier band's [ll, hh] |
| Ranking.PicksStrongest | sup_res_chnl.py:361-385 | each commit is at least as strong as every eligible band not yet disqualified, and strictly stronger than those before it (ties go to the lowest index) |
| Ranking.PickBeats | sup_res_chnl.py:361-385 | the same for one commit and one candidate |
| Ranking.UnclaimedKept | sup_res_chnl.py:376-381 | a candidate no committed band overlaps keeps its strength |
| Ranking.PicksDistinct | sup_res_chnl.py:376-381 | the committed band disqualifies itself, so no candidate is committed twice |
| Ranking.SelectionExhausts | sup_res_chnl.py:361-385 | with enough rounds the selection ends only when the slots are full or no candidate is eligible |
| Ranking.LevelsOf | sup_res_chnl.py:370-374 | the 20-entry suportresistance array after the commits (its slots are stated by Ranking.LevelsOfSlot) |
| Ranking.StrensOf | sup_res_chnl.py:370-374 | the 10-entry stren array after the commits, 0 in unused slots (Ranking.SelectionStrensNonIncreasing orders it) |
| Ranking.LevelsOfSlot | sup_res_chnl.py:372-373 | helper lemma, unfolds the definition: slot k holds the hi and lo of the k-th commit, or 0 and 0 past the last commit |
| Ranking.LevelsOfAppend | sup_res_chnl.py:372-374 | a commit writes slot src of the level and strength arrays and nothing else |
| Ranking.Disqualify | sup_res_chnl.py:377-381 | the disqualifying loop as a function, one entry per candidate; which entries it sets to -1 is stated by Ranking.DisqualifyOverlapping |
| Ranking.DisqualifyOverlapping | sup_res_chnl.py:377-381 | the loop sets to -1 exactly the candidates with a bound in [ll, hh] |
| Ranking.DisqualifyKeepsBounds | sup_res_chnl.py:377-381 | disqualification changes strengths only, never bounds |
| Ranking.CommitSlot | sup_res_chnl.py:370-381 | one commit: the slot pair and strength written, the overlapping candidates disqualified |
| Ranking.SelectionRound | sup_res_chnl.py:362-385 | one round of the loop advances the arrays exactly as one step of the selection function |
| Ranking.SelectionLoop | sup_res_chnl.py:359-385 | the loop runs at most one round per candidate and stops once every slot is filled; afterwards the committed picks and the array it leaves are the selection function's picks and remaining candidates, and the level and strength arrays match those picks |
| Ranking.SelectDone | sup_res_chnl.py:359-385 | helper lemma: a finished loop whose state is the whole selection leaves exactly the arrays that Select specifies |
| Ranking.SelectStrongest | sup_res_chnl.py:357-385 | zeroing plus the selection loop leave the level and strength arrays of the selection function |
| Ranking.Exchanged | sup_res_chnl.py:140-145 | changeit's effect on the level array, which keeps its length; which entries move is stated by Ranking.ExchangedSwaps |
| Ranking.ExchangedSwaps | sup_res_chnl.py:140-145 | changeit exchanges entries 2x and 2y and entries 2x+1 and 2y+1 and leaves every other entry alone |
| Ranking.ExchangedInvolution | sup_res_chnl.py:127-145 | exchanging the same two slots twice restores the array |
| Ranking.ChangeIt | sup_res_chnl.py:127-145 | the in-place swap computes the exchange |
| Ranking.CompareExchange | sup_res_chnl.py:389-392 | one comparison as written: stren[x] never changes and stren[y] becomes the smaller of the two strengths |
| Ranking.SortRow | sup_res_chnl.py:388-392 | one row of the sort as written, keeping 10 strengths and 20 levels |
| Ranking.SortFrom | sup_res_chnl.py:387-392 | the rows x..8 of the sort as written, keeping 10 strengths and 20 levels |
| Ranking.Sorted | sup_res_chnl.py:387-392 | the whole sort as written, keeping 10 strengths and 20 levels; what it does to the order is stated by Ranking.SortAsWrittenMisorders and Ranking.SortFromIdle |
| Ranking.CompareSlots | sup_res_chnl.py:389-392 | one comparison as written: stren[y4] takes stren[x4] and the level pairs are exchanged |
| Ranking.SortRowInPlace | sup_res_chnl.py:388-392 | the inner loop runs one row of the sort as written |
| Ranking.SortSlots | sup_res_chnl.py:387-392 | the nested loops compute the sort as written |
| Ranking.SortRowIdle | sup_res_chnl.py:388-392 | on non-increasing strengths a row exchanges nothing |
| Ranking.SortFromIdle | sup_res_chnl.py:387-392 | on non-increasing strengths the sort exchanges nothing |
| Ranking.SelectionStrensNonIncreasing | sup_res_chnl.py:360-385 | after the selection the strength array is non-increasing, unused slots included |
| Ranking.SortAfterSelectionIdle | sup_res_chnl.py:360-392 | after the selection, the sort as written and the corrected sort both leave the arrays unchanged |
| Ranking.FirstTwoCompares | sup_res_chnl.py:389-392 | on strengths 1, 2, 3 the first two comparisons as written both exchange pairs and both write 1 |
| Ranking.SortAsWrittenMisorders | sup_res_chnl.py:387-392 | with strengths 1, 2, 3, 0, … the sort as written ends with slot 0's pair ahead of slot 1's pair, and the first three strengths all equal 1 |
| Ranking.SwapCompareEntries | sup_res_chnl.py:389-392 | a corrected comparison trades two whole slots (strength and pair) or does nothing |
| Ranking.SwapCompareKeeps | sup_res_chnl.py:389-392 | a corrected comparison keeps the multiset of slots |
| Ranking.SwapCompareSettles | sup_res_chnl.py:389-392 | a corrected comparison leaves slot x at least as strong as every slot compared so far |
| Ranking.SwapRowSettles | sup_res_chnl.py:388-392 | after a corrected row, slot x is at least as strong as every later slot, and the slots are only permuted |
| Ranking.SwapFromSorts | sup_res_chnl.py:387-392 | the remaining corrected rows sort the strengths and permute the slots |
| Ranking.SwapSorted | sup_res_chnl.py:387-392 | the corrected sort, keeping 10 strengths and 20 levels; Ranking.SwapSortedSorts states that it sorts and permutes |
| Ranking.SwapSortedSorts | sup_res_chnl.py:387-392 | the corrected sort yields non-increasing strengths and a permutation of the slots |
| Ranking.SwapRowIdle | sup_res_chnl.py:388-392 | on non-increasing strengths a corrected row changes nothing |
| Ranking.SwapFromIdle | sup_res_chnl.py:387-392 | on non-increasing strengths the corrected sort changes nothing |
| Classify.GetLevel | sup_res_chnl.py:148-165 | the level is present iff the index is in range and the entry is non-zero, and then it is the entry |
| Classify.GetColor | sup_res_chnl.py:168-194 | the colour is absent iff the level is; resistance means both bounds are above the close, support means both are below, otherwise the close is in the channel |
| Classify.ColorOfChannel | sup_res_chnl.py:183-193 | for an ordered stored channel: resistance iff close < lo, support iff hi < close, in channel iff lo <= close <= hi |
| Pipeline.PivotSources | sup_res_chnl.py:294-295 | High/Low uses the high and low series; Close/Open takes per bar the larger and the smaller of close and open |
| Pipeline.Collected | sup_res_chnl.py:309-314 | the pivot list of bars 0..n-1, with as many values as bar indices (Pipeline.CollectedProperties states its contents) |
| Pipeline.CollectedProperties | sup_res_chnl.py:309-314 | the pivot list is newest first (strictly decreasing bars). It holds exactly the pivot bars, each with ph when present and pl otherwise |
| Pipeline.CollectPivots | sup_res_chnl.py:309-314 | the front-inserting loop builds that list |
| Pipeline.Evicted | sup_res_chnl.py:316-321 | eviction keeps values and bar indices paired and never lengthens the list (Pipeline.EvictedPrefix states what survives) |
| Pipeline.EvictedPrefix | sup_res_chnl.py:316-321 | on a newest-first list, eviction keeps a prefix, and an entry survives iff its bar is within loopback of the last bar |
| Pipeline.EvictOld | sup_res_chnl.py:316-321 | the backward deleting loop computes the eviction |
| Pipeline.KeptPivots | sup_res_chnl.py:309-321 | the kept list is newest first; it holds exactly the pivot bars within loopback of the last bar, each with its pivot value |
| Pipeline.PivotSeries | sup_res_chnl.py:297-298 | the pivothigh and pivotlow series, one entry per bar each |
| Pipeline.FinalPivots | sup_res_chnl.py:306-321 | collection followed by eviction: the pivot list every rebuild uses, values and bar indices paired (Pipeline.FinalPivotsProperties states its contents) |
| Pipeline.FinalPivotsProperties | sup_res_chnl.py:294-321 | the same for the list every rebuild uses |
| Pipeline.LevelsAt | sup_res_chnl.py:326-392 | the level array one rebuild at bar b is meant to leave, 20 entries; its slots are stated by Pipeline.StoredSlot |
| Pipeline.Recompute | sup_res_chnl.py:326-392 | one rebuild (bands, touches, zero fill, selection, sort as written) leaves the level array of the corrected sort of the selection |
| Pipeline.LevelsAtSelection | sup_res_chnl.py:357-392 | a rebuild stores the selection's levels unchanged by the sort |
| Pipeline.RebuildPicks | sup_res_chnl.py:360-385 | a rebuild commits at most min(10, number of pivots) bands, all eligible and distinct |
| Pipeline.StoredSlot | sup_res_chnl.py:357-385 | slot k holds the k-th commit: hi >= pivot >= lo, within the width. Past the last commit it holds 0 and 0 |
| Pipeline.RebuildDisjoint | sup_res_chnl.py:376-381 | stored channels do not overlap: no stored channel has a bound inside an earlier one, and no earlier one has a bound strictly inside a later one |
| Pipeline.RebuildByStrength | sup_res_chnl.py:360-385 | stored channels are in non-increasing strength order |
| Pipeline.NoLevels | sup_res_chnl.py:271 | np.zeros(20): the 20-entry level array before any rebuild (Pipeline.ZeroLevels builds it) |
| Pipeline.LastPivotBefore | sup_res_chnl.py:323-326 | the last pivot bar before n, with no pivot bar after it; absent iff there is no pivot bar before n |
| Pipeline.LevelsAfter | sup_res_chnl.py:323-392 | the level array after the rebuild loop has seen bars 0..n-1, 20 entries: the rebuild at the last pivot bar before n, or zeros (Pipeline.LevelsAfterStep) |
| Pipeline.LevelsAfterStart | sup_res_chnl.py:271 | helper lemma, unfolds the definition: before any bar the level array is all zero |
| Pipeline.LevelsAfterStep | sup_res_chnl.py:323-326 | helper lemma, unfolds the definition: a pivot bar replaces the level array by its rebuild; other bars keep it |
| Pipeline.ZeroLevels | sup_res_chnl.py:271 | the level array starts as 20 zeros |
| Pipeline.RebuildAtBar | sup_res_chnl.py:323-392 | one bar of the rebuild loop keeps the array equal to the rebuild at the last pivot bar so far |
| Pipeline.RebuildAtPivotBars | sup_res_chnl.py:323-392 | the rebuild loop ends with the rebuild at the last pivot bar, or zeros if there is none |
| Pipeline.FinalLevels | sup_res_chnl.py:264-392 | the level array main ends with, 20 entries; its slots and colours are stated by Pipeline.FinalSlots and Pipeline.FinalColors |
| Pipeline.SupportResistance | sup_res_chnl.py:264-392 | main computes the final level array of the specification |
| Pipeline.FinalSlots | sup_res_chnl.py:323-392 | every final slot has lo <= hi, and is either empty or a channel around one of the final pivots |
| Pipeline.SlotColor | sup_res_chnl.py:183-193 | an ordered slot is classified by where the close lies |
| Pipeline.FinalColors | sup_res_chnl.py:168-194 | get_color never reads past the final array; an empty slot has no colour; a stored channel is resistance, support or in channel exactly as the close lies below, above or inside it |
| Pipeline.FlatSeriesHasNoChannels | sup_res_chnl.py:294-326 | a constant series ends with no channel at all |

## Findings

| source | as written | input that shows it | evidently intended | confidence | as-written member | corrected member |
|---|---|---|---|---|---|---|
| sup_res_chnl.py:387-392 | the exchange saves stren[y4] in tmp but never writes it to stren[x4], so after an exchange slot x4 keeps its old, weaker strength | strengths 1, 2, 3, 0, … 0 in slots 0-9: the pairs end in slot order 2, 0, 1 and the first three strengths all read 1 | `stren[x4] = tmp`, so that the sort orders whole slots by non-increasing strength | proved on the model; not executed | Ranking.SortAsWrittenMisorders | Ranking.SwapSortedSorts |

The defect is latent in `main`. The strengths the selection leaves are
already non-increasing, so neither sort exchanges anything
(`Ranking.SortAfterSelectionIdle`). The model's specification of a rebuild
(`Pipeline.LevelsAt`) uses the corrected sort. `Pipeline.Recompute` runs the
sort as written and is proved to meet that specification.

## Left out

- Loading the `.env` file, the exchange client, the price download and the
  DataFrame set-up (sup_res_chnl.py:10-52): network and library I/O. The
  price series is a parameter of `Pipeline.SupportResistance`.
- The per-close output loop, the zero-to-NaN replacement, `print` and the
  CSV export (sup_res_chnl.py:394-416): presentation. The classifier it calls
  is modelled (`Classify.GetColor`, `Classify.GetLevel`) and applied to each
  final slot (`Pipeline.FinalColors`).
- The talib rolling maximum and minimum (sup_res_chnl.py:232, 255): a foreign
  C library. They are specified by `Pivots.Rolling` (absent for the first
  t-1 bars, then the extreme of the last t values).
- `Pivots.Rolling` accepts any period t >= 1, while talib's MAX and MIN
  reject a period below 2. With `prd = 0` the period `2 * prd + 1` is 1, so
  the source raises an error where the model makes every bar a pivot. That
  library error is not modelled.
- The channel width `(prdhighest - prdlowest) * ChannelW / 100`
  (sup_res_chnl.py:301-303): floating-point arithmetic over a talib window.
  The width per bar is a parameter `cwidth: seq<Option<int>>`, with `None`
  for NaN.
- The commented-out moving averages (sup_res_chnl.py:273-291) and the unused
  display flags (sup_res_chnl.py:78-87).
- `maxnumsr` (sup_res_chnl.py:69): it is used only by the output loop.
- Floating point: prices are integers, and NaN is only "absent". A NaN in the
  price series itself is not modelled.
- The memory behaviour of `np.insert`, `np.delete` and `np.append`: they are
  modelled as sequence operations.
- `Classify.GetColor`: the source raises an IndexError when the last entry of
  the array is a non-zero level that differs from the close. The model
  excludes that case by its precondition instead of modelling the exception.
  For the level array `main` builds, the case cannot arise
  (`Pipeline.FinalColors`).
