/**
 * Reading the level array back (sup_res_chnl.py: get_level and get_color).
 *
 * The level array holds a (hi, lo) pair per channel slot, with 0 meaning
 * "no channel here". A channel is coloured by where the close lies: below
 * both bounds it is resistance, above both it is support, otherwise the
 * close is inside the channel.
 */
module Classify {
  import opened Wrappers

  /** The three colour names get_color returns: res_col, sup_col, inch_col. */
  datatype Color = Resistance | Support | InChannel

  /** get_level(ind, sr): the level at ind, absent when out of range or 0. */
  function GetLevel(ind: nat, sr: seq<int>): (r: Option<int>)
    ensures r.Some? ==> ind < |sr| && r.value == sr[ind] && r.value != 0
    ensures r.None? ==> ind >= |sr| || sr[ind] == 0
  {
    if ind < |sr| && sr[ind] != 0 then Some(sr[ind]) else None
  }

  /**
   * The source reads sr[ind + 1] whenever the level at ind is present and
   * differs from the close; the caller has to make that entry exist.
   */
  predicate ColorDefined(ind: nat, close: int, sr: seq<int>) {
    ind < |sr| && sr[ind] != 0 && sr[ind] != close ==> ind + 1 < |sr|
  }

  /** get_color(ind, close, sr), with the short-circuit order of the source's conditions. */
  function GetColor(ind: nat, close: int, sr: seq<int>): (r: Option<Color>)
    requires ColorDefined(ind, close, sr)
    ensures r.None? <==> GetLevel(ind, sr).None?
    ensures r == Some(Resistance) ==> sr[ind] > close && sr[ind + 1] > close
    ensures r == Some(Support) ==> sr[ind] < close && sr[ind + 1] < close
    ensures r == Some(InChannel) ==>
              sr[ind] == close || (!(sr[ind + 1] > close && sr[ind] > close) && !(sr[ind + 1] < close && sr[ind] < close))
  {
    if ind < |sr| && sr[ind] != 0 then
      if sr[ind] > close && sr[ind + 1] > close then Some(Resistance)
      else if sr[ind] < close && sr[ind + 1] < close then Some(Support)
      else Some(InChannel)
    else None
  }

  /**
   * For a stored channel (hi at ind, lo at ind + 1, lo <= hi, hi non-zero)
   * the colour says where the close lies: under the channel, over it, or
   * inside it, bounds included.
   */
  lemma ColorOfChannel(ind: nat, close: int, sr: seq<int>)
    requires ind + 1 < |sr| && sr[ind] != 0 && sr[ind + 1] <= sr[ind]
    ensures GetColor(ind, close, sr) == Some(Resistance) <==> close < sr[ind + 1]
    ensures GetColor(ind, close, sr) == Some(Support) <==> sr[ind] < close
    ensures GetColor(ind, close, sr) == Some(InChannel) <==> sr[ind + 1] <= close <= sr[ind]
  {
  }
}
