/**
 * The selection weight of a video: a baseline of 1, zero for a video rated
 * NEVER on any of its plays, a decaying bonus for each LIKED rating and a
 * capped boost for a video whose last completed play is more than two weeks
 * old.  The half-life decay `0.5 ** (days / 7)` is a parameter `decay` of
 * the whole-day age; `DecayContract` states what the model relies on.
 */
module Weights {
  import opened Common
  import opened Models
  import opened Sorting

  const BaselineWeight: real := 1.0
  const LikedBonus: real := 0.5
  const DecayHalfLifeDays: int := 7
  const NeverAgainWeight: real := 0.0
  /** Whole days after the last completed play before the freshness boost starts. */
  const FreshnessGraceDays: int := 14
  const FreshnessCap: real := 0.5

  /** `0.5 ** (d / 7)` is positive, and at most 1 for a non-negative age. */
  ghost predicate DecayContract(decay: int -> real) {
    forall d :: decay(d) > 0.0 && (d >= 0 ==> decay(d) <= 1.0)
  }

  function RealMin(a: real, b: real): real { if a <= b then a else b }

  // ---------------------------------------------------------------------------
  // The parts of the weight
  // ---------------------------------------------------------------------------

  /** The bonus one feedback row adds: LIKED only, decayed by its whole-day age. */
  function FeedbackBonus(f: Feedback, asOf: int, decay: int -> real): real {
    if f.rating == Liked then LikedBonus * decay(DaysBetween(asOf, f.submittedAt)) else 0.0
  }

  /** Sum of the bonuses of a list of feedback rows. */
  function LikedBonusSum(fs: seq<Feedback>, asOf: int, decay: int -> real): real {
    if fs == [] then 0.0
    else LikedBonusSum(fs[..|fs| - 1], asOf, decay) + FeedbackBonus(fs[|fs| - 1], asOf, decay)
  }

  /** Number of LIKED rows in a list of feedback rows. */
  function LikedCount(fs: seq<Feedback>): nat {
    if fs == [] then 0 else LikedCount(fs[..|fs| - 1]) + (if fs[|fs| - 1].rating == Liked then 1 else 0)
  }

  /** A completed play of `vid` that has a start time. */
  predicate StartedCompletion(p: PlayHistory, vid: int) {
    p.videoId == vid && p.completed && p.startedAt.Some?
  }

  /** The latest start time among the completed plays of `vid`
      (`ORDER BY started_at DESC`, where a missing start sorts last). */
  function LastCompletedStart(plays: seq<PlayHistory>, vid: int): (r: Option<int>)
    ensures r.None? <==> forall p :: p in plays ==> !StartedCompletion(p, vid)
    ensures r.Some? ==> exists p :: p in plays && StartedCompletion(p, vid) && p.startedAt.value == r.value
    ensures r.Some? ==> forall p :: p in plays && StartedCompletion(p, vid) ==> p.startedAt.value <= r.value
  {
    if plays == [] then None
    else
      assert plays == [plays[0]] + plays[1..];
      var rest := LastCompletedStart(plays[1..], vid);
      var p := plays[0];
      if StartedCompletion(p, vid) then
        match rest
        case None => Some(p.startedAt.value)
        case Some(t) => Some(if p.startedAt.value >= t then p.startedAt.value else t)
      else rest
  }

  /** The query for the last completed play does not fail: when `vid` has a
      completed play, one of them has a start time (otherwise the source
      subtracts a missing start time and raises). */
  predicate LastPlayDefined(plays: seq<PlayHistory>, vid: int) {
    (exists p :: p in plays && p.videoId == vid && p.completed) ==>
      exists p :: p in plays && StartedCompletion(p, vid)
  }

  /** The freshness boost: `min((d - 14) / 100, 0.5)` when the last completed
      play is `d > 14` whole days old, and nothing otherwise. */
  function FreshnessBoost(last: Option<int>, asOf: int): real {
    match last
    case None => 0.0
    case Some(t) =>
      var d := DaysBetween(asOf, t);
      if d > FreshnessGraceDays then RealMin((d - FreshnessGraceDays) as real / 100.0, FreshnessCap) else 0.0
  }

  /** `calculate_weight(video_id, as_of_date)`. A NEVER rating on any play
      forces the weight to zero; with a positive decay the weight is never
      negative, and zero happens for no other reason. */
  function Weight(plays: seq<PlayHistory>, feedback: seq<Feedback>, vid: int, asOf: int, decay: int -> real): (r: real)
    ensures HasNeverFeedback(plays, feedback, vid) ==> r == 0.0
    ensures DecayContract(decay) ==> r >= 0.0 && (r == 0.0 <==> HasNeverFeedback(plays, feedback, vid))
  {
    if HasNeverFeedback(plays, feedback, vid) then NeverAgainWeight
    else
      var bonus := LikedBonusSum(FeedbackForVideo(plays, feedback, vid), asOf, decay);
      var boost := FreshnessBoost(LastCompletedStart(plays, vid), asOf);
      FreshnessBoostRange(LastCompletedStart(plays, vid), asOf);
      assert DecayContract(decay) ==> bonus >= 0.0 by {
        if DecayContract(decay) {
          LikedBonusSumNonNegative(FeedbackForVideo(plays, feedback, vid), asOf, decay);
        }
      }
      BaselineWeight + bonus + boost
  }

  // ---------------------------------------------------------------------------
  // calculate_weight
  // ---------------------------------------------------------------------------

  /** `calculate_weight`: the NEVER check, then the loop over the joined
      feedback rows adding LIKED bonuses, then the freshness boost. */
  method CalculateWeight(plays: seq<PlayHistory>, feedback: seq<Feedback>, vid: int, asOf: int, decay: int -> real)
    returns (w: real)
    requires LastPlayDefined(plays, vid)
    ensures w == Weight(plays, feedback, vid, asOf, decay)
  {
    w := BaselineWeight;
    if HasNeverFeedback(plays, feedback, vid) {
      return NeverAgainWeight;
    }
    var records := FeedbackForVideo(plays, feedback, vid);
    var i := 0;
    while i < |records|
      invariant 0 <= i <= |records| && w == BaselineWeight + LikedBonusSum(records[..i], asOf, decay)
    {
      assert records[..i + 1][..i] == records[..i];
      if records[i].rating == Liked {
        var daysAgo := DaysBetween(asOf, records[i].submittedAt);
        var bonus := LikedBonus * decay(daysAgo);
        w := w + bonus;
      }
      i := i + 1;
    }
    assert records[..i] == records;
    var last := LastCompletedStart(plays, vid);
    if last.Some? {
      var daysSincePlay := DaysBetween(asOf, last.value);
      if daysSincePlay > FreshnessGraceDays {
        var boost := RealMin((daysSincePlay - FreshnessGraceDays) as real / 100.0, FreshnessCap);
        w := w + boost;
      }
    }
  }

  // ---------------------------------------------------------------------------
  // Properties of the weight
  // ---------------------------------------------------------------------------

  lemma {:induction false} LikedBonusSumNonNegative(fs: seq<Feedback>, asOf: int, decay: int -> real)
    requires DecayContract(decay)
    ensures LikedBonusSum(fs, asOf, decay) >= 0.0
    ensures LikedBonusSum(fs, asOf, decay) == 0.0 <==> LikedCount(fs) == 0
  {
    if fs != [] {
      LikedBonusSumNonNegative(fs[..|fs| - 1], asOf, decay);
      var d := DaysBetween(asOf, fs[|fs| - 1].submittedAt);
      assert decay(d) > 0.0;
    }
  }

  /** Each LIKED row adds at most 0.5 when no feedback is dated after `asOf`. */
  lemma {:induction false} LikedBonusSumAtMost(fs: seq<Feedback>, asOf: int, decay: int -> real)
    requires DecayContract(decay)
    requires forall k :: 0 <= k < |fs| ==> fs[k].submittedAt <= asOf
    ensures LikedBonusSum(fs, asOf, decay) <= LikedBonus * LikedCount(fs) as real
  {
    if fs != [] {
      var init := fs[..|fs| - 1];
      assert forall k :: 0 <= k < |init| ==> init[k].submittedAt <= asOf by {
        forall k | 0 <= k < |init| ensures init[k].submittedAt <= asOf {
          assert init[k] == fs[k];
        }
      }
      LikedBonusSumAtMost(init, asOf, decay);
      var d := DaysBetween(asOf, fs[|fs| - 1].submittedAt);
      assert d >= 0;
      assert decay(d) <= 1.0;
    }
  }

  lemma FreshnessBoostRange(last: Option<int>, asOf: int)
    ensures 0.0 <= FreshnessBoost(last, asOf) <= FreshnessCap
    ensures FreshnessBoost(last, asOf) > 0.0 <==> last.Some? && DaysBetween(asOf, last.value) > FreshnessGraceDays
  {
  }

  /** Without a NEVER rating the weight is the baseline plus non-negative
      bonuses, and exactly the baseline when there is no LIKED row and no
      stale completed play. */
  lemma WeightAtLeastBaseline(plays: seq<PlayHistory>, feedback: seq<Feedback>, vid: int, asOf: int, decay: int -> real)
    requires DecayContract(decay)
    requires !HasNeverFeedback(plays, feedback, vid)
    ensures Weight(plays, feedback, vid, asOf, decay) >= BaselineWeight
    ensures Weight(plays, feedback, vid, asOf, decay) == BaselineWeight <==>
      LikedCount(FeedbackForVideo(plays, feedback, vid)) == 0 &&
      (LastCompletedStart(plays, vid).None? ||
       DaysBetween(asOf, LastCompletedStart(plays, vid).value) <= FreshnessGraceDays)
  {
    LikedBonusSumNonNegative(FeedbackForVideo(plays, feedback, vid), asOf, decay);
    FreshnessBoostRange(LastCompletedStart(plays, vid), asOf);
  }

  /** With no feedback dated after `asOf`, the weight is at most the baseline
      plus 0.5 per LIKED row plus the freshness cap. */
  lemma WeightAtMost(plays: seq<PlayHistory>, feedback: seq<Feedback>, vid: int, asOf: int, decay: int -> real)
    requires DecayContract(decay)
    requires forall f :: f in feedback ==> f.submittedAt <= asOf
    ensures Weight(plays, feedback, vid, asOf, decay) <=
      BaselineWeight + LikedBonus * LikedCount(FeedbackForVideo(plays, feedback, vid)) as real + FreshnessCap
  {
    var fs := FeedbackForVideo(plays, feedback, vid);
    assert forall k :: 0 <= k < |fs| ==> fs[k].submittedAt <= asOf by {
      forall k | 0 <= k < |fs| ensures fs[k].submittedAt <= asOf {
        assert fs[k] in fs;
      }
    }
    LikedBonusSumAtMost(fs, asOf, decay);
    LikedBonusSumNonNegative(fs, asOf, decay);
    FreshnessBoostRange(LastCompletedStart(plays, vid), asOf);
  }

  // ---------------------------------------------------------------------------
  // calculate_weights_batch
  // ---------------------------------------------------------------------------

  /** `calculate_weights_batch`: a dictionary from each given id to its weight. */
  method CalculateWeightsBatch(plays: seq<PlayHistory>, feedback: seq<Feedback>, ids: seq<int>, asOf: int,
                               decay: int -> real)
    returns (weights: map<int, real>)
    requires forall k :: 0 <= k < |ids| ==> LastPlayDefined(plays, ids[k])
    ensures forall id :: id in weights <==> id in ids
    ensures forall id :: id in weights ==> weights[id] == Weight(plays, feedback, id, asOf, decay)
  {
    weights := map[];
    var i := 0;
    while i < |ids|
      invariant 0 <= i <= |ids|
      invariant forall id :: id in weights <==> id in ids[..i]
      invariant forall id :: id in weights ==> weights[id] == Weight(plays, feedback, id, asOf, decay)
    {
      var w := CalculateWeight(plays, feedback, ids[i], asOf, decay);
      weights := weights[ids[i] := w];
      assert ids[..i + 1] == ids[..i] + [ids[i]];
      i := i + 1;
    }
    assert ids[..i] == ids;
  }

  // ---------------------------------------------------------------------------
  // get_weight_distribution
  // ---------------------------------------------------------------------------

  /** The ids in order of first occurrence: the keys of the batch dictionary. */
  function Distinct(ids: seq<int>): (r: seq<int>)
    ensures forall id :: id in r <==> id in ids
    ensures forall i, j :: 0 <= i < j < |r| ==> r[i] != r[j]
    ensures r == [] <==> ids == []
  {
    if ids == [] then []
    else
      var init := Distinct(ids[..|ids| - 1]);
      assert ids == ids[..|ids| - 1] + [ids[|ids| - 1]];
      if ids[|ids| - 1] in init then init else init + [ids[|ids| - 1]]
  }

  /** The weights of a list of ids, in order. */
  function WeightList(plays: seq<PlayHistory>, feedback: seq<Feedback>, ids: seq<int>, asOf: int,
                      decay: int -> real): (ws: seq<real>)
    ensures |ws| == |ids|
    ensures forall k :: 0 <= k < |ids| ==> ws[k] == Weight(plays, feedback, ids[k], asOf, decay)
  {
    if ids == [] then []
    else [Weight(plays, feedback, ids[0], asOf, decay)] + WeightList(plays, feedback, ids[1..], asOf, decay)
  }

  /** Minimum, maximum and mean of a list of weights (the standard deviation is not modelled). */
  datatype WeightStats = WeightStats(min: real, max: real, mean: real)

  function MinOf(ws: seq<real>): real
    requires ws != []
  {
    if |ws| == 1 then ws[0] else RealMin(ws[0], MinOf(ws[1..]))
  }

  function MaxOf(ws: seq<real>): real
    requires ws != []
  {
    if |ws| == 1 then ws[0] else (var m := MaxOf(ws[1..]); if ws[0] >= m then ws[0] else m)
  }

  function SumOf(ws: seq<real>): real {
    if ws == [] then 0.0 else ws[0] + SumOf(ws[1..])
  }

  function Distribution(ws: seq<real>): WeightStats {
    if ws == [] then WeightStats(0.0, 0.0, 0.0)
    else WeightStats(MinOf(ws), MaxOf(ws), SumOf(ws) / |ws| as real)
  }

  lemma {:induction false} SumOfAtLeast(ws: seq<real>)
    requires ws != []
    ensures |ws| as real * MinOf(ws) <= SumOf(ws)
  {
    if |ws| > 1 {
      var tail := ws[1..];
      SumOfAtLeast(tail);
      var lo, lo' := MinOf(ws), MinOf(tail);
      assert lo <= ws[0] && lo <= lo';
      RealMulStep(|tail| as real, lo, lo');
    }
  }

  lemma {:induction false} SumOfAtMost(ws: seq<real>)
    requires ws != []
    ensures SumOf(ws) <= |ws| as real * MaxOf(ws)
  {
    if |ws| > 1 {
      var tail := ws[1..];
      SumOfAtMost(tail);
      var hi, hi' := MaxOf(ws), MaxOf(tail);
      assert ws[0] <= hi && hi' <= hi;
      RealMulStep(|tail| as real, hi', hi);
      RealMulStep(|tail| as real, hi, hi);
    }
  }

  /** `(n + 1) * a == a + n * a`, and `n * a <= n * b` for `a <= b` and `n >= 0`. */
  lemma RealMulStep(n: real, a: real, b: real)
    requires n >= 0.0 && a <= b
    ensures (n + 1.0) * a == a + n * a && n * a <= n * b
  {
    assert n * b - n * a == n * (b - a);
  }

  lemma {:induction false} MinMaxBound(ws: seq<real>, k: int)
    requires 0 <= k < |ws|
    ensures MinOf(ws) <= ws[k] <= MaxOf(ws)
  {
    if k > 0 {
      MinMaxBound(ws[1..], k - 1);
    }
  }

  /** Every weight lies between the minimum and the maximum, and so does the mean. */
  lemma DistributionOrdered(ws: seq<real>)
    requires ws != []
    ensures forall k :: 0 <= k < |ws| ==> Distribution(ws).min <= ws[k] <= Distribution(ws).max
    ensures Distribution(ws).min <= Distribution(ws).mean <= Distribution(ws).max
  {
    forall k | 0 <= k < |ws| ensures MinOf(ws) <= ws[k] <= MaxOf(ws) {
      MinMaxBound(ws, k);
    }
    SumOfAtLeast(ws);
    SumOfAtMost(ws);
    MeanBetween(SumOf(ws), |ws| as real, MinOf(ws), MaxOf(ws));
  }

  lemma MeanBetween(s: real, n: real, lo: real, hi: real)
    requires n > 0.0 && n * lo <= s <= n * hi
    ensures lo <= s / n <= hi
  {
    var q := s / n;
    assert n * q == s;
    assert n * (q - lo) == s - n * lo;
    assert n * (hi - q) == n * hi - s;
  }

  /** `get_weight_distribution`: the statistics of the batch dictionary's values;
      all zeros for no ids. */
  function GetWeightDistribution(plays: seq<PlayHistory>, feedback: seq<Feedback>, ids: seq<int>, asOf: int,
                                 decay: int -> real): (d: WeightStats)
    ensures ids == [] ==> d == WeightStats(0.0, 0.0, 0.0)
    ensures ids != [] ==> d.min <= d.mean <= d.max
    ensures forall id :: id in ids ==> d.min <= Weight(plays, feedback, id, asOf, decay) <= d.max
    ensures ids != [] ==>
      (exists id :: id in ids && Weight(plays, feedback, id, asOf, decay) == d.min) &&
      (exists id :: id in ids && Weight(plays, feedback, id, asOf, decay) == d.max)
    ensures ids != [] ==>
      d.mean == SumOf(WeightList(plays, feedback, Distinct(ids), asOf, decay)) / |Distinct(ids)| as real
  {
    var ws := WeightList(plays, feedback, Distinct(ids), asOf, decay);
    if ws == [] then Distribution(ws)
    else
      DistributionOrdered(ws);
      MinMaxAttained(ws);
      assert forall id :: id in ids ==> MinOf(ws) <= Weight(plays, feedback, id, asOf, decay) <= MaxOf(ws) by {
        forall id | id in ids ensures MinOf(ws) <= Weight(plays, feedback, id, asOf, decay) <= MaxOf(ws) {
          var k :| 0 <= k < |Distinct(ids)| && Distinct(ids)[k] == id;
          assert ws[k] == Weight(plays, feedback, id, asOf, decay);
        }
      }
      var i :| 0 <= i < |ws| && ws[i] == MinOf(ws);
      var j :| 0 <= j < |ws| && ws[j] == MaxOf(ws);
      assert Distinct(ids)[i] in ids && Distinct(ids)[j] in ids;
      Distribution(ws)
  }

  /** The minimum and the maximum are weights of the list. */
  lemma {:induction false} MinMaxAttained(ws: seq<real>)
    requires ws != []
    ensures exists k :: 0 <= k < |ws| && ws[k] == MinOf(ws)
    ensures exists k :: 0 <= k < |ws| && ws[k] == MaxOf(ws)
  {
    if |ws| == 1 {
      assert ws[0] == MinOf(ws) == MaxOf(ws);
    } else {
      MinMaxAttained(ws[1..]);
      var i :| 0 <= i < |ws[1..]| && ws[1..][i] == MinOf(ws[1..]);
      var j :| 0 <= j < |ws[1..]| && ws[1..][j] == MaxOf(ws[1..]);
      if MinOf(ws) == ws[0] { assert ws[0] == MinOf(ws); } else { assert ws[i + 1] == MinOf(ws); }
      if MaxOf(ws) == ws[0] { assert ws[0] == MaxOf(ws); } else { assert ws[j + 1] == MaxOf(ws); }
    }
  }

  // ---------------------------------------------------------------------------
  // get_top_weighted_videos
  // ---------------------------------------------------------------------------

  /** `sort(key=weight, reverse=True)`: heavier first. */
  predicate HeavierFirst(a: (int, real), b: (int, real)) { a.1 >= b.1 }

  lemma HeavierFirstIsTotalPreorder()
    ensures TotalPreorder(HeavierFirst)
  {
  }

  /** The ids of the enabled videos, in table order. */
  function EnabledIds(videos: seq<Video>): (ids: seq<int>)
    ensures forall id :: id in ids <==> exists v :: v in videos && !v.disabled && v.id == id
  {
    if videos == [] then []
    else
      assert videos == [videos[0]] + videos[1..];
      var rest := EnabledIds(videos[1..]);
      if videos[0].disabled then rest else [videos[0].id] + rest
  }

  /** The (id, weight) pairs of the given ids whose weight reaches `minWeight`. */
  function WeightedAtLeast(plays: seq<PlayHistory>, feedback: seq<Feedback>, ids: seq<int>, asOf: int,
                           decay: int -> real, minWeight: real): (r: seq<(int, real)>)
    ensures forall e :: e in r <==>
      e.0 in ids && e.1 == Weight(plays, feedback, e.0, asOf, decay) && e.1 >= minWeight
  {
    if ids == [] then []
    else
      assert ids == [ids[0]] + ids[1..];
      var rest := WeightedAtLeast(plays, feedback, ids[1..], asOf, decay, minWeight);
      var w := Weight(plays, feedback, ids[0], asOf, decay);
      if w >= minWeight then [(ids[0], w)] + rest else rest
  }

  /** `get_top_weighted_videos`: the enabled videos whose weight reaches
      `minWeight`, heaviest first, cut to `limit` by Python slicing. */
  function TopWeighted(videos: seq<Video>, plays: seq<PlayHistory>, feedback: seq<Feedback>, limit: int,
                       minWeight: real, asOf: int, decay: int -> real): (r: seq<(int, real)>)
    ensures var all := WeightedAtLeast(plays, feedback, Distinct(EnabledIds(videos)), asOf, decay, minWeight);
      (limit >= 0 ==> |r| == Min(limit, |all|)) &&
      (limit < 0 ==> |r| == Max(|all| + limit, 0))
  {
    var candidates := WeightedAtLeast(plays, feedback, Distinct(EnabledIds(videos)), asOf, decay, minWeight);
    Take(Sort(candidates, HeavierFirst), limit)
  }

  /** The list is heaviest first and holds only enabled videos with their
      weight, each at least `minWeight`. */
  lemma TopWeightedProperties(videos: seq<Video>, plays: seq<PlayHistory>, feedback: seq<Feedback>, limit: int,
                              minWeight: real, asOf: int, decay: int -> real)
    ensures var top := TopWeighted(videos, plays, feedback, limit, minWeight, asOf, decay);
      var all := WeightedAtLeast(plays, feedback, Distinct(EnabledIds(videos)), asOf, decay, minWeight);
      SortedBy(top, HeavierFirst) &&
      (forall e :: e in top ==>
        e in all && e.1 >= minWeight && e.1 == Weight(plays, feedback, e.0, asOf, decay) &&
        exists v :: v in videos && !v.disabled && v.id == e.0)
  {
    var candidates := WeightedAtLeast(plays, feedback, Distinct(EnabledIds(videos)), asOf, decay, minWeight);
    var sorted := Sort(candidates, HeavierFirst);
    HeavierFirstIsTotalPreorder();
    SortSorted(candidates, HeavierFirst);
    var top := Take(sorted, limit);
    assert top == sorted[..|top|];
    forall e | e in top
      ensures e in candidates && e.1 >= minWeight && e.1 == Weight(plays, feedback, e.0, asOf, decay)
      ensures exists v :: v in videos && !v.disabled && v.id == e.0
    {
      SortMembers(candidates, HeavierFirst, e);
      assert e in candidates;
      assert e.0 in EnabledIds(videos);
    }
  }

  /** No qualifying video left out of the list is heavier than one listed. */
  lemma TopWeightedComplete(videos: seq<Video>, plays: seq<PlayHistory>, feedback: seq<Feedback>, limit: int,
                            minWeight: real, asOf: int, decay: int -> real)
    ensures var top := TopWeighted(videos, plays, feedback, limit, minWeight, asOf, decay);
      var all := WeightedAtLeast(plays, feedback, Distinct(EnabledIds(videos)), asOf, decay, minWeight);
      forall e, d :: e in all && e !in top && d in top ==> d.1 >= e.1
  {
    var candidates := WeightedAtLeast(plays, feedback, Distinct(EnabledIds(videos)), asOf, decay, minWeight);
    var sorted := Sort(candidates, HeavierFirst);
    HeavierFirstIsTotalPreorder();
    SortSorted(candidates, HeavierFirst);
    var top := Take(sorted, limit);
    assert top == sorted[..|top|];
    forall e, d | e in candidates && e !in top && d in top ensures d.1 >= e.1 {
      SortMembers(candidates, HeavierFirst, e);
      SortedPrefixFirst(sorted, |top|, HeavierFirst, d, e);
    }
  }

}
