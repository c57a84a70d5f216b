/** Radio calibration: stick movements are sampled step by step until every channel's range and the four primary
    functions are known, and then written once. */
module RadioCalibration {
  import opened Bytes

  const ACTION_THRESHOLD := 300
  const SETTLE_THRESHOLD := 20
  const ENDPOINT_LOW := 1300
  const ENDPOINT_HIGH := 1700
  const SAMPLE_WINDOW_MS := 500
  const MAX_SAMPLES := 20
  const AUX_SWEEP := 9
  const REVIEW := 10

  datatype Primary = Roll | Pitch | Throttle | Yaw
  datatype Phase = Sampling | Review | Writing | Done | Failed | Cancelled

  datatype Sample = Sample(at: int, values: seq<nat>)

  datatype Channel = Channel(channel: nat, min: nat, max: nat, trim: nat, reversed: bool, role: Option<Primary>)

  datatype Refusal = NotStable | MovementInsufficient | AuxEndpointsIncomplete(channel: nat)

  /** A usable pulse width, or 0 for a channel that is not there. */
  predicate Reading(v: nat) {
    v == 0 || 800 <= v <= 2200
  }

  function Or1500(v: nat): nat {
    if v == 0 then 1500 else v
  }

  function Low(a: nat, b: nat): nat {
    if a < b then a else b
  }

  function High(a: nat, b: nat): nat {
    if a > b then a else b
  }

  function Distance(a: nat, b: nat): nat {
    if a > b then a - b else b - a
  }

  /** Steps 1 to 8 move one primary function each, odd ones in the first direction. */
  function FunctionForStep(step: nat): Primary
    requires 1 <= step <= 8
  {
    if step <= 2 then Throttle else if step <= 4 then Yaw else if step <= 6 then Roll else Pitch
  }

  /** What the operator is asked to move, step by step. */
  const SCRIPT: seq<Primary> := [Throttle, Throttle, Yaw, Yaw, Roll, Roll, Pitch, Pitch]

  /** How far a channel has moved from its centre; 0 for one that cannot be chosen. */
  function Movement(current: seq<nat>, center: seq<nat>, excluded: set<nat>, index: nat): nat
    requires index < |current| && index < |center|
  {
    if index in excluded || current[index] == 0 then 0 else Distance(current[index], Or1500(center[index]))
  }

  /** The first of the channels that moved most, if any moved at all. */
  method MostMovedChannel(current: seq<nat>, center: seq<nat>, excluded: set<nat>, detected: nat) returns (selected: Option<nat>)
    requires detected <= |current| && detected <= |center|
    ensures selected.None? <==> forall k :: 0 <= k < detected ==> Movement(current, center, excluded, k) == 0
    ensures selected.Some? ==>
              && selected.value < detected && selected.value !in excluded && current[selected.value] != 0
              && (forall k :: 0 <= k < detected ==>
                    Movement(current, center, excluded, k) <= Movement(current, center, excluded, selected.value))
              && (forall k :: 0 <= k < selected.value ==>
                    Movement(current, center, excluded, k) < Movement(current, center, excluded, selected.value))
  {
    selected := None;
    var movement := 0;
    var index := 0;
    while index < detected
      invariant index <= detected
      invariant selected.None? ==> movement == 0
      invariant selected.Some? ==> selected.value < index && movement == Movement(current, center, excluded, selected.value) > 0
      invariant forall k :: 0 <= k < index ==> Movement(current, center, excluded, k) <= movement
      invariant selected.Some? ==> forall k :: 0 <= k < selected.value ==> Movement(current, center, excluded, k) < movement
    {
      if index !in excluded && current[index] != 0 {
        var delta := Distance(current[index], Or1500(center[index]));
        if delta > movement {
          movement := delta;
          selected := Some(index);
        }
      }
      index := index + 1;
    }
  }

  predicate Wide(samples: seq<Sample>, detected: nat) {
    forall s :: 0 <= s < |samples| ==> |samples[s].values| >= detected
  }

  /** The readings of one channel in two samples differ by no more than the settle threshold, absent ones ignored. */
  predicate Close(samples: seq<Sample>, detected: nat, index: nat, s: nat, t: nat)
    requires Wide(samples, detected) && index < detected && s < |samples| && t < |samples|
  {
    var a, b := samples[s].values[index], samples[t].values[index];
    a != 0 && b != 0 ==> Distance(a, b) <= SETTLE_THRESHOLD
  }

  ghost predicate Stable(samples: seq<Sample>, detected: nat)
    requires Wide(samples, detected)
  {
    |samples| >= 3
    && forall index, s, t :: 0 <= index < detected && 0 <= s < |samples| && 0 <= t < |samples| ==> Close(samples, detected, index, s, t)
  }

  /** Spread of each channel over the samples. */
  method IsStable(samples: seq<Sample>, detected: nat) returns (stable: bool)
    requires Wide(samples, detected)
    ensures stable <==> Stable(samples, detected)
  {
    if |samples| < 3 {
      return false;
    }
    var index := 0;
    while index < detected
      invariant index <= detected
      invariant forall k, s, t :: 0 <= k < index && 0 <= s < |samples| && 0 <= t < |samples| ==> Close(samples, detected, k, s, t)
    {
      var spread, s, t := Spread(samples, detected, index);
      if spread > SETTLE_THRESHOLD {
        assert !Close(samples, detected, index, s, t);
        return false;
      }
      index := index + 1;
    }
    return true;
  }

  /** Largest minus smallest reading of a channel, and two samples that show it. */
  method Spread(samples: seq<Sample>, detected: nat, index: nat) returns (spread: nat, ghost s: nat, ghost t: nat)
    requires Wide(samples, detected) && index < detected && |samples| > 0
    ensures s < |samples| && t < |samples|
    ensures spread > 0 ==> samples[s].values[index] != 0 && samples[t].values[index] != 0
                           && Distance(samples[s].values[index], samples[t].values[index]) == spread
    ensures forall i, j :: 0 <= i < |samples| && 0 <= j < |samples|
              && samples[i].values[index] != 0 && samples[j].values[index] != 0
              ==> Distance(samples[i].values[index], samples[j].values[index]) <= spread
  {
    var lo, hi := 0, 0;
    s, t := 0, 0;
    var k := 0;
    while k < |samples|
      invariant k <= |samples| && s < |samples| && t < |samples|
      invariant lo == 0 <==> hi == 0
      invariant lo == 0 ==> forall i :: 0 <= i < k ==> samples[i].values[index] == 0
      invariant lo != 0 ==> lo <= hi && samples[s].values[index] == lo && samples[t].values[index] == hi
                            && forall i :: 0 <= i < k && samples[i].values[index] != 0 ==> lo <= samples[i].values[index] <= hi
    {
      var v := samples[k].values[index];
      if v != 0 {
        if lo == 0 || v < lo {
          lo, s := v, k;
        }
        if v > hi {
          hi, t := v, k;
        }
      }
      k := k + 1;
    }
    spread := hi - lo;
  }

  /** Samples of the last half second, at most twenty. */
  function Recent(all: seq<Sample>, at: int): (r: seq<Sample>)
    ensures |r| <= MAX_SAMPLES
  {
    var kept := Within(all, at);
    if |kept| > MAX_SAMPLES then kept[|kept| - MAX_SAMPLES..] else kept
  }

  function Within(all: seq<Sample>, at: int): seq<Sample> {
    if all == [] then []
    else
      var last := all[|all| - 1];
      Within(all[..|all| - 1], at) + if at - last.at <= SAMPLE_WINDOW_MS then [last] else []
  }

  /** These positions, in order, are all those with a sample of the last half second. */
  ghost predicate Fresh(all: seq<Sample>, at: int, ids: seq<nat>) {
    && (forall j :: 0 <= j < |ids| ==> ids[j] < |all| && at - all[ids[j]].at <= 500)
    && (forall j, k :: 0 <= j < k < |ids| ==> ids[j] < ids[k])
    && (forall i: nat :: i < |all| && at - all[i].at <= 500 ==> i in ids)
  }

  /** What is kept: the samples of the last half second in their order, and of more than twenty the last twenty. */
  lemma RecentMeans(all: seq<Sample>, at: int) returns (ids: seq<nat>)
    ensures Fresh(all, at, ids)
    ensures var first := if |ids| > 20 then |ids| - 20 else 0;
            |Recent(all, at)| == |ids| - first && forall j :: 0 <= j < |ids| - first ==> Recent(all, at)[j] == all[ids[first + j]]
  {
    hide Within, Fresh;
    ids := WithinMeans(all, at);
    var first := if |ids| > 20 then |ids| - 20 else 0;
    assert Recent(all, at) == Within(all, at)[first..];
  }

  lemma {:induction false} WithinMeans(all: seq<Sample>, at: int) returns (ids: seq<nat>)
    ensures Fresh(all, at, ids) && |Within(all, at)| == |ids|
    ensures forall j :: 0 <= j < |ids| ==> ids[j] < |all| && Within(all, at)[j] == all[ids[j]]
  {
    if all == [] {
      ids := [];
    } else {
      hide Fresh;
      var n := |all| - 1;
      var before := WithinMeans(all[..n], at);
      ids := before + if at - all[n].at <= 500 then [n] else [];
      FreshGrows(all, at, before);
    }
  }

  lemma FreshGrows(all: seq<Sample>, at: int, before: seq<nat>)
    requires all != [] && Fresh(all[..|all| - 1], at, before)
    ensures Fresh(all, at, before + if at - all[|all| - 1].at <= 500 then [|all| - 1] else [])
  {
    var n := |all| - 1;
    forall i: nat | i < n && at - all[i].at <= 500 ensures i in before {
      assert all[..n][i] == all[i];
    }
  }

  lemma RecentWide(all: seq<Sample>, at: int, detected: nat)
    requires Wide(all, detected)
    ensures Wide(Recent(all, at), detected)
  {
    var ids := RecentMeans(all, at);
  }

  // ---------------------------------------------------------------------------------------------------
  // The session
  // ---------------------------------------------------------------------------------------------------

  type Mapping = map<Primary, nat>

  /** Different functions sit on different channels, numbered from 1. */
  ghost predicate ProperMapping(m: Mapping, detected: nat) {
    && (forall f :: f in m ==> 1 <= m[f] <= detected)
    && (forall f, g :: f in m && g in m && f != g ==> m[f] != m[g])
  }

  /** The functions a session at this step has already placed. */
  ghost predicate MappedBy(m: Mapping, step: nat) {
    && (step >= 2 ==> Throttle in m) && (step >= 4 ==> Yaw in m) && (step >= 6 ==> Roll in m) && (step >= 8 ==> Pitch in m)
    && (step <= 1 ==> m == map[])
  }

  predicate Swept(m: Mapping, low: seq<nat>, high: seq<nat>) {
    |low| == |high| && forall k :: 0 <= k < |low| && (k + 1) !in m.Values ==> low[k] <= ENDPOINT_LOW && high[k] >= ENDPOINT_HIGH
  }

  function RoleOf(m: Mapping, channel: nat): Option<Primary> {
    if Roll in m && m[Roll] == channel then Some(Roll)
    else if Pitch in m && m[Pitch] == channel then Some(Pitch)
    else if Throttle in m && m[Throttle] == channel then Some(Throttle)
    else if Yaw in m && m[Yaw] == channel then Some(Yaw)
    else None
  }

  /** The indices of the channels taken, which are numbered from 1. */
  function Indices(m: Mapping): set<nat> {
    set c | c in m.Values && c >= 1 :: c - 1
  }

  /** A large enough movement; a throttle back at its low end needs none. */
  predicate FarEnough(step: nat, current: nat, center: nat) {
    (step == 2 && current <= ENDPOINT_LOW) || Distance(current, Or1500(center)) >= ACTION_THRESHOLD
  }

  /** The stick is at least 300 off its rest, where a missing rest counts as 1500; on the second step a throttle at 1300 or
      below will do. */
  ghost predicate Pushed(step: nat, reading: nat, rest: nat) {
    var base := if rest == 0 then 1500 else rest;
    (step == 2 && reading <= 1300) || reading >= base + 300 || reading + 300 <= base
  }

  lemma PushedIsFar(step: nat, reading: nat, rest: nat)
    ensures Pushed(step, reading, rest) <==> FarEnough(step, reading, rest)
  {
  }

  lemma ScriptIs(step: nat)
    requires 1 <= step <= 8
    ensures FunctionForStep(step) == SCRIPT[step - 1]
  {
  }

  lemma PlacedIsProper(m: Mapping, f: Primary, channel: nat, detected: nat)
    requires ProperMapping(m, detected) && 1 <= channel <= detected
    requires if f in m then m[f] == channel else forall g :: g in m ==> m[g] != channel
    ensures ProperMapping(m[f := channel], detected) && m[f := channel] == if f in m then m else m[f := channel]
  {
  }

  lemma DroppedIsFar(step: nat, center: nat)
    requires Reading(center)
    ensures FarEnough(step, 0, center)
  {
  }

  /** What the steps of a session work on. */
  datatype Sticks = Sticks(center: seq<nat>, current: seq<nat>, mapped: Mapping, reversed: map<Primary, bool>,
                           low: seq<nat>, high: seq<nat>)
  {
    predicate Sized(n: nat) {
      |low| == |high| == n && |center| >= n && |current| >= n
    }
  }

  /** Step `step` has moved its function on the channel with this index: the function's own, or else one that moved most
      of those without a function. Only that channel's range has grown, by the reading, even a missing one. */
  ghost predicate Moved(s: Sticks, t: Sticks, step: nat, index: nat) {
    && 1 <= step <= 8 && s.Sized(|s.low|) && t.Sized(|s.low|) && index < |s.low| && t.center == s.center && t.current == s.current
    && var f := SCRIPT[step - 1];
    && t.mapped == s.mapped[f := index + 1] && (f in s.mapped ==> s.mapped[f] == index + 1)
    && (f !in s.mapped ==> forall k :: 0 <= k < |s.low| ==>
          Movement(s.current, s.center, Indices(s.mapped), k) <= Movement(s.current, s.center, Indices(s.mapped), index))
    && t.reversed == (if f in s.mapped then s.reversed
                      else s.reversed[f := step % 2 == 1 && s.current[index] < s.center[index]])
    && Pushed(step, s.current[index], s.center[index])
    && forall k :: 0 <= k < |s.low| ==>
         t.low[k] == (if k == index then Low(s.low[k], s.current[k]) else s.low[k])
         && t.high[k] == (if k == index then High(s.high[k], s.current[k]) else s.high[k])
  }

  lemma MovedIsMapped(s: Sticks, t: Sticks, step: nat, index: nat)
    requires Moved(s, t, step, index) && MappedBy(s.mapped, step)
    ensures MappedBy(t.mapped, step + 1)
  {
    hide Movement, Pushed, Indices;
  }

  /** Every channel's range takes in its rest position, an absent channel counting as 1500. */
  ghost predicate Centered(s: Sticks, t: Sticks) {
    && s.Sized(|s.low|) && t.Sized(|s.low|) && t.mapped == s.mapped && t.reversed == s.reversed
    && t.center == s.current && t.current == s.current
    && forall k :: 0 <= k < |s.low| ==>
         t.low[k] == Low(s.low[k], Or1500(s.current[k])) && t.high[k] == High(s.high[k], Or1500(s.current[k]))
  }

  /** What a completed step has done: the rest positions first, movements, and a sweep that only had to be checked. */
  ghost predicate Captured(s: Sticks, t: Sticks, step: nat, index: nat) {
    if step == 0 then Centered(s, t) else if step == AUX_SWEEP then t == s else Moved(s, t, step, index)
  }

  class RadioSession {
    const detected: nat
    const min: array<nat>
    const max: array<nat>
    var phase: Phase
    var stepIndex: nat
    var center: seq<nat>
    var current: seq<nat>
    var samples: seq<Sample>
    var mapped: Mapping
    var reversed: map<Primary, bool>
    /** Calibrations handed over for writing. */
    var writes: nat

    predicate Sized()
      reads `center, `current
    {
      min.Length == max.Length == detected && |center| >= detected && |current| >= detected
    }

    ghost predicate Shape()
      reads this, min, max
    {
      && Sized() && min != max
      && (forall k :: 0 <= k < |current| ==> Reading(current[k])) && (forall k :: 0 <= k < |center| ==> Reading(center[k]))
      && Wide(samples, detected) && |samples| <= MAX_SAMPLES
    }

    /** Once the centre has been captured every channel has a range. */
    ghost predicate Ranged()
      reads this, min, max
    {
      stepIndex >= 1 && min.Length == max.Length ==> forall k :: 0 <= k < min.Length ==> min[k] <= max[k]
    }

    ghost predicate Valid()
      reads this, min, max
    {
      && Shape() && Ranged()
      && stepIndex <= REVIEW && ProperMapping(mapped, detected) && MappedBy(mapped, stepIndex)
      && (phase.Sampling? ==> stepIndex < REVIEW) && (phase.Review? || phase.Writing? || phase.Done? ==> stepIndex == REVIEW)
      && (stepIndex == REVIEW ==> Swept(mapped, min[..], max[..]))
      && (writes == if phase.Writing? || phase.Done? then 1 else writes) && writes <= 1
      && (phase.Sampling? || phase.Review? || phase.Cancelled? ==> writes == 0)
    }

    function Now(): Sticks
      reads `center, `current, `mapped, `reversed, min, max
    {
      Sticks(center, current, mapped, reversed, min[..], max[..])
    }

    /** Start on the latest readings; at least four channels must be there. */
    constructor (latest: seq<nat>, detectedChannels: nat)
      requires detectedChannels <= |latest| && forall k :: 0 <= k < |latest| ==> Reading(latest[k])
      ensures Valid() && phase.Sampling? && stepIndex == 0 && detected == detectedChannels && fresh(min) && fresh(max)
      ensures samples == [] && center == current == latest[..detectedChannels] && mapped == map[] && reversed == map[]
      ensures forall k :: 0 <= k < detected ==> min[k] == 2000 && max[k] == 1000
    {
      detected := detectedChannels;
      min := new nat[detectedChannels](_ => 2000);
      max := new nat[detectedChannels](_ => 1000);
      phase, stepIndex, samples, mapped, reversed, writes := Sampling, 0, [], map[], map[], 0;
      center := latest[..detectedChannels];
      current := latest[..detectedChannels];
    }

    /** Channel `k` has been seen at `v`. */
    method Widen(k: nat, v: nat)
      requires min.Length == max.Length == detected && min != max && k < detected
      modifies min, max
      ensures min[k] == Low(old(min[k]), v) && max[k] == High(old(max[k]), v)
      ensures forall i :: 0 <= i < detected && i != k ==> min[i] == old(min[i]) && max[i] == old(max[i])
    {
      min[k] := Low(min[k], v);
      max[k] := High(max[k], v);
    }

    /** New readings widen the range of every channel that is there; only while sampling. */
    method HandleRcChannels(values: seq<nat>, at: int)
      requires Valid() && |values| >= detected && forall k :: 0 <= k < |values| ==> Reading(values[k])
      modifies `current, `samples, min, max
      ensures Valid()
      ensures !phase.Sampling? ==> current == old(current) && min[..] == old(min[..]) && max[..] == old(max[..])
      ensures phase.Sampling? ==> current == values
      ensures samples == if phase.Sampling? then Recent(old(samples) + [Sample(at, values)], at) else old(samples)
      ensures phase.Sampling? ==> forall k :: 0 <= k < detected ==>
                min[k] == (if values[k] == 0 then old(min[k]) else Low(old(min[k]), values[k]))
                && max[k] == (if values[k] == 0 then old(max[k]) else High(old(max[k]), values[k]))
    {
      hide ProperMapping, MappedBy, Swept, Recent;
      if !phase.Sampling? {
        return;
      }
      current := values;
      RecentWide(samples + [Sample(at, values)], at, detected);
      samples := Recent(samples + [Sample(at, values)], at);
      var index := 0;
      while index < detected
        invariant index <= detected && min.Length == max.Length == detected && min != max
        invariant forall k :: 0 <= k < index ==>
                    min[k] == (if values[k] == 0 then old(min[k]) else Low(old(min[k]), values[k]))
                    && max[k] == (if values[k] == 0 then old(max[k]) else High(old(max[k]), values[k]))
        invariant forall k :: index <= k < detected ==> min[k] == old(min[k]) && max[k] == old(max[k])
        modifies min, max
      {
        if values[index] != 0 {
          Widen(index, values[index]);
        }
        index := index + 1;
      }
    }

    /** The rest position of every channel; an absent channel counts as 1500. */
    method CaptureCenter()
      requires Shape() && stepIndex == 0
      modifies `center, min, max
      ensures Centered(old(Now()), Now())
    {
      center := current;
      var index := 0;
      while index < detected
        invariant index <= detected && min.Length == max.Length == detected && min != max
        invariant forall k :: 0 <= k < index ==>
                    min[k] == Low(old(min[k]), Or1500(current[k])) && max[k] == High(old(max[k]), Or1500(current[k]))
        invariant forall k :: index <= k < detected ==> min[k] == old(min[k]) && max[k] == old(max[k])
        modifies min, max
      {
        Widen(index, Or1500(current[index]));
        index := index + 1;
      }
    }

    /** The first channel that is not a primary one and has not reached both endpoints. */
    method CheckSweep() returns (refusal: Option<Refusal>)
      requires min.Length == max.Length == detected
      ensures refusal.None? <==> Swept(mapped, min[..], max[..])
      ensures refusal.Some? ==> refusal.value.AuxEndpointsIncomplete? && 1 <= refusal.value.channel <= detected
    {
      var index := 0;
      while index < detected
        invariant index <= detected
        invariant forall k :: 0 <= k < index && (k + 1) !in mapped.Values ==> min[k] <= ENDPOINT_LOW && max[k] >= ENDPOINT_HIGH
      {
        if (index + 1) !in mapped.Values && (min[index] > ENDPOINT_LOW || max[index] < ENDPOINT_HIGH) {
          assert !(min[..][index] <= ENDPOINT_LOW && max[..][index] >= ENDPOINT_HIGH);
          return Some(AuxEndpointsIncomplete(index + 1));
        }
        index := index + 1;
      }
      return None;
    }

    /** The channel a movement step looks at: the function's own, or the first of those that moved most. */
    ghost predicate Candidate(index: nat)
      requires Shape() && 1 <= stepIndex <= 8 && index < detected
      reads this, min, max
    {
      var f := FunctionForStep(stepIndex);
      if f in mapped then mapped[f] == index + 1
      else
        && Movement(current, center, Indices(mapped), index) > 0
        && (forall k :: 0 <= k < detected ==>
              Movement(current, center, Indices(mapped), k) <= Movement(current, center, Indices(mapped), index))
        && (forall k :: 0 <= k < index ==>
              Movement(current, center, Indices(mapped), k) < Movement(current, center, Indices(mapped), index))
    }

    /** One primary movement: the function's channel is chosen on its first step, and its range takes in the reading. */
    method CaptureMovement() returns (refusal: Option<Refusal>, ghost moved: nat)
      requires Valid() && phase.Sampling? && 1 <= stepIndex <= 8
      modifies `mapped, `reversed, min, max
      ensures Shape() && Ranged() && ProperMapping(mapped, detected)
      ensures if refusal.Some? then refusal == Some(MovementInsufficient) && Now() == old(Now())
              else Moved(old(Now()), Now(), stepIndex, moved)
      ensures refusal.Some? ==>
                forall index: nat :: index < detected && Candidate(index) ==> !Pushed(stepIndex, current[index], center[index])
      // A channel that has dropped out reads 0, which always counts as movement and becomes the channel's minimum.
      ensures FunctionForStep(stepIndex) in old(mapped) && current[old(mapped)[FunctionForStep(stepIndex)] - 1] == 0 ==>
                refusal.None? && min[mapped[FunctionForStep(stepIndex)] - 1] == 0
    {
      hide Swept, MappedBy, Movement, Candidate, FarEnough, Pushed, Indices, Wide, Reading, ProperMapping, FunctionForStep;
      var f := FunctionForStep(stepIndex);
      ScriptIs(stepIndex);
      var chosen := ChooseChannel();
      if chosen.None? {
        return Some(MovementInsufficient), 0;
      }
      var index := chosen.value;
      CandidateMeans(index);
      DroppedIsFar(stepIndex, center[index]);
      PlacedIsProper(mapped, f, index + 1, detected);
      PushedIsFar(stepIndex, current[index], center[index]);
      if !FarEnough(stepIndex, current[index], center[index]) {
        return Some(MovementInsufficient), 0;
      }
      if f !in mapped {
        mapped := mapped[f := index + 1];
        reversed := reversed[f := stepIndex % 2 == 1 && current[index] < center[index]];
      }
      Widen(index, current[index]);
      return None, index;
    }

    method ChooseChannel() returns (chosen: Option<nat>)
      requires Shape() && ProperMapping(mapped, detected) && 1 <= stepIndex <= 8
      ensures chosen.Some? ==> chosen.value < detected && Candidate(chosen.value)
      ensures forall index: nat :: index < detected && Candidate(index) ==> chosen == Some(index)
      ensures FunctionForStep(stepIndex) in mapped ==> chosen == Some(mapped[FunctionForStep(stepIndex)] - 1)
    {
      hide Movement, Wide, Reading;
      var f := FunctionForStep(stepIndex);
      if f in mapped {
        return Some(mapped[f] - 1);
      }
      chosen := MostMovedChannel(current, center, Indices(mapped), detected);
    }

    lemma CandidateMeans(index: nat)
      requires Shape() && ProperMapping(mapped, detected) && 1 <= stepIndex <= 8 && index < detected && Candidate(index)
      ensures var f := FunctionForStep(stepIndex);
              if f in mapped then mapped[f] == index + 1
              else
                && (forall g :: g in mapped ==> mapped[g] != index + 1)
                && (forall k :: 0 <= k < detected ==>
                      Movement(current, center, Indices(mapped), k) <= Movement(current, center, Indices(mapped), index))
    {
      if FunctionForStep(stepIndex) !in mapped {
        forall g | g in mapped ensures mapped[g] != index + 1 {
          assert mapped[g] in mapped.Values;
          assert mapped[g] == index + 1 ==> index in Indices(mapped);
        }
      }
    }

    /** The operator moves on: capture the step if the sticks are still, or hand the result over for writing. */
    method Advance() returns (refusal: Option<Refusal>, ghost moved: nat)
      requires Valid()
      modifies this, min, max
      ensures Valid()
      ensures old(phase).Review? ==> phase.Writing? && writes == 1 && refusal.None?
      ensures !old(phase).Review? ==> writes == old(writes)
      ensures !old(phase).Review? && !old(phase).Sampling? ==> phase == old(phase) && stepIndex == old(stepIndex)
      ensures old(phase).Sampling? && !old(Stable(samples, detected)) ==> refusal == Some(NotStable)
      ensures refusal.Some? ==> stepIndex == old(stepIndex) && phase == old(phase)
      ensures old(phase).Sampling? && refusal.None? ==>
                var step := old(stepIndex);
                && stepIndex == step + 1 && samples == [] && (phase.Review? <==> stepIndex == REVIEW)
                && Captured(old(Now()), Now(), step, moved)
      ensures refusal.Some? || !old(phase).Sampling? ==> Now() == old(Now()) && samples == old(samples)
    {
      hide ProperMapping, MappedBy, Swept, Stable, Close, Captured, Reading;
      moved := 0;
      if phase.Review? {
        phase := Writing;
        writes := writes + 1;
        return None, 0;
      }
      if !phase.Sampling? {
        return None, 0;
      }
      var stable := IsStable(samples, detected);
      if !stable {
        return Some(NotStable), 0;
      }
      refusal, moved := CaptureStep();
      if refusal.Some? {
        return;
      }
      stepIndex := stepIndex + 1;
      samples := [];
      if stepIndex == REVIEW {
        phase := Review;
      }
    }

    method CaptureStep() returns (refusal: Option<Refusal>, ghost moved: nat)
      requires Valid() && phase.Sampling?
      modifies `center, `mapped, `reversed, min, max
      ensures Shape() && ProperMapping(mapped, detected)
      ensures refusal.Some? ==> Valid() && Now() == old(Now())
      ensures refusal.None? ==>
                Captured(old(Now()), Now(), stepIndex, moved)
      ensures refusal.None? ==> MappedBy(mapped, stepIndex + 1) && (forall k :: 0 <= k < detected ==> min[k] <= max[k])
      ensures refusal.None? && stepIndex == AUX_SWEEP ==> Swept(mapped, min[..], max[..])
    {
      hide Moved, Candidate, Pushed, Indices, Reading, Wide, Stable, FunctionForStep;
      refusal, moved := None, 0;
      if stepIndex == 0 {
        CaptureCenter();
      } else if stepIndex == AUX_SWEEP {
        refusal := CheckSweep();
      } else {
        refusal, moved := CaptureMovement();
        if refusal.None? {
          MovedIsMapped(old(Now()), Now(), stepIndex, moved);
        }
      }
    }

    /** The write has been answered. */
    method Completed(accepted: bool)
      requires Valid()
      modifies `phase
      ensures Valid() && phase == if old(phase).Writing? then (if accepted then Done else Failed) else old(phase)
    {
      if phase.Writing? {
        phase := if accepted then Done else Failed;
      }
    }

    /** Refused while the write is running. */
    method Cancel() returns (ok: bool)
      requires Valid()
      modifies `phase
      ensures Valid() && ok == (old(phase).Sampling? || old(phase).Review?)
      ensures phase == if ok then Cancelled else old(phase)
    {
      ok := phase.Sampling? || phase.Review?;
      if ok {
        phase := Cancelled;
      }
    }

    /** The vehicle armed, changed or went away. */
    method HandleSafetyBoundary()
      requires Valid()
      modifies `phase
      ensures Valid() && writes == old(writes)
      ensures phase == if old(phase).Sampling? || old(phase).Review? || old(phase).Writing? then Failed else old(phase)
    {
      if phase.Sampling? || phase.Review? || phase.Writing? {
        phase := Failed;
      }
    }

    /** What a snapshot shows and what is written: on every channel the trim lies within the range. */
    method Channels() returns (r: seq<Channel>)
      requires Valid()
      ensures |r| == detected
      ensures forall k :: 0 <= k < detected ==>
                && r[k].channel == k + 1 && r[k].min <= r[k].trim <= r[k].max
                && r[k].min == Low(min[k], Or1500(center[k])) && r[k].max == High(max[k], Or1500(center[k]))
                && r[k].role == RoleOf(mapped, k + 1)
                && r[k].reversed == (r[k].role.Some? && r[k].role.value in reversed && reversed[r[k].role.value])
                && r[k].trim == if r[k].role == Some(Throttle) then min[k] else Or1500(center[k])
      ensures stepIndex == REVIEW ==>
                forall f: Primary :: f in mapped && 1 <= mapped[f] <= detected && r[mapped[f] - 1].role == Some(f)
      ensures stepIndex == REVIEW ==> forall k :: 0 <= k < detected && r[k].role.None? ==>
                r[k].min <= ENDPOINT_LOW && r[k].max >= ENDPOINT_HIGH
    {
      hide MappedBy;
      r := [];
      var index := 0;
      while index < detected
        invariant index <= detected && |r| == index
        invariant forall k :: 0 <= k < index ==> r[k] == ChannelAt(k)
      {
        r := r + [ChannelAt(index)];
        index := index + 1;
      }
      forall k | 0 <= k < detected ensures r[k].min <= r[k].trim <= r[k].max {
        assert RoleOf(mapped, k + 1) == Some(Throttle) ==> stepIndex >= 1 by { MappedLater(mapped, stepIndex); }
      }
      if stepIndex == REVIEW {
        AllMapped(mapped, detected);
        NoRoleIsFree(mapped, detected);
      }
    }

    function ChannelAt(k: nat): Channel
      requires Shape() && k < detected
      reads this, min, max
    {
      var role := RoleOf(mapped, k + 1);
      Channel(k + 1, Low(min[k], Or1500(center[k])), High(max[k], Or1500(center[k])),
              if role == Some(Throttle) then min[k] else Or1500(center[k]),
              if role.Some? && role.value in reversed then reversed[role.value] else false, role)
    }
  }

  lemma MappedLater(m: Mapping, step: nat)
    requires MappedBy(m, step)
    ensures m != map[] ==> step >= 1
  {
  }

  lemma AllMapped(m: Mapping, detected: nat)
    requires MappedBy(m, REVIEW) && ProperMapping(m, detected)
    ensures forall f: Primary :: f in m && 1 <= m[f] <= detected && RoleOf(m, m[f]) == Some(f)
  {
    assert Throttle in m && Yaw in m && Roll in m && Pitch in m;
    forall f: Primary ensures f in m && RoleOf(m, m[f]) == Some(f) {
      match f {
        case Roll =>
        case Pitch =>
        case Throttle =>
        case Yaw =>
      }
    }
  }

  lemma RoleFound(m: Mapping, f: Primary)
    requires f in m
    ensures RoleOf(m, m[f]).Some?
  {
    match f {
      case Roll =>
      case Pitch =>
      case Throttle =>
      case Yaw =>
    }
  }

  lemma NoRoleIsFree(m: Mapping, detected: nat)
    ensures forall channel: nat :: RoleOf(m, channel).None? ==> channel !in m.Values
  {
    hide RoleOf;
    forall channel: nat | channel in m.Values ensures RoleOf(m, channel).Some? {
      var f :| f in m && m[f] == channel;
      RoleFound(m, f);
    }
  }
}
