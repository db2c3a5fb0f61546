/** track of internal/web/timeline.go: sampling a row's state every step and merging
    equal neighbours into segments. */
module Timeline {
  import opened Prelude
  import opened Schedules
  import opened Overrides

  datatype TrackState = StateOff | StateSchedule | StateOverride | StateAlwaysOn

  /** A segment in seconds; the page scales start and length to 0..1000. */
  datatype Segment = Segment(start: int, end: int, class_: TrackState)

  function ShownState(shown: Option<Override>, on: bool): TrackState {
    match shown
    case Some(o) => if o.action == Off then StateOff else StateOverride
    case None => if on then StateSchedule else StateOff
  }

  function StateAt(z: Zone, sched: Schedule, ovs: seq<Override>, t: int): TrackState {
    ShownState(FirstSuch(IsPowerActive(t), ovs), IsOn(z, sched, t))
  }

  method ComputeStateAt(z: Zone, sched: Schedule, ovs: seq<Override>, t: int) returns (st: TrackState)
    ensures st == StateAt(z, sched, ovs, t)
  {
    var k := 0;
    while k < |ovs|
      invariant 0 <= k <= |ovs|
      invariant FirstSuch(IsPowerActive(t), ovs) == FirstSuch(IsPowerActive(t), ovs[k..])
    {
      if ActiveAt(ovs[k], t) {
        match ovs[k].action {
          case On => return StateOverride;
          case Pause => return StateOverride;
          case Off => return StateOff;
          case IgnoreWeather =>
        }
      }
      k := k + 1;
    }
    var on := ComputeIsOn(z, sched, t);
    return if on then StateSchedule else StateOff;
  }

  /** With one range query the row shows, at each instant, what the engine's own
      per-instant query decides. */
  lemma TrackShowsEngineView(z: Zone, sched: Schedule, rows: seq<Override>, target: string, from: int, end: int, t: int)
    requires DistinctIds(rows) && from <= t < end
    requires |Where(Matching(target, t, POWER), rows)| <= LIMIT
    ensures StateAt(z, sched, OverridesOverlapping(rows, target, from, end), t)
         == ShownState(EffectiveOverrideOf(rows, target, t, POWER), IsOn(z, sched, t))
  {
    RangeQueryAgrees(rows, target, from, end, t);
  }

  /** What the engine's decision for a guest looks like: ignore_weather leaves it to the schedule. */
  function GuestState(o: Option<Override>, on: bool): TrackState {
    ShownState(if o.Some? && o.value.action == IgnoreWeather then None else o, on)
  }

  /** A newer active ignore_weather row of the same target. */
  ghost predicate Shadowed(rows: seq<Override>, power: Override, t: int) {
    exists r :: r in rows && r.target == power.target && r.action == IgnoreWeather && ActiveAt(r, t) && Newer(r, power)
  }

  lemma {:induction false} WhereFewer(rows: seq<Override>, target: string, t: int)
    ensures |Where(Matching(target, t, POWER), rows)| <= |Where(Matching(target, t, ANY), rows)|
  {
    if rows != [] { WhereFewer(rows[..|rows| - 1], target, t); }
  }

  /** The two queries answer the same row, unless an ignore_weather row answers the one over
      all actions; it then shadows the row the other one answers, if any. */
  lemma TwoQueries(rows: seq<Override>, target: string, t: int)
    requires ValidRows(rows) && |Where(Matching(target, t, ANY), rows)| <= LIMIT
    ensures var any, power := EffectiveOverride(rows, target, t), EffectiveOverrideOf(rows, target, t, POWER);
      && (power.None? && any.Some? ==> any.value.action == IgnoreWeather)
      && (power.Some? ==> Governs(rows, target, t, POWER, power.value))
      && (power.Some? && !Shadowed(rows, power.value, t) ==> any == power)
      && (power.Some? && Shadowed(rows, power.value, t) ==> any.Some? && any.value.action == IgnoreWeather)
  {
    hide EffectiveOverrideOf;
    WhereFewer(rows, target, t);
    var any, power := EffectiveOverride(rows, target, t), EffectiveOverrideOf(rows, target, t, POWER);
    if any.Some? { EffectiveExact(rows, target, t, ANY, any.value); }
    EffectiveNone(rows, target, t, POWER);
    if power.Some? {
      EffectiveExact(rows, target, t, POWER, power.value);
      AllActionsQueryShadowed(rows, target, t, power.value);
      EffectiveNone(rows, target, t, ANY);
      if any.Some? && any.value.action != IgnoreWeather { GoverningRowIsFound(rows, target, t, POWER, any.value); }
    }
  }

  /** For a guest the engine asks for rows of all actions. The row shows what it decides,
      exactly when no newer ignore_weather row hides the governing on/off/pause row from the
      engine, or that row and the schedule look the same. */
  lemma TrackShowsGuestView(z: Zone, sched: Schedule, rows: seq<Override>, target: string, from: int, end: int, t: int)
    requires ValidRows(rows) && from <= t < end && |Where(Matching(target, t, ANY), rows)| <= LIMIT
    ensures var shown, on := StateAt(z, sched, OverridesOverlapping(rows, target, from, end), t), IsOn(z, sched, t);
      shown == GuestState(EffectiveOverride(rows, target, t), on) <==>
        forall power :: Governs(rows, target, t, POWER, power) && Shadowed(rows, power, t) ==>
          ShownState(Some(power), on) == ShownState(None, on)
  {
    hide IsOn, EffectiveOverrideOf, OverridesOverlapping, Shadowed;
    WhereFewer(rows, target, t);
    RangeQueryAgrees(rows, target, from, end, t);
    TwoQueries(rows, target, t);
    var on, power := IsOn(z, sched, t), EffectiveOverrideOf(rows, target, t, POWER);
    forall o | Governs(rows, target, t, POWER, o) ensures power == Some(o) {
      GoverningRowIsFound(rows, target, t, POWER, o);
    }
  }

  /** What each row of the table makes the timeline show: the newest on or pause row in force
      shows as an override, the newest off row as off, and without any of these a target shows
      its schedule. */
  lemma RowColours(z: Zone, sched: Schedule, rows: seq<Override>, target: string, from: int, end: int, t: int)
    requires ValidRows(rows) && from <= t < end
    ensures var shown := StateAt(z, sched, OverridesOverlapping(rows, target, from, end), t);
      && (forall o :: Governs(rows, target, t, POWER, o) ==>
            && (o.action == On || o.action == Pause ==> shown == StateOverride)
            && (o.action == Off ==> shown == StateOff))
      && ((forall o :: !InForce(rows, target, t, POWER, o)) ==>
            shown == if IsOn(z, sched, t) then StateSchedule else StateOff)
  {
    hide IsOn, OverridesOverlapping;
    var shown := ShownOverride(rows, target, from, end, t);
    forall o ensures shown == Some(o) <==> Governs(rows, target, t, POWER, o) {
      ShownExact(rows, target, from, end, t, o);
    }
    if shown.Some? { assert InForce(rows, target, t, POWER, shown.value); }
  }

  predicate LiesIn(segments: seq<Segment>, t: int, c: TrackState) {
    exists i :: 0 <= i < |segments| && segments[i].start <= t < segments[i].end && segments[i].class_ == c
  }

  function TotalLength(segments: seq<Segment>): int {
    if segments == [] then 0
    else TotalLength(segments[..|segments| - 1]) + segments[|segments| - 1].end - segments[|segments| - 1].start
  }

  ghost predicate WellFormed(segments: seq<Segment>, from: int, end: int) {
    && (forall i :: 0 <= i < |segments| ==>
          from <= segments[i].start < segments[i].end <= end && segments[i].class_ != StateOff)
    && (forall i, j :: 0 <= i < j < |segments| ==> segments[i].end <= segments[j].start)
    && (forall i :: 0 < i < |segments| && segments[i - 1].end == segments[i].start ==>
          segments[i - 1].class_ != segments[i].class_)
  }

  /** The k-th sampled instant: from + k * step. */
  function SampleTime(from: int, step: int, k: nat): int {
    if k == 0 then from else SampleTime(from, step, k - 1) + step
  }

  lemma {:induction false} SampleTimeIs(from: int, step: int, k: nat)
    ensures SampleTime(from, step, k) == from + k * step
  {
    if k > 0 { SampleTimeIs(from, step, k - 1); }
  }

  lemma {:induction false} SamplesIncrease(from: int, step: int, n: nat)
    requires step > 0
    ensures forall i: nat, j: nat :: i < j <= n ==> SampleTime(from, step, i) < SampleTime(from, step, j)
  {
    if n > 0 { SamplesIncrease(from, step, n - 1); }
  }

  /** The first n samples read back from the segments: sample k lies in a segment of
      class c exactly when its state is c. */
  ghost predicate DecodesFirst(f: int -> TrackState, segments: seq<Segment>, from: int, step: int, n: nat) {
    forall k: nat, c :: k < n && c != StateOff ==>
      (LiesIn(segments, SampleTime(from, step, k), c) <==> f(SampleTime(from, step, k)) == c)
  }

  ghost predicate Decodes(f: int -> TrackState, segments: seq<Segment>, from: int, step: int, end: int) {
    forall k: nat, c :: SampleTime(from, step, k) < end && c != StateOff ==>
      (LiesIn(segments, SampleTime(from, step, k), c) <==> f(SampleTime(from, step, k)) == c)
  }

  function StateFunction(z: Zone, sched: Schedule, ovs: seq<Override>): int -> TrackState {
    t => StateAt(z, sched, ovs, t)
  }

  method Flush(segments: seq<Segment>, onFor: int, cur: TrackState, start: int, upto: int)
    returns (segments': seq<Segment>, onFor': int)
    requires onFor == TotalLength(segments)
    ensures segments' == Flushed(segments, cur, start, upto)
    ensures onFor' == TotalLength(segments')
  {
    segments', onFor' := segments, onFor;
    if cur != StateOff {
      segments', onFor' := segments + [Segment(start, upto, cur)], onFor + upto - start;
      assert segments'[..|segments|] == segments;
    }
  }

  /** The segments so far, with the run of samples a..n-1 of state cur still open. */
  ghost predicate OpenRun(f: int -> TrackState, segments: seq<Segment>, from: int, step: int, a: nat, n: nat,
                          cur: TrackState)
  {
    && a < n
    && WellFormed(segments, from, SampleTime(from, step, a))
    && DecodesFirst(f, segments, from, step, a)
    && (segments != [] && segments[|segments| - 1].end == SampleTime(from, step, a) ==>
          segments[|segments| - 1].class_ != cur)
    && forall k: nat :: a <= k < n ==> f(SampleTime(from, step, k)) == cur
  }

  function Flushed(segments: seq<Segment>, cur: TrackState, start: int, upto: int): seq<Segment> {
    if cur == StateOff then segments else segments + [Segment(start, upto, cur)]
  }

  lemma FlushKeepsShape(segments: seq<Segment>, from: int, start: int, upto: int, cur: TrackState)
    requires from <= start < upto && WellFormed(segments, from, start)
    requires segments != [] && segments[|segments| - 1].end == start ==> segments[|segments| - 1].class_ != cur
    ensures WellFormed(Flushed(segments, cur, start, upto), from, upto)
    ensures var more := Flushed(segments, cur, start, upto);
      more != [] && more[|more| - 1].end == upto ==> more[|more| - 1].class_ == cur
  {
    var more := Flushed(segments, cur, start, upto);
    assert forall i :: 0 <= i < |segments| ==> more[i] == segments[i];
    if cur != StateOff {
      assert more[|segments|] == Segment(start, upto, cur);
      assert forall i :: 0 <= i < |segments| ==> more[i].end <= start;
    }
  }

  lemma LiesInFlushed(segments: seq<Segment>, cur: TrackState, start: int, upto: int, t: int, c: TrackState)
    requires c != StateOff
    ensures LiesIn(Flushed(segments, cur, start, upto), t, c)
       <==> LiesIn(segments, t, c) || (start <= t < upto && c == cur)
  {
    var more := Flushed(segments, cur, start, upto);
    if LiesIn(segments, t, c) {
      var i :| 0 <= i < |segments| && segments[i].start <= t < segments[i].end && segments[i].class_ == c;
      assert more[i] == segments[i];
    }
    if start <= t < upto && c == cur { assert more[|segments|] == Segment(start, upto, cur); }
  }

  /** Closing the open run at `upto`, past its last sample, keeps the decoding. */
  lemma FlushDecodes(f: int -> TrackState, segments: seq<Segment>, from: int, step: int, a: nat, n: nat,
                     cur: TrackState, upto: int)
    requires step > 0 && OpenRun(f, segments, from, step, a, n, cur)
    requires SampleTime(from, step, n - 1) < upto
    ensures DecodesFirst(f, Flushed(segments, cur, SampleTime(from, step, a), upto), from, step, n)
  {
    var start := SampleTime(from, step, a);
    SamplesIncrease(from, step, n);
    forall k: nat, c | k < n && c != StateOff
      ensures LiesIn(Flushed(segments, cur, start, upto), SampleTime(from, step, k), c)
         <==> f(SampleTime(from, step, k)) == c
    {
      LiesInFlushed(segments, cur, start, upto, SampleTime(from, step, k), c);
      if k >= a { assert !LiesIn(segments, SampleTime(from, step, k), c); }
    }
  }

  lemma RunStarts(f: int -> TrackState, from: int, step: int)
    ensures OpenRun(f, [], from, step, 0, 1, f(from))
  {
  }

  lemma RunGoesOn(f: int -> TrackState, segments: seq<Segment>, from: int, step: int, a: nat, n: nat, cur: TrackState)
    requires OpenRun(f, segments, from, step, a, n, cur) && f(SampleTime(from, step, n)) == cur
    ensures OpenRun(f, segments, from, step, a, n + 1, cur)
  {
  }

  lemma RunChanges(f: int -> TrackState, segments: seq<Segment>, from: int, step: int, a: nat, n: nat, cur: TrackState)
    requires step > 0 && OpenRun(f, segments, from, step, a, n, cur) && f(SampleTime(from, step, n)) != cur
    ensures var t := SampleTime(from, step, n);
      OpenRun(f, Flushed(segments, cur, SampleTime(from, step, a), t), from, step, n, n + 1, f(t))
  {
    var t := SampleTime(from, step, n);
    SamplesIncrease(from, step, n);
    assert SampleTime(from, step, 0) == from;
    FlushDecodes(f, segments, from, step, a, n, cur, t);
    FlushKeepsShape(segments, from, SampleTime(from, step, a), t, cur);
  }

  lemma RunEnds(f: int -> TrackState, segments: seq<Segment>, from: int, step: int, a: nat, n: nat, cur: TrackState,
                end: int)
    requires step > 0 && OpenRun(f, segments, from, step, a, n, cur)
    requires SampleTime(from, step, n - 1) < end <= SampleTime(from, step, n)
    ensures var more := Flushed(segments, cur, SampleTime(from, step, a), end);
      WellFormed(more, from, end) && Decodes(f, more, from, step, end)
  {
    SamplesIncrease(from, step, n);
    assert SampleTime(from, step, 0) == from;
    FlushDecodes(f, segments, from, step, a, n, cur, end);
    FlushKeepsShape(segments, from, SampleTime(from, step, a), end, cur);
    FirstAreAll(f, Flushed(segments, cur, SampleTime(from, step, a), end), from, step, n, end);
  }

  lemma NothingSampled(f: int -> TrackState, from: int, step: int, end: int)
    requires step > 0 && end <= from
    ensures WellFormed([], from, end) && Decodes(f, [], from, step, end)
  {
    FirstAreAll(f, [], from, step, 0, end);
  }

  method Track(z: Zone, sched: Schedule, rows: seq<Override>, target: string, alwaysOn: bool, from: int, end: int,
               step: int)
    returns (segments: seq<Segment>, onFor: int)
    requires step > 0
    ensures alwaysOn ==> segments == [Segment(from, end, StateAlwaysOn)] && onFor == end - from
    ensures !alwaysOn ==> WellFormed(segments, from, end) && onFor == TotalLength(segments)
    ensures !alwaysOn ==>
      Decodes(StateFunction(z, sched, OverridesOverlapping(rows, target, from, end)), segments, from, step, end)
  {
    hide OpenRun, WellFormed, Decodes, StateAt;
    if alwaysOn { return [Segment(from, end, StateAlwaysOn)], end - from; }
    var ovs := OverridesOverlapping(rows, target, from, end);
    ghost var f := StateFunction(z, sched, ovs);
    segments, onFor := [], 0;
    var cur, start := StateOff, from;
    var t := from;
    ghost var a: nat, n: nat := 0, 0;
    while t < end
      invariant t == SampleTime(from, step, n) && start == SampleTime(from, step, a)
      invariant onFor == TotalLength(segments)
      invariant n == 0 ==> segments == [] && cur == StateOff && a == 0
      invariant n > 0 ==> from < t && OpenRun(f, segments, from, step, a, n, cur) && SampleTime(from, step, n - 1) < end
      decreases end - t
    {
      var st := ComputeStateAt(z, sched, ovs, t);
      if t == from {
        RunStarts(f, from, step);
        cur, start := st, t;
      } else if st != cur {
        RunChanges(f, segments, from, step, a, n, cur);
        segments, onFor := Flush(segments, onFor, cur, start, t);
        cur, start := st, t;
        a := n;
      } else {
        RunGoesOn(f, segments, from, step, a, n, cur);
      }
      t, n := t + step, n + 1;
    }
    if n > 0 {
      RunEnds(f, segments, from, step, a, n, cur, end);
    } else {
      NothingSampled(f, from, step, end);
    }
    segments, onFor := Flush(segments, onFor, cur, start, end);
  }

  lemma FirstAreAll(f: int -> TrackState, segments: seq<Segment>, from: int, step: int, n: nat, end: int)
    requires step > 0 && DecodesFirst(f, segments, from, step, n) && end <= SampleTime(from, step, n)
    ensures Decodes(f, segments, from, step, end)
  {
    forall k: nat | SampleTime(from, step, k) < end ensures k < n { SamplesIncrease(from, step, k); }
  }
}
