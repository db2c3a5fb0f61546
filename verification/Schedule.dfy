/** The schedule calculus of internal/schedule/schedule.go: windows, IsOn and Crossings.
    Instants are whole seconds; calendar days are consecutive integers, day 0 a Monday. */
module Schedules {
  import opened Prelude
  import opened Signals

  const DAY := 86400
  const WEEK := 7 * DAY

  /** A time zone as the code uses one: local midnight of every calendar day, and
      the calendar day an instant falls on. */
  datatype Zone = Zone(mid: int -> int, dayOf: int -> int)

  /** Midnights increase, days partition time, and two consecutive days last at
      least 24 hours together. Days of 23 or 25 hours are allowed. */
  ghost predicate ValidZone(z: Zone) {
    && (forall d, e :: d < e ==> z.mid(d) < z.mid(e))
    && (forall d, e :: d + 2 <= e ==> z.mid(d) + DAY <= z.mid(e))
    && (forall t :: z.mid(z.dayOf(t)) <= t < z.mid(z.dayOf(t) + 1))
  }

  datatype Window = Window(days: set<int>, on: int, off: int)

  ghost predicate ValidWindow(w: Window) { 0 <= w.on < DAY && 0 <= w.off < DAY }

  predicate Wraps(w: Window) { w.off <= w.on }

  function Weekday(d: int): int { d % 7 }

  predicate Applies(w: Window, d: int) { Weekday(d) in w.days }

  function OnEdge(z: Zone, w: Window, d: int): int { z.mid(d) + w.on }

  function OffEdge(z: Zone, w: Window, d: int): int {
    if Wraps(w) then z.mid(d + 1) + w.off else z.mid(d) + w.off
  }

  predicate Covers(z: Zone, w: Window, d: int, t: int) {
    Applies(w, d) && OnEdge(z, w, d) <= t < OffEdge(z, w, d)
  }

  type Schedule = seq<Window>

  ghost predicate ValidSchedule(s: Schedule) { forall i :: 0 <= i < |s| ==> ValidWindow(s[i]) }

  /** The meaning of a schedule: on at t when the window of ANY day covers t. */
  ghost predicate OnAt(z: Zone, s: Schedule, t: int) {
    exists i, d :: 0 <= i < |s| && Covers(z, s[i], d, t)
  }

  /** What the code evaluates: only instances starting yesterday or today count. */
  predicate IsOn(z: Zone, s: Schedule, t: int) {
    exists i :: 0 <= i < |s| && (Covers(z, s[i], z.dayOf(t) - 1, t) || Covers(z, s[i], z.dayOf(t), t))
  }

  /** Every instance of a wrapping window ends within the day after the one it starts on. */
  ghost predicate WindowFits(z: Zone, w: Window) {
    Wraps(w) ==> forall d :: Applies(w, d) ==> w.off <= z.mid(d + 2) - z.mid(d + 1)
  }

  ghost predicate Fits(z: Zone, s: Schedule) {
    ValidZone(z) && ValidSchedule(s) && forall i :: 0 <= i < |s| ==> WindowFits(z, s[i])
  }

  // ----- the one-day look-back -----

  lemma DayBounds(z: Zone, t: int, d: int)
    requires ValidZone(z)
    ensures z.mid(d) <= t ==> d <= z.dayOf(t)
    ensures t < z.mid(d) ==> z.dayOf(t) < d
  {
    var k := z.dayOf(t);
    assert z.mid(k) <= t < z.mid(k + 1);
    if d > k { assert d == k + 1 || z.mid(k + 1) < z.mid(d); }
    if d <= k { assert d == k || z.mid(d) < z.mid(k); }
  }

  lemma EdgeDays(z: Zone, w: Window, d: int, from: int, upto: int)
    requires ValidZone(z) && ValidWindow(w) && WindowFits(z, w) && Applies(w, d)
    ensures OnEdge(z, w, d) <= upto ==> d <= z.dayOf(upto)
    ensures OffEdge(z, w, d) <= upto ==> d <= z.dayOf(upto)
    ensures from < OnEdge(z, w, d) ==> z.dayOf(from) - 1 <= d
    ensures from < OffEdge(z, w, d) ==> z.dayOf(from) - 1 <= d
  {
    DayBounds(z, upto, d);
    DayBounds(z, from, d + 2);
    assert z.mid(d) < z.mid(d + 1) && z.mid(d) + DAY <= z.mid(d + 2);
  }

  /** When every window fits, looking back one day loses nothing. */
  lemma LookBackSuffices(z: Zone, s: Schedule, t: int)
    requires Fits(z, s)
    ensures IsOn(z, s, t) <==> OnAt(z, s, t)
  {
    if OnAt(z, s, t) {
      var i, d :| 0 <= i < |s| && Covers(z, s[i], d, t);
      EdgeDays(z, s[i], d, t, t);
    }
  }

  /** Counted from the midnight of a day it applies to, t is not before the window's on time,
      nor as late as its off time, which counts from the next midnight if it is not later. */
  predicate Within(z: Zone, w: Window, d: int, t: int) {
    d % 7 in w.days && z.mid(d) + w.on <= t < if w.off <= w.on then z.mid(d + 1) + w.off else z.mid(d) + w.off
  }

  /** IsOn counted from midnights: some window of some day has t within it. */
  lemma OnByMidnights(z: Zone, s: Schedule, t: int)
    requires Fits(z, s)
    ensures IsOn(z, s, t) <==> exists i, d :: 0 <= i < |s| && Within(z, s[i], d, t)
  {
    LookBackSuffices(z, s, t);
    hide IsOn, Fits;
    forall i, d | 0 <= i < |s| ensures Within(z, s[i], d, t) <==> Covers(z, s[i], d, t) { }
    hide Within, Covers;
  }

  /** An instance that outlasts its second day escapes the look-back: at the midnight
      ending that day the window is still on, but no instance the code looks at is. */
  lemma LookBackMisses(z: Zone, w: Window, d: int)
    requires ValidZone(z) && ValidWindow(w) && Wraps(w) && Applies(w, d)
    requires w.off > z.mid(d + 2) - z.mid(d + 1)
    ensures OnAt(z, [w], z.mid(d + 2)) && !IsOn(z, [w], z.mid(d + 2))
  {
    var s, t := [w], z.mid(d + 2);
    assert z.mid(d) + DAY <= z.mid(d + 2);
    assert Covers(z, s[0], d, t);
    DayBounds(z, t, d + 2);
    assert z.mid(d + 2) < z.mid(d + 3);
    DayBounds(z, t, d + 3);
    assert z.dayOf(t) == d + 2;
  }

  /** Exactly when the code's IsOn means, at every instant, what the window says. */
  lemma LookBackExact(z: Zone, w: Window)
    requires ValidZone(z) && ValidWindow(w)
    ensures (forall t :: IsOn(z, [w], t) <==> OnAt(z, [w], t)) <==> WindowFits(z, w)
  {
    hide IsOn, OnAt;
    if WindowFits(z, w) {
      forall t ensures IsOn(z, [w], t) <==> OnAt(z, [w], t) { LookBackSuffices(z, [w], t); }
    } else {
      var d :| Applies(w, d) && w.off > z.mid(d + 2) - z.mid(d + 1);
      LookBackMisses(z, w, d);
    }
  }

  /** A zone whose day 1 lasts 23 hours, and a daily window 23:30-23:15: at the midnight
      ending the short day the window of day 0 is on, but the code says off. */
  function SpringForward(): Zone {
    Zone(d => if d <= 1 then d * DAY else d * DAY - 3600,
         t => if t < DAY then t / DAY else if t < 2 * DAY - 3600 then 1 else (t + 3600) / DAY)
  }

  lemma SpringForwardValid()
    ensures ValidZone(SpringForward())
  {
    var z := SpringForward();
    forall t ensures z.mid(z.dayOf(t)) <= t < z.mid(z.dayOf(t) + 1) {
      if t < DAY {
        assert t / DAY * DAY <= t < (t / DAY + 1) * DAY;
      } else if t >= 2 * DAY - 3600 {
        var q := (t + 3600) / DAY;
        assert q * DAY <= t + 3600 < (q + 1) * DAY;
      }
    }
  }

  lemma ShortDayEscapesLookBack()
    ensures var w := Window({0}, 23 * 3600 + 1800, 23 * 3600 + 900);
      && ValidZone(SpringForward()) && ValidWindow(w) && !WindowFits(SpringForward(), w)
      && OnAt(SpringForward(), [w], 2 * DAY - 3600) && !IsOn(SpringForward(), [w], 2 * DAY - 3600)
  {
    var z, w := SpringForward(), Window({0}, 23 * 3600 + 1800, 23 * 3600 + 900);
    SpringForwardValid();
    hide ValidZone, IsOn, OnAt;
    assert Applies(w, 0) && z.mid(0 + 2) - z.mid(0 + 1) == 23 * 3600;
    LookBackMisses(z, w, 0);
  }

  // ----- what the code computes -----

  function Candidates(z: Zone, s: Schedule, from: int, upto: int): set<int> {
    (set i, d | 0 <= i < |s| && z.dayOf(from) - 1 <= d <= z.dayOf(upto)
                && Applies(s[i], d) && from < OnEdge(z, s[i], d) <= upto :: OnEdge(z, s[i], d)) +
    (set i, d | 0 <= i < |s| && z.dayOf(from) - 1 <= d <= z.dayOf(upto)
                && Applies(s[i], d) && from < OffEdge(z, s[i], d) <= upto :: OffEdge(z, s[i], d))
  }

  function Evaluated(z: Zone, s: Schedule): Signal { t => IsOn(z, s, t) }

  ghost function Meaning(z: Zone, s: Schedule): Signal { t => OnAt(z, s, t) }

  function CrossingsOf(z: Zone, s: Schedule, from: int, upto: int): seq<Boundary> {
    if upto <= from || |s| == 0 then []
    else Scan(Evaluated(z, s), IsOn(z, s, from), Sorted(Candidates(z, s, from, upto)))
  }

  lemma ChangeIsEdge(z: Zone, s: Schedule, from: int, upto: int, t: int)
    requires Fits(z, s) && from < t <= upto
    requires OnAt(z, s, t) != OnAt(z, s, t - 1)
    ensures t in Candidates(z, s, from, upto)
  {
    if OnAt(z, s, t) {
      var i, d :| 0 <= i < |s| && Covers(z, s[i], d, t);
      assert !Covers(z, s[i], d, t - 1);
      assert t == OnEdge(z, s[i], d);
      EdgeDays(z, s[i], d, from, upto);
    } else {
      var i, d :| 0 <= i < |s| && Covers(z, s[i], d, t - 1);
      assert !Covers(z, s[i], d, t);
      assert t == OffEdge(z, s[i], d);
      EdgeDays(z, s[i], d, from, upto);
    }
  }

  lemma SameSignal(z: Zone, s: Schedule)
    requires Fits(z, s)
    ensures forall t :: Evaluated(z, s)(t) == Meaning(z, s)(t)
  {
    forall t ensures Evaluated(z, s)(t) == Meaning(z, s)(t) { LookBackSuffices(z, s, t); }
  }

  lemma CandidatesListChanges(z: Zone, s: Schedule, from: int, upto: int)
    requires Fits(z, s)
    ensures ListsChanges(Meaning(z, s), from, upto, Sorted(Candidates(z, s, from, upto)))
  {
    hide OnAt, Candidates, Fits;
    forall t | from < t <= upto && Meaning(z, s)(t) != Meaning(z, s)(t - 1)
      ensures t in Sorted(Candidates(z, s, from, upto))
    { ChangeIsEdge(z, s, from, upto, t); }
  }

  /** Crossings is right: sorting the window edges and re-evaluating IsOn at each finds
      exactly the changes of the schedule's meaning that looking at every second finds. */
  lemma CrossingsAreChanges(z: Zone, s: Schedule, from: int, upto: int)
    requires Fits(z, s)
    ensures CrossingsOf(z, s, from, upto) == Changes(Meaning(z, s), from, upto)
  {
    var f, g := Evaluated(z, s), Meaning(z, s);
    SameSignal(z, s);
    if from < upto {
      if |s| == 0 {
        QuietSpan(g, from, upto);
      } else {
        var cs := Sorted(Candidates(z, s, from, upto));
        CandidatesListChanges(z, s, from, upto);
        hide IsOn, OnAt;
        assert ListsChanges(f, from, upto, cs);
        ScanFindsChanges(f, from, upto, cs);
        ChangesCongruent(f, g, from, upto);
      }
    }
  }

  /** Crossings fully describes the schedule over (from, upto]: its boundaries alternate,
      decode to the state at every instant, and no other such list does. */
  lemma CrossingsDescribe(z: Zone, s: Schedule, from: int, upto: int)
    requires Fits(z, s) && from <= upto
    ensures var bs, first := CrossingsOf(z, s, from, upto), OnAt(z, s, from);
      && Alternating(first, from, upto, bs)
      && (forall t :: from <= t <= upto ==> StateAfter(first, bs, t) == OnAt(z, s, t))
      && (forall xs ::
            (Alternating(first, from, upto, xs)
             && forall t :: from <= t <= upto ==> StateAfter(first, xs, t) == OnAt(z, s, t))
            ==> xs == bs)
  {
    var bs, f := CrossingsOf(z, s, from, upto), Meaning(z, s);
    CrossingsAreChanges(z, s, from, upto);
    ChangesShape(f, from, upto);
    forall t | from <= t <= upto ensures StateAfter(f(from), bs, t) == f(t) { ChangesDecode(f, from, upto, t); }
    forall xs | Alternating(f(from), from, upto, xs)
      && (forall t :: from <= t <= upto ==> StateAfter(f(from), xs, t) == OnAt(z, s, t))
      ensures xs == bs
    { DescriptionIsUnique(f(from), from, upto, xs, bs); }
  }

  /** Splitting a range neither loses nor repeats a boundary. */
  lemma CrossingsSplit(z: Zone, s: Schedule, a: int, b: int, c: int)
    requires Fits(z, s) && a <= b <= c
    ensures CrossingsOf(z, s, a, c) == CrossingsOf(z, s, a, b) + CrossingsOf(z, s, b, c)
  {
    CrossingsAreChanges(z, s, a, b);
    CrossingsAreChanges(z, s, b, c);
    CrossingsAreChanges(z, s, a, c);
    ChangesSplit(Meaning(z, s), a, b, c);
  }

  /** No crossing in (from, upto] exactly when the state is the same throughout. */
  lemma NoCrossingMeansConstant(z: Zone, s: Schedule, from: int, upto: int)
    requires Fits(z, s) && from <= upto
    ensures CrossingsOf(z, s, from, upto) == []
       <==> (forall t :: from <= t <= upto ==> IsOn(z, s, t) == IsOn(z, s, from))
  {
    var f := Meaning(z, s);
    CrossingsAreChanges(z, s, from, upto);
    NoChangeMeansConstant(f, from, upto);
    forall t ensures f(t) == IsOn(z, s, t) { LookBackSuffices(z, s, t); }
    if forall t :: from <= t <= upto ==> IsOn(z, s, t) == IsOn(z, s, from) {
      forall t | from <= t <= upto ensures f(t) == f(from) {
        assert IsOn(z, s, t) == IsOn(z, s, from);
      }
    }
  }

  // ----- the loops of the source -----

  datatype Instance = Instance(on: int, off: int)

  /** instancesCovering: one instance per window and applicable day, from the day
      before `from` through the day of `upto`. */
  method InstancesCovering(z: Zone, s: Schedule, from: int, upto: int) returns (out: seq<Instance>)
    ensures Collected(z, s, from, upto, out)
  {
    out := [];
    if |s| == 0 { return; }
    var start, end := z.dayOf(from) - 1, z.dayOf(upto);
    var day := start;
    while day <= end
      invariant start <= day && (start <= end + 1 ==> day <= end + 1)
      invariant forall x :: x in out <==> exists i, d ::
        0 <= i < |s| && start <= d < day && d <= end && Applies(s[i], d)
        && x == Instance(OnEdge(z, s[i], d), OffEdge(z, s[i], d))
    {
      var k := 0;
      while k < |s|
        invariant 0 <= k <= |s|
        invariant forall x :: x in out <==> exists i, d ::
          0 <= i < |s| && start <= d <= day && (d == day ==> i < k) && Applies(s[i], d)
          && x == Instance(OnEdge(z, s[i], d), OffEdge(z, s[i], d))
      {
        if Applies(s[k], day) {
          out := out + [Instance(OnEdge(z, s[k], day), OffEdge(z, s[k], day))];
        }
        k := k + 1;
      }
      day := day + 1;
    }
  }

  ghost predicate Collected(z: Zone, s: Schedule, from: int, upto: int, instances: seq<Instance>) {
    forall x :: x in instances <==> exists i, d ::
      0 <= i < |s| && z.dayOf(from) - 1 <= d <= z.dayOf(upto) && Applies(s[i], d)
      && x == Instance(OnEdge(z, s[i], d), OffEdge(z, s[i], d))
  }

  lemma OnByInstances(z: Zone, s: Schedule, t: int, instances: seq<Instance>)
    requires Collected(z, s, t, t, instances)
    ensures IsOn(z, s, t) <==> exists j :: 0 <= j < |instances| && instances[j].on <= t < instances[j].off
  {
    if IsOn(z, s, t) {
      var i :| 0 <= i < |s| && (Covers(z, s[i], z.dayOf(t) - 1, t) || Covers(z, s[i], z.dayOf(t), t));
      var d := if Covers(z, s[i], z.dayOf(t), t) then z.dayOf(t) else z.dayOf(t) - 1;
      assert Instance(OnEdge(z, s[i], d), OffEdge(z, s[i], d)) in instances;
    }
    forall j | 0 <= j < |instances| && instances[j].on <= t < instances[j].off ensures IsOn(z, s, t) {
      assert instances[j] in instances;
      var i, d :| 0 <= i < |s| && z.dayOf(t) - 1 <= d <= z.dayOf(t) && Applies(s[i], d)
        && instances[j] == Instance(OnEdge(z, s[i], d), OffEdge(z, s[i], d));
      assert Covers(z, s[i], d, t);
    }
  }

  method ComputeIsOn(z: Zone, s: Schedule, t: int) returns (b: bool)
    ensures b == IsOn(z, s, t)
  {
    var instances := InstancesCovering(z, s, t, t);
    OnByInstances(z, s, t, instances);
    var k := 0;
    while k < |instances|
      invariant 0 <= k <= |instances|
      invariant forall j :: 0 <= j < k ==> !(instances[j].on <= t < instances[j].off)
    {
      if instances[k].on <= t < instances[k].off { return true; }
      k := k + 1;
    }
    return false;
  }

  ghost predicate EdgesOf(instances: seq<Instance>, from: int, upto: int, edges: set<int>) {
    forall c :: c in edges <==>
      from < c <= upto && exists j :: 0 <= j < |instances| && (c == instances[j].on || c == instances[j].off)
  }

  method CollectEdges(instances: seq<Instance>, from: int, upto: int) returns (candidateSet: set<int>)
    ensures EdgesOf(instances, from, upto, candidateSet)
  {
    candidateSet := {};
    var k := 0;
    while k < |instances|
      invariant 0 <= k <= |instances|
      invariant forall c :: c in candidateSet <==>
        from < c <= upto && exists j :: 0 <= j < k && (c == instances[j].on || c == instances[j].off)
    {
      if from < instances[k].on <= upto { candidateSet := candidateSet + {instances[k].on}; }
      if from < instances[k].off <= upto { candidateSet := candidateSet + {instances[k].off}; }
      k := k + 1;
    }
  }

  method Crossings(z: Zone, s: Schedule, from: int, upto: int) returns (out: seq<Boundary>)
    ensures out == CrossingsOf(z, s, from, upto)
  {
    hide IsOn, Candidates, Collected, EdgesOf, Sorted;
    if upto <= from || |s| == 0 { return []; }
    var instances := InstancesCovering(z, s, from, upto);
    var candidateSet := CollectEdges(instances, from, upto);
    EdgesAreCandidates(z, s, from, upto, instances, candidateSet);
    var candidates := Sorted(candidateSet);
    var first := ComputeIsOn(z, s, from);
    var prev := first;
    out := [];
    var k := 0;
    while k < |candidates|
      invariant 0 <= k <= |candidates|
      invariant out + Scan(Evaluated(z, s), prev, candidates[k..]) == Scan(Evaluated(z, s), first, candidates)
    {
      var cur := ComputeIsOn(z, s, candidates[k]);
      assert candidates[k..][1..] == candidates[k + 1..];
      if cur != prev {
        out := out + [Boundary(candidates[k], cur)];
        prev := cur;
      }
      k := k + 1;
    }
  }

  lemma EdgesAreCandidates(z: Zone, s: Schedule, from: int, upto: int, instances: seq<Instance>, edges: set<int>)
    requires Collected(z, s, from, upto, instances) && EdgesOf(instances, from, upto, edges)
    ensures edges == Candidates(z, s, from, upto)
  {
    forall c | c in edges ensures c in Candidates(z, s, from, upto) {
      var j :| 0 <= j < |instances| && (c == instances[j].on || c == instances[j].off);
      assert instances[j] in instances;
    }
    forall c | c in Candidates(z, s, from, upto) ensures c in edges {
      var i, d :| 0 <= i < |s| && z.dayOf(from) - 1 <= d <= z.dayOf(upto) && Applies(s[i], d)
        && (c == OnEdge(z, s[i], d) || c == OffEdge(z, s[i], d));
      assert Instance(OnEdge(z, s[i], d), OffEdge(z, s[i], d)) in instances;
    }
  }
}
