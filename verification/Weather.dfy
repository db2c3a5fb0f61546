/** The threat monitor of internal/weather/weather.go. Distances are non-negative reals;
    a source's answer is None when it failed. */
module Weather {
  import opened Prelude
  import Sensor

  datatype Level = Normal | Watch | Warning | Danger

  function Severity(l: Level): int {
    match l case Normal => 0 case Watch => 1 case Warning => 2 case Danger => 3
  }

  datatype AlertWarning = AlertWarning(thunderstorm: bool, serious: bool, expires: int)

  datatype Source = Lightning | Warnings | Forecast | Local

  datatype Config = Config(sources: set<Source>, warningRadius: real, dangerRadius: real, staleAfter: int,
                           window: int, forecastInterval: int, warningsInterval: int)

  /** What the sources said: strike distances, official warnings, whether the forecast
      expects thunder, and the local detections of the corroboration window. */
  datatype Evidence = Evidence(strikes: seq<real>, warnings: seq<AlertWarning>, thunder: bool, detections: seq<int>)

  predicate Alarming(w: AlertWarning, now: int) { w.thunderstorm && w.serious && w.expires >= now }

  predicate StrikeWithin(strikes: seq<real>, radius: real) {
    exists i :: 0 <= i < |strikes| && strikes[i] <= radius
  }

  function Abs(x: int): int { if x < 0 then -x else x }

  predicate PairWithin(dets: seq<int>, window: int) {
    exists i, j :: 0 <= i < j < |dets| && Abs(dets[i] - dets[j]) <= window
  }

  /** The noise filter: a strike in the danger radius confirms a single detection,
      otherwise two detections must be close together. */
  predicate Confirmed(cfg: Config, e: Evidence) {
    e.detections != [] && (StrikeWithin(e.strikes, cfg.dangerRadius) || PairWithin(e.detections, cfg.window))
  }

  predicate HasAlarm(ws: seq<AlertWarning>, now: int) { exists i :: 0 <= i < |ws| && Alarming(ws[i], now) }

  function BaseLevel(cfg: Config, e: Evidence, now: int): Level {
    if StrikeWithin(e.strikes, cfg.dangerRadius) || Confirmed(cfg, e) then Danger
    else if HasAlarm(e.warnings, now) || StrikeWithin(e.strikes, cfg.warningRadius) then Warning
    else if e.thunder then Watch
    else Normal
  }

  function FinalLevel(base: Level, stale: bool): Level {
    if stale && Severity(base) >= Severity(Warning) then Danger else base
  }

  // ----- more evidence, same answer or worse -----

  ghost predicate AtMost(e: Evidence, e': Evidence) {
    && (forall d :: d in e.strikes ==> d in e'.strikes)
    && (forall w :: w in e.warnings ==> w in e'.warnings)
    && (e.thunder ==> e'.thunder)
    && multiset(e.detections) <= multiset(e'.detections)
  }

  lemma {:induction false} TwoPositions(xs: seq<int>, a: int, b: int) returns (i: nat, j: nat)
    requires multiset{a, b} <= multiset(xs)
    ensures i < j < |xs| && ((xs[i] == a && xs[j] == b) || (xs[i] == b && xs[j] == a))
    decreases |xs|
  {
    assert a in multiset(xs);
    assert xs == [xs[0]] + xs[1..];
    if xs[0] == a {
      assert b in multiset(xs[1..]);
      i, j :| i == 0 && 0 < j < |xs| && xs[j] == b;
    } else if xs[0] == b {
      assert a in multiset(xs[1..]);
      i, j :| i == 0 && 0 < j < |xs| && xs[j] == a;
    } else {
      i, j := TwoPositions(xs[1..], a, b);
      i, j := i + 1, j + 1;
    }
  }

  lemma PairSurvives(xs: seq<int>, ys: seq<int>, window: int)
    requires multiset(xs) <= multiset(ys) && PairWithin(xs, window)
    ensures PairWithin(ys, window)
  {
    var i, j :| 0 <= i < j < |xs| && Abs(xs[i] - xs[j]) <= window;
    assert xs == xs[..i] + [xs[i]] + xs[i + 1..j] + [xs[j]] + xs[j + 1..];
    assert multiset{xs[i], xs[j]} <= multiset(xs);
    var k, l := TwoPositions(ys, xs[i], xs[j]);
  }

  lemma StrikeSurvives(xs: seq<real>, ys: seq<real>, radius: real)
    requires (forall d :: d in xs ==> d in ys) && StrikeWithin(xs, radius)
    ensures StrikeWithin(ys, radius)
  {
    var i :| 0 <= i < |xs| && xs[i] <= radius;
    assert xs[i] in ys;
  }

  lemma AlarmSurvives(xs: seq<AlertWarning>, ys: seq<AlertWarning>, now: int)
    requires (forall w :: w in xs ==> w in ys) && HasAlarm(xs, now)
    ensures HasAlarm(ys, now)
  {
    var i :| 0 <= i < |xs| && Alarming(xs[i], now);
    assert xs[i] in ys;
  }

  lemma MoreEvidenceSameStaleness(cfg: Config, e: Evidence, e': Evidence, now: int, stale: bool)
    requires AtMost(e, e')
    ensures Severity(FinalLevel(BaseLevel(cfg, e, now), stale)) <= Severity(FinalLevel(BaseLevel(cfg, e', now), stale))
  {
    if StrikeWithin(e.strikes, cfg.dangerRadius) { StrikeSurvives(e.strikes, e'.strikes, cfg.dangerRadius); }
    if StrikeWithin(e.strikes, cfg.warningRadius) { StrikeSurvives(e.strikes, e'.strikes, cfg.warningRadius); }
    if HasAlarm(e.warnings, now) { AlarmSurvives(e.warnings, e'.warnings, now); }
    if PairWithin(e.detections, cfg.window) { PairSurvives(e.detections, e'.detections, cfg.window); }
    if e.detections != [] { assert e.detections[0] in multiset(e.detections); }
  }

  /** The order in which evidence is listed never matters. */
  lemma OrderNeverMatters(cfg: Config, e: Evidence, e': Evidence, now: int, stale: bool)
    requires multiset(e.strikes) == multiset(e'.strikes) && multiset(e.warnings) == multiset(e'.warnings)
    requires e.thunder == e'.thunder && multiset(e.detections) == multiset(e'.detections)
    ensures FinalLevel(BaseLevel(cfg, e, now), stale) == FinalLevel(BaseLevel(cfg, e', now), stale)
  {
    SameMembers(e.strikes, e'.strikes);
    SameMembers(e.warnings, e'.warnings);
    MoreEvidenceSameStaleness(cfg, e, e', now, stale);
    MoreEvidenceSameStaleness(cfg, e', e, now, stale);
  }

  lemma SameMembers<T>(xs: seq<T>, ys: seq<T>)
    requires multiset(xs) == multiset(ys)
    ensures forall x :: x in xs <==> x in ys
  {
    forall x ensures x in xs <==> x in ys {
      assert x in xs <==> x in multiset(xs);
      assert x in ys <==> x in multiset(ys);
    }
  }

  /** When all detections come from the last `window` seconds the pairwise test is a
      count: two or more, or one and a strike in the danger radius. */
  lemma ConfirmationIsACount(cfg: Config, e: Evidence, now: int)
    requires forall i :: 0 <= i < |e.detections| ==> now - cfg.window <= e.detections[i] <= now
    ensures Confirmed(cfg, e) <==>
      |e.detections| >= 2 || (|e.detections| == 1 && StrikeWithin(e.strikes, cfg.dangerRadius))
  {
    if |e.detections| >= 2 { assert Abs(e.detections[0] - e.detections[1]) <= cfg.window; }
  }

  lemma {:induction false} SinceBounds(xs: seq<int>, since: int, now: int)
    requires forall i :: 0 <= i < |xs| ==> xs[i] <= now
    ensures forall i :: 0 <= i < |Sensor.Since(xs, since)| ==> since <= Sensor.Since(xs, since)[i] <= now
  {
    if xs != [] { SinceBounds(xs[1..], since, now); }
  }

  /** The sensor's pruned buffer confirms exactly what its full history would, when the
      corroboration window is no longer than what the buffer retains. */
  lemma PrunedBufferConfirms(cfg: Config, strikes: seq<real>, history: seq<int>, buffer: seq<int>, retain: int,
                             now: int)
    requires Sensor.Prunes(history, buffer, retain) && cfg.window <= retain
    requires forall i :: 0 <= i < |history| ==> history[i] <= now
    ensures var seen := Sensor.Since(history, now - cfg.window);
      Confirmed(cfg, Evidence(strikes, [], false, Sensor.Since(buffer, now - cfg.window)))
      <==> |seen| >= 2 || (|seen| == 1 && StrikeWithin(strikes, cfg.dangerRadius))
  {
    hide Sensor.Prunes, Sensor.Since, StrikeWithin, Confirmed;
    Sensor.PrunedAnswersAsHistory(history, buffer, retain, now - cfg.window);
    SinceBounds(history, now - cfg.window, now);
    ConfirmationIsACount(cfg, Evidence(strikes, [], false, Sensor.Since(history, now - cfg.window)), now);
  }

  // ----- caching and staleness -----

  /** A source fetched at most every interval: the last good answer and when it came. */
  datatype Cache<T> = Never | Fetched(answer: T, at: int)

  predicate CacheHit<T>(interval: int, c: Cache<T>, now: int) {
    interval > 0 && c.Fetched? && now - c.at < interval
  }

  function CachedAnswer<T>(interval: int, c: Cache<T>, now: int, fetch: Option<T>): Option<T> {
    if CacheHit(interval, c, now) then Some(c.answer) else fetch
  }

  function CacheAfter<T>(interval: int, c: Cache<T>, now: int, fetch: Option<T>): Cache<T> {
    if CacheHit(interval, c, now) || fetch.None? then c else Fetched(fetch.value, now)
  }

  predicate SourceStale(staleAfter: int, lastOK: int, now: int) { staleAfter > 0 && now - lastOK > staleAfter }

  /** One evaluation of a cached source: when, and what a fetch would return. */
  datatype Poll<T> = Poll(now: int, fetch: Option<T>)

  function CacheRun<T>(interval: int, polls: seq<Poll<T>>): Cache<T> {
    if polls == [] then Never
    else
      var p, c := polls[|polls| - 1], CacheRun(interval, polls[..|polls| - 1]);
      CacheAfter(interval, c, p.now, p.fetch)
  }

  /** lastOK, seeded with the monitor's start time and refreshed by hits and fetches. */
  function LastOKRun<T>(interval: int, start: int, polls: seq<Poll<T>>): int {
    if polls == [] then start
    else
      var p, c := polls[|polls| - 1], CacheRun(interval, polls[..|polls| - 1]);
      if CachedAnswer(interval, c, p.now, p.fetch).Some? then p.now
      else LastOKRun(interval, start, polls[..|polls| - 1])
  }

  /** The instants at which the source was really fetched with success. */
  function FetchTimes<T>(interval: int, polls: seq<Poll<T>>): seq<int> {
    if polls == [] then []
    else
      var p, rest := polls[|polls| - 1], polls[..|polls| - 1];
      FetchTimes(interval, rest) +
        (if !CacheHit(interval, CacheRun(interval, rest), p.now) && p.fetch.Some? then [p.now] else [])
  }

  lemma {:induction false} CacheHoldsLastFetch<T>(interval: int, start: int, polls: seq<Poll<T>>)
    requires interval > 0
    ensures var times, c := FetchTimes(interval, polls), CacheRun(interval, polls);
      && (c.Never? <==> times == [])
      && (c.Fetched? ==> c.at == times[|times| - 1])
      && (c.Fetched? ==> LastOKRun(interval, start, polls) < c.at + interval)
      && (c.Fetched? ==> exists i :: 0 <= i < |polls| && polls[i] == Poll(c.at, Some(c.answer)))
  {
    if polls != [] {
      var rest, p := polls[..|polls| - 1], polls[|polls| - 1];
      CacheHoldsLastFetch(interval, start, rest);
      var c := CacheRun(interval, rest);
      if c.Fetched? {
        var i :| 0 <= i < |rest| && rest[i] == Poll(c.at, Some(c.answer));
        assert polls[i] == rest[i];
      }
      if !CacheHit(interval, c, p.now) && p.fetch.Some? {
        assert polls[|polls| - 1] == Poll(p.now, Some(p.fetch.value));
      }
    }
  }

  /** Successful fetches are at least one interval apart. */
  lemma {:induction false} FetchesAreSpaced<T>(interval: int, polls: seq<Poll<T>>)
    requires interval > 0
    ensures var times := FetchTimes(interval, polls);
      forall i :: 0 < i < |times| ==> times[i] - times[i - 1] >= interval
  {
    if polls != [] {
      FetchesAreSpaced(interval, polls[..|polls| - 1]);
      CacheHoldsLastFetch(interval, 0, polls[..|polls| - 1]);
    }
  }

  /** A source not reported stale, once it has answered, was really fetched less than
      staleAfter + interval ago, although cache hits refresh lastOK. */
  lemma FreshMeansRecentlyFetched<T>(interval: int, staleAfter: int, start: int, polls: seq<Poll<T>>, now: int)
    requires interval > 0 && staleAfter > 0
    requires FetchTimes(interval, polls) != []
    requires !SourceStale(staleAfter, LastOKRun(interval, start, polls), now)
    ensures var times := FetchTimes(interval, polls);
      now - times[|times| - 1] < staleAfter + interval
  {
    CacheHoldsLastFetch(interval, start, polls);
  }

  ghost predicate Tracks<T>(interval: int, start: int, polls: seq<Poll<T>>, c: Cache<T>, lastOK: int) {
    c == CacheRun(interval, polls) && lastOK == LastOKRun(interval, start, polls)
  }

  lemma TracksStep<T>(interval: int, start: int, polls: seq<Poll<T>>, c: Cache<T>, lastOK: int, p: Poll<T>)
    requires Tracks(interval, start, polls, c, lastOK)
    ensures Tracks(interval, start, polls + [p], CacheAfter(interval, c, p.now, p.fetch),
                   if CachedAnswer(interval, c, p.now, p.fetch).Some? then p.now else lastOK)
  {
    assert (polls + [p])[..|polls|] == polls;
  }

  // ----- the monitor -----

  datatype Answers = Answers(strikes: Option<seq<real>>, warnings: Option<seq<AlertWarning>>,
                             thunder: Option<bool>, detections: Option<seq<int>>)

  function OrEmpty<T>(o: Option<seq<T>>): seq<T> { if o.Some? then o.value else [] }

  /** What a monitor remembers between evaluations. */
  datatype Memory = Memory(lastOK: map<Source, int>, forecast: Cache<bool>, warnings: Cache<seq<AlertWarning>>)

  function ForecastOf(cfg: Config, m: Memory, now: int, ans: Answers): Option<bool> {
    if Forecast in cfg.sources then CachedAnswer(cfg.forecastInterval, m.forecast, now, ans.thunder) else None
  }

  function WarningsOf(cfg: Config, m: Memory, now: int, ans: Answers): Option<seq<AlertWarning>> {
    if Warnings in cfg.sources then CachedAnswer(cfg.warningsInterval, m.warnings, now, ans.warnings) else None
  }

  /** The evidence an evaluation works on: configured sources that answered, the
      forecast and the warnings through their caches. */
  function Gathered(cfg: Config, m: Memory, now: int, ans: Answers): Evidence {
    Evidence(if Lightning in cfg.sources then OrEmpty(ans.strikes) else [],
             OrEmpty(WarningsOf(cfg, m, now, ans)),
             ForecastOf(cfg, m, now, ans) == Some(true),
             if Local in cfg.sources then OrEmpty(ans.detections) else [])
  }

  predicate Answered(cfg: Config, m: Memory, now: int, ans: Answers, s: Source) {
    match s
    case Lightning => ans.strikes.Some?
    case Warnings => WarningsOf(cfg, m, now, ans).Some?
    case Forecast => ForecastOf(cfg, m, now, ans).Some?
    case Local => ans.detections.Some?
  }

  /** The memory after an evaluation: sources that answered, a cache hit counting as an
      answer, are as fresh as `now`. */
  function Remembered(cfg: Config, m: Memory, now: int, ans: Answers): Memory
    requires m.lastOK.Keys == cfg.sources
  {
    Memory(map s | s in cfg.sources :: if Answered(cfg, m, now, ans, s) then now else m.lastOK[s],
           if Forecast !in cfg.sources then m.forecast
           else CacheAfter(cfg.forecastInterval, m.forecast, now, ans.thunder),
           if Warnings !in cfg.sources then m.warnings
           else CacheAfter(cfg.warningsInterval, m.warnings, now, ans.warnings))
  }

  function Refreshed(lastOK: map<Source, int>, s: Source, now: int, answered: bool): map<Source, int> {
    if answered then lastOK[s := now] else lastOK
  }

  /** The last-success times, source after source. */
  lemma RememberedInTurn(cfg: Config, m: Memory, now: int, ans: Answers)
    requires m.lastOK.Keys == cfg.sources
    ensures var a := Refreshed(m.lastOK, Lightning, now, Lightning in cfg.sources && ans.strikes.Some?);
      var b := Refreshed(a, Warnings, now, WarningsOf(cfg, m, now, ans).Some?);
      var c := Refreshed(b, Forecast, now, ForecastOf(cfg, m, now, ans).Some?);
      Remembered(cfg, m, now, ans).lastOK == Refreshed(c, Local, now, Local in cfg.sources && ans.detections.Some?)
  {
    hide CachedAnswer, CacheAfter;
  }

  predicate AnyStale(cfg: Config, lastOK: map<Source, int>, now: int)
    requires lastOK.Keys == cfg.sources
  {
    exists s :: s in cfg.sources && SourceStale(cfg.staleAfter, lastOK[s], now)
  }

  /** The level an evaluation arrives at. */
  function LevelOf(cfg: Config, m: Memory, now: int, ans: Answers): Level
    requires m.lastOK.Keys == cfg.sources
  {
    FinalLevel(BaseLevel(cfg, Gathered(cfg, m, now, ans), now), AnyStale(cfg, Remembered(cfg, m, now, ans).lastOK, now))
  }

  /** The same sources answer, and each reports at least as much. */
  ghost predicate AnswersAtMost(a: Answers, b: Answers) {
    && (a.strikes.Some? <==> b.strikes.Some?) && (a.warnings.Some? <==> b.warnings.Some?)
    && (a.thunder.Some? <==> b.thunder.Some?) && (a.detections.Some? <==> b.detections.Some?)
    && (forall d :: d in OrEmpty(a.strikes) ==> d in OrEmpty(b.strikes))
    && (forall w :: w in OrEmpty(a.warnings) ==> w in OrEmpty(b.warnings))
    && (a.thunder == Some(true) ==> b.thunder == Some(true))
    && multiset(OrEmpty(a.detections)) <= multiset(OrEmpty(b.detections))
  }

  /** From the same memory, with the same sources answering, an evaluation that is told more
      never arrives at a lower level. */
  lemma MoreEvidenceNeverCalms(cfg: Config, m: Memory, now: int, a: Answers, b: Answers)
    requires m.lastOK.Keys == cfg.sources && AnswersAtMost(a, b)
    ensures Severity(LevelOf(cfg, m, now, a)) <= Severity(LevelOf(cfg, m, now, b))
  {
    assert forall s :: Answered(cfg, m, now, a, s) <==> Answered(cfg, m, now, b, s);
    assert Remembered(cfg, m, now, a).lastOK == Remembered(cfg, m, now, b).lastOK;
    MoreEvidenceSameStaleness(cfg, Gathered(cfg, m, now, a), Gathered(cfg, m, now, b), now,
                              AnyStale(cfg, Remembered(cfg, m, now, a).lastOK, now));
  }

  // ----- the levels, from what each source said -----

  /** The lightning source answered with a strike this close. */
  ghost predicate StrikeHeard(cfg: Config, ans: Answers, radius: real) {
    Lightning in cfg.sources && ans.strikes.Some? && exists d :: d in ans.strikes.value && d <= radius
  }

  /** The last answer of a cached source is used again. */
  predicate Reused<T>(interval: int, c: Cache<T>, now: int) { interval > 0 && c.Fetched? && now - c.at < interval }

  /** An unexpired serious thunderstorm warning, in the cache while it is used, else as answered. */
  ghost predicate WarningHeard(cfg: Config, m: Memory, now: int, ans: Answers) {
    && Warnings in cfg.sources
    && exists w: AlertWarning ::
         && w.thunderstorm && w.serious && now <= w.expires
         && if Reused(cfg.warningsInterval, m.warnings, now) then w in m.warnings.answer
            else ans.warnings.Some? && w in ans.warnings.value
  }

  ghost predicate ThunderHeard(cfg: Config, m: Memory, now: int, ans: Answers) {
    && Forecast in cfg.sources
    && if Reused(cfg.forecastInterval, m.forecast, now) then m.forecast.answer else ans.thunder == Some(true)
  }

  /** A local detection that a strike in the danger radius or a second one within the
      corroboration window confirms. */
  ghost predicate DetectionConfirmed(cfg: Config, ans: Answers) {
    && Local in cfg.sources && ans.detections.Some? && ans.detections.value != []
    && (StrikeHeard(cfg, ans, cfg.dangerRadius)
        || exists i, j :: && 0 <= i < j < |ans.detections.value|
             && -cfg.window <= ans.detections.value[i] - ans.detections.value[j] <= cfg.window)
  }

  /** A configured source that did not answer now, and last did more than staleAfter ago. */
  ghost predicate SourceSilent(cfg: Config, m: Memory, now: int, ans: Answers)
    requires m.lastOK.Keys == cfg.sources
  {
    && cfg.staleAfter > 0
    && exists s :: s in cfg.sources && !Heard(cfg, m, now, ans, s) && now - m.lastOK[s] > cfg.staleAfter
  }

  ghost predicate Heard(cfg: Config, m: Memory, now: int, ans: Answers, s: Source) {
    match s
    case Lightning => ans.strikes.Some?
    case Warnings => Reused(cfg.warningsInterval, m.warnings, now) || ans.warnings.Some?
    case Forecast => Reused(cfg.forecastInterval, m.forecast, now) || ans.thunder.Some?
    case Local => ans.detections.Some?
  }

  /** Official warnings, strikes within the warning radius and all that means Danger. */
  ghost predicate AtLeastWarning(cfg: Config, m: Memory, now: int, ans: Answers) {
    || StrikeHeard(cfg, ans, cfg.dangerRadius) || StrikeHeard(cfg, ans, cfg.warningRadius)
    || WarningHeard(cfg, m, now, ans) || DetectionConfirmed(cfg, ans)
  }

  lemma EvidenceIsHeard(cfg: Config, m: Memory, now: int, ans: Answers)
    ensures var e := Gathered(cfg, m, now, ans);
      && (forall radius :: StrikeWithin(e.strikes, radius) <==> StrikeHeard(cfg, ans, radius))
      && (HasAlarm(e.warnings, now) <==> WarningHeard(cfg, m, now, ans))
      && (Confirmed(cfg, e) <==> DetectionConfirmed(cfg, ans))
      && (e.thunder <==> ThunderHeard(cfg, m, now, ans))
  {
    var e := Gathered(cfg, m, now, ans);
    forall radius ensures StrikeWithin(e.strikes, radius) <==> StrikeHeard(cfg, ans, radius) {
      if StrikeWithin(e.strikes, radius) {
        var i :| 0 <= i < |e.strikes| && e.strikes[i] <= radius;
        assert e.strikes[i] in e.strikes;
      }
    }
    assert HasAlarm(e.warnings, now) <==> exists w :: w in e.warnings && Alarming(w, now);
    PairIsHeard(cfg, ans, e.detections);
  }

  lemma PairIsHeard(cfg: Config, ans: Answers, dets: seq<int>)
    ensures PairWithin(dets, cfg.window) <==>
      exists i, j :: 0 <= i < j < |dets| && -cfg.window <= dets[i] - dets[j] <= cfg.window
  {
    if exists i, j :: 0 <= i < j < |dets| && -cfg.window <= dets[i] - dets[j] <= cfg.window {
      var i, j :| 0 <= i < j < |dets| && -cfg.window <= dets[i] - dets[j] <= cfg.window;
      assert Abs(dets[i] - dets[j]) <= cfg.window;
    }
    if PairWithin(dets, cfg.window) {
      var i, j :| 0 <= i < j < |dets| && Abs(dets[i] - dets[j]) <= cfg.window;
      assert -cfg.window <= dets[i] - dets[j] <= cfg.window;
    }
  }

  lemma StaleIsSilent(cfg: Config, m: Memory, now: int, ans: Answers)
    requires m.lastOK.Keys == cfg.sources
    ensures AnyStale(cfg, Remembered(cfg, m, now, ans).lastOK, now) <==> SourceSilent(cfg, m, now, ans)
  {
    forall s | s in cfg.sources ensures Answered(cfg, m, now, ans, s) <==> Heard(cfg, m, now, ans, s) { }
    if SourceSilent(cfg, m, now, ans) {
      var s :| s in cfg.sources && !Heard(cfg, m, now, ans, s) && now - m.lastOK[s] > cfg.staleAfter;
      assert SourceStale(cfg.staleAfter, Remembered(cfg, m, now, ans).lastOK[s], now);
    }
  }

  /** Each level, exactly: Danger for a strike in the danger radius, a confirmed detection, or
      any evidence of Warning while a source is silent; Warning for that evidence otherwise;
      Watch for thunder alone; Normal for nothing. */
  lemma LevelExactly(cfg: Config, m: Memory, now: int, ans: Answers)
    requires m.lastOK.Keys == cfg.sources
    ensures var level, warned := LevelOf(cfg, m, now, ans), AtLeastWarning(cfg, m, now, ans);
      var struck := StrikeHeard(cfg, ans, cfg.dangerRadius) || DetectionConfirmed(cfg, ans);
      && (level == Danger <==> struck || (warned && SourceSilent(cfg, m, now, ans)))
      && (level == Warning <==> warned && !struck && !SourceSilent(cfg, m, now, ans))
      && (level == Watch <==> !warned && ThunderHeard(cfg, m, now, ans))
      && (level == Normal <==> !warned && !ThunderHeard(cfg, m, now, ans))
  {
    EvidenceIsHeard(cfg, m, now, ans);
    StaleIsSilent(cfg, m, now, ans);
    hide Gathered, Remembered, AnyStale, StrikeWithin, HasAlarm, Confirmed;
    hide StrikeHeard, WarningHeard, DetectionConfirmed, ThunderHeard, SourceSilent;
  }

  /** No strike within either radius, no official warning, nothing confirmed locally and no
      thunder expected. */
  ghost predicate AllClear(cfg: Config, e: Evidence, now: int) {
    && (forall d :: d in e.strikes ==> d > cfg.dangerRadius && d > cfg.warningRadius)
    && (forall w :: w in e.warnings ==> !Alarming(w, now))
    && !PairWithin(e.detections, cfg.window) && !e.thunder
  }

  /** Nothing holds a level once its evidence is gone: whatever a monitor saw and however
      stale its sources are, a strike in the danger radius means Danger, and an evaluation
      however soon after that is Normal if and only if what it gathers is all clear. */
  lemma LevelFallsAtOnce(cfg: Config, m: Memory, now: int, later: int, storm: Answers, calm: Answers)
    requires m.lastOK.Keys == cfg.sources && Lightning in cfg.sources
    requires exists d :: d in OrEmpty(storm.strikes) && d <= cfg.dangerRadius
    ensures var m' := Remembered(cfg, m, now, storm);
      && LevelOf(cfg, m, now, storm) == Danger
      && (LevelOf(cfg, m', later, calm) == Normal <==> AllClear(cfg, Gathered(cfg, m', later, calm), later))
  {
    var d :| d in OrEmpty(storm.strikes) && d <= cfg.dangerRadius;
    assert StrikeWithin(Gathered(cfg, m, now, storm).strikes, cfg.dangerRadius);
    var m' := Remembered(cfg, m, now, storm);
    var stale := AnyStale(cfg, Remembered(cfg, m', later, calm).lastOK, later);
    NormalMeansClear(cfg, Gathered(cfg, m', later, calm), later, stale);
    hide Gathered, Remembered, AnyStale, AllClear;
  }

  lemma NormalMeansClear(cfg: Config, e: Evidence, now: int, stale: bool)
    ensures FinalLevel(BaseLevel(cfg, e, now), stale) == Normal <==> AllClear(cfg, e, now)
  {
    forall radius ensures StrikeWithin(e.strikes, radius) <==> exists d :: d in e.strikes && d <= radius {
      if StrikeWithin(e.strikes, radius) {
        var i :| 0 <= i < |e.strikes| && e.strikes[i] <= radius;
        assert e.strikes[i] in e.strikes;
      }
    }
    assert HasAlarm(e.warnings, now) <==> exists w :: w in e.warnings && Alarming(w, now);
    assert PairWithin(e.detections, cfg.window) ==> e.detections != [];
    hide StrikeWithin, HasAlarm, PairWithin, Alarming;
  }

  /** For instance with lightning as the only source, and one strike. */
  lemma OneStrikeFallsAtOnce(cfg: Config, m: Memory, now: int, later: int, strike: real)
    requires cfg.sources == {Lightning} == m.lastOK.Keys && 0.0 <= strike <= cfg.dangerRadius
    ensures var storm, calm := Answers(Some([strike]), None, None, None), Answers(Some([]), None, None, None);
      && LevelOf(cfg, m, now, storm) == Danger
      && LevelOf(cfg, Remembered(cfg, m, now, storm), later, calm) == Normal
  {
    assert [strike][0] <= cfg.dangerRadius;
  }

  class Monitor {
    const cfg: Config
    var lastOK: map<Source, int>
    var forecast: Cache<bool>
    var warnings: Cache<seq<AlertWarning>>
    ghost var started: int
    ghost var forecastPolls: seq<Poll<bool>>
    ghost var warningPolls: seq<Poll<seq<AlertWarning>>>

    /** Over any run of evaluations the caches and their last-success times are the ones
        the polls so far account for, so the freshness lemmas above apply to them. */
    ghost predicate Valid()
      reads this
    {
      && lastOK.Keys == cfg.sources
      && (Forecast in cfg.sources ==> Tracks(cfg.forecastInterval, started, forecastPolls, forecast, lastOK[Forecast]))
      && (Warnings in cfg.sources ==> Tracks(cfg.warningsInterval, started, warningPolls, warnings, lastOK[Warnings]))
    }

    /** Over any run of evaluations, a forecast not reported stale was, once there was one
        successful fetch, really fetched less than staleAfter + interval ago. */
    lemma ForecastIsRecent(now: int)
      requires Valid() && Forecast in cfg.sources && cfg.forecastInterval > 0 && cfg.staleAfter > 0
      requires FetchTimes(cfg.forecastInterval, forecastPolls) != []
      requires !SourceStale(cfg.staleAfter, lastOK[Forecast], now)
      ensures var times := FetchTimes(cfg.forecastInterval, forecastPolls);
        now - times[|times| - 1] < cfg.staleAfter + cfg.forecastInterval
    {
      FreshMeansRecentlyFetched(cfg.forecastInterval, cfg.staleAfter, started, forecastPolls, now);
    }

    /** Zero window and intervals select the defaults; every configured source starts
        with a grace period from `now`. */
    constructor (cfg: Config, now: int)
      ensures Valid() && started == now && forecastPolls == [] && warningPolls == []
      ensures this.cfg.sources == cfg.sources && forall s :: s in cfg.sources ==> lastOK[s] == now
      ensures this.cfg == cfg.(window := if cfg.window <= 0 then 300 else cfg.window,
                               forecastInterval := if cfg.forecastInterval == 0 then 1800 else cfg.forecastInterval,
                               warningsInterval := if cfg.warningsInterval == 0 then 300 else cfg.warningsInterval)
    {
      this.cfg := cfg.(window := if cfg.window <= 0 then 300 else cfg.window,
                       forecastInterval := if cfg.forecastInterval == 0 then 1800 else cfg.forecastInterval,
                       warningsInterval := if cfg.warningsInterval == 0 then 300 else cfg.warningsInterval);
      lastOK := map s | s in cfg.sources :: now;
      forecast, warnings := Never, Never;
      started, forecastPolls, warningPolls := now, [], [];
    }

    ghost function Remembers(): Memory
      reads this
    {
      Memory(lastOK, forecast, warnings)
    }

    method WarningsCached(now: int, fetch: Option<seq<AlertWarning>>) returns (a: Option<seq<AlertWarning>>)
      modifies this`warnings
      ensures a == CachedAnswer(cfg.warningsInterval, old(warnings), now, fetch)
      ensures warnings == CacheAfter(cfg.warningsInterval, old(warnings), now, fetch)
    {
      if cfg.warningsInterval > 0 && warnings.Fetched? && now - warnings.at < cfg.warningsInterval {
        return Some(warnings.answer);
      }
      if fetch.None? { return None; }
      warnings := Fetched(fetch.value, now);
      return fetch;
    }

    method ForecastCached(now: int, fetch: Option<bool>) returns (a: Option<bool>)
      modifies this`forecast
      ensures a == CachedAnswer(cfg.forecastInterval, old(forecast), now, fetch)
      ensures forecast == CacheAfter(cfg.forecastInterval, old(forecast), now, fetch)
    {
      if cfg.forecastInterval > 0 && forecast.Fetched? && now - forecast.at < cfg.forecastInterval {
        return Some(forecast.answer);
      }
      if fetch.None? { return None; }
      forecast := Fetched(fetch.value, now);
      return fetch;
    }

    method ConsultLightning(now: int, ans: Answers) returns (nearest: real)
      requires NonNegative(ans)
      modifies this`lastOK
      ensures lastOK == Refreshed(old(lastOK), Lightning, now, Lightning in cfg.sources && ans.strikes.Some?)
      ensures IsNearest(nearest, if Lightning in cfg.sources then OrEmpty(ans.strikes) else [])
    {
      nearest := -1.0;
      if Lightning in cfg.sources && ans.strikes.Some? {
        lastOK := lastOK[Lightning := now];
        nearest := NearestStrike(ans.strikes.value);
      }
    }

    method ConsultWarnings(now: int, ans: Answers) returns (alarm: bool)
      modifies this`lastOK, this`warnings
      ensures Warnings in cfg.sources ==> warnings == CacheAfter(cfg.warningsInterval, old(warnings), now, ans.warnings)
      ensures Warnings !in cfg.sources ==> warnings == old(warnings)
      ensures var ws := WarningsOf(cfg, old(Remembers()), now, ans);
        && lastOK == Refreshed(old(lastOK), Warnings, now, ws.Some?)
        && alarm == HasAlarm(OrEmpty(ws), now)
    {
      alarm := false;
      if Warnings in cfg.sources {
        var ws := WarningsCached(now, ans.warnings);
        if ws.Some? {
          lastOK := lastOK[Warnings := now];
          alarm := FindAlarm(ws.value, now);
        }
      }
    }

    method ConsultForecast(now: int, ans: Answers) returns (thunder: bool)
      modifies this`lastOK, this`forecast
      ensures Forecast in cfg.sources ==> forecast == CacheAfter(cfg.forecastInterval, old(forecast), now, ans.thunder)
      ensures Forecast !in cfg.sources ==> forecast == old(forecast)
      ensures var f := ForecastOf(cfg, old(Remembers()), now, ans);
        && lastOK == Refreshed(old(lastOK), Forecast, now, f.Some?)
        && thunder == (f == Some(true))
    {
      thunder := false;
      if Forecast in cfg.sources {
        var f := ForecastCached(now, ans.thunder);
        if f.Some? {
          lastOK := lastOK[Forecast := now];
          thunder := f.value;
        }
      }
    }

    method ConsultLocal(now: int, ans: Answers, nearest: real) returns (confirmed: bool)
      modifies this`lastOK
      ensures lastOK == Refreshed(old(lastOK), Local, now, Local in cfg.sources && ans.detections.Some?)
      ensures confirmed == LocallyConfirmed(cfg, if Local in cfg.sources then OrEmpty(ans.detections) else [], nearest)
    {
      confirmed := false;
      if Local in cfg.sources && ans.detections.Some? {
        lastOK := lastOK[Local := now];
        confirmed := ConfirmLocal(cfg, ans.detections.value, nearest);
      }
    }

    /** Consults every configured source. */
    method Consult(now: int, ans: Answers) returns (nearest: real, alarm: bool, thunder: bool, confirmed: bool)
      requires lastOK.Keys == cfg.sources && NonNegative(ans)
      modifies this`lastOK, this`forecast, this`warnings
      ensures Remembers() == Remembered(cfg, old(Remembers()), now, ans)
      ensures var e := Gathered(cfg, old(Remembers()), now, ans);
        && IsNearest(nearest, e.strikes) && alarm == HasAlarm(e.warnings, now)
        && thunder == e.thunder && confirmed == LocallyConfirmed(cfg, e.detections, nearest)
    {
      RememberedInTurn(cfg, Remembers(), now, ans);
      hide Refreshed, CachedAnswer, CacheAfter, HasAlarm, IsNearest, LocallyConfirmed;
      nearest := ConsultLightning(now, ans);
      alarm := ConsultWarnings(now, ans);
      thunder := ConsultForecast(now, ans);
      confirmed := ConsultLocal(now, ans, nearest);
    }

    /** Notes the poll in the ghost trace: the caches still are what the trace explains. */
    ghost method Note(now: int, ans: Answers, forecast0: Cache<bool>, warnings0: Cache<seq<AlertWarning>>,
                      lastOK0: map<Source, int>)
      requires lastOK.Keys == cfg.sources == lastOK0.Keys
      requires Forecast in cfg.sources ==>
        && Tracks(cfg.forecastInterval, started, forecastPolls, forecast0, lastOK0[Forecast])
        && forecast == CacheAfter(cfg.forecastInterval, forecast0, now, ans.thunder)
        && lastOK[Forecast] == if CachedAnswer(cfg.forecastInterval, forecast0, now, ans.thunder).Some? then now
                               else lastOK0[Forecast]
      requires Warnings in cfg.sources ==>
        && Tracks(cfg.warningsInterval, started, warningPolls, warnings0, lastOK0[Warnings])
        && warnings == CacheAfter(cfg.warningsInterval, warnings0, now, ans.warnings)
        && lastOK[Warnings] == if CachedAnswer(cfg.warningsInterval, warnings0, now, ans.warnings).Some? then now
                               else lastOK0[Warnings]
      modifies this`forecastPolls, this`warningPolls
      ensures Valid()
      ensures forecastPolls == old(forecastPolls) + [Poll(now, ans.thunder)]
      ensures warningPolls == old(warningPolls) + [Poll(now, ans.warnings)]
    {
      if Forecast in cfg.sources {
        TracksStep(cfg.forecastInterval, started, forecastPolls, forecast0, lastOK0[Forecast], Poll(now, ans.thunder));
      }
      if Warnings in cfg.sources {
        TracksStep(cfg.warningsInterval, started, warningPolls, warnings0, lastOK0[Warnings], Poll(now, ans.warnings));
      }
      forecastPolls := forecastPolls + [Poll(now, ans.thunder)];
      warningPolls := warningPolls + [Poll(now, ans.warnings)];
    }

    /** The level is the one the gathered evidence deserves, raised to Danger when some
        configured source is stale at Warning or above. */
    method Evaluate(now: int, ans: Answers) returns (level: Level, stale: bool)
      requires Valid() && NonNegative(ans)
      modifies this
      ensures Valid() && started == old(started)
      ensures forecastPolls == old(forecastPolls) + [Poll(now, ans.thunder)]
      ensures warningPolls == old(warningPolls) + [Poll(now, ans.warnings)]
      ensures Remembers() == Remembered(cfg, old(Remembers()), now, ans)
      ensures stale == AnyStale(cfg, lastOK, now)
      ensures level == LevelOf(cfg, old(Remembers()), now, ans)
    {
      ghost var e := Gathered(cfg, Remembers(), now, ans);
      var nearest, alarm, thunder, confirmed := Consult(now, ans);
      Note(now, ans, old(forecast), old(warnings), old(lastOK));
      NearestDecides(nearest, e.strikes, cfg.dangerRadius);
      NearestDecides(nearest, e.strikes, cfg.warningRadius);
      if nearest >= 0.0 && nearest <= cfg.dangerRadius {
        level := Danger;
      } else if confirmed {
        level := Danger;
      } else if alarm {
        level := Warning;
      } else if nearest >= 0.0 && nearest <= cfg.warningRadius {
        level := Warning;
      } else if thunder {
        level := Watch;
      } else {
        level := Normal;
      }
      stale := Staleness(now);
      if stale && Severity(level) >= Severity(Warning) { level := Danger; }
    }

    method Staleness(now: int) returns (stale: bool)
      requires lastOK.Keys == cfg.sources
      ensures stale == AnyStale(cfg, lastOK, now)
    {
      if cfg.staleAfter <= 0 { return false; }
      stale := false;
      if Lightning in cfg.sources && now - lastOK[Lightning] > cfg.staleAfter { stale := true; }
      if Warnings in cfg.sources && now - lastOK[Warnings] > cfg.staleAfter { stale := true; }
      if Forecast in cfg.sources && now - lastOK[Forecast] > cfg.staleAfter { stale := true; }
      if Local in cfg.sources && now - lastOK[Local] > cfg.staleAfter { stale := true; }
      forall s | s in cfg.sources && SourceStale(cfg.staleAfter, lastOK[s], now) ensures stale {
        match s { case Lightning => case Warnings => case Forecast => case Local => }
      }
    }
  }

  ghost predicate NonNegative(ans: Answers) {
    ans.strikes.Some? ==> forall i :: 0 <= i < |ans.strikes.value| ==> ans.strikes.value[i] >= 0.0
  }

  predicate LocallyConfirmed(cfg: Config, dets: seq<int>, nearest: real) {
    dets != [] && ((nearest >= 0.0 && nearest <= cfg.dangerRadius) || PairWithin(dets, cfg.window))
  }

  ghost predicate IsNearest(nearest: real, strikes: seq<real>) {
    if strikes == [] then nearest == -1.0
    else nearest >= 0.0 && nearest in strikes && forall i :: 0 <= i < |strikes| ==> nearest <= strikes[i]
  }

  /** The nearest strike, with -1 for none, decides whether any strike is in range. */
  lemma NearestDecides(nearest: real, strikes: seq<real>, radius: real)
    requires IsNearest(nearest, strikes)
    ensures (nearest >= 0.0 && nearest <= radius) <==> StrikeWithin(strikes, radius)
  {
    if strikes != [] {
      var i :| 0 <= i < |strikes| && strikes[i] == nearest;
    }
  }

  method NearestStrike(strikes: seq<real>) returns (nearest: real)
    requires forall i :: 0 <= i < |strikes| ==> strikes[i] >= 0.0
    ensures IsNearest(nearest, strikes)
  {
    nearest := -1.0;
    var k := 0;
    while k < |strikes|
      invariant 0 <= k <= |strikes|
      invariant IsNearest(nearest, strikes[..k])
    {
      assert strikes[..k + 1] == strikes[..k] + [strikes[k]];
      if nearest < 0.0 || strikes[k] < nearest { nearest := strikes[k]; }
      k := k + 1;
    }
    assert strikes[..k] == strikes;
  }

  method FindAlarm(ws: seq<AlertWarning>, now: int) returns (found: bool)
    ensures found == HasAlarm(ws, now)
  {
    var k := 0;
    while k < |ws|
      invariant 0 <= k <= |ws|
      invariant forall j :: 0 <= j < k ==> !Alarming(ws[j], now)
    {
      if ws[k].thunderstorm && ws[k].serious && !(ws[k].expires < now) { return true; }
      k := k + 1;
    }
    return false;
  }

  method ConfirmLocal(cfg: Config, dets: seq<int>, nearest: real) returns (ok: bool)
    ensures ok == LocallyConfirmed(cfg, dets, nearest)
  {
    if |dets| == 0 { return false; }
    if nearest >= 0.0 && nearest <= cfg.dangerRadius { return true; }
    if |dets| < 2 { return false; }
    var i := 0;
    while i < |dets|
      invariant 0 <= i <= |dets|
      invariant forall a, b :: 0 <= a < i && a < b < |dets| ==> Abs(dets[a] - dets[b]) > cfg.window
    {
      var j := i + 1;
      while j < |dets|
        invariant i + 1 <= j <= |dets|
        invariant forall b :: i < b < j ==> Abs(dets[i] - dets[b]) > cfg.window
      {
        if Abs(dets[i] - dets[j]) <= cfg.window { return true; }
        j := j + 1;
      }
      i := i + 1;
    }
    return false;
  }
}
