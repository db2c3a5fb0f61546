/** The override table of internal/store/overrides.go and types.go: an append-only
    list of rows of which only cancelledAt is ever set, once. */
module Overrides {
  import opened Prelude

  datatype Action = On | Off | Pause | IgnoreWeather

  datatype Override = Override(id: int, target: string, action: Action, until: Option<int>,
                               createdBy: string, createdAt: int, cancelledAt: Option<int>)

  predicate ActiveAt(o: Override, t: int) {
    && o.createdAt <= t
    && (o.until.Some? ==> t < o.until.value)
    && (o.cancelledAt.Some? ==> t < o.cancelledAt.value)
  }

  const POWER: set<Action> := {On, Off, Pause}
  const ANY: set<Action> := {On, Off, Pause, IgnoreWeather}
  const LIMIT := 50

  /** Row ids are handed out in order of insertion. */
  ghost predicate ValidRows(rows: seq<Override>) {
    forall i :: 0 <= i < |rows| ==> rows[i].id == i + 1
  }

  /** ORDER BY created_at DESC, id DESC. */
  predicate Newer(a: Override, b: Override) {
    a.createdAt > b.createdAt || (a.createdAt == b.createdAt && a.id > b.id)
  }

  function Insert(o: Override, xs: seq<Override>): seq<Override> {
    if xs == [] then [o]
    else if Newer(o, xs[0]) then [o] + xs
    else [xs[0]] + Insert(o, xs[1..])
  }

  function NewestFirst(rows: seq<Override>): seq<Override> {
    if rows == [] then [] else Insert(rows[|rows| - 1], NewestFirst(rows[..|rows| - 1]))
  }

  /** WHERE. */
  function Where(p: Override -> bool, rows: seq<Override>): seq<Override> {
    if rows == [] then []
    else Where(p, rows[..|rows| - 1]) + (if p(rows[|rows| - 1]) then [rows[|rows| - 1]] else [])
  }

  function FirstSuch(p: Override -> bool, xs: seq<Override>): Option<Override> {
    if xs == [] then None else if p(xs[0]) then Some(xs[0]) else FirstSuch(p, xs[1..])
  }

  function Matching(target: string, t: int, actions: set<Action>): Override -> bool {
    (o: Override) => o.target == target && o.createdAt <= t && o.action in actions
  }

  function IsActive(t: int): Override -> bool { (o: Override) => ActiveAt(o, t) }

  function Limited(xs: seq<Override>): seq<Override> { if |xs| <= LIMIT then xs else xs[..LIMIT] }

  /** The 50 newest matching rows are looked at, newest first. */
  function EffectiveOverrideOf(rows: seq<Override>, target: string, t: int, actions: set<Action>): Option<Override> {
    FirstSuch(IsActive(t), Limited(NewestFirst(Where(Matching(target, t, actions), rows))))
  }

  function EffectiveOverride(rows: seq<Override>, target: string, t: int): Option<Override> {
    EffectiveOverrideOf(rows, target, t, ANY)
  }

  function Overlapping(target: string, from: int, end: int): Override -> bool {
    (o: Override) => o.target == target && o.createdAt < end
      && (o.until.Some? ==> from < o.until.value) && (o.cancelledAt.Some? ==> from < o.cancelledAt.value)
  }

  function OverridesOverlapping(rows: seq<Override>, target: string, from: int, end: int): seq<Override> {
    NewestFirst(Where(Overlapping(target, from, end), rows))
  }

  // ----- the meaning: the newest active row -----

  ghost predicate Governs(rows: seq<Override>, target: string, t: int, actions: set<Action>, o: Override) {
    && o in rows && o.target == target && o.action in actions && ActiveAt(o, t)
    && forall r :: r in rows && r.target == target && r.action in actions && ActiveAt(r, t) && r != o ==> Newer(o, r)
  }

  /** The rows the query would list before o. */
  function NewerMatches(rows: seq<Override>, target: string, t: int, actions: set<Action>, o: Override): set<Override> {
    set r | r in rows && Matching(target, t, actions)(r) && Newer(r, o)
  }

  // ----- lists ordered newest first -----

  ghost predicate Descending(xs: seq<Override>) {
    forall i, j :: 0 <= i < j < |xs| ==> Newer(xs[i], xs[j])
  }

  ghost predicate DistinctIds(xs: seq<Override>) {
    forall i, j :: 0 <= i < j < |xs| ==> xs[i].id != xs[j].id
  }

  lemma {:induction false} InsertKeeps(o: Override, xs: seq<Override>)
    requires Descending(xs) && forall x :: x in xs ==> x.id != o.id
    ensures Descending(Insert(o, xs))
    ensures forall x :: x in Insert(o, xs) <==> x == o || x in xs
  {
    if xs != [] && Newer(o, xs[0]) {
      forall i | 0 <= i < |xs| ensures Newer(o, xs[i]) {
        assert i == 0 || Newer(xs[0], xs[i]);
      }
    } else if xs != [] {
      InsertKeeps(o, xs[1..]);
      var ys := Insert(o, xs[1..]);
      forall i | 0 <= i < |ys| ensures Newer(xs[0], ys[i]) {
        assert ys[i] in ys;
      }
      assert forall x :: x in xs <==> x == xs[0] || x in xs[1..];
      var zs := [xs[0]] + ys;
      assert Insert(o, xs) == zs;
      forall i, j | 0 <= i < j < |zs| ensures Newer(zs[i], zs[j]) {
        assert zs[j] == ys[j - 1] && (i > 0 ==> zs[i] == ys[i - 1]);
      }
    }
  }

  lemma {:induction false} NewestFirstSorts(rows: seq<Override>)
    requires DistinctIds(rows)
    ensures Descending(NewestFirst(rows))
    ensures forall x :: x in NewestFirst(rows) <==> x in rows
  {
    if rows != [] {
      var last, rest := rows[|rows| - 1], rows[..|rows| - 1];
      NewestFirstSorts(rest);
      InsertKeeps(last, NewestFirst(rest));
      assert rows == rest + [last];
    }
  }

  lemma {:induction false} WhereKeeps(p: Override -> bool, rows: seq<Override>)
    requires DistinctIds(rows)
    ensures DistinctIds(Where(p, rows))
    ensures forall x :: x in Where(p, rows) <==> x in rows && p(x)
  {
    if rows != [] {
      var last, rest := rows[|rows| - 1], rows[..|rows| - 1];
      WhereKeeps(p, rest);
      assert rows == rest + [last];
      forall i | 0 <= i < |Where(p, rest)| ensures Where(p, rest)[i].id != last.id {
        assert Where(p, rest)[i] in rest;
      }
    }
  }

  lemma {:induction false} FirstSuchIsNewest(p: Override -> bool, xs: seq<Override>)
    requires Descending(xs)
    ensures FirstSuch(p, xs).None? ==> forall x :: x in xs ==> !p(x)
    ensures FirstSuch(p, xs).Some? ==> var o := FirstSuch(p, xs).value;
      o in xs && p(o) && forall x :: x in xs && p(x) && x != o ==> Newer(o, x)
  {
    if xs != [] {
      FirstSuchIsNewest(p, xs[1..]);
      assert forall x :: x in xs ==> x == xs[0] || x in xs[1..];
    }
  }

  ghost function Members(xs: seq<Override>): set<Override> { set r | r in xs }

  lemma {:induction false} PrefixSize(xs: seq<Override>, k: nat)
    requires Descending(xs) && k <= |xs|
    ensures |Members(xs[..k])| == k
  {
    if k == 0 {
      assert Members(xs[..k]) == {};
    } else {
      PrefixSize(xs, k - 1);
      assert xs[..k] == xs[..k - 1] + [xs[k - 1]];
      assert Members(xs[..k]) == Members(xs[..k - 1]) + {xs[k - 1]};
    }
  }

  /** In a list ordered newest first, element k has exactly k newer elements. */
  lemma RankIsPosition(xs: seq<Override>, k: nat)
    requires Descending(xs) && k < |xs|
    ensures |set r | r in xs && Newer(r, xs[k])| == k
  {
    PrefixSize(xs, k);
    var newer := set r | r in xs && Newer(r, xs[k]);
    forall r | r in newer ensures r in Members(xs[..k]) {
      var i :| 0 <= i < |xs| && xs[i] == r;
      assert i < k;
    }
    assert newer == Members(xs[..k]);
  }

  lemma QueryList(rows: seq<Override>, p: Override -> bool)
    requires DistinctIds(rows)
    ensures Descending(NewestFirst(Where(p, rows)))
    ensures forall x :: x in NewestFirst(Where(p, rows)) <==> x in rows && p(x)
  {
    WhereKeeps(p, rows);
    NewestFirstSorts(Where(p, rows));
  }

  /** Looking only at the first 50 finds the first hit when its position is below 50. */
  lemma FirstSuchOfPrefix(p: Override -> bool, xs: seq<Override>)
    requires Descending(xs)
    ensures forall k :: 0 <= k < |xs| ==>
      (FirstSuch(p, Limited(xs)) == Some(xs[k]) <==> k < LIMIT && FirstSuch(p, xs) == Some(xs[k]))
    ensures FirstSuch(p, Limited(xs)).Some? ==> FirstSuch(p, Limited(xs)).value in xs
  {
    var ys := Limited(xs);
    FirstSuchIsNewest(p, xs);
    FirstSuchIsNewest(p, ys);
    assert forall y :: y in ys ==> y in xs;
    forall k | 0 <= k < |xs|
      ensures FirstSuch(p, ys) == Some(xs[k]) <==> k < LIMIT && FirstSuch(p, xs) == Some(xs[k])
    {
      if k < LIMIT { assert xs[k] == ys[k]; }
    }
  }

  /** Exactly what EffectiveOverrideOf answers: the newest active row, provided fewer
      than 50 matching rows are newer than it. */
  lemma EffectiveExact(rows: seq<Override>, target: string, t: int, actions: set<Action>, o: Override)
    requires DistinctIds(rows)
    ensures EffectiveOverrideOf(rows, target, t, actions) == Some(o)
       <==> Governs(rows, target, t, actions, o) && |NewerMatches(rows, target, t, actions, o)| < 50
  {
    var p := Matching(target, t, actions);
    var xs := NewestFirst(Where(p, rows));
    QueryList(rows, p);
    FirstSuchIsNewest(IsActive(t), xs);
    FirstSuchOfPrefix(IsActive(t), xs);
    if o in xs {
      var k :| 0 <= k < |xs| && xs[k] == o;
      RankIsPosition(xs, k);
      assert NewerMatches(rows, target, t, actions, o) == set r | r in xs && Newer(r, xs[k]);
    }
  }

  /** What it answers, spelled out: a row of the target with one of the actions, in force at t,
      such that any other row of that kind in force at t was created earlier, or in the same
      second and inserted earlier. */
  lemma EffectiveIsNewest(rows: seq<Override>, target: string, t: int, actions: set<Action>)
    requires ValidRows(rows)
    ensures var e := EffectiveOverrideOf(rows, target, t, actions);
      && (e.Some? ==> InForce(rows, target, t, actions, e.value))
      && (e.Some? ==> forall r :: InForce(rows, target, t, actions, r) && r != e.value ==>
            r.createdAt < e.value.createdAt || (r.createdAt == e.value.createdAt && r.id < e.value.id))
      && (e.None? && |Where(Matching(target, t, actions), rows)| <= 50 ==>
            forall r :: !InForce(rows, target, t, actions, r))
  {
    hide EffectiveOverrideOf;
    var e := EffectiveOverrideOf(rows, target, t, actions);
    if e.Some? {
      EffectiveExact(rows, target, t, actions, e.value);
    } else if |Where(Matching(target, t, actions), rows)| <= 50 {
      EffectiveNone(rows, target, t, actions);
    }
  }

  ghost predicate InForce(rows: seq<Override>, target: string, t: int, actions: set<Action>, r: Override) {
    && r in rows && r.target == target && r.action in actions && r.createdAt <= t
    && (r.until.None? || t < r.until.value) && (r.cancelledAt.None? || t < r.cancelledAt.value)
  }

  /** The row limit can hide a governing row: an "off" with no expiry, then fifty newer
      rows that were all cancelled. */
  lemma LimitCanHide()
    ensures ValidRows(ForgottenOff()) && Governs(ForgottenOff(), "host", 51, POWER, ForgottenOff()[0])
    ensures EffectiveOverrideOf(ForgottenOff(), "host", 51, POWER) == None
  {
    var rows := ForgottenOff();
    ForgottenRank();
    assert rows[0] in rows;
    assert forall r :: r in rows && ActiveAt(r, 51) ==> r == rows[0];
    EffectiveExact(rows, "host", 51, POWER, rows[0]);
    var e := EffectiveOverrideOf(rows, "host", 51, POWER);
    if e.Some? { EffectiveExact(rows, "host", 51, POWER, e.value); }
  }

  lemma ForgottenRank()
    ensures |NewerMatches(ForgottenOff(), "host", 51, POWER, ForgottenOff()[0])| == 50
  {
    var rows := ForgottenOff();
    var xs := seq(51, i requires 0 <= i < 51 => rows[50 - i]);
    RankIsPosition(xs, 50);
    assert forall k :: 0 <= k < 51 ==> rows[k] == xs[50 - k];
    assert forall r :: r in rows <==> r in xs;
    assert NewerMatches(rows, "host", 51, POWER, rows[0]) == set r | r in xs && Newer(r, xs[50]);
  }

  function ForgottenOff(): (rows: seq<Override>)
    ensures |rows| == 51
  {
    seq(51, i => if i == 0 then Override(1, "host", Off, None, "user:a", 0, None)
                 else Override(i + 1, "host", On, None, "user:a", i, Some(i)))
  }

  /** Below the limit the answer is None exactly when no row is active. */
  lemma EffectiveNone(rows: seq<Override>, target: string, t: int, actions: set<Action>)
    requires DistinctIds(rows) && |Where(Matching(target, t, actions), rows)| <= LIMIT
    ensures EffectiveOverrideOf(rows, target, t, actions) == None
       <==> forall r :: r in rows && r.target == target && r.action in actions ==> !ActiveAt(r, t)
  {
    var p := Matching(target, t, actions);
    QueryList(rows, p);
    NewestFirstLength(Where(p, rows));
    FirstSuchIsNewest(IsActive(t), NewestFirst(Where(p, rows)));
  }

  /** Up to the row limit the query finds the governing row. */
  lemma GoverningRowIsFound(rows: seq<Override>, target: string, t: int, actions: set<Action>, o: Override)
    requires ValidRows(rows) && |Where(Matching(target, t, actions), rows)| <= LIMIT
    requires Governs(rows, target, t, actions, o)
    ensures EffectiveOverrideOf(rows, target, t, actions) == Some(o)
  {
    EffectiveNone(rows, target, t, actions);
    var e := EffectiveOverrideOf(rows, target, t, actions).value;
    EffectiveExact(rows, target, t, actions, e);
    assert e != o ==> Newer(e, o) && Newer(o, e);
  }

  lemma {:induction false} NewestFirstLength(rows: seq<Override>)
    ensures |NewestFirst(rows)| == |rows|
  {
    if rows != [] {
      NewestFirstLength(rows[..|rows| - 1]);
      InsertLength(rows[|rows| - 1], NewestFirst(rows[..|rows| - 1]));
    }
  }

  lemma {:induction false} InsertLength(o: Override, xs: seq<Override>)
    ensures |Insert(o, xs)| == |xs| + 1
  {
    if xs != [] { InsertLength(o, xs[1..]); }
  }

  // ----- one query for a whole range -----

  function IsPowerActive(t: int): Override -> bool { (o: Override) => ActiveAt(o, t) && o.action != IgnoreWeather }

  /** The first active on/off/pause row of the range query: what the timeline shows. */
  function ShownOverride(rows: seq<Override>, target: string, from: int, end: int, t: int): Option<Override> {
    FirstSuch(IsPowerActive(t), OverridesOverlapping(rows, target, from, end))
  }

  lemma ShownExact(rows: seq<Override>, target: string, from: int, end: int, t: int, o: Override)
    requires DistinctIds(rows) && from <= t < end
    ensures ShownOverride(rows, target, from, end, t) == Some(o) <==> Governs(rows, target, t, POWER, o)
  {
    var p := Overlapping(target, from, end);
    QueryList(rows, p);
    FirstSuchIsNewest(IsPowerActive(t), NewestFirst(Where(p, rows)));
  }

  /** One range query answers every instant of the range as a query per instant does. */
  lemma RangeQueryAgrees(rows: seq<Override>, target: string, from: int, end: int, t: int)
    requires DistinctIds(rows) && from <= t < end
    requires |Where(Matching(target, t, POWER), rows)| <= LIMIT
    ensures ShownOverride(rows, target, from, end, t) == EffectiveOverrideOf(rows, target, t, POWER)
  {
    var shown, effective := ShownOverride(rows, target, from, end, t), EffectiveOverrideOf(rows, target, t, POWER);
    EffectiveNone(rows, target, t, POWER);
    if shown.Some? { ShownExact(rows, target, from, end, t, shown.value); }
    if effective.Some? {
      EffectiveExact(rows, target, t, POWER, effective.value);
      ShownExact(rows, target, from, end, t, effective.value);
    }
  }

  /** ignore_weather rows, however many and wherever, never shadow an on/off/pause row. */
  lemma IgnoreWeatherNeverShadows(rows: seq<Override>, more: seq<Override>, target: string, from: int, end: int, t: int)
    requires DistinctIds(rows) && DistinctIds(more) && from <= t < end
    requires forall o: Override :: o.action in POWER ==> (o in rows <==> o in more)
    ensures EffectiveOverrideOf(rows, target, t, POWER) == EffectiveOverrideOf(more, target, t, POWER)
    ensures ShownOverride(rows, target, from, end, t) == ShownOverride(more, target, from, end, t)
  {
    forall o: Override
      ensures EffectiveOverrideOf(rows, target, t, POWER) == Some(o)
         <==> EffectiveOverrideOf(more, target, t, POWER) == Some(o)
      ensures ShownOverride(rows, target, from, end, t) == Some(o)
         <==> ShownOverride(more, target, from, end, t) == Some(o)
    {
      EffectiveExact(rows, target, t, POWER, o);
      EffectiveExact(more, target, t, POWER, o);
      ShownExact(rows, target, from, end, t, o);
      ShownExact(more, target, from, end, t, o);
      assert NewerMatches(rows, target, t, POWER, o) == NewerMatches(more, target, t, POWER, o);
    }
  }

  /** The query over all actions, which the engine makes for guests, answers the governing
      on/off/pause row exactly when no active ignore_weather row of the target is newer. */
  lemma AllActionsQueryShadowed(rows: seq<Override>, target: string, t: int, power: Override)
    requires ValidRows(rows) && |Where(Matching(target, t, ANY), rows)| <= LIMIT
    requires Governs(rows, target, t, POWER, power)
    ensures EffectiveOverride(rows, target, t) == Some(power)
       <==> (forall r :: r in rows && r.target == target && r.action == IgnoreWeather && ActiveAt(r, t) ==>
               Newer(power, r))
  {
    EffectiveExact(rows, target, t, ANY, power);
    if Governs(rows, target, t, ANY, power) { GoverningRowIsFound(rows, target, t, ANY, power); }
  }

  /** An "off" for a guest and a newer ignore_weather row for it: the query restricted to
      power actions answers the "off", the query over all actions does not. */
  lemma IgnoreWeatherHidesOff()
    ensures var off, ignore := Override(1, "a", Off, None, "user:a", 10, None),
                               Override(2, "a", IgnoreWeather, None, "user:a", 20, None);
      && ValidRows([off, ignore])
      && EffectiveOverrideOf([off, ignore], "a", 30, POWER) == Some(off)
      && EffectiveOverride([off, ignore], "a", 30) == Some(ignore)
  {
    var off := Override(1, "a", Off, None, "user:a", 10, None);
    var ignore := Override(2, "a", IgnoreWeather, None, "user:a", 20, None);
    var rows := [off, ignore];
    assert rows[0] in rows && rows[1] in rows;
    assert NewerMatches(rows, "a", 30, POWER, off) == {};
    assert NewerMatches(rows, "a", 30, ANY, ignore) == {};
    EffectiveExact(rows, "a", 30, POWER, off);
    EffectiveExact(rows, "a", 30, ANY, ignore);
  }

  // ----- the past does not change -----

  /** b is row a, possibly cancelled since `stamp`. */
  ghost predicate Aged(a: Override, b: Override, stamp: int) {
    && b.(cancelledAt := a.cancelledAt) == a
    && (b.cancelledAt == a.cancelledAt
        || (a.cancelledAt.None? && b.cancelledAt.Some? && stamp < b.cancelledAt.value))
  }

  ghost predicate Twins(xs: seq<Override>, ys: seq<Override>, stamp: int) {
    |xs| == |ys| && forall i :: 0 <= i < |xs| ==> Aged(xs[i], ys[i], stamp)
  }

  /** What may happen to the table strictly after `stamp`: rows are added and cancelled. */
  ghost predicate Evolves(rows: seq<Override>, later: seq<Override>, stamp: int) {
    && |rows| <= |later|
    && Twins(rows, later[..|rows|], stamp)
    && forall i :: |rows| <= i < |later| ==> stamp < later[i].createdAt
  }

  /** Any number of later changes is again one evolution. */
  lemma EvolvesTransitive(rows: seq<Override>, mid: seq<Override>, later: seq<Override>, stamp: int)
    requires Evolves(rows, mid, stamp) && Evolves(mid, later, stamp)
    ensures Evolves(rows, later, stamp)
  {
    forall i | 0 <= i < |rows| ensures Aged(rows[i], later[i], stamp) {
      assert mid[..|rows|][i] == mid[i] && later[..|mid|][i] == later[i];
      assert Aged(rows[i], mid[i], stamp) && Aged(mid[i], later[i], stamp);
    }
    forall i | |rows| <= i < |later| ensures stamp < later[i].createdAt {
      if i < |mid| {
        assert later[..|mid|][i] == later[i];
        assert Aged(mid[i], later[i], stamp);
      }
    }
  }

  lemma {:induction false} WhereTwins(rows: seq<Override>, later: seq<Override>, stamp: int, target: string, t: int,
                                      actions: set<Action>)
    requires Evolves(rows, later, stamp) && t <= stamp
    ensures Twins(Where(Matching(target, t, actions), rows), Where(Matching(target, t, actions), later), stamp)
    decreases |later|
  {
    if |later| > |rows| {
      assert later[..|later| - 1][..|rows|] == later[..|rows|];
      WhereTwins(rows, later[..|later| - 1], stamp, target, t, actions);
    } else if rows != [] {
      var rest := later[..|later| - 1];
      assert rest[..|rest|] == rest;
      WhereTwins(rows[..|rows| - 1], rest, stamp, target, t, actions);
    }
  }

  lemma {:induction false} InsertTwins(a: Override, b: Override, xs: seq<Override>, ys: seq<Override>, stamp: int)
    requires Aged(a, b, stamp) && Twins(xs, ys, stamp)
    ensures Twins(Insert(a, xs), Insert(b, ys), stamp)
    decreases |xs|
  {
    if xs != [] { InsertTwins(a, b, xs[1..], ys[1..], stamp); }
  }

  lemma {:induction false} NewestFirstTwins(xs: seq<Override>, ys: seq<Override>, stamp: int)
    requires Twins(xs, ys, stamp)
    ensures Twins(NewestFirst(xs), NewestFirst(ys), stamp)
    decreases |xs|
  {
    if xs != [] {
      var n := |xs| - 1;
      NewestFirstTwins(xs[..n], ys[..n], stamp);
      InsertTwins(xs[n], ys[n], NewestFirst(xs[..n]), NewestFirst(ys[..n]), stamp);
    }
  }

  lemma {:induction false} FirstSuchTwins(t: int, xs: seq<Override>, ys: seq<Override>, stamp: int)
    requires Twins(xs, ys, stamp) && t <= stamp
    ensures FirstSuch(IsActive(t), xs).None? <==> FirstSuch(IsActive(t), ys).None?
    ensures FirstSuch(IsActive(t), xs).Some? ==>
              Aged(FirstSuch(IsActive(t), xs).value, FirstSuch(IsActive(t), ys).value, stamp)
    decreases |xs|
  {
    if xs != [] { FirstSuchTwins(t, xs[1..], ys[1..], stamp); }
  }

  /** Asking later about an instant no later than `stamp` names the same row. */
  lemma PastIsStable(rows: seq<Override>, later: seq<Override>, stamp: int, target: string, t: int,
                     actions: set<Action>)
    requires Evolves(rows, later, stamp) && t <= stamp
    ensures var a, b := EffectiveOverrideOf(rows, target, t, actions), EffectiveOverrideOf(later, target, t, actions);
      (a.None? <==> b.None?) && (a.Some? ==> Aged(a.value, b.value, stamp))
  {
    var p := Matching(target, t, actions);
    WhereTwins(rows, later, stamp, target, t, actions);
    NewestFirstTwins(Where(p, rows), Where(p, later), stamp);
    FirstSuchTwins(t, Limited(NewestFirst(Where(p, rows))), Limited(NewestFirst(Where(p, later))), stamp);
  }

  // ----- the table -----

  class OverrideTable {
    var rows: seq<Override>

    constructor ()
      ensures rows == [] && ValidRows(rows)
    {
      rows := [];
    }

    method CreateOverride(target: string, action: Action, until: Option<int>, createdBy: string, createdAt: int)
      returns (id: int)
      requires ValidRows(rows)
      modifies this
      ensures ValidRows(rows) && id == |rows|
      ensures rows == old(rows) + [Override(id, target, action, until, createdBy, createdAt, None)]
      ensures forall stamp :: stamp < createdAt ==> Evolves(old(rows), rows, stamp)
    {
      id := |rows| + 1;
      rows := rows + [Override(id, target, action, until, createdBy, createdAt, None)];
      assert rows[..|old(rows)|] == old(rows);
    }

    /** Cancelling an unknown or already cancelled row is an error and changes nothing. */
    method CancelOverride(id: int, now: int) returns (found: bool)
      requires ValidRows(rows)
      modifies this
      ensures ValidRows(rows)
      ensures found <==> exists r :: r in old(rows) && r.id == id && r.cancelledAt.None?
      ensures !found ==> rows == old(rows)
      ensures found ==> 1 <= id <= |old(rows)|
      ensures found ==> rows == old(rows)[id - 1 := old(rows)[id - 1].(cancelledAt := Some(now))]
      ensures forall stamp :: stamp < now ==> Evolves(old(rows), rows, stamp)
    {
      found := 1 <= id <= |rows| && rows[id - 1].cancelledAt.None?;
      if found {
        assert rows[id - 1] in rows;
        rows := rows[id - 1 := rows[id - 1].(cancelledAt := Some(now))];
      }
      assert rows[..|old(rows)|] == rows;
    }

    method EffectiveOf(target: string, t: int, actions: set<Action>) returns (found: Option<Override>)
      ensures found == EffectiveOverrideOf(rows, target, t, actions)
    {
      var xs := Limited(NewestFirst(Where(Matching(target, t, actions), rows)));
      var k := 0;
      while k < |xs|
        invariant 0 <= k <= |xs|
        invariant FirstSuch(IsActive(t), xs) == FirstSuch(IsActive(t), xs[k..])
      {
        if ActiveAt(xs[k], t) { return Some(xs[k]); }
        k := k + 1;
      }
      return None;
    }
  }
}
