/** On/off signals over whole seconds and the boundaries between their states: the
    reference a schedule's Crossings is measured against. */
module Signals {
  import opened Prelude

  type Signal = int -> bool

  datatype Boundary = Boundary(at: int, on: bool)

  /** The changes of a signal in (from, upto], found by looking at every second. */
  ghost function Changes(f: Signal, from: int, upto: int): seq<Boundary>
    decreases upto - from
  {
    if upto <= from then [] else
      Changes(f, from, upto - 1) + (if f(upto) != f(upto - 1) then [Boundary(upto, f(upto))] else [])
  }

  /** The state a list of boundaries stands for at t: the flag of the last boundary
      at or before t, or `initial` when there is none. */
  function StateAfter(initial: bool, bs: seq<Boundary>, t: int): bool {
    if bs == [] then initial
    else if bs[|bs| - 1].at <= t then bs[|bs| - 1].on
    else StateAfter(initial, bs[..|bs| - 1], t)
  }

  /** Strictly increasing boundaries in (from, upto] that flip the state each time. */
  ghost predicate Alternating(initial: bool, from: int, upto: int, bs: seq<Boundary>) {
    && (forall i :: 0 <= i < |bs| ==> from < bs[i].at <= upto)
    && (forall i, j :: 0 <= i < j < |bs| ==> bs[i].at < bs[j].at)
    && (forall i :: 0 <= i < |bs| ==> bs[i].on == (if i % 2 == 0 then !initial else initial))
  }

  /** Keep a candidate instant when the signal there differs from the last kept state. */
  function Scan(f: Signal, prev: bool, cs: seq<int>): seq<Boundary>
    decreases |cs|
  {
    if cs == [] then []
    else if f(cs[0]) != prev then [Boundary(cs[0], f(cs[0]))] + Scan(f, f(cs[0]), cs[1..])
    else Scan(f, prev, cs[1..])
  }

  lemma {:induction false} ChangesShape(f: Signal, from: int, upto: int)
    ensures Alternating(f(from), from, upto, Changes(f, from, upto))
    ensures from <= upto ==> (f(upto) <==> (f(from) == (|Changes(f, from, upto)| % 2 == 0)))
    decreases upto - from
  {
    if from < upto { ChangesShape(f, from, upto - 1); }
  }

  lemma {:induction false} ChangesCongruent(f: Signal, g: Signal, from: int, upto: int)
    requires forall t :: from <= t <= upto ==> f(t) == g(t)
    ensures Changes(f, from, upto) == Changes(g, from, upto)
    decreases upto - from
  {
    if from < upto { ChangesCongruent(f, g, from, upto - 1); }
  }

  lemma {:induction false} ChangesSplit(f: Signal, a: int, b: int, c: int)
    requires a <= b <= c
    ensures Changes(f, a, c) == Changes(f, a, b) + Changes(f, b, c)
    decreases c - b
  {
    if b < c {
      ChangesSplit(f, a, b, c - 1);
    } else {
      assert Changes(f, b, c) == [];
    }
  }

  lemma {:induction false} StateAfterAppend(initial: bool, xs: seq<Boundary>, ys: seq<Boundary>, t: int)
    requires forall i :: 0 <= i < |ys| ==> t < ys[i].at
    ensures StateAfter(initial, xs + ys, t) == StateAfter(initial, xs, t)
    decreases |ys|
  {
    if ys == [] {
      assert xs + ys == xs;
    } else {
      assert (xs + ys)[..|xs + ys| - 1] == xs + ys[..|ys| - 1];
      StateAfterAppend(initial, xs, ys[..|ys| - 1], t);
    }
  }

  /** Decoding the changes gives back the state at every instant of the range. */
  lemma {:induction false} ChangesDecode(f: Signal, from: int, upto: int, t: int)
    requires from <= t <= upto
    ensures StateAfter(f(from), Changes(f, from, upto), t) == f(t)
    decreases upto - from
  {
    if t < upto {
      ChangesDecode(f, from, upto - 1, t);
      StateAfterAppend(f(from), Changes(f, from, upto - 1),
        if f(upto) != f(upto - 1) then [Boundary(upto, f(upto))] else [], t);
    } else if from < upto {
      ChangesDecode(f, from, upto - 1, upto - 1);
      ChangesShape(f, from, upto - 1);
      LastBefore(f(from), Changes(f, from, upto - 1), upto - 1, upto);
    }
  }

  lemma LastBefore(initial: bool, bs: seq<Boundary>, t: int, u: int)
    requires forall i :: 0 <= i < |bs| ==> bs[i].at <= t
    requires t <= u
    ensures StateAfter(initial, bs, t) == StateAfter(initial, bs, u)
  {
  }

  /** No other alternating list describes the same states: the description is full. */
  lemma {:induction false} DescriptionIsUnique(initial: bool, from: int, upto: int, xs: seq<Boundary>,
                                               ys: seq<Boundary>)
    requires Alternating(initial, from, upto, xs) && Alternating(initial, from, upto, ys)
    requires forall t :: from <= t <= upto ==> StateAfter(initial, xs, t) == StateAfter(initial, ys, t)
    ensures xs == ys
    decreases |xs| + |ys|
  {
    if xs == [] && ys == [] {
    } else if xs == [] || (ys != [] && xs[|xs| - 1].at < ys[|ys| - 1].at) {
      var t := LastFlips(initial, from, upto, ys, xs);
    } else if ys == [] || ys[|ys| - 1].at < xs[|xs| - 1].at {
      var t := LastFlips(initial, from, upto, xs, ys);
    } else {
      var a := xs[|xs| - 1].at;
      var xs', ys' := xs[..|xs| - 1], ys[..|ys| - 1];
      assert StateAfter(initial, xs, a) == StateAfter(initial, ys, a);
      forall t | from <= t <= a - 1 ensures StateAfter(initial, xs', t) == StateAfter(initial, ys', t) {
        assert StateAfter(initial, xs, t) == StateAfter(initial, ys, t);
      }
      DescriptionIsUnique(initial, from, a - 1, xs', ys');
      assert xs == xs' + [xs[|xs| - 1]] && ys == ys' + [ys[|ys| - 1]];
    }
  }

  /** A last boundary later than every boundary of `ys` is a change `ys` does not show. */
  lemma LastFlips(initial: bool, from: int, upto: int, xs: seq<Boundary>, ys: seq<Boundary>) returns (t: int)
    requires Alternating(initial, from, upto, xs) && Alternating(initial, from, upto, ys) && xs != []
    requires ys == [] || ys[|ys| - 1].at < xs[|xs| - 1].at
    ensures from <= t <= upto && StateAfter(initial, xs, t) != StateAfter(initial, ys, t)
  {
    var last := |xs| - 1;
    var a := xs[last].at;
    var xs' := xs[..last];
    LastBefore(initial, ys, a - 1, a);
    assert StateAfter(initial, xs, a - 1) == StateAfter(initial, xs', a - 1);
    if last > 0 { assert xs'[last - 1].at <= a - 1; }
    assert StateAfter(initial, xs, a) != StateAfter(initial, xs, a - 1);
    t := if StateAfter(initial, xs, a) != StateAfter(initial, ys, a) then a else a - 1;
  }

  lemma {:induction false} QuietSpan(f: Signal, from: int, upto: int)
    requires from <= upto
    requires forall t :: from < t <= upto ==> f(t) == f(t - 1)
    ensures Changes(f, from, upto) == [] && f(upto) == f(from)
    decreases upto - from
  {
    if from < upto { QuietSpan(f, from, upto - 1); }
  }

  lemma ChangesThroughFirst(f: Signal, from: int, c: int)
    requires from < c
    requires forall t :: from < t < c ==> f(t) == f(t - 1)
    ensures Changes(f, from, c) == if f(c) != f(from) then [Boundary(c, f(c))] else []
  {
    QuietSpan(f, from, c - 1);
  }

  ghost predicate ListsChanges(f: Signal, from: int, upto: int, cs: seq<int>) {
    forall t :: from < t <= upto && f(t) != f(t - 1) ==> t in cs
  }

  lemma {:induction false} ScanFindsChanges(f: Signal, from: int, upto: int, cs: seq<int>)
    requires from <= upto && Increasing(cs)
    requires forall c :: c in cs ==> from < c <= upto
    requires ListsChanges(f, from, upto, cs)
    ensures Scan(f, f(from), cs) == Changes(f, from, upto)
    decreases |cs|
  {
    if cs == [] {
      QuietSpan(f, from, upto);
    } else {
      var c := cs[0];
      assert c in cs;
      assert forall t :: t in cs ==> t == c || t in cs[1..];
      assert forall t :: t in cs[1..] ==> t in cs && c < t;
      ChangesThroughFirst(f, from, c);
      ChangesSplit(f, from, c, upto);
      ScanFindsChanges(f, c, upto, cs[1..]);
    }
  }

  /** A signal keeps its value over a span exactly when it has no change there. */
  lemma NoChangeMeansConstant(f: Signal, from: int, upto: int)
    requires from <= upto
    ensures Changes(f, from, upto) == [] <==> (forall t :: from <= t <= upto ==> f(t) == f(from))
  {
    var bs := Changes(f, from, upto);
    ChangesShape(f, from, upto);
    if bs == [] {
      forall t | from <= t <= upto ensures f(t) == f(from) { ChangesDecode(f, from, upto, t); }
    } else {
      ChangesDecode(f, from, upto, bs[0].at);
      FirstFlips(f(from), bs);
    }
  }

  lemma {:induction false} FirstFlips(initial: bool, bs: seq<Boundary>)
    requires bs != [] && forall i, j :: 0 <= i < j < |bs| ==> bs[i].at < bs[j].at
    ensures StateAfter(initial, bs, bs[0].at) == bs[0].on
  {
    if |bs| > 1 { FirstFlips(initial, bs[..|bs| - 1]); }
  }
}
