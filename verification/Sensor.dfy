/** The pruned detection buffer of internal/sensor/as3935/watcher.go. */
module Sensor {
  import opened Prelude

  const DEFAULT_RETAIN := 30 * 60

  function Since(xs: seq<int>, since: int): seq<int> {
    if xs == [] then [] else (if xs[0] >= since then [xs[0]] else []) + Since(xs[1..], since)
  }

  /** out lists, in order and as often, the times in xs that are not before since. */
  ghost predicate Lists(out: seq<int>, xs: seq<int>, since: int) {
    && (forall x :: multiset(out)[x] == if x >= since then multiset(xs)[x] else 0)
    && exists at: seq<int> ::
         && |at| == |out| && (forall k :: 0 <= k < |at| ==> 0 <= at[k] < |xs| && out[k] == xs[at[k]])
         && (forall k, l :: 0 <= k < l < |at| ==> at[k] < at[l])
  }

  lemma {:induction false} SinceCounts(xs: seq<int>, since: int, x: int)
    ensures multiset(Since(xs, since))[x] == if x >= since then multiset(xs)[x] else 0
  {
    if xs != [] {
      SinceCounts(xs[1..], since, x);
      assert xs == [xs[0]] + xs[1..];
    }
  }

  lemma {:induction false} SincePositions(xs: seq<int>, since: int) returns (at: seq<int>)
    ensures |at| == |Since(xs, since)|
    ensures forall k :: 0 <= k < |at| ==> 0 <= at[k] < |xs| && Since(xs, since)[k] == xs[at[k]]
    ensures forall k, l :: 0 <= k < l < |at| ==> at[k] < at[l]
  {
    at := [];
    if xs != [] {
      var rest := SincePositions(xs[1..], since);
      var moved := seq(|rest|, k requires 0 <= k < |rest| => rest[k] + 1);
      at := if xs[0] >= since then [0] + moved else moved;
    }
  }

  lemma SinceLists(xs: seq<int>, since: int)
    ensures Lists(Since(xs, since), xs, since)
  {
    forall x ensures multiset(Since(xs, since))[x] == if x >= since then multiset(xs)[x] else 0 {
      SinceCounts(xs, since, x);
    }
    var at := SincePositions(xs, since);
  }

  /** The buffer is a suffix of everything recorded, and every dropped detection is
      more than `retain` older than some later one. */
  ghost predicate Prunes(history: seq<int>, buffer: seq<int>, retain: int) {
    && |buffer| <= |history|
    && buffer == history[|history| - |buffer|..]
    && forall i :: 0 <= i < |history| - |buffer| ==> Outlived(history, i, retain)
  }

  ghost predicate Outlived(history: seq<int>, i: int, retain: int)
    requires 0 <= i < |history|
  {
    exists j :: i < j < |history| && history[i] < history[j] - retain
  }

  /** The pruning loop: leading detections older than the cutoff go. */
  function DropOld(xs: seq<int>, cutoff: int): seq<int> {
    if xs != [] && xs[0] < cutoff then DropOld(xs[1..], cutoff) else xs
  }

  lemma {:induction false} SinceSkipsOld(xs: seq<int>, n: nat, since: int)
    requires n <= |xs| && forall i :: 0 <= i < n ==> xs[i] < since
    ensures Since(xs, since) == Since(xs[n..], since)
    decreases n
  {
    if n > 0 {
      SinceSkipsOld(xs[1..], n - 1, since);
      assert xs[1..][n - 1..] == xs[n..];
    } else {
      assert xs[n..] == xs;
    }
  }

  /** The buffer answers like the full history for any `since` no earlier than the latest
      recorded time minus retain, whatever the order of the recorded times. */
  lemma PrunedAnswersAsHistory(history: seq<int>, buffer: seq<int>, retain: int, since: int)
    requires Prunes(history, buffer, retain)
    requires forall j :: 0 <= j < |history| ==> history[j] - retain <= since
    ensures Since(buffer, since) == Since(history, since)
  {
    forall i | 0 <= i < |history| - |buffer| ensures history[i] < since { assert Outlived(history, i, retain); }
    SinceSkipsOld(history, |history| - |buffer|, since);
  }

  /** One instant earlier than that and a detection may be missing. */
  lemma EarlierSinceCanMiss(retain: int)
    requires retain >= 0
    ensures var history := [0, retain + 1];
      Prunes(history, history[1..], retain) && Since(history[1..], 0) != Since(history, 0)
  {
    var history := [0, retain + 1];
    assert history[0] < history[1] - retain;
    assert Outlived(history, 0, retain);
  }

  class Watcher {
    const retain: int
    var detections: seq<int>
    ghost var history: seq<int>

    ghost predicate Valid()
      reads this
    {
      retain > 0 && Prunes(history, detections, retain)
    }

    constructor (retain: int)
      ensures Valid() && history == [] && detections == []
      ensures this.retain == if retain <= 0 then 1800 else retain
    {
      this.retain := if retain <= 0 then DEFAULT_RETAIN else retain;
      detections, history := [], [];
    }

    /** Appends, then drops detections from the front while they are older than at - retain. */
    method Record(at: int)
      requires Valid()
      modifies this
      ensures Valid() && history == old(history) + [at]
      ensures detections == DropOld(old(detections) + [at], at - retain)
    {
      var all := detections + [at];
      var cutoff := at - retain;
      var i := 0;
      while i < |all| && all[i] < cutoff
        invariant 0 <= i <= |all|
        invariant DropOld(all, cutoff) == DropOld(all[i..], cutoff)
      {
        i := i + 1;
      }
      DropKeepsPruning(history, detections, retain, at);
      detections := all[i..];
      history := history + [at];
    }

    method Detections(since: int) returns (out: seq<int>)
      requires Valid()
      ensures out == Since(detections, since) && Lists(out, detections, since)
      ensures (forall j :: 0 <= j < |history| ==> history[j] - retain <= since) ==>
        out == Since(history, since) && Lists(out, history, since)
    {
      out := [];
      var k := 0;
      while k < |detections|
        invariant 0 <= k <= |detections|
        invariant out + Since(detections[k..], since) == Since(detections, since)
      {
        if detections[k] >= since { out := out + [detections[k]]; }
        k := k + 1;
      }
      SinceLists(detections, since);
      SinceLists(history, since);
      if forall j :: 0 <= j < |history| ==> history[j] - retain <= since {
        PrunedAnswersAsHistory(history, detections, retain, since);
      }
    }
  }

  lemma {:induction false} DropOldIsSuffix(xs: seq<int>, cutoff: int) returns (n: nat)
    ensures n <= |xs| && DropOld(xs, cutoff) == xs[n..]
    ensures forall i :: 0 <= i < n ==> xs[i] < cutoff
    ensures n < |xs| ==> xs[n] >= cutoff
  {
    n := 0;
    if xs != [] && xs[0] < cutoff {
      var m := DropOldIsSuffix(xs[1..], cutoff);
      n := m + 1;
    }
  }

  /** Recording keeps the buffer a suffix of the history without its outdated part. */
  lemma DropKeepsPruning(history: seq<int>, buffer: seq<int>, retain: int, at: int)
    requires retain > 0 && Prunes(history, buffer, retain)
    ensures Prunes(history + [at], DropOld(buffer + [at], at - retain), retain)
  {
    var h, b := history + [at], buffer + [at];
    var n := DropOldIsSuffix(b, at - retain);
    assert b[|b| - 1] >= at - retain;
    var start := |h| - |b|;
    assert b[n..] == h[start + n..] by { assert b == h[start..]; }
    forall i | 0 <= i < start + n ensures Outlived(h, i, retain) {
      if i < start {
        assert Outlived(history, i, retain);
        var j :| i < j < |history| && history[i] < history[j] - retain;
        assert h[i] < h[j] - retain;
      } else {
        assert h[i] == b[i - start];
        assert h[i] < h[|history|] - retain;
      }
    }
  }
}
