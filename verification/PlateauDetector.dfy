/** The plateau detector: a sliding window of samples and one event between resets. */
module PlateauDetection {
  import opened Wrappers

  datatype Config = Config(
    windowSec: nat, maxNewPaths: nat, minExecsDelta: nat, minExecsPerSec: real, minSamples: nat,
    requireMonotonic: bool, disabled: bool, edgesGrowthPct: nat, edgesGrowthFloor: nat,
    jumpFloor: nat, jumpCeiling: nat)

  datatype Stats = Stats(
    sampledAt: int, execsDone: nat, pathsTotal: nat, edgesFound: nat, uniqueCrashes: nat,
    lastPath: nat, execsPerSec: real, stale: bool)

  datatype Reason = NoNewCoverage | NoNewPathsOnly | LowNewCoverage

  datatype Event = Event(
    detectedTs: nat, windowSec: nat, execsDelta: nat, newPathsDelta: nat, newEdgesDelta: nat,
    newCrashesDelta: nat, sampleCount: nat, reason: Reason)

  /** A signed difference cast to 64 unsigned bits. */
  function U64(x: int): nat { x % TWO_64 }

  function Delta(newer: nat, older: nat): nat { if newer >= older then newer - older else 0 }

  predicate InOrder(h: seq<Stats>) {
    forall i, j :: 0 <= i < j < |h| ==> h[i].sampledAt <= h[j].sampledAt
  }

  /** Timestamps whose differences fit the cast. */
  predicate Timed(h: seq<Stats>) {
    InOrder(h) && (h != [] ==> h[|h| - 1].sampledAt - h[0].sampledAt < TWO_64)
  }

  /** `w` holds exactly the samples of `h` that are at most `sec` older than the newest. */
  predicate IsRecent(w: seq<Stats>, h: seq<Stats>, sec: nat) {
    && |w| <= |h| && w == h[|h| - |w|..]
    && (forall i :: 0 <= i < |h| - |w| ==> h[|h| - 1].sampledAt - h[i].sampledAt > sec)
    && (forall i :: |h| - |w| <= i < |h| ==> h[|h| - 1].sampledAt - h[i].sampledAt <= sec)
  }

  // ---------- when a window is a plateau ----------

  function EdgeJumpCap(c: Config, oldest: Stats): nat {
    Min(c.jumpCeiling, Max(c.jumpFloor, Max(1, oldest.edgesFound / 100)))
  }

  /** No step between neighbouring samples gains too many paths, or, once there are edges, too many edges. */
  predicate StepsAreSmall(c: Config, w: seq<Stats>)
    requires w != []
  {
    && (forall i :: 0 < i < |w| ==> PathStep(w, i) <= c.maxNewPaths)
    && (w[0].edgesFound > 0 ==> forall i :: 0 < i < |w| ==> EdgeStep(w, i) <= EdgeJumpCap(c, w[0]))
  }

  /** The paths gained between neighbouring samples. */
  function PathStep(w: seq<Stats>, i: nat): nat
    requires 0 < i < |w|
  {
    Delta(w[i].pathsTotal, w[i - 1].pathsTotal)
  }

  function EdgeStep(w: seq<Stats>, i: nat): nat
    requires 0 < i < |w|
  {
    Delta(w[i].edgesFound, w[i - 1].edgesFound)
  }

  /** From the first to the last sample: enough executions, no crash, few paths, few edges. */
  predicate EndsAreFlat(c: Config, w: seq<Stats>)
    requires w != []
  {
    var oldest, newest := w[0], w[|w| - 1];
    && Delta(newest.execsDone, oldest.execsDone) >= c.minExecsDelta
    && newest.execsPerSec >= c.minExecsPerSec
    && Delta(newest.uniqueCrashes, oldest.uniqueCrashes) == 0
    && Delta(newest.pathsTotal, oldest.pathsTotal) <= c.maxNewPaths
    && Delta(newest.edgesFound, oldest.edgesFound)
         <= Max(c.edgesGrowthFloor, oldest.edgesFound * c.edgesGrowthPct / 100)
  }

  /** No path was found for a whole window before now. */
  predicate LastPathIsOld(c: Config, newest: Stats) {
    var now := U64(newest.sampledAt);
    newest.lastPath == 0 || (now >= newest.lastPath && now - newest.lastPath >= c.windowSec)
  }

  /** A window that reports a plateau. */
  predicate IsPlateau(c: Config, w: seq<Stats>) {
    && w != [] && |w| >= c.minSamples
    && (w[|w| - 1].sampledAt - w[0].sampledAt >= c.windowSec || c.windowSec == 0)
    && !w[|w| - 1].stale
    && (c.requireMonotonic && |w| >= 3 ==> StepsAreSmall(c, w))
    && EndsAreFlat(c, w)
    && LastPathIsOld(c, w[|w| - 1])
  }

  /** The report on a plateau. */
  function EventOf(c: Config, w: seq<Stats>): Event
    requires w != []
  {
    var oldest, newest := w[0], w[|w| - 1];
    var paths := Delta(newest.pathsTotal, oldest.pathsTotal);
    var edges := Delta(newest.edgesFound, oldest.edgesFound);
    Event(U64(newest.sampledAt), c.windowSec, Delta(newest.execsDone, oldest.execsDone), paths, edges,
          Delta(newest.uniqueCrashes, oldest.uniqueCrashes), |w|,
          if paths > 0 then LowNewCoverage else if edges > 0 then NoNewPathsOnly else NoNewCoverage)
  }

  /** What is left when the samples of `pushed` that are too old for `stats` are popped from the front. */
  predicate PoppedTo(pushed: seq<Stats>, w: seq<Stats>, stats: Stats, sec: nat) {
    && 0 < |w| <= |pushed| && w == pushed[|pushed| - |w|..]
    && (forall i :: 0 <= i < |pushed| - |w| ==> U64(stats.sampledAt - pushed[i].sampledAt) > sec)
    && (|w| == 1 || U64(stats.sampledAt - w[0].sampledAt) <= sec)
  }

  class PlateauDetector {
    const config: Config
    var window: seq<Stats>
    var emitted: bool
    var lastEmitTs: nat

    /** The samples, and the number of events, since the last reset. */
    ghost var history: seq<Stats>
    ghost var events: nat

    ghost predicate Valid()
      reads this
    {
      && (history == [] ==> window == [])
      && (history != [] ==> window != [])
      && (Timed(history) && history != [] ==> IsRecent(window, history, config.windowSec))
      && events == (if emitted then 1 else 0)
    }

    constructor (config: Config)
      ensures Valid() && this.config == config && history == [] && events == 0
    {
      this.config := config;
      window, emitted, lastEmitTs := [], false, 0;
      history, events := [], 0;
    }

    method Reset()
      modifies this
      ensures Valid() && history == [] && events == 0
    {
      window, emitted, lastEmitTs := [], false, 0;
      history, events := [], 0;
    }

    /** The largest steps in paths and in edges. */
    method WorstJumps() returns (paths: nat, edges: nat)
      requires window != []
      ensures forall i :: 0 < i < |window| ==> PathStep(window, i) <= paths && EdgeStep(window, i) <= edges
      ensures paths == 0 || exists i :: 0 < i < |window| && PathStep(window, i) == paths
      ensures edges == 0 || exists i :: 0 < i < |window| && EdgeStep(window, i) == edges
    {
      paths, edges := 0, 0;
      for k := 1 to |window|
        invariant forall i :: 0 < i < k ==> PathStep(window, i) <= paths && EdgeStep(window, i) <= edges
        invariant paths == 0 || exists i :: 0 < i < k && PathStep(window, i) == paths
        invariant edges == 0 || exists i :: 0 < i < k && EdgeStep(window, i) == edges
      {
        var prev, curr := window[k - 1], window[k];
        assert PathStep(window, k) == Delta(curr.pathsTotal, prev.pathsTotal);
        assert EdgeStep(window, k) == Delta(curr.edgesFound, prev.edgesFound);
        if curr.pathsTotal > prev.pathsTotal {
          paths := Max(paths, curr.pathsTotal - prev.pathsTotal);
        }
        if curr.edgesFound > prev.edgesFound {
          edges := Max(edges, curr.edgesFound - prev.edgesFound);
        }
      }
    }

    /** The loop that pops from the front. */
    method PopOld(stats: Stats, ghost pushed: seq<Stats>)
      requires window == pushed != [] && pushed[|pushed| - 1] == stats
      modifies this`window
      ensures PoppedTo(pushed, window, stats, config.windowSec)
      ensures window != [] && window[|window| - 1] == stats
    {
      while |window| > 1 && U64(stats.sampledAt - window[0].sampledAt) > config.windowSec
        invariant 0 < |window| <= |pushed| && window == pushed[|pushed| - |window|..]
        invariant forall i :: 0 <= i < |pushed| - |window| ==>
          U64(stats.sampledAt - pushed[i].sampledAt) > config.windowSec
      {
        window := window[1..];
      }
    }

    /** Push the sample and pop what has fallen out of the window. */
    method Slide(stats: Stats)
      requires Valid()
      modifies this`window, this`history
      ensures Valid() && history == old(history) + [stats]
      ensures window != [] && window[|window| - 1] == stats
    {
      hide IsRecent, Timed, PoppedTo;
      ghost var h0, w0 := history, window;
      ghost var pushed := window + [stats];
      window := window + [stats];
      PopOld(stats, pushed);
      history := history + [stats];
      if Timed(history) {
        SlideKeepsRecent(window, pushed, w0, h0, stats, config.windowSec);
      }
    }

    /**
      An event is reported exactly when none was since the last reset and the window is a plateau.
      With samples in time order the window is exactly the recent samples, so the event then spans
      exactly the configured window.
     */
    method AddSample(stats: Stats) returns (event: Option<Event>)
      requires Valid()
      modifies this
      ensures Valid()
      ensures config.disabled ==>
        event.None? && history == old(history) && window == old(window) && events == old(events)
      ensures !config.disabled ==>
        && history == old(history) + [stats]
        && (event.Some? <==> old(events) == 0 && IsPlateau(config, window))
        && events == old(events) + (if event.Some? then 1 else 0)
      ensures event.Some? ==> event.value == EventOf(config, window) && lastEmitTs == event.value.detectedTs
      ensures event.None? ==> lastEmitTs == old(lastEmitTs)
      ensures event.Some? ==>
        && event.value.sampleCount == |window| >= config.minSamples
        && event.value.newCrashesDelta == 0
        && event.value.newPathsDelta == Delta(stats.pathsTotal, window[0].pathsTotal) <= config.maxNewPaths
        && (Timed(history) ==> stats.sampledAt - window[0].sampledAt == event.value.windowSec == config.windowSec)
    {
      hide IsRecent, Timed, EndsAreFlat, LastPathIsOld, EventOf, U64, InOrder;
      if config.disabled {
        return None;
      }
      Slide(stats);
      if emitted {
        return None;
      }
      if |window| < config.minSamples {
        return None;
      }
      var oldest, newest := window[0], window[|window| - 1];
      var observed := if newest.sampledAt - oldest.sampledAt > 0 then newest.sampledAt - oldest.sampledAt else 0;
      if observed < config.windowSec {
        return None;
      }
      if newest.stale {
        return None;
      }
      if config.requireMonotonic && |window| >= 3 {
        var paths, edges := WorstJumps();
        if paths > config.maxNewPaths {
          return None;
        }
        if oldest.edgesFound > 0 {
          var cap := Min(config.jumpCeiling, Max(config.jumpFloor, Max(1, oldest.edgesFound / 100)));
          if edges > cap {
            return None;
          }
        }
      }
      event := Decide(oldest, newest);
      if event.Some? {
        emitted := true;
        lastEmitTs := event.value.detectedTs;
        events := events + 1;
        PlateauEvent(config, window);
        if Timed(history) {
          RecentSpans(window, history, config.windowSec);
        }
      }
    }

    /** The gate on the end points. */
    method Decide(oldest: Stats, newest: Stats) returns (event: Option<Event>)
      requires window != [] && oldest == window[0] && newest == window[|window| - 1]
      ensures event.Some? <==> EndsAreFlat(config, window) && LastPathIsOld(config, newest)
      ensures event.Some? ==> event.value == EventOf(config, window)
    {
      var execsDelta := Delta(newest.execsDone, oldest.execsDone);
      var pathsDelta := Delta(newest.pathsTotal, oldest.pathsTotal);
      var edgesDelta := Delta(newest.edgesFound, oldest.edgesFound);
      var crashesDelta := Delta(newest.uniqueCrashes, oldest.uniqueCrashes);
      var now := U64(newest.sampledAt);
      var staleLastPath := newest.lastPath == 0 || (now >= newest.lastPath &&
        now - newest.lastPath >= config.windowSec);
      var execsOk := execsDelta >= config.minExecsDelta && newest.execsPerSec >= config.minExecsPerSec;
      var edgeCap := Max(config.edgesGrowthFloor, oldest.edgesFound * config.edgesGrowthPct / 100);
      var noGrowth := pathsDelta <= config.maxNewPaths && edgesDelta <= edgeCap && crashesDelta == 0;
      if execsOk && noGrowth && staleLastPath {
        var reason := if pathsDelta == 0 && edgesDelta == 0 then NoNewCoverage
                      else if pathsDelta == 0 then NoNewPathsOnly else LowNewCoverage;
        return Some(Event(now, config.windowSec, execsDelta, pathsDelta, edgesDelta, crashesDelta, |window|, reason));
      }
      event := None;
    }
  }

  /** What the report on a plateau says. */
  lemma PlateauEvent(c: Config, w: seq<Stats>)
    requires IsPlateau(c, w)
    ensures var e, paths := EventOf(c, w), Delta(w[|w| - 1].pathsTotal, w[0].pathsTotal);
      && e.windowSec == c.windowSec && e.sampleCount == |w| >= c.minSamples
      && e.newCrashesDelta == 0 && e.newPathsDelta == paths <= c.maxNewPaths
  {
  }

  /** The recent samples are at most the window older than the newest. */
  lemma RecentSpans(w: seq<Stats>, h: seq<Stats>, sec: nat)
    requires w != [] && h != [] && IsRecent(w, h, sec)
    ensures 0 <= w[|w| - 1].sampledAt - w[0].sampledAt <= sec || !Timed(h)
  {
    assert w[0] == h[|h| - |w|] && w[|w| - 1] == h[|h| - 1];
  }

  /** Pushing a later sample: the window is still a suffix, and what was too old still is. */
  lemma PushStaysSuffix(w: seq<Stats>, h: seq<Stats>, stats: Stats, sec: nat)
    requires Timed(h + [stats])
    requires h == [] ==> w == []
    requires Timed(h) && h != [] ==> IsRecent(w, h, sec)
    ensures var h2 := h + [stats];
      && |w| <= |h| && w + [stats] == h2[|h2| - |w + [stats]|..]
      && h2[|h2| - 1] == stats
      && forall i :: 0 <= i < |h| - |w| ==> stats.sampledAt - h2[i].sampledAt > sec
  {
    var h2 := h + [stats];
    assert forall i :: 0 <= i < |h| ==> h2[i] == h[i];
    if h != [] {
      assert h2[|h| - 1].sampledAt <= h2[|h|].sampledAt;
      assert Timed(h);
    }
  }

  lemma PoppedIsSuffix(pushed: seq<Stats>, w: seq<Stats>, stats: Stats, sec: nat)
    requires PoppedTo(pushed, w, stats, sec)
    ensures 0 < |w| <= |pushed| && w == pushed[|pushed| - |w|..]
  {
  }

  lemma SlideKeepsRecent(w2: seq<Stats>, pushed: seq<Stats>, w: seq<Stats>, h: seq<Stats>, stats: Stats, sec: nat)
    requires Timed(h + [stats]) && pushed == w + [stats]
    requires h == [] ==> w == []
    requires Timed(h) && h != [] ==> IsRecent(w, h, sec)
    requires PoppedTo(pushed, w2, stats, sec)
    ensures IsRecent(w2, h + [stats], sec)
  {
    hide IsRecent, Timed, U64, PoppedTo;
    PoppedIsSuffix(pushed, w2, stats, sec);
    var h2 := h + [stats];
    PushStaysSuffix(w, h, stats, sec);
    assert |pushed| == |w| + 1 && |h2| == |h| + 1;
    PopKeepsRecent(w2, pushed, h2, sec);
  }

  /** Popping the old samples of a suffix leaves exactly the recent ones. */
  lemma PopKeepsRecent(w2: seq<Stats>, w: seq<Stats>, h: seq<Stats>, sec: nat)
    requires Timed(h) && h != [] && 0 < |w2| <= |w| <= |h|
    requires w == h[|h| - |w|..] && PoppedTo(w, w2, h[|h| - 1], sec)
    requires forall i :: 0 <= i < |h| - |w| ==> h[|h| - 1].sampledAt - h[i].sampledAt > sec
    ensures IsRecent(w2, h, sec)
  {
    var newest := h[|h| - 1].sampledAt;
    forall i | 0 <= i < |h|
      ensures 0 <= newest - h[i].sampledAt < TWO_64
    {
      assert h[0].sampledAt <= h[i].sampledAt <= newest;
    }
    forall i | 0 <= i < |h| - |w2|
      ensures newest - h[i].sampledAt > sec
    {
      if i >= |h| - |w| {
        assert h[i] == w[i - (|h| - |w|)];
      }
    }
    assert w2[0] == h[|h| - |w2|];
    forall i | |h| - |w2| <= i < |h|
      ensures newest - h[i].sampledAt <= sec
    {
      assert h[|h| - |w2|].sampledAt <= h[i].sampledAt;
    }
  }

  /**
    What an event means for the samples themselves, in monotonic mode: the window spans the whole
    configured time, and neither end to end nor between neighbours were there more new paths than allowed.
   */
  lemma PlateauMeans(c: Config, w: seq<Stats>, h: seq<Stats>)
    requires InOrder(h) && IsRecent(w, h, c.windowSec) && IsPlateau(c, w) && c.requireMonotonic && |w| >= 3
    ensures h[|h| - 1].sampledAt - w[0].sampledAt == c.windowSec
    ensures forall i :: |h| - |w| < i < |h| ==> h[i].pathsTotal <= h[i - 1].pathsTotal + c.maxNewPaths
    ensures forall i :: 0 <= i < |h| && h[|h| - 1].sampledAt - h[i].sampledAt <= c.windowSec ==> h[i] in w
  {
    assert w[0] == h[|h| - |w|];
    forall i | |h| - |w| < i < |h|
      ensures h[i].pathsTotal <= h[i - 1].pathsTotal + c.maxNewPaths
    {
      var k := i - (|h| - |w|);
      assert w[k] == h[i] && w[k - 1] == h[i - 1];
      assert PathStep(w, k) <= c.maxNewPaths;
    }
    forall i | 0 <= i < |h| && h[|h| - 1].sampledAt - h[i].sampledAt <= c.windowSec
      ensures h[i] in w
    {
      assert h[i] == w[i - (|h| - |w|)];
    }
  }

  /** The window is determined by the samples: nothing else is at most this much older than the newest. */
  lemma RecentIsUnique(a: seq<Stats>, b: seq<Stats>, h: seq<Stats>, sec: nat)
    requires h != [] && IsRecent(a, h, sec) && IsRecent(b, h, sec)
    ensures a == b
  {
    var newest := h[|h| - 1].sampledAt;
    assert 0 < |a| && 0 < |b|;
    assert newest - h[|h| - |b|].sampledAt <= sec && newest - h[|h| - |a|].sampledAt <= sec;
  }

  // ---------- the same on the samples, without saturation ----------

  /** A step between neighbours that the cap allows, `base` being the edges of the oldest sample. */
  predicate SmallEdgeStep(c: Config, base: nat, before: nat, after: nat) {
    && after <= before + c.jumpCeiling
    && (after <= before + c.jumpFloor || after <= before + 1 || 100 * after <= 100 * before + base)
  }

  lemma EdgeStepIsSmall(c: Config, oldest: Stats, before: nat, after: nat)
    ensures Delta(after, before) <= EdgeJumpCap(c, oldest) <==> SmallEdgeStep(c, oldest.edgesFound, before, after)
  {
    assert Delta(after, before) <= oldest.edgesFound / 100 <==> 100 * Delta(after, before) <= oldest.edgesFound;
  }

  predicate SmallSteps(c: Config, w: seq<Stats>)
    requires w != []
  {
    forall i :: 0 < i < |w| ==>
      && w[i].pathsTotal <= w[i - 1].pathsTotal + c.maxNewPaths
      && (w[0].edgesFound > 0 ==> SmallEdgeStep(c, w[0].edgesFound, w[i - 1].edgesFound, w[i].edgesFound))
  }

  lemma StepsExactlyWhen(c: Config, w: seq<Stats>)
    requires w != []
    ensures StepsAreSmall(c, w) <==> SmallSteps(c, w)
  {
    hide EdgeJumpCap, SmallEdgeStep;
    forall i | 0 < i < |w|
      ensures PathStep(w, i) <= c.maxNewPaths <==> w[i].pathsTotal <= w[i - 1].pathsTotal + c.maxNewPaths
      ensures EdgeStep(w, i) <= EdgeJumpCap(c, w[0]) <==>
              SmallEdgeStep(c, w[0].edgesFound, w[i - 1].edgesFound, w[i].edgesFound)
    {
      EdgeStepIsSmall(c, w[0], w[i - 1].edgesFound, w[i].edgesFound);
    }
  }

  /** From the oldest to the newest sample. */
  predicate FlatEnds(c: Config, oldest: Stats, newest: Stats) {
    && (oldest.execsDone + c.minExecsDelta <= newest.execsDone || c.minExecsDelta == 0)
    && c.minExecsPerSec <= newest.execsPerSec
    && newest.uniqueCrashes <= oldest.uniqueCrashes
    && newest.pathsTotal <= oldest.pathsTotal + c.maxNewPaths
    && (newest.edgesFound <= oldest.edgesFound + c.edgesGrowthFloor ||
        100 * newest.edgesFound <= 100 * oldest.edgesFound + oldest.edgesFound * c.edgesGrowthPct)
  }

  lemma EndsExactlyWhen(c: Config, w: seq<Stats>)
    requires w != []
    ensures EndsAreFlat(c, w) <==> FlatEnds(c, w[0], w[|w| - 1])
  {
    var grown, allowed := Delta(w[|w| - 1].edgesFound, w[0].edgesFound), w[0].edgesFound * c.edgesGrowthPct;
    assert grown <= allowed / 100 <==> 100 * grown <= allowed;
  }

  /**
    When a window is a plateau, said with sums of the samples' own counters: the window is covered,
    the newest sample is fresh, steps and ends are small, and the last path is a window old.
   */
  lemma PlateauExactlyWhen(c: Config, w: seq<Stats>)
    requires w != [] && 0 <= w[|w| - 1].sampledAt < TWO_64
    ensures var oldest, newest := w[0], w[|w| - 1];
      IsPlateau(c, w) <==>
      && c.minSamples <= |w|
      && (oldest.sampledAt + c.windowSec <= newest.sampledAt || c.windowSec == 0)
      && !newest.stale
      && (c.requireMonotonic && |w| >= 3 ==> SmallSteps(c, w))
      && FlatEnds(c, oldest, newest)
      && (newest.lastPath == 0 || newest.lastPath + c.windowSec <= newest.sampledAt)
  {
    hide StepsAreSmall, SmallSteps, EndsAreFlat, FlatEnds;
    StepsExactlyWhen(c, w);
    EndsExactlyWhen(c, w);
  }

  /** What a report counts: the growth from the oldest to the newest sample, and the reason it gives. */
  lemma ReportExactlyWhen(c: Config, w: seq<Stats>)
    requires w != []
    ensures var oldest, newest, e := w[0], w[|w| - 1], EventOf(c, w);
      && (newest.pathsTotal > oldest.pathsTotal ==> oldest.pathsTotal + e.newPathsDelta == newest.pathsTotal)
      && (newest.edgesFound > oldest.edgesFound ==> oldest.edgesFound + e.newEdgesDelta == newest.edgesFound)
      && (newest.execsDone > oldest.execsDone ==> oldest.execsDone + e.execsDelta == newest.execsDone)
      && (e.newPathsDelta > 0 <==> newest.pathsTotal > oldest.pathsTotal)
      && (e.newEdgesDelta > 0 <==> newest.edgesFound > oldest.edgesFound)
      && (e.reason == LowNewCoverage <==> newest.pathsTotal > oldest.pathsTotal)
      && (e.reason == NoNewCoverage <==>
            newest.pathsTotal <= oldest.pathsTotal && newest.edgesFound <= oldest.edgesFound)
      && (0 <= newest.sampledAt < TWO_64 ==> e.detectedTs == newest.sampledAt)
  {
  }
}
