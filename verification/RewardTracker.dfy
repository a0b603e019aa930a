/**
  Credit for deployed decisions: every growth of the edge counter is shared by the decisions of
  the recent past.  Rewards are real numbers.
 */
module RewardTracking {
  import opened Wrappers

  datatype Example = Example(id: string, agent: string, summary: string, deployTs: nat, reward: real, applyCount: nat)

  datatype Input =
    | Deploy(id: string, agent: string, summary: string, ts: nat)
    | Observe(edges: nat, observedTs: nat)

  /** What the tracker should hold after a history. */
  datatype State = State(decisions: seq<Example>, haveBaseline: bool, lastEdges: nat)

  const START := State([], false, 0)

  /** The start of the credit window, floored at 0. */
  function Lower(ts: nat, window: nat): nat { if ts > window then ts - window else 0 }

  /** Where the backward walk stops: everything from here on is credited. */
  function WalkStop(ds: seq<Example>, lower: nat): (k: nat)
    ensures k <= |ds|
    ensures forall i :: k <= i < |ds| ==> ds[i].deployTs >= lower
    ensures k > 0 ==> ds[k - 1].deployTs < lower
  {
    if ds == [] || ds[|ds| - 1].deployTs < lower then |ds| else WalkStop(ds[..|ds| - 1], lower)
  }

  predicate Known(ds: seq<Example>, id: string) { exists i :: 0 <= i < |ds| && ds[i].id == id }

  function Credit(e: Example, share: real): Example {
    e.(reward := e.reward + share, applyCount := e.applyCount + 1)
  }

  function CreditFrom(ds: seq<Example>, k: nat, share: real): (r: seq<Example>)
    requires k <= |ds|
    ensures |r| == |ds|
  {
    seq(|ds|, i requires 0 <= i < |ds| => if i < k then ds[i] else Credit(ds[i], share))
  }

  function Step(st: State, input: Input, window: nat): State {
    match input
    case Deploy(id, agent, summary, ts) =>
      if Known(st.decisions, id) then st
      else st.(decisions := st.decisions + [Example(id, agent, summary, ts, 0.0, 0)])
    case Observe(edges, ts) =>
      var seen := st.(haveBaseline := true, lastEdges := edges);
      if !st.haveBaseline || edges <= st.lastEdges then seen
      else seen.(decisions := Shared(st.decisions, edges - st.lastEdges, Lower(ts, window)))
  }

  /** A gain shared equally by the decisions the walk reaches. */
  function Shared(ds: seq<Example>, gain: nat, lower: nat): (r: seq<Example>)
    ensures |r| == |ds|
  {
    var k := WalkStop(ds, lower);
    if k == |ds| then ds else CreditFrom(ds, k, gain as real / (|ds| - k) as real)
  }

  function After(history: seq<Input>, window: nat): State {
    if history == [] then START
    else Step(After(history[..|history| - 1], window), history[|history| - 1], window)
  }

  lemma AfterOneMore(history: seq<Input>, input: Input, window: nat)
    ensures After(history + [input], window) == Step(After(history, window), input, window)
  {
    assert (history + [input])[..|history|] == history;
  }

  // ---------- conservation ----------

  function TotalReward(ds: seq<Example>): real {
    if ds == [] then 0.0 else TotalReward(ds[..|ds| - 1]) + ds[|ds| - 1].reward
  }

  /** The edges gained by the last input, if some decision was there to be credited. */
  function Gained(st: State, input: Input, window: nat): nat {
    if input.Observe? && st.haveBaseline && input.edges > st.lastEdges
       && WalkStop(st.decisions, Lower(input.observedTs, window)) < |st.decisions|
    then input.edges - st.lastEdges else 0
  }

  function TotalGained(history: seq<Input>, window: nat): nat {
    if history == [] then 0
    else TotalGained(history[..|history| - 1], window)
         + Gained(After(history[..|history| - 1], window), history[|history| - 1], window)
  }

  lemma {:induction false} CreditAdds(ds: seq<Example>, k: nat, share: real)
    requires k <= |ds|
    ensures TotalReward(CreditFrom(ds, k, share)) == TotalReward(ds) + (|ds| - k) as real * share
  {
    if k == |ds| {
      assert CreditFrom(ds, k, share) == ds;
    } else {
      var n := |ds| - 1;
      CreditAdds(ds[..n], k, share);
      assert CreditFrom(ds, k, share)[..n] == CreditFrom(ds[..n], k, share);
      assert (|ds| - k) as real * share == (n - k) as real * share + share;
    }
  }

  lemma SharesAddUp(delta: real, count: real)
    requires count > 0.0
    ensures count * (delta / count) == delta
  {
  }

  lemma SharedConserves(ds: seq<Example>, gain: nat, lower: nat)
    ensures TotalReward(Shared(ds, gain, lower)) ==
            TotalReward(ds) + if WalkStop(ds, lower) < |ds| then gain as real else 0.0
  {
    hide WalkStop, TotalReward, CreditFrom;
    var k := WalkStop(ds, lower);
    if k < |ds| {
      var count := (|ds| - k) as real;
      CreditAdds(ds, k, gain as real / count);
      SharesAddUp(gain as real, count);
    }
  }

  lemma StepConserves(st: State, input: Input, window: nat)
    ensures TotalReward(Step(st, input, window).decisions) ==
            TotalReward(st.decisions) + Gained(st, input, window) as real
  {
    hide WalkStop, Shared, Lower, Known;
    if input.Deploy? {
      var e := Example(input.id, input.agent, input.summary, input.ts, 0.0, 0);
      assert (st.decisions + [e])[..|st.decisions|] == st.decisions;
    } else if st.haveBaseline && input.edges > st.lastEdges {
      SharedConserves(st.decisions, input.edges - st.lastEdges, Lower(input.observedTs, window));
    }
  }

  /** No credit is lost or made up: the rewards add up to the edges gained while somebody was eligible. */
  lemma {:induction false} CreditIsConserved(history: seq<Input>, window: nat)
    ensures TotalReward(After(history, window).decisions) == TotalGained(history, window) as real
  {
    hide Step, Gained;
    if history != [] {
      var before := history[..|history| - 1];
      CreditIsConserved(before, window);
      StepConserves(After(before, window), history[|history| - 1], window);
    }
  }

  // ---------- who is credited ----------

  /** No decision inside the window comes before one outside it. */
  predicate SplitsAt(ds: seq<Example>, lower: nat) {
    forall i, j :: 0 <= i < j < |ds| && ds[i].deployTs >= lower ==> ds[j].deployTs >= lower
  }

  /** The walk credits exactly the decisions in the window if and only if they are the latest ones. */
  lemma WalkIsExactlyWhen(ds: seq<Example>, lower: nat)
    ensures (forall i :: 0 <= i < |ds| ==> (WalkStop(ds, lower) <= i <==> ds[i].deployTs >= lower)) <==>
      SplitsAt(ds, lower)
  {
    var k := WalkStop(ds, lower);
    if SplitsAt(ds, lower) {
      forall i | 0 <= i < k
        ensures ds[i].deployTs < lower
      {
        assert ds[k - 1].deployTs < lower;
      }
    }
  }

  predicate InOrder(history: seq<Input>) {
    forall i, j :: 0 <= i < j < |history| && history[i].Deploy? && history[j].Deploy? ==> history[i].ts <= history[j].ts
  }

  predicate Ascending(ds: seq<Example>) {
    forall i, j :: 0 <= i < j < |ds| ==> ds[i].deployTs <= ds[j].deployTs
  }

  predicate DeployedBy(input: Input, e: Example) {
    input.Deploy? && input.ts == e.deployTs && input.id == e.id
  }

  lemma StepKeepsDeployed(st: State, input: Input, window: nat, i: nat)
    requires i < |Step(st, input, window).decisions|
    ensures i < |st.decisions| ==> Step(st, input, window).decisions[i].deployTs == st.decisions[i].deployTs
    ensures i < |st.decisions| ==> Step(st, input, window).decisions[i].id == st.decisions[i].id
    ensures i >= |st.decisions| ==> DeployedBy(input, Step(st, input, window).decisions[i])
  {
  }

  /** Every decision was deployed at its time by some input. */
  lemma {:induction false} DecisionsWereDeployed(history: seq<Input>, window: nat, i: nat)
    requires i < |After(history, window).decisions|
    ensures exists k :: 0 <= k < |history| && DeployedBy(history[k], After(history, window).decisions[i])
  {
    hide Step;
    var n := |history| - 1;
    var before := history[..n];
    var st := After(before, window);
    StepKeepsDeployed(st, history[n], window, i);
    if i < |st.decisions| {
      DecisionsWereDeployed(before, window, i);
      var k :| 0 <= k < |before| && DeployedBy(before[k], st.decisions[i]);
      assert DeployedBy(history[k], After(history, window).decisions[i]);
    } else {
      assert DeployedBy(history[n], After(history, window).decisions[i]);
    }
  }

  /** With deploy times that never go back, exactly the decisions in the window share the credit. */
  lemma {:induction false} InOrderIsExact(history: seq<Input>, window: nat)
    requires InOrder(history)
    ensures Ascending(After(history, window).decisions)
    ensures forall lower: nat :: SplitsAt(After(history, window).decisions, lower)
  {
    if history != [] {
      var before := history[..|history| - 1];
      var input := history[|history| - 1];
      assert InOrder(before);
      InOrderIsExact(before, window);
      var st := After(before, window);
      if input.Deploy? && !Known(st.decisions, input.id) {
        forall i | 0 <= i < |st.decisions|
          ensures st.decisions[i].deployTs <= input.ts
        {
          DecisionsWereDeployed(before, window, i);
          var k :| 0 <= k < |before| && DeployedBy(before[k], st.decisions[i]);
          assert history[k] == before[k];
        }
      }
    }
  }

  // ---------- the same, said by the inputs alone ----------

  /** The edges of the last observation, if there was one. */
  function LastSeen(history: seq<Input>): Option<nat> {
    if history == [] then None
    else
      var last := history[|history| - 1];
      if last.Observe? then Some(last.edges) else LastSeen(history[..|history| - 1])
  }

  /** What an observation gains over the one before, if there was one and it was lower. */
  function GainOver(seen: Option<nat>, edges: nat): nat {
    if seen.Some? && edges > seen.value then edges - seen.value else 0
  }

  /** What the tracker compares with is what was observed last, whether it rose or fell. */
  lemma {:induction false} RemembersLastSeen(history: seq<Input>, window: nat)
    ensures var st := After(history, window);
      LastSeen(history) == if st.haveBaseline then Some(st.lastEdges) else None
  {
    if history != [] {
      RemembersLastSeen(history[..|history| - 1], window);
    }
  }

  /** Deployed at most the window before. */
  predicate InWindow(e: Example, ts: nat, window: nat) { e.deployTs + window >= ts }

  /** How many decisions are in the window. */
  function CountInWindow(ds: seq<Example>, ts: nat, window: nat): (n: nat)
    ensures forall i :: 0 <= i < |ds| && InWindow(ds[i], ts, window) ==> n > 0
  {
    if ds == [] then 0
    else CountInWindow(ds[..|ds| - 1], ts, window) + if InWindow(ds[|ds| - 1], ts, window) then 1 else 0
  }

  /** Nobody is credited, or those in the window equally and once each. */
  ghost predicate Credited(before: seq<Example>, after: seq<Example>, gain: nat, ts: nat, window: nat) {
    && |after| == |before|
    && forall i :: 0 <= i < |before| ==>
         after[i] ==
         if gain > 0 && InWindow(before[i], ts, window)
         then before[i].(reward := before[i].reward + gain as real / CountInWindow(before, ts, window) as real,
                         applyCount := before[i].applyCount + 1)
         else before[i]
  }

  lemma {:induction false} SuffixSize(ds: seq<Example>, k: nat, ts: nat, window: nat)
    requires k <= |ds| && forall i :: 0 <= i < |ds| ==> (k <= i <==> InWindow(ds[i], ts, window))
    ensures CountInWindow(ds, ts, window) == |ds| - k
  {
    hide InWindow;
    if ds != [] {
      var n := |ds| - 1;
      SuffixSize(ds[..n], if k <= n then k else n, ts, window);
    }
  }

  lemma LowerMeans(ts: nat, window: nat, deployTs: nat)
    ensures deployTs >= Lower(ts, window) <==> deployTs + window >= ts
  {
  }

  /** With deploy times that never go back, the walk stops before the decisions in the window. */
  lemma WalkReachesWindow(ds: seq<Example>, ts: nat, window: nat)
    requires Ascending(ds)
    ensures var k := WalkStop(ds, Lower(ts, window));
      && (forall i :: 0 <= i < |ds| ==> (k <= i <==> InWindow(ds[i], ts, window)))
      && CountInWindow(ds, ts, window) == |ds| - k
  {
    var lower := Lower(ts, window);
    var k := WalkStop(ds, lower);
    assert SplitsAt(ds, lower);
    WalkIsExactlyWhen(ds, lower);
    forall i | 0 <= i < |ds|
      ensures k <= i <==> InWindow(ds[i], ts, window)
    {
      LowerMeans(ts, window, ds[i].deployTs);
    }
    SuffixSize(ds, k, ts, window);
  }

  lemma SharedIsCredited(ds: seq<Example>, gain: nat, ts: nat, window: nat)
    requires Ascending(ds) && gain > 0
    ensures Credited(ds, Shared(ds, gain, Lower(ts, window)), gain, ts, window)
  {
    hide Lower, CountInWindow, InWindow;
    WalkReachesWindow(ds, ts, window);
  }

  /**
    After any history with deploy times that never go back, an observation credits exactly the
    decisions deployed at most the window before it, with equal shares of what it gained over the
    observation before; the first one, and one that gained nothing, credit nobody.
   */
  lemma ObservationCredits(history: seq<Input>, edges: nat, ts: nat, window: nat)
    requires InOrder(history)
    ensures var before, after := After(history, window), After(history + [Observe(edges, ts)], window);
      Credited(before.decisions, after.decisions, GainOver(LastSeen(history), edges), ts, window)
  {
    hide Shared, Lower, CountInWindow;
    AfterOneMore(history, Observe(edges, ts), window);
    RemembersLastSeen(history, window);
    InOrderIsExact(history, window);
    var gain := GainOver(LastSeen(history), edges);
    if gain > 0 {
      SharedIsCredited(After(history, window).decisions, gain, ts, window);
    }
  }

  predicate Deploys(history: seq<Input>, id: string) {
    exists k :: 0 <= k < |history| && history[k].Deploy? && history[k].id == id
  }

  /** A new id is appended without credit, one deployed before changes nothing. */
  lemma DeploymentAppends(history: seq<Input>, id: string, agent: string, summary: string, ts: nat, window: nat)
    ensures var before, after := After(history, window), After(history + [Deploy(id, agent, summary, ts)], window);
      after.decisions == before.decisions +
        if Deploys(history, id) then [] else [Example(id, agent, summary, ts, 0.0, 0)]
  {
    hide Known;
    AfterOneMore(history, Deploy(id, agent, summary, ts), window);
    KnownWasDeployed(history, window, id);
    var ds := After(history, window).decisions;
    assert ds + [] == ds;
  }

  lemma {:induction false} KnownWasDeployed(history: seq<Input>, window: nat, id: string)
    ensures Known(After(history, window).decisions, id) <==> Deploys(history, id)
  {
    if history != [] {
      var n := |history| - 1;
      var input := history[n];
      var before := After(history[..n], window).decisions;
      KnownWasDeployed(history[..n], window, id);
      StepKnows(After(history[..n], window), input, window, id);
      assert forall k :: 0 <= k < n ==> history[..n][k] == history[k];
    }
  }

  lemma StepKnows(st: State, input: Input, window: nat, id: string)
    ensures Known(Step(st, input, window).decisions, id) <==>
            Known(st.decisions, id) || (input.Deploy? && input.id == id)
  {
    var ds := Step(st, input, window).decisions;
    if Known(st.decisions, id) {
      var i :| 0 <= i < |st.decisions| && st.decisions[i].id == id;
      StepKeepsDeployed(st, input, window, i);
    }
    if Known(ds, id) {
      var i :| 0 <= i < |ds| && ds[i].id == id;
      StepKeepsDeployed(st, input, window, i);
    }
    if input.Deploy? && !Known(st.decisions, input.id) {
      assert ds[|st.decisions|].id == input.id;
    }
  }

  /** The first deployment of an id. */
  predicate FirstDeploy(history: seq<Input>, q: nat) {
    q < |history| && history[q].Deploy? && !Deploys(history[..q], history[q].id)
  }

  /** Some decision was deployed at most the window before. */
  predicate SomeInWindow(history: seq<Input>, ts: nat, window: nat) {
    exists q :: 0 <= q < |history| && FirstDeploy(history, q) && history[q].ts + window >= ts
  }

  /** The edges gained by all observations that came while some decision was in the window. */
  function GainInWindow(history: seq<Input>, window: nat): nat {
    if history == [] then 0
    else
      var earlier, last := history[..|history| - 1], history[|history| - 1];
      GainInWindow(earlier, window)
      + if last.Observe? && SomeInWindow(earlier, last.observedTs, window)
        then GainOver(LastSeen(earlier), last.edges) else 0
  }

  predicate AnyInWindow(ds: seq<Example>, ts: nat, window: nat) {
    exists i :: 0 <= i < |ds| && InWindow(ds[i], ts, window)
  }

  lemma OneMoreInput(history: seq<Input>, ts: nat, window: nat)
    requires history != []
    ensures var n := |history| - 1;
      SomeInWindow(history, ts, window) <==>
      SomeInWindow(history[..n], ts, window) || (FirstDeploy(history, n) && history[n].ts + window >= ts)
  {
    var n := |history| - 1;
    forall q: nat | q < n
      ensures FirstDeploy(history[..n], q) <==> FirstDeploy(history, q)
    {
      assert history[..n][..q] == history[..q];
    }
    if q :| 0 <= q < n && FirstDeploy(history[..n], q) && history[..n][q].ts + window >= ts {
      assert history[q].ts + window >= ts;
    }
    if q :| 0 <= q < n && FirstDeploy(history, q) && history[q].ts + window >= ts {
      assert history[..n][q].ts + window >= ts;
    }
  }

  lemma OneMoreStep(st: State, input: Input, window: nat, ts: nat, w: nat)
    ensures AnyInWindow(Step(st, input, window).decisions, ts, w) <==>
            || AnyInWindow(st.decisions, ts, w)
            || (input.Deploy? && !Known(st.decisions, input.id) && input.ts + w >= ts)
  {
    hide Known, Shared;
    var ds := Step(st, input, window).decisions;
    forall i: nat | i < |ds|
      ensures i < |st.decisions| ==> InWindow(ds[i], ts, w) == InWindow(st.decisions[i], ts, w)
    {
      StepKeepsDeployed(st, input, window, i);
    }
    if i :| 0 <= i < |st.decisions| && InWindow(st.decisions[i], ts, w) {
      assert InWindow(ds[i], ts, w);
    }
    if input.Deploy? && !Known(st.decisions, input.id) {
      assert InWindow(ds[|st.decisions|], ts, w) <==> input.ts + w >= ts;
    }
  }

  /** The decisions in the window are the first deployments in it. */
  lemma {:induction false} DecisionsAreFirstDeploys(history: seq<Input>, window: nat, ts: nat)
    ensures AnyInWindow(After(history, window).decisions, ts, window) <==> SomeInWindow(history, ts, window)
  {
    hide Step, Known, Deploys, AnyInWindow, SomeInWindow;
    if history != [] {
      var n := |history| - 1;
      DecisionsAreFirstDeploys(history[..n], window, ts);
      OneMoreInput(history, ts, window);
      OneMoreStep(After(history[..n], window), history[n], window, ts, window);
      if history[n].Deploy? {
        KnownWasDeployed(history[..n], window, history[n].id);
      }
    } else {
      NothingInWindow(ts, window);
    }
  }

  lemma NothingInWindow(ts: nat, window: nat)
    ensures !AnyInWindow([], ts, window) && !SomeInWindow([], ts, window)
  {
  }

  lemma GainedMeans(history: seq<Input>, input: Input, window: nat)
    requires InOrder(history)
    ensures Gained(After(history, window), input, window) ==
            if input.Observe? && SomeInWindow(history, input.observedTs, window)
            then GainOver(LastSeen(history), input.edges) else 0
  {
    hide WalkStop, Lower, SomeInWindow;
    var ds := After(history, window).decisions;
    RemembersLastSeen(history, window);
    InOrderIsExact(history, window);
    if input.Observe? {
      DecisionsAreFirstDeploys(history, window, input.observedTs);
      WalkReachesWindow(ds, input.observedTs, window);
      if AnyInWindow(ds, input.observedTs, window) {
        assert CountInWindow(ds, input.observedTs, window) > 0;
      } else {
        NoneCounted(ds, input.observedTs, window);
      }
    }
  }

  lemma {:induction false} NoneCounted(ds: seq<Example>, ts: nat, window: nat)
    requires forall i :: 0 <= i < |ds| ==> !InWindow(ds[i], ts, window)
    ensures CountInWindow(ds, ts, window) == 0
  {
    if ds != [] {
      NoneCounted(ds[..|ds| - 1], ts, window);
    }
  }

  /**
    With deploy times that never go back, all rewards add up to the edges gained by the observations
    that came while some first deployment was in the window.
   */
  lemma {:induction false} RewardsAreGains(history: seq<Input>, window: nat)
    requires InOrder(history)
    ensures TotalReward(After(history, window).decisions) == GainInWindow(history, window) as real
  {
    hide Step, Gained;
    if history != [] {
      var earlier, last := history[..|history| - 1], history[|history| - 1];
      assert InOrder(earlier);
      RewardsAreGains(earlier, window);
      GainedMeans(earlier, last, window);
      StepConserves(After(earlier, window), last, window);
    }
  }

  // ---------- the tracker ----------

  /** An index and the positions of the decisions correspond one to one. */
  predicate OneToOne(index: map<string, nat>, ds: seq<Example>) {
    && (forall id :: id in index ==> index[id] < |ds| && ds[index[id]].id == id)
    && (forall i :: 0 <= i < |ds| ==> ds[i].id in index && index[ds[i].id] == i)
  }

  lemma KnownIffIndexed(index: map<string, nat>, ds: seq<Example>, id: string)
    requires OneToOne(index, ds)
    ensures Known(ds, id) <==> id in index
  {
    if id in index {
      assert ds[index[id]].id == id;
    }
  }

  lemma AppendKeepsOneToOne(index: map<string, nat>, ds: seq<Example>, e: Example)
    requires OneToOne(index, ds) && e.id !in index
    ensures OneToOne(index[e.id := |ds|], ds + [e])
  {
  }

  class RecipeRewardTracker {
    const window: nat
    var haveBaseline: bool
    var lastEdges: nat
    var decisions: seq<Example>
    var byId: map<string, nat>

    ghost var history: seq<Input>

    ghost predicate Valid()
      reads this
    {
      OneToOne(byId, decisions) && State(decisions, haveBaseline, lastEdges) == After(history, window)
    }

    constructor (window: nat)
      ensures Valid() && history == [] && this.window == window
    {
      this.window := window;
      haveBaseline, lastEdges, decisions, byId := false, 0, [], map[];
      history := [];
    }

    method RecordDeploy(id: string, agent: string, summary: string, ts: nat)
      requires Valid()
      modifies this
      ensures Valid() && history == old(history) + [Deploy(id, agent, summary, ts)]
      ensures decisions ==
        old(decisions) + if Deploys(old(history), id) then [] else [Example(id, agent, summary, ts, 0.0, 0)]
    {
      hide Shared, OneToOne, Known, Deploys;
      DeploymentAppends(history, id, agent, summary, ts, window);
      ghost var before, input := history, Deploy(id, agent, summary, ts);
      history := history + [input];
      AfterOneMore(before, input, window);
      KnownIffIndexed(byId, decisions, id);
      if id in byId {
        return;
      }
      var e := Example(id, agent, summary, ts, 0.0, 0);
      AppendKeepsOneToOne(byId, decisions, e);
      byId := byId[id := |decisions|];
      decisions := decisions + [e];
    }

    method ObserveEdges(edges: nat, ts: nat)
      requires Valid()
      modifies this
      ensures Valid() && history == old(history) + [Observe(edges, ts)]
      ensures InOrder(old(history)) ==>
        Credited(old(decisions), decisions, GainOver(LastSeen(old(history)), edges), ts, window)
    {
      hide Shared, Credited, InOrder, LastSeen, GainOver;
      if InOrder(history) {
        ObservationCredits(history, edges, ts, window);
      }
      ghost var before, input := history, Observe(edges, ts);
      history := history + [input];
      AfterOneMore(before, input, window);
      if !haveBaseline {
        haveBaseline := true;
        lastEdges := edges;
        return;
      }
      if edges <= lastEdges {
        lastEdges := edges;
        return;
      }
      var delta := edges - lastEdges;
      lastEdges := edges;
      CreditGain(delta, if ts > window then ts - window else 0);
    }

    method CreditGain(gain: nat, lower: nat)
      requires OneToOne(byId, decisions)
      modifies this`decisions
      ensures decisions == Shared(old(decisions), gain, lower) && OneToOne(byId, decisions)
    {
      var stop := Walk(lower);
      if stop == |decisions| {
        return;
      }
      Share(stop, gain as real / (|decisions| - stop) as real);
    }

    /** The backward walk, with its early break. */
    method Walk(lower: nat) returns (stop: nat)
      ensures stop == WalkStop(decisions, lower)
    {
      stop := |decisions|;
      assert decisions[..|decisions|] == decisions;
      while stop > 0
        invariant stop <= |decisions|
        invariant WalkStop(decisions, lower) == WalkStop(decisions[..stop], lower)
        invariant forall i :: stop <= i < |decisions| ==> decisions[i].deployTs >= lower
      {
        if decisions[stop - 1].deployTs < lower {
          break;
        }
        assert decisions[..stop][..stop - 1] == decisions[..stop - 1];
        stop := stop - 1;
      }
    }

    /** The loop over the eligible decisions. */
    method Share(stop: nat, share: real)
      requires stop <= |decisions| && OneToOne(byId, decisions)
      modifies this`decisions
      ensures decisions == CreditFrom(old(decisions), stop, share) && OneToOne(byId, decisions)
    {
      ghost var before := decisions;
      for i := stop to |decisions|
        invariant |decisions| == |before|
        invariant forall k :: 0 <= k < |before| ==>
          decisions[k] == if stop <= k < i then Credit(before[k], share) else before[k]
      {
        decisions := decisions[i := Credit(decisions[i], share)];
      }
    }
  }
}
