/** Choosing the winner of a round of micro campaigns against the control, over the real numbers. */
module WinnerSelection {
  import opened Wrappers

  datatype MicroResult = MicroResult(campaignId: string, reward: real)

  datatype Spec = Spec(id: string, name: string)

  datatype Selection = Selection(
    hasValidResults: bool, selected: bool, resultIndex: nat, validResults: nat,
    controlReward: real, winnerReward: real, improvement: real)

  function Abs(x: real): real { if x < 0.0 then -x else x }

  /** Which campaigns count, and which of them are controls; of two specifications with one id the later holds. */
  datatype Round = Round(specs: seq<Spec>, failed: set<string>, absMargin: real, relMargin: real)

  function ActionOf(specs: seq<Spec>, id: string): Option<string> {
    if specs == [] then None
    else if specs[|specs| - 1].id == id then Some(specs[|specs| - 1].name)
    else ActionOf(specs[..|specs| - 1], id)
  }

  predicate Control(c: Round, r: MicroResult) {
    r.campaignId !in c.failed && ActionOf(c.specs, r.campaignId) == Some("default_control")
  }

  predicate Candidate(c: Round, r: MicroResult) {
    r.campaignId !in c.failed && ActionOf(c.specs, r.campaignId) != Some("default_control")
  }

  /** The last specification with a campaign's id says whether it is a control; a failed campaign is neither. */
  lemma RolesAre(c: Round, r: MicroResult, k: nat)
    requires k < |c.specs| && c.specs[k].id == r.campaignId
    requires forall j :: k < j < |c.specs| ==> c.specs[j].id != r.campaignId
    ensures Control(c, r) <==> r.campaignId !in c.failed && c.specs[k].name == "default_control"
    ensures Candidate(c, r) <==> r.campaignId !in c.failed && c.specs[k].name != "default_control"
  {
    LastSpecNames(c.specs, r.campaignId, k);
  }

  lemma {:induction false} LastSpecNames(specs: seq<Spec>, id: string, k: nat)
    requires k < |specs| && specs[k].id == id && forall j :: k < j < |specs| ==> specs[j].id != id
    ensures ActionOf(specs, id) == Some(specs[k].name)
  {
    if k < |specs| - 1 {
      LastSpecNames(specs[..|specs| - 1], id, k);
    }
  }

  /** A campaign without a specification is a candidate unless it failed. */
  lemma {:induction false} UnknownIsCandidate(c: Round, r: MicroResult)
    requires forall j :: 0 <= j < |c.specs| ==> c.specs[j].id != r.campaignId
    ensures !Control(c, r) && (Candidate(c, r) <==> r.campaignId !in c.failed)
    decreases |c.specs|
  {
    if c.specs != [] {
      UnknownIsCandidate(c.(specs := c.specs[..|c.specs| - 1]), r);
    }
  }

  /** `best` is the largest control reward, or 0 when there is no control. */
  predicate IsControlReward(c: Round, results: seq<MicroResult>, best: real) {
    && (forall i :: 0 <= i < |results| && Control(c, results[i]) ==> results[i].reward <= best)
    && if exists i :: 0 <= i < |results| && Control(c, results[i])
       then exists i :: 0 <= i < |results| && Control(c, results[i]) && results[i].reward == best
       else best == 0.0
  }

  function ControlMargin(c: Round, control: real): real { MaxReal(c.absMargin, Abs(control) * c.relMargin) }

  function PeerMargin(c: Round, reward: real): real { MaxReal(c.absMargin, Abs(reward) * c.relMargin) }

  /** Result `i` is a candidate that beats the control by both margins and every other candidate by the peer margin. */
  predicate Wins(c: Round, results: seq<MicroResult>, control: real, i: nat) {
    && i < |results| && Candidate(c, results[i])
    && results[i].reward - control > ControlMargin(c, control)
    && results[i].reward - control > PeerMargin(c, results[i].reward)
    && forall j :: 0 <= j < |results| && j != i && Candidate(c, results[j]) ==>
         results[i].reward - results[j].reward > PeerMargin(c, results[i].reward)
  }

  /** The first of the largest candidates. */
  predicate IsFirstBest(c: Round, results: seq<MicroResult>, at: nat) {
    && at < |results| && Candidate(c, results[at])
    && (forall j :: 0 <= j < |results| && Candidate(c, results[j]) ==> results[j].reward <= results[at].reward)
    && (forall j :: 0 <= j < at && Candidate(c, results[j]) ==> results[j].reward < results[at].reward)
  }

  function ValidCount(c: Round, results: seq<MicroResult>): nat {
    if results == [] then 0
    else ValidCount(c, results[..|results| - 1]) + if results[|results| - 1].campaignId in c.failed then 0 else 1
  }

  method ActionMap(specs: seq<Spec>) returns (actions: map<string, string>)
    ensures forall id :: ActionOf(specs, id) == if id in actions then Some(actions[id]) else None
  {
    actions := map[];
    for i := 0 to |specs|
      invariant forall id :: ActionOf(specs[..i], id) == if id in actions then Some(actions[id]) else None
    {
      assert specs[..i + 1][..i] == specs[..i];
      actions := actions[specs[i].id := specs[i].name];
    }
    assert specs[..|specs|] == specs;
  }

  /** The first loop: count the valid results and find the best control. */
  method BestControl(c: Round, results: seq<MicroResult>, actions: map<string, string>)
    returns (valid: nat, have: bool, control: real)
    requires forall id :: ActionOf(c.specs, id) == if id in actions then Some(actions[id]) else None
    ensures IsControlReward(c, results, control)
    ensures have <==> exists i :: 0 <= i < |results| && Control(c, results[i])
    ensures valid == ValidCount(c, results)
    ensures valid > 0 <==> exists i :: 0 <= i < |results| && results[i].campaignId !in c.failed
  {
    valid, have, control := 0, false, 0.0;
    for i := 0 to |results|
      invariant have <==> exists k :: 0 <= k < i && Control(c, results[k])
      invariant forall k :: 0 <= k < i && Control(c, results[k]) ==> results[k].reward <= control
      invariant if have then exists k :: 0 <= k < i && Control(c, results[k]) && results[k].reward == control
        else control == 0.0
      invariant valid > 0 <==> exists k :: 0 <= k < i && results[k].campaignId !in c.failed
      invariant valid == ValidCount(c, results[..i])
    {
      assert results[..i + 1][..i] == results[..i];
      var r := results[i];
      if r.campaignId in c.failed {
        continue;
      }
      valid := valid + 1;
      if r.campaignId in actions && actions[r.campaignId] == "default_control" {
        assert Control(c, results[i]);
        if !have || r.reward > control {
          control := r.reward;
          have := true;
        }
      }
    }
    assert results[..|results|] == results;
  }

  /** The second loop: the first largest candidate, and the best of the control and the others. */
  method BestCandidate(c: Round, results: seq<MicroResult>, actions: map<string, string>, control: real)
    returns (have: bool, at: nat, winner: real, second: real)
    requires forall id :: ActionOf(c.specs, id) == if id in actions then Some(actions[id]) else None
    ensures have <==> exists i :: 0 <= i < |results| && Candidate(c, results[i])
    ensures have ==> IsFirstBest(c, results, at) && results[at].reward == winner
    ensures !have ==> at == 0 && winner == 0.0
    ensures second >= control
    ensures forall j :: 0 <= j < |results| && j != at && Candidate(c, results[j]) ==>
      results[j].reward <= MinReal(winner, second)
    ensures second == control ||
        exists j :: 0 <= j < |results| && j != at && Candidate(c, results[j]) && results[j].reward == second
  {
    have, at, winner, second := false, 0, 0.0, control;
    for i := 0 to |results|
      invariant have <==> exists k :: 0 <= k < i && Candidate(c, results[k])
      invariant have ==> at < i && Candidate(c, results[at]) && results[at].reward == winner
      invariant !have ==> at == 0 && winner == 0.0
      invariant have ==> forall j :: 0 <= j < at && Candidate(c, results[j]) ==> results[j].reward < winner
      invariant second >= control
      invariant forall j :: 0 <= j < i && j != at && Candidate(c, results[j]) ==>
        results[j].reward <= MinReal(winner, second)
      invariant second == control ||
        exists j :: 0 <= j < i && j != at && Candidate(c, results[j]) && results[j].reward == second
    {
      var r := results[i];
      if r.campaignId in c.failed {
        continue;
      }
      if r.campaignId in actions && actions[r.campaignId] == "default_control" {
        assert Control(c, results[i]);
        continue;
      }
      assert Candidate(c, results[i]);
      if !have || r.reward > winner {
        if have {
          second := MaxReal(second, winner);
        }
        at, winner, have := i, r.reward, true;
      } else {
        second := MaxReal(second, r.reward);
      }
    }
  }

  /**
    The selection names the first of the largest candidates, and selects it exactly when some
    candidate wins; that is then the winner.  The absolute margin must not be negative; the relative
    one may be anything.
   */
  method SelectMicroWinner(c: Round, results: seq<MicroResult>) returns (s: Selection, ghost control: real)
    ensures IsControlReward(c, results, control)
    ensures s.selected ==> Wins(c, results, control, s.resultIndex)
    ensures c.absMargin >= 0.0 ==> (s.selected <==> exists i :: Wins(c, results, control, i))
    ensures (exists i :: 0 <= i < |results| && Candidate(c, results[i])) ==>
      && IsFirstBest(c, results, s.resultIndex) && s.winnerReward == results[s.resultIndex].reward
      && s.improvement == s.winnerReward - control
    ensures (forall i :: 0 <= i < |results| ==> !Candidate(c, results[i])) ==>
      !s.selected && s.resultIndex == 0 && s.winnerReward == 0.0 && s.improvement == 0.0
    ensures s.validResults == ValidCount(c, results) && (s.hasValidResults <==> s.validResults > 0)
    ensures s.controlReward == control
  {
    s := Selection(false, false, 0, 0, 0.0, 0.0, 0.0);
    control := 0.0;
    if results == [] {
      return;
    }
    var actions := ActionMap(c.specs);
    var valid, haveControl, best := BestControl(c, results, actions);
    control := best;
    s := s.(hasValidResults := valid > 0, validResults := valid, controlReward := best);
    if valid == 0 {
      return;
    }
    var have, at, winner, second := BestCandidate(c, results, actions, if haveControl then best else 0.0);
    if !have {
      return;
    }
    var improvement := winner - best;
    var selected := improvement > ControlMargin(c, best) && winner - second > PeerMargin(c, winner);
    s := s.(resultIndex := at, winnerReward := winner, improvement := improvement, selected := selected);
    if c.absMargin >= 0.0 {
      forall i: nat | Wins(c, results, best, i)
        ensures selected
      {
        WinnerIsLargest(c, results, best, i, at);
        assert i == at;
      }
    }
    assert selected ==> Wins(c, results, best, at);
  }

  /** `x` exceeds both the fixed margin and the share of `base`, whatever its sign. */
  predicate Clears(c: Round, x: real, base: real) {
    && x > c.absMargin
    && (base >= 0.0 ==> x > base * c.relMargin)
    && (base <= 0.0 ==> x > -base * c.relMargin)
  }

  /** Each margin is the larger of the fixed one and a share: of the control's reward, and of the winner's own. */
  lemma WinsExactlyWhen(c: Round, results: seq<MicroResult>, control: real, i: nat)
    requires i < |results|
    ensures Wins(c, results, control, i) <==>
      && Candidate(c, results[i])
      && Clears(c, results[i].reward - control, control)
      && Clears(c, results[i].reward - control, results[i].reward)
      && forall j :: 0 <= j < |results| && j != i && Candidate(c, results[j]) ==>
           Clears(c, results[i].reward - results[j].reward, results[i].reward)
  {
    var own := results[i].reward;
    forall x: real
      ensures x > ControlMargin(c, control) <==> Clears(c, x, control)
      ensures x > PeerMargin(c, own) <==> Clears(c, x, own)
    {
      ClearsMargin(c, x, control);
      ClearsMargin(c, x, own);
    }
  }

  lemma ClearsMargin(c: Round, x: real, base: real)
    ensures x > ControlMargin(c, base) <==> Clears(c, x, base)
    ensures x > PeerMargin(c, base) <==> Clears(c, x, base)
  {
    ShareOf(base, c.relMargin);
    var share := Abs(base) * c.relMargin;
    assert ControlMargin(c, base) == MaxReal(c.absMargin, share);
    assert x > MaxReal(c.absMargin, share) <==> x > c.absMargin && x > share;
  }

  lemma ShareOf(base: real, rel: real)
    ensures base >= 0.0 ==> Abs(base) * rel == base * rel
    ensures base <= 0.0 ==> Abs(base) * rel == -base * rel
  {
  }

  /** A winning candidate is strictly larger than every other one. */
  lemma WinnerIsLargest(c: Round, results: seq<MicroResult>, control: real, i: nat, j: nat)
    requires c.absMargin >= 0.0 && Wins(c, results, control, i)
    requires j < |results| && Candidate(c, results[j])
    ensures j == i || results[j].reward < results[i].reward
  {
  }

  /** So at most one candidate wins. */
  lemma WinnerIsUnique(c: Round, results: seq<MicroResult>, control: real, i: nat, j: nat)
    requires c.absMargin >= 0.0 && Wins(c, results, control, i) && Wins(c, results, control, j)
    ensures i == j
  {
    WinnerIsLargest(c, results, control, i, j);
    WinnerIsLargest(c, results, control, j, i);
  }

  lemma ControlRewardIsUnique(c: Round, a: seq<MicroResult>, b: seq<MicroResult>, x: real, y: real)
    requires multiset(a) == multiset(b) && IsControlReward(c, a, x) && IsControlReward(c, b, y)
    ensures x == y
  {
    forall i | 0 <= i < |a| && Control(c, a[i])
      ensures a[i].reward <= y && exists j :: 0 <= j < |b| && Control(c, b[j])
    {
      var j := Find(a, b, i);
    }
    forall j | 0 <= j < |b| && Control(c, b[j])
      ensures b[j].reward <= x && exists i :: 0 <= i < |a| && Control(c, a[i])
    {
      var i := Find(b, a, j);
    }
  }

  /** An element of one permutation, found in the other. */
  lemma Find(a: seq<MicroResult>, b: seq<MicroResult>, i: nat) returns (j: nat)
    requires multiset(a) == multiset(b) && i < |a|
    ensures j < |b| && b[j] == a[i]
    ensures multiset(a[..i] + a[i + 1..]) == multiset(b[..j] + b[j + 1..])
  {
    assert a[i] in multiset(a);
    assert a[i] in multiset(b);
    j :| 0 <= j < |b| && b[j] == a[i];
    WithoutOne(a, i);
    WithoutOne(b, j);
  }

  lemma WithoutOne(a: seq<MicroResult>, i: nat)
    requires i < |a|
    ensures multiset(a[..i] + a[i + 1..]) == multiset(a) - multiset{a[i]}
  {
    assert a == a[..i] + [a[i]] + a[i + 1..];
  }

  /** Whoever wins one listing of the results wins every other listing of them. */
  lemma OrderDoesNotMatter(c: Round, a: seq<MicroResult>, b: seq<MicroResult>, control: real, i: nat) returns (j: nat)
    requires multiset(a) == multiset(b) && Wins(c, a, control, i)
    ensures Wins(c, b, control, j) && b[j] == a[i]
  {
    j := Find(a, b, i);
    var others := a[..i] + a[i + 1..];
    forall k | 0 <= k < |b| && k != j && Candidate(c, b[k])
      ensures b[j].reward - b[k].reward > PeerMargin(c, b[j].reward)
    {
      var rest := b[..j] + b[j + 1..];
      assert b[k] == rest[if k < j then k else k - 1];
      assert b[k] in multiset(rest);
      assert b[k] in multiset(others);
      var m :| 0 <= m < |others| && others[m] == b[k];
      var n := if m < i then m else m + 1;
      assert a[n] == b[k] && n != i;
    }
  }
}
