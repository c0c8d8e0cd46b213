/** How the hypotheses of a case stand once findings have been made, said from the findings and
    the tables alone: which of them are left, what each of them has scored, what the scores are
    divided by.  Every dialogue until its case is verified keeps to it. */
module Standings {
  import opened Nodes
  import opened Tallies
  import opened OccurrenceTable
  import opened Bayes
  import opened Dialogue
  import opened DialogueSafety
  import opened DialogueOutcomes
  import opened MostProbable
  import opened CaseCreation
  import opened Solutions
  import opened Diagnosis

  // ----- What a finding tells, from the tables -----

  /** How often the item had the value found with the hypothesis true. */
  function TimesTrueWith(nodes: NodeMap, rule: nat, hypo: nat, f: Finding): int {
    At(nodes, NodeKey(rule, hypo, f.item)).trues[if f.isTrue then 1 else 0]
  }

  function TimesFalseWith(nodes: NodeMap, rule: nat, hypo: nat, f: Finding): int {
    At(nodes, NodeKey(rule, hypo, f.item)).falses[if f.isTrue then 1 else 0]
  }

  /** Those of the hypotheses left that were ever true with the value found.  Without any the
      value is novel; a lone one is decided for. */
  function Backed(nodes: NodeMap, rule: nat, left: set<nat>, f: Finding): set<nat> {
    set h | h in left && TimesTrueWith(nodes, rule, h, f) > 0
  }

  /** The hypotheses a finding leaves of those that were left. */
  function LeftBy(nodes: NodeMap, rule: nat, left: set<nat>, f: Finding): set<nat> {
    var backed := Backed(nodes, rule, left, f);
    if backed == {} then left
    else if |backed| == 1 then backed
    else set h | h in left && (h in backed || TimesFalseWith(nodes, rule, h, f) == 0)
  }

  function Left(nodes: NodeMap, rule: nat, hypos: set<nat>, found: seq<Finding>): set<nat> {
    if found == [] then hypos
    else LeftBy(nodes, rule, Left(nodes, rule, hypos, found[..|found| - 1]), found[|found| - 1])
  }

  /** The sum over the findings of the hypothesis's true counts with them, or 1 where a value was
      novel to the hypotheses then left. */
  function Score(nodes: NodeMap, rule: nat, hypos: set<nat>, hypo: nat, found: seq<Finding>): int {
    if found == [] then 0
    else
      var front, last := found[..|found| - 1], found[|found| - 1];
      Score(nodes, rule, hypos, hypo, front)
      + if Backed(nodes, rule, Left(nodes, rule, hypos, front), last) == {} then 1
        else TimesTrueWith(nodes, rule, hypo, last)
  }

  /** What a hypothesis stands at: its score while it is left, nothing when it is not. */
  function Standing(nodes: NodeMap, rule: nat, hypos: set<nat>, hypo: nat, found: seq<Finding>): int {
    if hypo in Left(nodes, rule, hypos, found) then Score(nodes, rule, hypos, hypo, found) else 0
  }

  function Total(nodes: NodeMap, rule: nat, hypos: set<nat>, ids: seq<nat>, found: seq<Finding>): int {
    if ids == [] then 0
    else Total(nodes, rule, hypos, ids[..|ids| - 1], found) + Standing(nodes, rule, hypos, ids[|ids| - 1], found)
  }

  /** What the standings are divided by: their total, or the number of hypotheses left if the
      last value found was novel. */
  function Whole(nodes: NodeMap, rule: nat, ids: seq<nat>, found: seq<Finding>): int
    requires found != []
  {
    var front, last := found[..|found| - 1], found[|found| - 1];
    var left := Left(nodes, rule, Range(ids), front);
    if Backed(nodes, rule, left, last) == {} then |left| else Total(nodes, rule, Range(ids), ids, found)
  }

  /** The hypotheses left of those listed that were never true with the value found, but false. */
  function Felled(nodes: NodeMap, rule: nat, left: set<nat>, f: Finding, ids: seq<nat>): nat {
    if ids == [] then 0
    else
      var last := ids[|ids| - 1];
      Felled(nodes, rule, left, f, ids[..|ids| - 1])
      + if last in left && TimesTrueWith(nodes, rule, last, f) == 0 && TimesFalseWith(nodes, rule, last, f) != 0
        then 1 else 0
  }

  /** Those walked before any of the others given. */
  function Ahead(ids: seq<nat>, of: set<nat>): seq<nat> {
    if ids == [] || ids[0] in of then [] else [ids[0]] + Ahead(ids[1..], of)
  }

  /** How many a finding takes off the count of hypotheses by which a case is to be found bust.  When
      one is decided for, those that go for that reason alone are not taken off it. */
  function TakenOff(nodes: NodeMap, rule: nat, left: set<nat>, ids: seq<nat>, f: Finding): nat {
    var backed := Backed(nodes, rule, left, f);
    if backed == {} then 0 else Felled(nodes, rule, left, f, if |backed| == 1 then Ahead(ids, backed) else ids)
  }

  function Remaining(nodes: NodeMap, rule: nat, ids: seq<nat>, found: seq<Finding>): int {
    if found == [] then |ids|
    else
      var front, last := found[..|found| - 1], found[|found| - 1];
      Remaining(nodes, rule, ids, front) - TakenOff(nodes, rule, Left(nodes, rule, Range(ids), front), ids, last)
  }

  // ----- One finding and the tallies -----

  function LiveIds(hypos: seq<HypoTally>): set<nat> {
    set i | 0 <= i < |hypos| && Alive(hypos[i]) :: hypos[i].id
  }

  /** The counts met are those the tables have with the finding. */
  ghost predicate Meets(hypos: seq<HypoTally>, nodes: NodeMap, rule: nat, f: Finding,
                        trues: seq<int>, falses: seq<int>) {
    && CountsSound(hypos, trues, falses) && Distinct(HypoIds(hypos))
    && forall i :: 0 <= i < |hypos| ==>
         && trues[i] == TimesTrueWith(nodes, rule, hypos[i].id, f)
         && falses[i] == TimesFalseWith(nodes, rule, hypos[i].id, f)
  }

  lemma LiveIdsIff(hypos: seq<HypoTally>, i: nat)
    requires Distinct(HypoIds(hypos)) && i < |hypos|
    ensures hypos[i].id in LiveIds(hypos) <==> Alive(hypos[i])
  {
    var ids := HypoIds(hypos);
    assert forall j :: 0 <= j < |hypos| && j != i ==> ids[j] != ids[i];
  }

  /** One hypothesis holds all the weight iff no other live one has any. */
  lemma {:induction false} WeightOfOneIff(hypos: seq<HypoTally>, trues: seq<int>, d: nat, upTo: nat)
    requires |hypos| == |trues| && d < upTo <= |hypos| && Alive(hypos[d])
    requires forall j :: 0 <= j < |trues| ==> 0 <= trues[j]
    ensures Weight(hypos, trues, upTo) >= trues[d]
    ensures Weight(hypos, trues, upTo) == trues[d]
       <==> forall i :: 0 <= i < upTo && i != d && Alive(hypos[i]) ==> trues[i] == 0
  {
    if d == upTo - 1 {
      WeightZeroIff(hypos, trues, d);
      WeightNonNegative(hypos, trues, d);
    } else {
      WeightOfOneIff(hypos, trues, d, upTo - 1);
    }
  }

  lemma NovelIff(hypos: seq<HypoTally>, nodes: NodeMap, rule: nat, f: Finding, trues: seq<int>, falses: seq<int>)
    requires Meets(hypos, nodes, rule, f, trues, falses)
    ensures IsNovel(hypos, trues) <==> Backed(nodes, rule, LiveIds(hypos), f) == {}
  {
    WeightZeroIff(hypos, trues, |hypos|);
    var backed := Backed(nodes, rule, LiveIds(hypos), f);
    if i :| 0 <= i < |hypos| && Alive(hypos[i]) && trues[i] != 0 {
      assert hypos[i].id in backed;
    }
  }

  lemma DecisiveIff(hypos: seq<HypoTally>, nodes: NodeMap, rule: nat, f: Finding,
                    trues: seq<int>, falses: seq<int>, d: nat)
    requires Meets(hypos, nodes, rule, f, trues, falses) && d < |hypos|
    ensures IsDecisive(hypos, trues, d) <==> Backed(nodes, rule, LiveIds(hypos), f) == {hypos[d].id}
  {
    var ids, backed := HypoIds(hypos), Backed(nodes, rule, LiveIds(hypos), f);
    LiveIdsIff(hypos, d);
    if Alive(hypos[d]) {
      WeightOfOneIff(hypos, trues, d, |hypos|);
    }
    if backed == {ids[d]} {
      forall i | 0 <= i < |hypos| && i != d && Alive(hypos[i])
        ensures trues[i] == 0
      {
        assert ids[i] != ids[d] && ids[i] in LiveIds(hypos);
        assert ids[i] !in backed;
      }
      assert ids[d] in backed;
    }
    if IsDecisive(hypos, trues, d) {
      forall h | h in backed
        ensures h == ids[d]
      {
        var i :| 0 <= i < |hypos| && Alive(hypos[i]) && hypos[i].id == h;
      }
      assert ids[d] in backed;
    }
  }

  lemma LoneElement(s: set<nat>)
    requires |s| == 1
    ensures exists x :: s == {x}
  {
    var x :| x in s;
    assert |s - {x}| == 0;
    assert s == {x};
  }

  lemma SomeDecisiveIff(hypos: seq<HypoTally>, nodes: NodeMap, rule: nat, f: Finding,
                        trues: seq<int>, falses: seq<int>)
    requires Meets(hypos, nodes, rule, f, trues, falses)
    ensures FirstDecisive(hypos, trues, 0) < |hypos| <==> |Backed(nodes, rule, LiveIds(hypos), f)| == 1
  {
    var d, backed := FirstDecisive(hypos, trues, 0), Backed(nodes, rule, LiveIds(hypos), f);
    if d < |hypos| {
      DecisiveIff(hypos, nodes, rule, f, trues, falses, d);
    } else if |backed| == 1 {
      LoneElement(backed);
      var h :| backed == {h};
      assert h in backed;
      var i: nat :| i < |hypos| && Alive(hypos[i]) && hypos[i].id == h;
      DecisiveIff(hypos, nodes, rule, f, trues, falses, i);
    }
  }

  /** What a finding is to do to each tally. */
  ghost predicate LeavesAsFound(hypos: seq<HypoTally>, nodes: NodeMap, rule: nat, f: Finding, after: seq<HypoTally>) {
    var left := LiveIds(hypos);
    && HypoIds(after) == HypoIds(hypos)
    && forall i :: 0 <= i < |hypos| ==>
         && (Alive(after[i]) <==> hypos[i].id in LeftBy(nodes, rule, left, f))
         && after[i].accumPost
            == if hypos[i].id !in LeftBy(nodes, rule, left, f) then 0
               else hypos[i].accumPost
                    + if Backed(nodes, rule, left, f) == {} then 1 else TimesTrueWith(nodes, rule, hypos[i].id, f)
  }

  lemma NovelLeaves(hypos: seq<HypoTally>, nodes: NodeMap, rule: nat, f: Finding, trues: seq<int>, falses: seq<int>)
    requires Meets(hypos, nodes, rule, f, trues, falses) && TalliesSound(hypos) && IsNovel(hypos, trues)
    ensures LeavesAsFound(hypos, nodes, rule, f, NovelPass(hypos, |hypos|))
  {
    NovelIff(hypos, nodes, rule, f, trues, falses);
    forall i | 0 <= i < |hypos|
      ensures hypos[i].id in LiveIds(hypos) <==> Alive(hypos[i])
    {
      LiveIdsIff(hypos, i);
    }
    assert HypoIds(NovelPass(hypos, |hypos|)) == HypoIds(hypos);
  }

  lemma DecisiveLeaves(hypos: seq<HypoTally>, nodes: NodeMap, rule: nat, f: Finding,
                       trues: seq<int>, falses: seq<int>, d: nat)
    requires Meets(hypos, nodes, rule, f, trues, falses) && TalliesSound(hypos)
    requires d < |hypos| && IsDecisive(hypos, trues, d)
    ensures LeavesAsFound(hypos, nodes, rule, f, Crowned(Pass(hypos, trues, falses, d), d, trues[d], |hypos|))
  {
    var ids, c := HypoIds(hypos), Crowned(Pass(hypos, trues, falses, d), d, trues[d], |hypos|);
    DecisiveIff(hypos, nodes, rule, f, trues, falses, d);
    CrownedIsLone(hypos, trues, falses, d);
    assert HypoIds(c) == ids;
    forall i | 0 <= i < |hypos|
      ensures hypos[i].id in LeftBy(nodes, rule, LiveIds(hypos), f) <==> i == d
    {
      assert i != d ==> ids[i] != ids[d];
    }
  }

  lemma WeighedLeaves(hypos: seq<HypoTally>, nodes: NodeMap, rule: nat, f: Finding, trues: seq<int>, falses: seq<int>)
    requires Meets(hypos, nodes, rule, f, trues, falses) && TalliesSound(hypos)
    requires !IsNovel(hypos, trues) && FirstDecisive(hypos, trues, 0) == |hypos|
    ensures LeavesAsFound(hypos, nodes, rule, f, Pass(hypos, trues, falses, |hypos|))
  {
    var p := Pass(hypos, trues, falses, |hypos|);
    NovelIff(hypos, nodes, rule, f, trues, falses);
    SomeDecisiveIff(hypos, nodes, rule, f, trues, falses);
    assert HypoIds(p) == HypoIds(hypos);
    forall i | 0 <= i < |hypos|
      ensures hypos[i].id in LeftBy(nodes, rule, LiveIds(hypos), f) <==> Alive(p[i])
    {
      LiveIdsIff(hypos, i);
    }
  }

  lemma AppliedLeaves(f: Inference, nodes: NodeMap, rule: nat, found: Finding, trues: seq<int>, falses: seq<int>)
    requires InferenceSound(f) && Meets(f.hypos, nodes, rule, found, trues, falses)
    ensures var p := EvidenceApplied(f, trues, falses);
            && LeavesAsFound(f.hypos, nodes, rule, found, p.hypos)
            && p.sumAccum == if Backed(nodes, rule, LiveIds(f.hypos), found) == {} then |LiveIds(f.hypos)|
                             else SumAccum(p.hypos)
  {
    var d := FirstDecisive(f.hypos, trues, 0);
    NovelIff(f.hypos, nodes, rule, found, trues, falses);
    PosteriorIsDistributionIff(f.hypos, trues, falses, f.numAlive, f.mapp, f.mappAt100pct);
    if IsNovel(f.hypos, trues) {
      NovelLeaves(f.hypos, nodes, rule, found, trues, falses);
      AliveCountIs(f.hypos);
    } else if d < |f.hypos| {
      DecisiveLeaves(f.hypos, nodes, rule, found, trues, falses, d);
    } else {
      WeighedLeaves(f.hypos, nodes, rule, found, trues, falses);
    }
  }

  lemma {:induction false} KilledAreFelled(hypos: seq<HypoTally>, nodes: NodeMap, rule: nat, f: Finding,
                                           trues: seq<int>, falses: seq<int>, upTo: nat)
    requires Meets(hypos, nodes, rule, f, trues, falses) && upTo <= |hypos|
    ensures NumKilled(hypos, trues, falses, upTo) == Felled(nodes, rule, LiveIds(hypos), f, HypoIds(hypos)[..upTo])
  {
    if upTo > 0 {
      KilledAreFelled(hypos, nodes, rule, f, trues, falses, upTo - 1);
      LiveIdsIff(hypos, upTo - 1);
      assert HypoIds(hypos)[..upTo][..upTo - 1] == HypoIds(hypos)[..upTo - 1];
    }
  }

  lemma {:induction false} AheadIs(ids: seq<nat>, d: nat, of: set<nat>)
    requires Distinct(ids) && d < |ids| && of == {ids[d]}
    ensures Ahead(ids, of) == ids[..d]
  {
    if d > 0 {
      assert ids[0] != ids[d];
      AheadIs(ids[1..], d - 1, of);
      assert ids[..d] == [ids[0]] + ids[1..][..d - 1];
    }
  }

  lemma AppliedTakesOff(f: Inference, nodes: NodeMap, rule: nat, found: Finding, trues: seq<int>, falses: seq<int>)
    requires Meets(f.hypos, nodes, rule, found, trues, falses)
    ensures EvidenceApplied(f, trues, falses).numAlive
         == f.numAlive - TakenOff(nodes, rule, LiveIds(f.hypos), HypoIds(f.hypos), found)
  {
    var d, ids := FirstDecisive(f.hypos, trues, 0), HypoIds(f.hypos);
    var backed := Backed(nodes, rule, LiveIds(f.hypos), found);
    NovelIff(f.hypos, nodes, rule, found, trues, falses);
    SomeDecisiveIff(f.hypos, nodes, rule, found, trues, falses);
    if !IsNovel(f.hypos, trues) {
      KilledAreFelled(f.hypos, nodes, rule, found, trues, falses, d);
      if d < |f.hypos| {
        DecisiveIff(f.hypos, nodes, rule, found, trues, falses, d);
        AheadIs(ids, d, backed);
      } else {
        assert ids[..d] == ids;
      }
    }
  }

  lemma LiveIdsOneMore(hypos: seq<HypoTally>, h: HypoTally)
    requires Distinct(HypoIds(hypos + [h]))
    ensures Distinct(HypoIds(hypos)) && h.id !in LiveIds(hypos)
    ensures LiveIds(hypos + [h]) == LiveIds(hypos) + if Alive(h) then {h.id} else {}
  {
    var ids := HypoIds(hypos + [h]);
    assert HypoIds(hypos) == ids[..|hypos|];
    assert forall i :: 0 <= i < |hypos| ==> (hypos + [h])[i] == hypos[i] && ids[i] != ids[|hypos|];
  }

  lemma {:induction false} AliveCountIs(hypos: seq<HypoTally>)
    requires Distinct(HypoIds(hypos))
    ensures AliveCount(hypos) == |LiveIds(hypos)|
  {
    if hypos != [] {
      var front, last := hypos[..|hypos| - 1], hypos[|hypos| - 1];
      assert hypos == front + [last];
      LiveIdsOneMore(front, last);
      AliveCountIs(front);
    }
  }

  // ----- The findings one by one -----

  lemma OneMoreFinding(nodes: NodeMap, rule: nat, hypos: set<nat>, found: seq<Finding>, f: Finding)
    ensures var left := Left(nodes, rule, hypos, found);
            && Left(nodes, rule, hypos, found + [f]) == LeftBy(nodes, rule, left, f)
            && forall h :: Score(nodes, rule, hypos, h, found + [f])
                           == Score(nodes, rule, hypos, h, found)
                              + if Backed(nodes, rule, left, f) == {} then 1 else TimesTrueWith(nodes, rule, h, f)
  {
    assert (found + [f])[..|found|] == found;
  }

  lemma {:induction false} LeftWithin(nodes: NodeMap, rule: nat, hypos: set<nat>, found: seq<Finding>)
    ensures Left(nodes, rule, hypos, found) <= hypos
  {
    if found != [] {
      LeftWithin(nodes, rule, hypos, found[..|found| - 1]);
    }
  }

  /** The hypotheses of a case are left, and have counted, as the findings say. */
  ghost predicate Stands(hypos: seq<HypoTally>, nodes: NodeMap, rule: nat, ids: seq<nat>, found: seq<Finding>) {
    && HypoIds(hypos) == ids
    && forall i :: 0 <= i < |hypos| ==>
         && (Alive(hypos[i]) <==> ids[i] in Left(nodes, rule, Range(ids), found))
         && hypos[i].accumPost == Standing(nodes, rule, Range(ids), ids[i], found)
  }

  lemma LiveAreLeft(hypos: seq<HypoTally>, nodes: NodeMap, rule: nat, ids: seq<nat>, found: seq<Finding>)
    requires Stands(hypos, nodes, rule, ids, found)
    ensures LiveIds(hypos) == Left(nodes, rule, Range(ids), found)
  {
    var left := Left(nodes, rule, Range(ids), found);
    LeftWithin(nodes, rule, Range(ids), found);
    forall h | h in left
      ensures h in LiveIds(hypos)
    {
      var i :| 0 <= i < |ids| && ids[i] == h;
      assert Alive(hypos[i]);
    }
  }

  lemma StandsOneMore(before: seq<HypoTally>, after: seq<HypoTally>, nodes: NodeMap, rule: nat, ids: seq<nat>,
                      found: seq<Finding>, f: Finding)
    requires Stands(before, nodes, rule, ids, found) && LeavesAsFound(before, nodes, rule, f, after)
    ensures Stands(after, nodes, rule, ids, found + [f])
  {
    LiveAreLeft(before, nodes, rule, ids, found);
    OneMoreFinding(nodes, rule, Range(ids), found, f);
    forall i | 0 <= i < |ids|
      ensures after[i].accumPost == Standing(nodes, rule, Range(ids), ids[i], found + [f])
    {
      assert LeftBy(nodes, rule, LiveIds(before), f) <= LiveIds(before);
    }
  }

  lemma {:induction false} TotalIs(hypos: seq<HypoTally>, nodes: NodeMap, rule: nat, all: set<nat>,
                                   found: seq<Finding>)
    requires forall i :: 0 <= i < |hypos| ==> hypos[i].accumPost == Standing(nodes, rule, all, hypos[i].id, found)
    ensures SumAccum(hypos) == Total(nodes, rule, all, HypoIds(hypos), found)
  {
    if hypos != [] {
      TotalIs(hypos[..|hypos| - 1], nodes, rule, all, found);
      assert HypoIds(hypos)[..|hypos| - 1] == HypoIds(hypos[..|hypos| - 1]);
    }
  }

  // ----- Probabilities -----

  /** And the registers and probabilities follow from that. */
  ghost predicate Shared(f: Inference, nodes: NodeMap, rule: nat, ids: seq<nat>, found: seq<Finding>) {
    && Stands(f.hypos, nodes, rule, ids, found) && (f.noEvidence <==> found == [])
    && f.numAlive == Remaining(nodes, rule, ids, found)
    && (found != [] ==>
          && f.sumAccum == Whole(nodes, rule, ids, found) > 0
          && forall i :: 0 <= i < |f.hypos| ==> f.hypos[i].postProb == PerMille(f.hypos[i].accumPost, f.sumAccum))
  }

  lemma UpdatingShares(f: Inference, nodes: NodeMap, rule: nat, ids: seq<nat>, found: seq<Finding>)
    requires InferenceSound(f) && Stands(f.hypos, nodes, rule, ids, found) && (f.noEvidence <==> found == [])
    requires f.numAlive == Remaining(nodes, rule, ids, found)
    requires found != [] ==> f.sumAccum == Whole(nodes, rule, ids, found)
    ensures Shared(Updated(f, false), nodes, rule, ids, found)
  {
    UpdatedSound(f, false);
    var g := Updated(f, false);
    forall i | 0 <= i < |g.hypos|
      ensures Alive(g.hypos[i]) == Alive(f.hypos[i]) && g.hypos[i].accumPost == f.hypos[i].accumPost
    {
    }
  }

  lemma EvidenceShares(f: Inference, nodes: NodeMap, rule: nat, ids: seq<nat>, found: seq<Finding>, one: Finding,
                       trues: seq<int>, falses: seq<int>)
    requires InferenceSound(f) && Shared(f, nodes, rule, ids, found)
    requires Meets(f.hypos, nodes, rule, one, trues, falses)
    ensures InferenceSound(EvidenceApplied(f, trues, falses))
    ensures Shared(Updated(EvidenceApplied(f, trues, falses), false), nodes, rule, ids, found + [one])
  {
    var p := EvidenceApplied(f, trues, falses);
    EvidenceAppliedSound(f, trues, falses);
    AppliedLeaves(f, nodes, rule, one, trues, falses);
    LiveAreLeft(f.hypos, nodes, rule, ids, found);
    StandsOneMore(f.hypos, p.hypos, nodes, rule, ids, found, one);
    TotalIs(p.hypos, nodes, rule, Range(ids), found + [one]);
    WholeOneMore(nodes, rule, ids, found, one);
    AppliedTakesOff(f, nodes, rule, one, trues, falses);
    RemainingOneMore(nodes, rule, ids, found, one);
    UpdatingShares(p, nodes, rule, ids, found + [one]);
  }

  lemma RemainingOneMore(nodes: NodeMap, rule: nat, ids: seq<nat>, found: seq<Finding>, f: Finding)
    ensures Remaining(nodes, rule, ids, found + [f])
         == Remaining(nodes, rule, ids, found) - TakenOff(nodes, rule, Left(nodes, rule, Range(ids), found), ids, f)
  {
    assert (found + [f])[..|found|] == found;
  }

  lemma WholeOneMore(nodes: NodeMap, rule: nat, ids: seq<nat>, found: seq<Finding>, f: Finding)
    ensures var left := Left(nodes, rule, Range(ids), found);
            Whole(nodes, rule, ids, found + [f])
            == if Backed(nodes, rule, left, f) == {} then |left| else Total(nodes, rule, Range(ids), ids, found + [f])
  {
    assert (found + [f])[..|found|] == found;
  }

  // ----- Over whole dialogues -----

  lemma MeetsAtTheTables(s: CaseState, now: NodeMap, nodes: NodeMap, answer: nat)
    requires Sound(s) && NonNegative(now) && SameCounts(now, nodes) && answer < ROW_UNEVALUATED
    ensures Meets(s.inference.hypos, nodes, s.rule, Finding(s.evidence.up, answer == 1),
                  TruesMet(s, now, answer), FalsesMet(s, now, answer))
  {
    CountsFromNodes(s.inference.hypos, now, s.rule, s.evidence.up, answer);
    forall i | 0 <= i < |s.inference.hypos|
      ensures At(now, NodeKey(s.rule, s.inference.hypos[i].id, s.evidence.up))
           == At(nodes, NodeKey(s.rule, s.inference.hypos[i].id, s.evidence.up))
    {
    }
  }

  lemma StepShares(s: CaseState, now: NodeMap, nodes: NodeMap, answer: nat, ids: seq<nat>, found: seq<Finding>)
    requires Sound(s) && NonNegative(now) && SameCounts(now, nodes) && !s.verified
    requires Shared(s.inference, nodes, s.rule, ids, found)
    ensures var t := Step(s, now, answer).state;
            t.verified || Shared(t.inference, nodes, s.rule, ids, found + FoundBy(s, answer))
  {
    StepInfers(s, now, answer);
    FoundIfDefinite(s, answer);
    if IsDefinite(s, answer) {
      MeetsAtTheTables(s, now, nodes, answer);
      InferredIsUpdated(s, now, answer);
      EvidenceShares(s.inference, nodes, s.rule, ids, found, Finding(s.evidence.up, answer == 1),
                     TruesMet(s, now, answer), FalsesMet(s, now, answer));
    } else {
      assert found + [] == found;
      UpdatingShares(s.inference, nodes, s.rule, ids, found);
    }
  }

  lemma {:induction false} RunShares(s: CaseState, nodes: NodeMap, answers: seq<nat>)
    requires Sound(s) && NonNegative(nodes) && !s.verified
    requires Shared(s.inference, nodes, s.rule, HypoIds(s.inference.hypos), [])
    ensures var t := Run(s, nodes, answers).state;
            t.verified || Shared(t.inference, nodes, s.rule, HypoIds(s.inference.hypos), Findings(s, nodes, answers))
  {
    if answers != [] {
      var front, last := answers[..|answers| - 1], answers[|answers| - 1];
      var before := Run(s, nodes, front);
      if before.state.verified {
        VerifiedForGood(before.state, before.nodes, last);
      } else {
        RunShares(s, nodes, front);
        DialogueTeachesAtMostOnce(s, nodes, front);
        StepShares(before.state, before.nodes, nodes, last, HypoIds(s.inference.hypos), Findings(s, nodes, front));
      }
    }
  }

  // ----- From a case's creation on -----

  /** The probability of a count of a whole, in per mille, truncated - as long as it fits the 16
      bits it is kept in. */
  predicate IsShare(prob: int, count: int, whole: int) {
    whole > 0 && (1000 * count < 32768 * whole ==> whole * prob <= 1000 * count < whole * (prob + 1))
  }

  lemma PerMilleIsShare(count: int, whole: int)
    requires 0 <= count && whole > 0
    ensures IsShare(PerMille(count, whole), count, whole)
  {
    QuotientBounds(count * 1000, whole);
    if 1000 * count < 32768 * whole {
      QuotientThatFits(count, whole);
      MulSum(whole, count * 1000 / whole, 1);
    }
  }

  lemma BegunShares(rule: nat, hasDiagnostics: bool, hypos: seq<HypoTally>, evids: seq<nat>, sumPrior: int,
                    nodes: NodeMap)
    requires Fresh(hypos, evids, sumPrior) && hypos != [] && sumPrior >= 0
    requires Begun(rule, hasDiagnostics, hypos, evids, sumPrior).Created?
    ensures var f := Begun(rule, hasDiagnostics, hypos, evids, sumPrior).state.inference;
            HypoIds(f.hypos) == HypoIds(hypos) && Shared(f, nodes, rule, HypoIds(hypos), [])
  {
    CreatedIff(Known(Range(HypoIds(hypos)), Range(evids)), rule, hasDiagnostics, hypos, evids, sumPrior);
    var f := Begun(rule, hasDiagnostics, hypos, evids, sumPrior).state.inference;
    forall i | 0 <= i < |f.hypos|
      ensures Alive(f.hypos[i]) && f.hypos[i].accumPost == 0 && HypoIds(hypos)[i] in Range(HypoIds(hypos))
    {
    }
  }

  /** The hypotheses alive are those the findings leave; each has counted the sum of its true
      counts with them in the tables - or one where the value was novel to those then left - and a
      dead one nothing; and each probability is that count's share of the whole. */
  ghost predicate StandAsFound(f: Inference, nodes: NodeMap, rule: nat, ids: seq<nat>, found: seq<Finding>) {
    && |f.hypos| == |ids| && f.numAlive == Remaining(nodes, rule, ids, found)
    && forall i :: 0 <= i < |ids| ==>
         var h, left := f.hypos[i], Left(nodes, rule, Range(ids), found);
         && h.id == ids[i] && (h.status != 0 <==> h.id in left)
         && h.accumPost == (if h.id in left then Score(nodes, rule, Range(ids), h.id, found) else 0)
         && (found != [] ==> IsShare(h.postProb, h.accumPost, Whole(nodes, rule, ids, found)))
  }

  lemma SharedStandAsFound(f: Inference, nodes: NodeMap, rule: nat, ids: seq<nat>, found: seq<Finding>)
    requires InferenceSound(f) && Shared(f, nodes, rule, ids, found)
    ensures StandAsFound(f, nodes, rule, ids, found)
  {
    if found != [] {
      forall i | 0 <= i < |ids|
        ensures IsShare(f.hypos[i].postProb, f.hypos[i].accumPost, Whole(nodes, rule, ids, found))
      {
        PerMilleIsShare(f.hypos[i].accumPost, f.sumAccum);
      }
    }
  }

  /** Over every dialogue from a case's creation until it is verified the hypotheses stand as the
      definite answers given and the tables say. */
  lemma EveryStandingIsFound(known: Known, rule: nat, hasDiagnostics: bool, hypos: seq<HypoTally>, evids: seq<nat>,
                             sumPrior: int, nodes: NodeMap, answers: seq<nat>)
    requires Fresh(hypos, evids, sumPrior) && hypos != [] && sumPrior >= 0 && NonNegative(nodes)
    requires Started(known, rule, hasDiagnostics, hypos, evids, sumPrior).Created?
    ensures var s := Started(known, rule, hasDiagnostics, hypos, evids, sumPrior).state;
            && Sound(s)
            && (Run(s, nodes, answers).state.verified
                || StandAsFound(Run(s, nodes, answers).state.inference, nodes, rule, HypoIds(hypos),
                                Findings(s, nodes, answers)))
  {
    var s := Started(known, rule, hasDiagnostics, hypos, evids, sumPrior).state;
    CreatedIff(known, rule, hasDiagnostics, hypos, evids, sumPrior);
    BegunShares(rule, hasDiagnostics, hypos, evids, sumPrior, nodes);
    RunShares(s, nodes, answers);
    if !Run(s, nodes, answers).state.verified {
      SharedStandAsFound(Run(s, nodes, answers).state.inference, nodes, rule, HypoIds(hypos),
                         Findings(s, nodes, answers));
    }
  }

  /** Before any finding each hypothesis has the share its prior has of them all. */
  lemma StartsWithShares(known: Known, rule: nat, hasDiagnostics: bool, hypos: seq<HypoTally>, evids: seq<nat>,
                         sumPrior: int)
    requires Fresh(hypos, evids, sumPrior) && hypos != [] && sumPrior >= 0
    requires Started(known, rule, hasDiagnostics, hypos, evids, sumPrior).Created?
    ensures var after := Started(known, rule, hasDiagnostics, hypos, evids, sumPrior).state.inference.hypos;
            |after| == |hypos|
            && forall i :: 0 <= i < |hypos| ==> IsShare(after[i].priorProb, hypos[i].priorCount, sumPrior)
  {
    var after := Started(known, rule, hasDiagnostics, hypos, evids, sumPrior).state.inference.hypos;
    CreatedIff(known, rule, hasDiagnostics, hypos, evids, sumPrior);
    CreatedSound(rule, hasDiagnostics, hypos, evids, sumPrior);
    assert |HypoIds(after)| == |HypoIds(hypos)|;
    forall i | 0 <= i < |hypos|
      ensures IsShare(after[i].priorProb, hypos[i].priorCount, sumPrior)
    {
      PerMilleIsShare(hypos[i].priorCount, sumPrior);
      assert PriorProbs(after)[i] == PerMilles(Priors(hypos), sumPrior)[i];
    }
  }

  // ----- The solution offered -----

  function Standings(nodes: NodeMap, rule: nat, ids: seq<nat>, found: seq<Finding>): (r: seq<int>)
    ensures |r| == |ids|
  {
    seq(|ids|, i requires 0 <= i < |ids| => Standing(nodes, rule, Range(ids), ids[i], found))
  }

  ghost predicate SomeHasMost(counts: seq<int>, whole: int) {
    exists i :: 0 <= i < |counts| && 1000 * counts[i] >= 990 * whole
  }

  lemma ScannedAfter(f: Inference, trues: seq<int>, falses: seq<int>)
    requires InferenceSound(f) && CountsSound(f.hypos, trues, falses) && !f.mappAt100pct && |f.hypos| <= MAX_HYPOS
    requires !IsNovel(f.hypos, trues) || SumAccum(f.hypos) == 0
    ensures var p := EvidenceApplied(f, trues, falses);
            && InferenceSound(p)
            && var g := Updated(p, false);
               && IsFirstOfMost(HypoIds(f.hypos), Accums(p.hypos), g.mapp)
               && (g.mappAt100pct <==> SomeHasMost(Accums(p.hypos), p.sumAccum))
  {
    var p, d := EvidenceApplied(f, trues, falses), FirstDecisive(f.hypos, trues, 0);
    EvidenceCarries(f, trues, falses);
    UpdatedSound(p, false);
    AccumsAddUp(p.hypos);
    if !IsNovel(f.hypos, trues) && d < |f.hypos| {
      CrownedHasMost(p, d);
    } else {
      assert Counts(p) == Accums(p.hypos);
      ScanEndsOnFirstOfMost(HypoIds(p.hypos), Accums(p.hypos), p.sumAccum, p.mapp);
    }
  }

  lemma CrownedHasMost(p: Inference, d: nat)
    requires InferenceSound(p) && !p.noEvidence && HoldsAll(p, d) && SumAccum(p.hypos) == p.sumAccum
    ensures IsFirstOfMost(HypoIds(p.hypos), Accums(p.hypos), p.mapp)
    ensures SomeHasMost(Accums(p.hypos), p.sumAccum)
  {
    SumOfLone(p.hypos, d);
    assert HypoIds(p.hypos)[d] == p.mapp && Accums(p.hypos)[d] == p.sumAccum;
    assert forall i :: 0 <= i < |p.hypos| && i != d ==> Accums(p.hypos)[i] == 0;
  }

  /** The solution is the first of those that stand highest. */
  ghost predicate HighestIs(f: Inference, nodes: NodeMap, rule: nat, ids: seq<nat>, found: seq<Finding>) {
    && found != [] && IsFirstOfMost(ids, Standings(nodes, rule, ids, found), f.mapp)
    && (f.mappAt100pct <==> SomeHasMost(Standings(nodes, rule, ids, found), Whole(nodes, rule, ids, found)))
  }

  lemma EvidenceStandsHighest(f: Inference, nodes: NodeMap, rule: nat, ids: seq<nat>, found: seq<Finding>, one: Finding,
                              trues: seq<int>, falses: seq<int>)
    requires InferenceSound(f) && Shared(f, nodes, rule, ids, found)
    requires Meets(f.hypos, nodes, rule, one, trues, falses)
    requires !f.mappAt100pct && |f.hypos| <= MAX_HYPOS
    requires found == [] || Backed(nodes, rule, Left(nodes, rule, Range(ids), found), one) != {}
    ensures InferenceSound(EvidenceApplied(f, trues, falses))
    ensures HighestIs(Updated(EvidenceApplied(f, trues, falses), false), nodes, rule, ids, found + [one])
  {
    NovelIff(f.hypos, nodes, rule, one, trues, falses);
    LiveAreLeft(f.hypos, nodes, rule, ids, found);
    if found == [] {
      NoAccumNoSum(f.hypos);
    }
    ScannedAfter(f, trues, falses);
    var p := EvidenceApplied(f, trues, falses);
    EvidenceShares(f, nodes, rule, ids, found, one, trues, falses);
    UpdatedByScan(p);
    AccumsAreStandings(Updated(p, false).hypos, nodes, rule, ids, found + [one]);
  }

  lemma AccumsAreStandings(hypos: seq<HypoTally>, nodes: NodeMap, rule: nat, ids: seq<nat>, found: seq<Finding>)
    requires Stands(hypos, nodes, rule, ids, found)
    ensures Accums(hypos) == Standings(nodes, rule, ids, found)
  {
  }

  lemma StepStandsHighest(s: CaseState, now: NodeMap, nodes: NodeMap, answer: nat, ids: seq<nat>, found: seq<Finding>)
    requires Sound(s) && NonNegative(now) && SameCounts(now, nodes) && !s.verified
    requires Shared(s.inference, nodes, s.rule, ids, found)
    requires !s.inference.mappAt100pct && |s.inference.hypos| <= MAX_HYPOS && FoundBy(s, answer) != []
    requires found == [] || Backed(nodes, s.rule, Left(nodes, s.rule, Range(ids), found), FoundBy(s, answer)[0]) != {}
    ensures HighestIs(Step(s, now, answer).state.inference, nodes, s.rule, ids, found + FoundBy(s, answer))
  {
    StepInfers(s, now, answer);
    FoundIfDefinite(s, answer);
    MeetsAtTheTables(s, now, nodes, answer);
    InferredIsUpdated(s, now, answer);
    EvidenceStandsHighest(s.inference, nodes, s.rule, ids, found, Finding(s.evidence.up, answer == 1),
                          TruesMet(s, now, answer), FalsesMet(s, now, answer));
  }

  /** The solution after a dialogue whose last answer is a finding, below 100% before it and - but
      for the first finding - of a value not novel: the first walked of the hypotheses that stand
      highest, at 100% exactly if one of them has 990 per mille of the whole. */
  lemma SolutionStandsHighest(s: CaseState, nodes: NodeMap, front: seq<nat>, last: nat)
    requires Sound(s) && NonNegative(nodes) && !s.verified && |s.inference.hypos| <= MAX_HYPOS
    requires Shared(s.inference, nodes, s.rule, HypoIds(s.inference.hypos), [])
    requires var before, found := Run(s, nodes, front).state, Findings(s, nodes, front);
             && !before.verified && !before.inference.mappAt100pct && FoundBy(before, last) != []
             && (found != [] ==>
                   var left := Left(nodes, s.rule, Range(HypoIds(s.inference.hypos)), found);
                   Backed(nodes, s.rule, left, FoundBy(before, last)[0]) != {})
    ensures HighestIs(Run(s, nodes, front + [last]).state.inference, nodes, s.rule, HypoIds(s.inference.hypos),
                      Findings(s, nodes, front + [last]))
  {
    var b, found, ids := Run(s, nodes, front), Findings(s, nodes, front), HypoIds(s.inference.hypos);
    assert (front + [last])[..|front|] == front;
    RunShares(s, nodes, front);
    DialogueTeachesAtMostOnce(s, nodes, front);
    StepStandsHighest(b.state, b.nodes, nodes, last, ids, found);
  }

  // ----- What a design makes of an answer -----

  lemma {:induction false} DesignedCells(nodes: NodeMap, rule: nat, hypos: seq<nat>, assocs: seq<Association>,
                                         hypo: nat, evid: nat)
    requires hypo in hypos && exists a :: a in assocs && a.evid == evid
    ensures At(Built(nodes, rule, hypos, assocs), NodeKey(rule, hypo, evid))
         == DesignNode(|hypos|, LastNaming(assocs, evid), hypo)
  {
    var front, last := assocs[..|assocs| - 1], assocs[|assocs| - 1];
    if last.evid == evid {
      assert NodeKey(rule, hypo, evid) in KeysAt(rule, Range(hypos), evid);
    } else {
      DesignedCells(nodes, rule, hypos, front, hypo, evid);
    }
  }

  /** The tables of one item hold for each hypothesis what its design says. */
  ghost predicate ReadsAs(nodes: NodeMap, rule: nat, hypos: seq<nat>, a: Association) {
    forall h :: h in hypos ==> At(nodes, NodeKey(rule, h, a.evid)) == DesignNode(|hypos|, a, h)
  }

  lemma BackedByDesign(nodes: NodeMap, rule: nat, hypos: seq<nat>, a: Association, f: Finding)
    requires ReadsAs(nodes, rule, hypos, a) && a.nominal in hypos && f.item == a.evid
    ensures Backed(nodes, rule, Range(hypos), f)
         == if f.isTrue == a.direct then {a.nominal} else Range(hypos) - {a.nominal}
  {
  }

  lemma OthersAre(hypos: seq<nat>, h: nat)
    requires Distinct(hypos) && h in hypos
    ensures |Range(hypos)| == |hypos| && |Range(hypos) - {h}| == |hypos| - 1
    ensures Range(hypos) - {h} == {} <==> |hypos| == 1
  {
    DistinctLength(hypos);
  }

  lemma LeftByDesign(nodes: NodeMap, rule: nat, hypos: seq<nat>, a: Association, f: Finding)
    requires ReadsAs(nodes, rule, hypos, a) && a.nominal in hypos && f.item == a.evid && Distinct(hypos)
    ensures LeftBy(nodes, rule, Range(hypos), f)
         == if f.isTrue == a.direct then {a.nominal}
            else if |hypos| == 1 || (|hypos| > 2 && !a.invertible) then Range(hypos)
            else Range(hypos) - {a.nominal}
  {
    BackedByDesign(nodes, rule, hypos, a, f);
    OthersAre(hypos, a.nominal);
    var others := Range(hypos) - {a.nominal};
    if f.isTrue == a.direct {
      assert |{a.nominal}| == 1;
    } else {
      assert TimesFalseWith(nodes, rule, a.nominal, f) == if a.invertible then |hypos| - 1 else 0;
      assert forall h :: h in Range(hypos) ==> h == a.nominal || h in others;
    }
  }

  /** What the experts' word comes to in a first case.  The value an association speaks for decides for
      its hypothesis, and the opposite value rules that hypothesis out - if the association is meant
      to speak against it too, or there is just one other hypothesis, for which it then decides. */
  lemma DesignSpeaksForNominal(nodes: NodeMap, rule: nat, hypos: seq<nat>, assocs: seq<Association>, f: Finding)
    requires Distinct(hypos) && forall a :: a in assocs ==> a.nominal in hypos
    requires exists a :: a in assocs && a.evid == f.item
    ensures var a := LastNaming(assocs, f.item);
            Left(Built(nodes, rule, hypos, assocs), rule, Range(hypos), [f])
            == if f.isTrue == a.direct then {a.nominal}
               else if |hypos| == 1 || (|hypos| > 2 && !a.invertible) then Range(hypos)
               else Range(hypos) - {a.nominal}
  {
    var a, built := LastNaming(assocs, f.item), Built(nodes, rule, hypos, assocs);
    LastIsNamed(assocs, f.item);
    forall h | h in hypos
      ensures At(built, NodeKey(rule, h, a.evid)) == DesignNode(|hypos|, a, h)
    {
      DesignedCells(nodes, rule, hypos, assocs, h, f.item);
    }
    LeftByDesign(built, rule, hypos, a, f);
    assert [f][..0] == [];
  }

  lemma {:induction false} LastIsNamed(assocs: seq<Association>, evid: nat)
    requires exists a :: a in assocs && a.evid == evid
    ensures LastNaming(assocs, evid) in assocs && LastNaming(assocs, evid).evid == evid
  {
    if assocs[|assocs| - 1].evid != evid {
      LastIsNamed(assocs[..|assocs| - 1], evid);
    }
  }
}
