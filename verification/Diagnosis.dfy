/** What a dialogue makes of the user's answers, said without its steps: the findings are the
    definite answers given, each about the item then up.  From the findings and the tables alone
    follow the status of every item, which hypotheses are left, what each of them has scored, and
    the lesson that is taught when the user confirms one. */
module Diagnosis {
  import opened Nodes
  import opened Tallies
  import opened OccurrenceTable
  import opened Bayes
  import opened Dialogue
  import opened DialogueSafety
  import opened DialogueOutcomes
  import opened MostProbable
  import opened CaseCreation
  import opened Solutions

  // ----- What the user has found -----

  datatype Finding = Finding(item: nat, isTrue: bool)

  /** Answer 0 is "no", answer 1 "yes"; all others are not definite. */
  function FoundBy(s: CaseState, answer: nat): seq<Finding> {
    if s.prompt.waiting && s.prompt.handler == EvaluatePromptedEvidenceQuery && answer <= 1
    then [Finding(s.evidence.up, answer == 1)] else []
  }

  /** The findings of a dialogue, in the order they were made. */
  ghost function Findings(s: CaseState, nodes: NodeMap, answers: seq<nat>): seq<Finding>
    requires Sound(s) && NonNegative(nodes)
  {
    if answers == [] then []
    else
      var front, last := answers[..|answers| - 1], answers[|answers| - 1];
      Findings(s, nodes, front) + FoundBy(Run(s, nodes, front).state, last)
  }

  /** The row of the tables an item is taught in: false, true, or unevaluated. */
  function RowFound(found: seq<Finding>, item: nat): (row: nat)
    ensures row <= 2
  {
    if found == [] then 2
    else
      var last := found[|found| - 1];
      if last.item != item then RowFound(found[..|found| - 1], item) else if last.isTrue then 1 else 0
  }

  lemma RowFoundOneMore(found: seq<Finding>, f: Finding, item: nat)
    ensures RowFound(found + [f], item) == if f.item != item then RowFound(found, item) else if f.isTrue then 1 else 0
  {
    assert (found + [f])[..|found|] == found;
  }

  lemma FoundIfDefinite(s: CaseState, answer: nat)
    requires Sound(s)
    ensures FoundBy(s, answer) == if IsDefinite(s, answer) then [Finding(s.evidence.up, answer == 1)] else []
  {
  }

  // ----- The status of every item is what was found of it -----

  ghost predicate Recorded(evids: seq<EvidTally>, found: seq<Finding>) {
    forall i :: 0 <= i < |evids| ==> evids[i].status == RowFound(found, evids[i].id)
  }

  lemma StepRecords(s: CaseState, nodes: NodeMap, answer: nat, found: seq<Finding>)
    requires Sound(s) && NonNegative(nodes) && Recorded(s.evidence.evids, found)
    ensures Recorded(Step(s, nodes, answer).state.evidence.evids, found + FoundBy(s, answer))
  {
    FoundIfDefinite(s, answer);
    StepEvaluates(s, nodes, answer);
    if IsDefinite(s, answer) {
      RecordsOneMore(s.evidence, answer, found);
    } else {
      assert found + [] == found;
    }
  }

  lemma RecordsOneMore(e: Evidence, value: nat, found: seq<Finding>)
    requires EvidenceSound(e, true) && value <= 1 && EvidIndex(e.evids, e.up) < |e.evids| && Recorded(e.evids, found)
    ensures Recorded(Evaluated(e, value).evids, found + [Finding(e.up, value == 1)])
  {
    var i, after := EvidIndex(e.evids, e.up), Evaluated(e, value).evids;
    forall j | 0 <= j < |after|
      ensures after[j].status == RowFound(found + [Finding(e.up, value == 1)], after[j].id)
    {
      RowFoundOneMore(found, Finding(e.up, value == 1), after[j].id);
      if j != i {
        assert EvidIds(e.evids)[j] != EvidIds(e.evids)[i];
      }
    }
  }

  lemma {:induction false} RunRecords(s: CaseState, nodes: NodeMap, answers: seq<nat>)
    requires Sound(s) && NonNegative(nodes) && Recorded(s.evidence.evids, [])
    ensures Recorded(Run(s, nodes, answers).state.evidence.evids, Findings(s, nodes, answers))
  {
    if answers != [] {
      var front, last := answers[..|answers| - 1], answers[|answers| - 1];
      RunRecords(s, nodes, front);
      var before := Run(s, nodes, front);
      StepRecords(before.state, before.nodes, last, Findings(s, nodes, front));
    }
  }

  // ----- Which hypothesis the user confirms -----

  /** A "yes" to the solution confirms the solution held; a choice from the list confirms the
      hypothesis at that place of it. */
  function ConfirmedBy(s: CaseState, answer: nat): seq<nat> {
    if !s.prompt.waiting then []
    else if s.prompt.handler == IsMappHypoCorrect && answer == 1 then [s.inference.mapp]
    else if s.prompt.handler == UserVerifyCorrectHypoByChoosing && answer < |s.inference.hypos|
      then [s.inference.hypos[answer].id]
    else []
  }

  ghost function Confirmations(s: CaseState, nodes: NodeMap, answers: seq<nat>): seq<nat>
    requires Sound(s) && NonNegative(nodes)
  {
    if answers == [] then []
    else
      var front, last := answers[..|answers| - 1], answers[|answers| - 1];
      Confirmations(s, nodes, front) + ConfirmedBy(Run(s, nodes, front).state, last)
  }

  /** After a confirmation the one confirmed is judged likely true, all others false. */
  ghost predicate JudgedBy(hypos: seq<HypoTally>, trueHypo: nat) {
    forall i :: 0 <= i < |hypos| ==> (hypos[i].status == STATUS_LIKELY <==> hypos[i].id == trueHypo)
                                     && (hypos[i].status == STATUS_DEAD <==> hypos[i].id != trueHypo)
  }

  /** The case is verified with the one hypothesis confirmed, if one has been. */
  ghost predicate Confirmed(t: CaseState, confirmed: seq<nat>) {
    && |confirmed| <= 1 && (t.verified <==> confirmed != [])
    && (t.verified ==> t.trueHypo == confirmed[0] && JudgedBy(t.inference.hypos, confirmed[0]))
  }

  lemma VerifyingConfirms(s: CaseState, nodes: NodeMap, trueHypo: nat)
    requires Sound(s) && trueHypo in HypoIds(s.inference.hypos)
    ensures Confirmed(OnVerified(s, nodes, trueHypo).state, [trueHypo])
  {
  }

  lemma IsMappConfirms(s: CaseState, nodes: NodeMap, answer: nat)
    requires Sound(s) && !s.verified
    ensures Confirmed(OnIsMappHypoCorrect(s, nodes, answer).state, if answer == 1 then [s.inference.mapp] else [])
  {
    if answer == 1 {
      VerifyingConfirms(s, nodes, s.inference.mapp);
    }
  }

  lemma ChoosingConfirms(s: CaseState, nodes: NodeMap, answer: nat)
    requires Sound(s) && answer < |s.inference.hypos|
    ensures Confirmed(OnUserVerifyCorrectHypoByChoosing(s, nodes, answer).state, [s.inference.hypos[answer].id])
  {
    assert HypoIds(s.inference.hypos)[answer] == s.inference.hypos[answer].id;
    VerifyingConfirms(s, nodes, s.inference.hypos[answer].id);
  }

  lemma OthersConfirmNone(s: CaseState, nodes: NodeMap, answer: nat)
    requires Sound(s) && NonNegative(nodes) && answer <= s.prompt.answerMax && !IsAsking(s) && !s.verified
    requires s.prompt.handler != IsMappHypoCorrect && s.prompt.handler != UserVerifyCorrectHypoByChoosing
    ensures Confirmed(OnAnswer(s, nodes, answer).state, [])
  {
  }

  lemma ActionConfirms(s: CaseState, nodes: NodeMap, answer: nat)
    requires Sound(s) && NonNegative(nodes) && answer <= s.prompt.answerMax && !IsAsking(s) && !s.verified
    ensures Confirmed(OnAnswer(s, nodes, answer).state, ConfirmedBy(s.(prompt := s.prompt.(waiting := true)), answer))
  {
    if s.prompt.handler == IsMappHypoCorrect {
      IsMappConfirms(s, nodes, answer);
    } else if s.prompt.handler == UserVerifyCorrectHypoByChoosing {
      ChoosingConfirms(s, nodes, answer);
    } else {
      OthersConfirmNone(s, nodes, answer);
    }
  }

  lemma VerifiedStays(s: CaseState, nodes: NodeMap, answer: nat)
    requires Sound(s) && NonNegative(nodes) && s.verified
    ensures ConfirmedBy(s, answer) == []
    ensures var t := Step(s, nodes, answer).state;
            t.verified && t.trueHypo == s.trueHypo && t.inference.hypos == s.inference.hypos
  {
    EveryStepIsGood(s, nodes, answer);
    if Accepts(s, answer) {
      StepIs(s, nodes, answer);
    }
  }

  lemma StepConfirms(s: CaseState, nodes: NodeMap, answer: nat)
    requires Sound(s) && NonNegative(nodes) && !s.verified
    ensures Confirmed(Step(s, nodes, answer).state, ConfirmedBy(s, answer))
  {
    if Accepts(s, answer) {
      StepIs(s, nodes, answer);
      if !IsAsking(s) && !(OffersToLeave(s.prompt.handler) && answer == 0) {
        assert Busy(s).(prompt := Busy(s).prompt.(waiting := true)) == s;
        ActionConfirms(Busy(s), nodes, answer);
      }
    }
  }

  lemma {:induction false} RunConfirms(s: CaseState, nodes: NodeMap, answers: seq<nat>)
    requires Sound(s) && NonNegative(nodes) && !s.verified
    ensures Confirmed(Run(s, nodes, answers).state, Confirmations(s, nodes, answers))
  {
    if answers != [] {
      var front, last := answers[..|answers| - 1], answers[|answers| - 1];
      RunConfirms(s, nodes, front);
      var before := Run(s, nodes, front);
      if before.state.verified {
        VerifiedStays(before.state, before.nodes, last);
      } else {
        StepConfirms(before.state, before.nodes, last);
        assert Confirmations(s, nodes, front) == [];
      }
    }
  }

  // ----- What is taught -----

  predicate IsAmong(id: nat, ids: seq<nat>) {
    id in ids
  }

  /** One true count more at the nodes of the hypothesis confirmed and one false count more at those
      of the case's other hypotheses, each in the row of what was found of its item; no other cell of
      any node is any different. */
  ghost predicate TaughtCell(before: NodeMap, after: NodeMap, rule: nat, hypos: seq<nat>, evids: seq<nat>,
                             trueHypo: nat, found: seq<Finding>, k: NodeKey, row: nat)
    requires row < 3
  {
    var here := k.rule == rule && IsAmong(k.evid, evids) && row == RowFound(found, k.evid);
    && At(after, k).trues[row] == At(before, k).trues[row] + (if here && k.hypo == trueHypo then 1 else 0)
    && At(after, k).falses[row]
       == At(before, k).falses[row] + (if here && k.hypo != trueHypo && IsAmong(k.hypo, hypos) then 1 else 0)
  }

  lemma LessonCell(s: CaseState, found: seq<Finding>, before: NodeMap, after: NodeMap, k: NodeKey, row: nat)
    requires Recorded(s.evidence.evids, found) && s.trueHypo in HypoIds(s.inference.hypos)
    requires WellFormed(Lesson(s)) && At(after, k) == At(Taught(before, Lesson(s)), k) && row < 3
    ensures TaughtCell(before, after, s.rule, HypoIds(s.inference.hypos), EvidIds(s.evidence.evids), s.trueHypo,
                       found, k, row)
  {
    var t, evids := Lesson(s), s.evidence.evids;
    if k.evid in EvidIds(evids) {
      var i :| 0 <= i < |evids| && EvidIds(evids)[i] == k.evid;
      assert evids[i].id == k.evid;
      assert EvidIndex(evids, k.evid) < |evids|;
      assert t.status[k.evid] == RowFound(found, k.evid);
    }
    assert k in CaseKeys(t) <==> k.rule == s.rule && k.hypo in t.hypos && k.evid in EvidIds(evids);
  }

  lemma BegunRecords(rule: nat, hasDiagnostics: bool, hypos: seq<HypoTally>, evids: seq<nat>, sumPrior: int)
    requires Fresh(hypos, evids, sumPrior) && hypos != [] && sumPrior >= 0
    requires Begun(rule, hasDiagnostics, hypos, evids, sumPrior).Created?
    ensures Recorded(Begun(rule, hasDiagnostics, hypos, evids, sumPrior).state.evidence.evids, [])
  {
  }

  /** Over every dialogue from a case's creation on, the status of each item is the definite answer
      given when it was up, and the third row if there was none. */
  lemma EveryStatusIsTheAnswer(known: Known, rule: nat, hasDiagnostics: bool, hypos: seq<HypoTally>,
                               evids: seq<nat>, sumPrior: int, nodes: NodeMap, answers: seq<nat>)
    requires Fresh(hypos, evids, sumPrior) && hypos != [] && sumPrior >= 0 && NonNegative(nodes)
    requires Started(known, rule, hasDiagnostics, hypos, evids, sumPrior).Created?
    ensures var s := Started(known, rule, hasDiagnostics, hypos, evids, sumPrior).state;
            && Sound(s)
            && var after := Run(s, nodes, answers).state.evidence.evids;
               EvidIds(after) == evids && Recorded(after, Findings(s, nodes, answers))
  {
    var s := Started(known, rule, hasDiagnostics, hypos, evids, sumPrior).state;
    CreatedIff(known, rule, hasDiagnostics, hypos, evids, sumPrior);
    BegunRecords(rule, hasDiagnostics, hypos, evids, sumPrior);
    RunRecords(s, nodes, answers);
    DialogueTeachesAtMostOnce(s, nodes, answers);
  }

  /** Over every dialogue from a case's creation on: it is verified exactly if the user has confirmed
      a hypothesis, one at most and one of the case's.  Without that the tables read as before; with
      it they have been taught the hypothesis confirmed, each item in the row the user's answer to it
      gave - and in the third row if none was definite. */
  lemma TaughtAsTheUserSaid(known: Known, rule: nat, hasDiagnostics: bool, hypos: seq<HypoTally>, evids: seq<nat>,
                            sumPrior: int, nodes: NodeMap, answers: seq<nat>)
    requires Fresh(hypos, evids, sumPrior) && hypos != [] && sumPrior >= 0 && NonNegative(nodes)
    requires Started(known, rule, hasDiagnostics, hypos, evids, sumPrior).Created?
    ensures var s := Started(known, rule, hasDiagnostics, hypos, evids, sumPrior).state;
            && Sound(s)
            && var e, confirmed := Run(s, nodes, answers), Confirmations(s, nodes, answers);
               && |confirmed| <= 1 && (e.state.verified <==> confirmed != [])
               && (confirmed == [] ==> forall k :: At(e.nodes, k) == At(nodes, k))
               && (confirmed != [] ==>
                     && confirmed[0] in HypoIds(hypos)
                     && forall k: NodeKey, row: nat | row < 3 ::
                          TaughtCell(nodes, e.nodes, rule, HypoIds(hypos), evids, confirmed[0],
                                     Findings(s, nodes, answers), k, row))
  {
    var s := Started(known, rule, hasDiagnostics, hypos, evids, sumPrior).state;
    CreatedIff(known, rule, hasDiagnostics, hypos, evids, sumPrior);
    BegunRecords(rule, hasDiagnostics, hypos, evids, sumPrior);
    RunRecords(s, nodes, answers);
    RunConfirms(s, nodes, answers);
    DialogueTeachesAtMostOnce(s, nodes, answers);
    var e, found := Run(s, nodes, answers), Findings(s, nodes, answers);
    if e.state.verified {
      forall k: NodeKey, row: nat | row < 3
        ensures TaughtCell(nodes, e.nodes, rule, HypoIds(hypos), evids, e.state.trueHypo, found, k, row)
      {
        LessonCell(e.state, found, nodes, e.nodes, k, row);
      }
    }
  }
}
