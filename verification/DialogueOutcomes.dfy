/** Where dialogues lead: evidence items are evaluated once each, the case is spent when
    the last of them has had its turn, and the hypothesis reported as most probable. */
module DialogueOutcomes {
  import opened Nodes
  import opened Tallies
  import opened OccurrenceTable
  import opened Bayes
  import opened Dialogue
  import opened DialogueSafety

  // ----- Evidence items are evaluated at most once -----

  function Unevaluated(evids: seq<EvidTally>): nat {
    if evids == [] then 0
    else Unevaluated(evids[..|evids| - 1]) + if evids[|evids| - 1].status == ROW_UNEVALUATED then 1 else 0
  }

  lemma {:induction false} OneFewerUnevaluated(evids: seq<EvidTally>, i: nat, value: nat)
    requires i < |evids| && evids[i].status == ROW_UNEVALUATED && value != ROW_UNEVALUATED
    ensures Unevaluated(evids) == Unevaluated(evids[i := evids[i].(status := value)]) + 1
  {
    var after := evids[i := evids[i].(status := value)];
    var n := |evids| - 1;
    if i < n {
      OneFewerUnevaluated(evids[..n], i, value);
      assert after[..n] == evids[..n][i := evids[i].(status := value)];
    } else {
      assert after[..n] == evids[..n];
    }
  }

  predicate IsDefinite(s: CaseState, answer: nat) {
    IsAsking(s) && Accepts(s, answer) && answer < ROW_UNEVALUATED
  }

  /** Outside the evidence query no action touches any evidence item's status. */
  lemma ActionKeepsEvids(s: CaseState, nodes: NodeMap, answer: nat)
    requires Sound(s) && NonNegative(nodes) && answer <= s.prompt.answerMax && !IsAsking(s)
    ensures OnAnswer(s, nodes, answer).state.evidence.evids == s.evidence.evids
    ensures OnAnswer(s, nodes, answer).state.spent && !s.spent ==>
              OnAnswer(s, nodes, answer).state.evidence.queue == []
    ensures s.spent ==>
              OnAnswer(s, nodes, answer).state.spent && OnAnswer(s, nodes, answer).state.evidence == s.evidence
  {
  }

  /** Evidence in one step: a definite answer evaluates exactly the item up; nothing else
      evaluates anything. */
  lemma StepEvaluates(s: CaseState, nodes: NodeMap, answer: nat)
    requires Sound(s) && NonNegative(nodes)
    ensures IsDefinite(s, answer) ==>
              && EvidIndex(s.evidence.evids, s.evidence.up) < |s.evidence.evids|
              && Step(s, nodes, answer).state.evidence == Evaluated(s.evidence, answer)
              && Step(s, nodes, answer).state.evidence.evids
                 == s.evidence.evids[EvidIndex(s.evidence.evids, s.evidence.up) := EvidTally(s.evidence.up, answer)]
              && s.evidence.evids[EvidIndex(s.evidence.evids, s.evidence.up)].status == ROW_UNEVALUATED
    ensures !IsDefinite(s, answer) ==> Step(s, nodes, answer).state.evidence.evids == s.evidence.evids
  {
    if Accepts(s, answer) {
      StepIs(s, nodes, answer);
      if IsDefinite(s, answer) {
        EvaluatedSound(s.evidence, answer);
      } else if !IsAsking(s) && !(OffersToLeave(s.prompt.handler) && answer == 0) {
        ActionKeepsEvids(Busy(s), nodes, answer);
      }
    }
  }

  ghost function DefiniteAnswers(s: CaseState, nodes: NodeMap, answers: seq<nat>): nat
    requires Sound(s) && NonNegative(nodes)
  {
    if answers == [] then 0
    else
      var front, last := answers[..|answers| - 1], answers[|answers| - 1];
      DefiniteAnswers(s, nodes, front) + if IsDefinite(Run(s, nodes, front).state, last) then 1 else 0
  }

  /** Items evaluated in `a` have the same value in `b`. */
  predicate KeepsEvaluated(a: seq<EvidTally>, b: seq<EvidTally>) {
    |a| == |b| && forall i :: 0 <= i < |a| && a[i].status != ROW_UNEVALUATED ==> b[i] == a[i]
  }

  lemma StepUsesUp(s: CaseState, nodes: NodeMap, answer: nat)
    requires Sound(s) && NonNegative(nodes)
    ensures var t := Step(s, nodes, answer).state;
            && KeepsEvaluated(s.evidence.evids, t.evidence.evids)
            && Unevaluated(s.evidence.evids) == Unevaluated(t.evidence.evids) + (if IsDefinite(s, answer) then 1 else 0)
  {
    StepEvaluates(s, nodes, answer);
    if IsDefinite(s, answer) {
      OneFewerUnevaluated(s.evidence.evids, EvidIndex(s.evidence.evids, s.evidence.up), answer);
    }
  }

  /** Over any dialogue every definite answer uses up one unevaluated item for good: an
      item once evaluated keeps its value, and the items left over and the definite
      answers given always add up to the items there were. */
  lemma {:induction false} EachItemEvaluatedOnce(s: CaseState, nodes: NodeMap, answers: seq<nat>)
    requires Sound(s) && NonNegative(nodes)
    ensures var e := Run(s, nodes, answers).state;
            && KeepsEvaluated(s.evidence.evids, e.evidence.evids)
            && Unevaluated(s.evidence.evids) == Unevaluated(e.evidence.evids) + DefiniteAnswers(s, nodes, answers)
  {
    if answers != [] {
      var front, last := answers[..|answers| - 1], answers[|answers| - 1];
      EachItemEvaluatedOnce(s, nodes, front);
      var before := Run(s, nodes, front);
      StepUsesUp(before.state, before.nodes, last);
      assert DefiniteAnswers(s, nodes, answers)
          == DefiniteAnswers(s, nodes, front) + if IsDefinite(before.state, last) then 1 else 0;
    }
  }

  /** Asking and then skipping: the item in front goes to the back, and nothing is lost. */
  lemma SkippingRotatesTheQueue(s: CaseState, nodes: NodeMap)
    requires Sound(s) && NonNegative(nodes)
    requires s.prompt.handler == TopMenuCaseInProcess && s.prompt.waiting && s.evidence.queue != []
    ensures Sound(Step(s, nodes, 1).state)
    ensures var asked := Step(s, nodes, 1).state;
            var skipped := Step(asked, nodes, 2).state;
            && asked.evidence.up == s.evidence.queue[0] && asked.evidence.queue == s.evidence.queue[1..]
            && skipped.evidence.evids == s.evidence.evids
            && skipped.evidence.queue == s.evidence.queue[1..] + [s.evidence.queue[0]]
            && (skipped.spent <==> |s.evidence.queue| == 1)
  {
    EveryStepIsGood(s, nodes, 1);
  }

  // ----- When a case is spent -----

  lemma {:induction false} NoneUnevaluated(evids: seq<EvidTally>)
    ensures Unevaluated(evids) == 0 <==> forall i :: 0 <= i < |evids| ==> evids[i].status != ROW_UNEVALUATED
  {
    if evids != [] {
      NoneUnevaluated(evids[..|evids| - 1]);
      assert forall i :: 0 <= i < |evids| - 1 ==> evids[..|evids| - 1][i] == evids[i];
    }
  }

  lemma QueueHoldsUnevaluated(e: Evidence)
    requires EvidenceSound(e, false)
    ensures Unevaluated(e.evids) == 0 <==> e.queue == []
  {
    NoneUnevaluated(e.evids);
    if e.queue != [] {
      assert e.queue[0] in EvidIds(e.evids);
      var j :| 0 <= j < |e.evids| && EvidIds(e.evids)[j] == e.queue[0];
      assert e.evids[j].id in e.queue;
    }
  }

  /** The prompt of a spent case says that all its evidence has been evaluated.  When an
      answer spends a case, that is so exactly if the answer was not "do not know": the
      item it was about then goes back on the queue, where it will never be asked again. */
  lemma SpentMeansAllEvaluatedIff(s: CaseState, nodes: NodeMap, answer: nat)
    requires Sound(s) && NonNegative(nodes) && !s.spent
    requires Step(s, nodes, answer).state.spent
    ensures Unevaluated(Step(s, nodes, answer).state.evidence.evids) == 0 <==> !(IsAsking(s) && answer == 2)
  {
    var t := Step(s, nodes, answer).state;
    SpentWithQueue(s, nodes, answer);
    EveryStepIsGood(s, nodes, answer);
    QueueHoldsUnevaluated(t.evidence);
  }

  lemma SpentWithQueue(s: CaseState, nodes: NodeMap, answer: nat)
    requires Sound(s) && NonNegative(nodes) && !s.spent
    requires Step(s, nodes, answer).state.spent
    ensures Step(s, nodes, answer).state.evidence.queue == if IsAsking(s) && answer == 2 then [s.evidence.up] else []
  {
    StepIs(s, nodes, answer);
    if !IsAsking(s) && !(OffersToLeave(s.prompt.handler) && answer == 0) {
      ActionKeepsEvids(Busy(s), nodes, answer);
    }
  }

  lemma SpentStep(s: CaseState, nodes: NodeMap, answer: nat)
    requires Sound(s) && NonNegative(nodes) && s.spent
    ensures Step(s, nodes, answer).state.spent && Step(s, nodes, answer).state.evidence == s.evidence
  {
    if Accepts(s, answer) {
      StepIs(s, nodes, answer);
      if !(OffersToLeave(s.prompt.handler) && answer == 0) {
        ActionKeepsEvids(Busy(s), nodes, answer);
      }
    }
  }

  /** A spent case stays spent and asks no more. */
  lemma {:induction false} SpentForGood(s: CaseState, nodes: NodeMap, answers: seq<nat>)
    requires Sound(s) && NonNegative(nodes) && s.spent
    ensures var e := Run(s, nodes, answers).state; e.spent && e.evidence == s.evidence && !IsAsking(e)
  {
    if answers != [] {
      SpentForGood(s, nodes, answers[..|answers| - 1]);
      var before := Run(s, nodes, answers[..|answers| - 1]);
      SpentStep(before.state, before.nodes, answers[|answers| - 1]);
    }
  }

  // ----- A case can always be closed -----

  /** The answer that leads towards closing a case. */
  function ClosingAnswer(h: Handler): nat {
    match h
    case TopMenuCaseInProcess => 3
    case EvaluatePromptedEvidenceQuery => 2
    case CaseSpentOut => 2
    case MappAt100Percent => 2
    case CaseVerifiedAndLearned => 2
    case IsMappHypoCorrect => 2
    case IsAnyCaseHypoCorrect => 2
    case UserVerifyCorrectHypoByChoosing => 0
    case IsFaultFixed => 1
    case ShouldThisCaseBeDeleted => 1
  }

  predicate OneFromClosed(h: Handler) {
    OffersToLeave(h) || h == IsFaultFixed
  }

  lemma ClosingAction(s: CaseState, nodes: NodeMap)
    requires Sound(s) && NonNegative(nodes) && !IsAsking(s)
    ensures ClosingAnswer(s.prompt.handler) <= s.prompt.answerMax
    ensures var o := OnAnswer(s, nodes, ClosingAnswer(s.prompt.handler));
            if OneFromClosed(s.prompt.handler) then AsksToDestroy(o.reply)
            else o.state.prompt.waiting && OneFromClosed(o.state.prompt.handler)
  {
  }

  lemma ClosingStep(s: CaseState, nodes: NodeMap)
    requires Sound(s) && NonNegative(nodes) && s.prompt.waiting
    ensures Accepts(s, ClosingAnswer(s.prompt.handler))
    ensures var o := Step(s, nodes, ClosingAnswer(s.prompt.handler));
            if OneFromClosed(s.prompt.handler) then AsksToDestroy(o.reply)
            else o.state.prompt.waiting && OneFromClosed(o.state.prompt.handler)
  {
    StepIs(s, nodes, ClosingAnswer(s.prompt.handler));
    if !IsAsking(s) {
      ClosingAction(Busy(s), nodes);
    }
  }

  /** Whatever state a dialogue has reached, two answers at most close the case. */
  lemma CanAlwaysBeClosed(s: CaseState, nodes: NodeMap)
    requires Sound(s) && NonNegative(nodes) && s.prompt.waiting
    ensures var a := ClosingAnswer(s.prompt.handler);
            var o := Step(s, nodes, a);
            || AsksToDestroy(o.reply)
            || (Sound(o.state) && NonNegative(o.nodes)
                && AsksToDestroy(Step(o.state, o.nodes, ClosingAnswer(o.state.prompt.handler)).reply))
  {
    var a := ClosingAnswer(s.prompt.handler);
    ClosingStep(s, nodes);
    EveryStepIsGood(s, nodes, a);
    var o := Step(s, nodes, a);
    StepKeepsNonNegative(s, nodes, o);
    if !AsksToDestroy(o.reply) {
      ClosingStep(o.state, o.nodes);
    }
  }

  // ----- Choosing a hypothesis -----

  /** Whatever answer is accepted when the user is to choose, it names a hypothesis of the
      case - exactly if the case has any; else the one answer offered names none. */
  lemma EveryChoiceNamesAHypoIff(s: CaseState, nodes: NodeMap)
    requires s.numPrior == |s.inference.hypos|
    ensures var t := OnIsAnyCaseHypoCorrect(s, nodes, 1).state;
            (forall a: nat :: Accepts(t, a) ==> a < |t.inference.hypos|) <==> s.inference.hypos != []
  {
    var t := OnIsAnyCaseHypoCorrect(s, nodes, 1).state;
    if s.inference.hypos == [] {
      assert Accepts(t, 0);
    }
  }
}
