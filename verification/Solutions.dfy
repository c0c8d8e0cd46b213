/** The solution a case offers, over whole dialogues from the case's creation on: when it stays
    one the case has not ruled out, and runs in which it does not. */
module Solutions {
  import opened Nodes
  import opened Tallies
  import opened OccurrenceTable
  import opened Bayes
  import opened Dialogue
  import opened DialogueSafety
  import opened DialogueOutcomes
  import opened MostProbable
  import opened CaseCreation

  // ----- What a step does to the inference -----

  lemma InferredWhenBusy(s: CaseState, nodes: NodeMap, value: nat)
    requires Sound(s) && NonNegative(nodes) && IsAsking(s) && value < NUM_ROWS && Sound(Busy(s))
    ensures Inferred(Busy(s), nodes, value) == Inferred(s, nodes, value)
  {
  }

  /** Outside the evidence query no action but verifying touches the inference. */
  lemma ActionKeepsInference(s: CaseState, nodes: NodeMap, answer: nat)
    requires Sound(s) && NonNegative(nodes) && answer <= s.prompt.answerMax && !IsAsking(s) && !s.verified
    ensures var t := OnAnswer(s, nodes, answer).state; t.verified || t.inference == s.inference
  {
  }

  /** Only a definite answer infers anything; regenerating the prompt brings the candidate up to
      date once more. */
  lemma StepInfers(s: CaseState, nodes: NodeMap, answer: nat)
    requires Sound(s) && NonNegative(nodes) && !s.verified
    ensures IsDefinite(s, answer) ==> Step(s, nodes, answer).state.inference == Inferred(s, nodes, answer)
    ensures !IsDefinite(s, answer) && !Step(s, nodes, answer).state.verified ==>
              var f := Step(s, nodes, answer).state.inference; f == s.inference || f == Updated(s.inference, false)
  {
    if Accepts(s, answer) {
      StepIs(s, nodes, answer);
      if IsDefinite(s, answer) {
        InferredWhenBusy(s, nodes, answer);
      } else if !IsAsking(s) && !(OffersToLeave(s.prompt.handler) && answer == 0) {
        ActionKeepsInference(Busy(s), nodes, answer);
      }
    }
  }

  /** A spent case infers nothing more. */
  lemma SpentStepKeepsInference(s: CaseState, nodes: NodeMap, answer: nat)
    requires Sound(s) && NonNegative(nodes) && s.spent && !s.verified
    ensures var t := Step(s, nodes, answer).state; t.verified || t.inference == s.inference
  {
    if Accepts(s, answer) {
      StepIs(s, nodes, answer);
      if !(OffersToLeave(s.prompt.handler) && answer == 0) {
        ActionKeepsInference(Busy(s), nodes, answer);
      }
    }
  }

  /** Once spent, a case keeps its solution and all its probabilities until it is verified, whatever
      the user answers: also what they would be found anew from the counts. */
  lemma {:induction false} SpentInfersNoMore(s: CaseState, nodes: NodeMap, answers: seq<nat>)
    requires Sound(s) && NonNegative(nodes) && s.spent && !s.verified
    ensures var e := Run(s, nodes, answers).state; e.verified || e.inference == s.inference
  {
    if answers != [] {
      var front, last := answers[..|answers| - 1], answers[|answers| - 1];
      var before := Run(s, nodes, front);
      SpentInfersNoMore(s, nodes, front);
      SpentForGood(s, nodes, front);
      if before.state.verified {
        VerifiedForGood(before.state, before.nodes, last);
      } else {
        SpentStepKeepsInference(before.state, before.nodes, last);
      }
    }
  }

  // ----- The solution over whole dialogues -----

  /** The solution offered is alive; before any evidence every hypothesis is. */
  ghost predicate OffersLive(f: Inference) {
    && IsAliveIn(f.hypos, f.mapp)
    && (f.noEvidence ==> forall i :: 0 <= i < |f.hypos| ==> Alive(f.hypos[i]))
  }

  lemma UpdatingKeepsLive(f: Inference)
    requires InferenceSound(f) && OffersLive(f)
    ensures OffersLive(Updated(f, false))
  {
    var ids, id := HypoIds(f.hypos), Updated(f, false).mapp;
    UpdatedSound(f, false);
    AliveAfterUpdate(f, id);
    ScanKeepsSupport(ids, Counts(f), Divisor(f), f.mapp, f.mappAt100pct, |ids|);
    if id != f.mapp {
      var j :| 0 <= j < |ids| && ids[j] == id && Counts(f)[j] > 0;
      assert f.hypos[j].id == id;
      assert Alive(f.hypos[j]);
    }
  }

  /** The answer rules out the solution standing at 100%, deciding for no other. */
  ghost predicate RulesOutSolution(s: CaseState, nodes: NodeMap, answer: nat) {
    && IsDefinite(s, answer)
    && RulesOut(s.inference, TruesMet(s, nodes, answer), FalsesMet(s, nodes, answer))
  }

  lemma StepKeepsLiveIff(s: CaseState, nodes: NodeMap, answer: nat)
    requires Sound(s) && NonNegative(nodes) && !s.verified && OffersLive(s.inference)
    requires !Step(s, nodes, answer).state.verified
    ensures OffersLive(Step(s, nodes, answer).state.inference) <==> !RulesOutSolution(s, nodes, answer)
  {
    StepInfers(s, nodes, answer);
    if IsDefinite(s, answer) {
      SolutionIsAliveIff(s, nodes, answer);
      InferredHasEvidence(s, nodes, answer);
    } else {
      UpdatingKeepsLive(s.inference);
    }
  }

  lemma InferredHasEvidence(s: CaseState, nodes: NodeMap, value: nat)
    requires Sound(s) && NonNegative(nodes) && IsAsking(s) && value < ROW_UNEVALUATED
    ensures !Inferred(s, nodes, value).noEvidence
  {
    InferredIsUpdated(s, nodes, value);
  }

  /** The solution is alive at the outset and after each of the answers. */
  ghost predicate LiveThroughout(s: CaseState, nodes: NodeMap, answers: seq<nat>)
    requires Sound(s) && NonNegative(nodes)
  {
    && (answers != [] ==> LiveThroughout(s, nodes, answers[..|answers| - 1]))
    && OffersLive(Run(s, nodes, answers).state.inference)
  }

  ghost predicate NeverRuledOut(s: CaseState, nodes: NodeMap, answers: seq<nat>)
    requires Sound(s) && NonNegative(nodes)
  {
    answers != [] ==>
      var front := answers[..|answers| - 1];
      var before := Run(s, nodes, front);
      NeverRuledOut(s, nodes, front) && !RulesOutSolution(before.state, before.nodes, answers[|answers| - 1])
  }

  lemma VerifiedForGood(s: CaseState, nodes: NodeMap, answer: nat)
    requires Sound(s) && NonNegative(nodes) && s.verified
    ensures Step(s, nodes, answer).state.verified
  {
    EveryStepIsGood(s, nodes, answer);
  }

  lemma {:induction false} RunKeepsLiveIff(s: CaseState, nodes: NodeMap, answers: seq<nat>)
    requires Sound(s) && NonNegative(nodes) && OffersLive(s.inference)
    ensures Run(s, nodes, answers).state.verified
            || (LiveThroughout(s, nodes, answers) <==> NeverRuledOut(s, nodes, answers))
  {
    if answers != [] && !Run(s, nodes, answers).state.verified {
      var front, last := answers[..|answers| - 1], answers[|answers| - 1];
      var before := Run(s, nodes, front);
      if before.state.verified {
        VerifiedForGood(before.state, before.nodes, last);
      } else {
        RunKeepsLiveIff(s, nodes, front);
        if LiveThroughout(s, nodes, front) {
          StepKeepsLiveIff(before.state, before.nodes, last);
        }
      }
    }
  }

  lemma BegunOffersLive(rule: nat, hasDiagnostics: bool, hypos: seq<HypoTally>, evids: seq<nat>, sumPrior: int)
    requires Fresh(hypos, evids, sumPrior) && hypos != [] && sumPrior >= 0
    requires Begun(rule, hasDiagnostics, hypos, evids, sumPrior).Created?
    ensures OffersLive(Begun(rule, hasDiagnostics, hypos, evids, sumPrior).state.inference)
  {
    var f := Begun(rule, hasDiagnostics, hypos, evids, sumPrior).state.inference;
    CreatedIff(Known(Range(HypoIds(hypos)), Range(evids)), rule, hasDiagnostics, hypos, evids, sumPrior);
    assert forall i :: 0 <= i < |f.hypos| ==> Alive(f.hypos[i]);
    assert f.mapp in HypoIds(f.hypos);
  }

  /** Over every dialogue from a case's creation until it is verified, the solution offered is
      all along one the case has not itself ruled out - exactly if none of the answers ruled
      out a solution standing at 100% without deciding for another. */
  lemma SolutionStaysAliveIff(rule: nat, hasDiagnostics: bool, hypos: seq<HypoTally>, evids: seq<nat>, sumPrior: int,
                              nodes: NodeMap, answers: seq<nat>)
    requires Fresh(hypos, evids, sumPrior) && hypos != [] && sumPrior >= 0 && NonNegative(nodes)
    requires Begun(rule, hasDiagnostics, hypos, evids, sumPrior).Created?
    ensures var s := Begun(rule, hasDiagnostics, hypos, evids, sumPrior).state;
            && Sound(s)
            && (!Run(s, nodes, answers).state.verified ==>
                  (LiveThroughout(s, nodes, answers) <==> NeverRuledOut(s, nodes, answers)))
  {
    var s := Begun(rule, hasDiagnostics, hypos, evids, sumPrior).state;
    CreatedIff(Known(Range(HypoIds(hypos)), Range(evids)), rule, hasDiagnostics, hypos, evids, sumPrior);
    BegunOffersLive(rule, hasDiagnostics, hypos, evids, sumPrior);
    RunKeepsLiveIff(s, nodes, answers);
  }
}
