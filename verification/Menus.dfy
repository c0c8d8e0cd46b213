/** Where a user gets to by which answers: every hypothesis of a case can be confirmed, doubts lead
    back to where they came from, and denying all hypotheses busts the case. */
module Menus {
  import opened Nodes
  import opened Tallies
  import opened OccurrenceTable
  import opened Bayes
  import opened Dialogue
  import opened DialogueSafety
  import opened DialogueOutcomes

  lemma RunThen(s: CaseState, nodes: NodeMap, front: seq<nat>, last: nat)
    requires Sound(s) && NonNegative(nodes)
    ensures var b := Run(s, nodes, front);
            Run(s, nodes, front + [last])
            == RunEnd(Step(b.state, b.nodes, last).state, Step(b.state, b.nodes, last).nodes)
  {
    assert (front + [last])[..|front|] == front;
  }

  lemma OneMoreOfTwo(a: nat, b: nat)
    ensures [a] + [b] == [a, b]
  {
  }

  lemma OneMoreOfThree(a: nat, b: nat, c: nat)
    ensures [a, b] + [c] == [a, b, c]
  {
  }

  lemma OneMoreOfFour(a: nat, b: nat, c: nat, d: nat)
    ensures [a, b, c] + [d] == [a, b, c, d]
  {
  }

  lemma RunOfOne(s: CaseState, nodes: NodeMap, a: nat)
    requires Sound(s) && NonNegative(nodes)
    ensures Run(s, nodes, [a]) == RunEnd(Step(s, nodes, a).state, Step(s, nodes, a).nodes)
  {
    RunThen(s, nodes, [], a);
    assert [] + [a] == [a];
  }

  /** A case that is worked and at one of its three menus. */
  ghost predicate AtMenu(s: CaseState) {
    && Sound(s) && !s.verified && s.prompt.waiting
    && (s.prompt.handler == TopMenuCaseInProcess || s.prompt.handler == CaseSpentOut
        || s.prompt.handler == MappAt100Percent)
  }

  /** The answer by which the user wants to say what the solution is. */
  function Verify(s: CaseState): nat {
    if s.prompt.handler == TopMenuCaseInProcess then 2 else 1
  }

  /** The case is as it was, with another question asked of so many answers. */
  predicate OnlyAsks(s: CaseState, t: CaseState, h: Handler, n: nat) {
    n > 0 && t == s.(prompt := Prompt(h, n, n - 1, true))
  }

  /** The menu a case is returned to: with all evidence spent there is none left to ask for. */
  predicate OnlyReturns(s: CaseState, t: CaseState) {
    OnlyAsks(s, t, if s.spent then CaseSpentOut else TopMenuCaseInProcess, if s.spent then 3 else 4)
  }

  // ----- One question at a time -----

  lemma FromMenu(s: CaseState, nodes: NodeMap)
    requires AtMenu(s) && NonNegative(nodes)
    ensures var o := Step(s, nodes, Verify(s));
            Sound(o.state) && o.nodes == nodes && OnlyAsks(s, o.state, IsMappHypoCorrect, 3)
  {
    StepIs(s, nodes, Verify(s));
    EveryStepIsGood(s, nodes, Verify(s));
  }

  ghost predicate AskedAbout(s: CaseState, h: Handler) {
    Sound(s) && !s.verified && s.prompt.waiting && s.prompt.handler == h
  }

  lemma OnSolution(s: CaseState, nodes: NodeMap, answer: nat)
    requires AskedAbout(s, IsMappHypoCorrect) && NonNegative(nodes) && (answer == 0 || answer == 2)
    ensures var o := Step(s, nodes, answer);
            && Sound(o.state) && o.nodes == nodes
            && if answer == 0 then OnlyAsks(s, o.state, IsAnyCaseHypoCorrect, 3) else OnlyReturns(s, o.state)
  {
    StepIs(s, nodes, answer);
    EveryStepIsGood(s, nodes, answer);
  }

  lemma OnOthers(s: CaseState, nodes: NodeMap, answer: nat)
    requires AskedAbout(s, IsAnyCaseHypoCorrect) && NonNegative(nodes) && answer <= 2
    ensures var o := Step(s, nodes, answer);
            && Sound(o.state) && o.nodes == nodes
            && if answer == 0 then OnlyAsks(s.(busts := true), o.state, ShouldThisCaseBeDeleted, 2)
               else if answer == 1 then OnlyAsks(s, o.state, UserVerifyCorrectHypoByChoosing, |s.inference.hypos|)
               else OnlyReturns(s, o.state)
  {
    StepIs(s, nodes, answer);
    EveryStepIsGood(s, nodes, answer);
    assert HypoIds(s.inference.hypos) != [];
  }

  /** The case verified with a hypothesis, and the user asked about the fault. */
  predicate IsVerifiedWith(t: CaseState, hypo: nat) {
    t.verified && t.trueHypo == hypo && t.prompt == Prompt(IsFaultFixed, 3, 2, true)
  }

  lemma OnYes(s: CaseState, nodes: NodeMap)
    requires AskedAbout(s, IsMappHypoCorrect) && NonNegative(nodes)
    ensures IsVerifiedWith(Step(s, nodes, 1).state, s.inference.mapp)
  {
    StepIs(s, nodes, 1);
  }

  lemma OnChoice(s: CaseState, nodes: NodeMap, i: nat)
    requires AskedAbout(s, UserVerifyCorrectHypoByChoosing) && NonNegative(nodes) && i < |s.inference.hypos|
    ensures IsVerifiedWith(Step(s, nodes, i).state, s.inference.hypos[i].id)
  {
    StepIs(s, nodes, i);
  }

  // ----- From the menus to what they lead to -----

  /** One question after another is still all that has changed. */
  lemma AskedFurther(s: CaseState, b: CaseState, t: CaseState)
    requires b == s.(prompt := b.prompt) && t == b.(prompt := t.prompt)
    ensures t == s.(prompt := t.prompt) && b.inference == s.inference
  {
  }

  lemma AskedForSolution(s: CaseState, nodes: NodeMap) returns (e: RunEnd)
    requires AtMenu(s) && NonNegative(nodes)
    ensures e == Run(s, nodes, [Verify(s)]) && e.nodes == nodes && OnlyAsks(s, e.state, IsMappHypoCorrect, 3)
    ensures AskedAbout(e.state, IsMappHypoCorrect)
  {
    RunOfOne(s, nodes, Verify(s));
    FromMenu(s, nodes);
    e := Run(s, nodes, [Verify(s)]);
  }

  lemma AskedForOthers(s: CaseState, nodes: NodeMap) returns (e: RunEnd)
    requires AtMenu(s) && NonNegative(nodes)
    ensures e == Run(s, nodes, [Verify(s), 0]) && e.nodes == nodes && OnlyAsks(s, e.state, IsAnyCaseHypoCorrect, 3)
    ensures AskedAbout(e.state, IsAnyCaseHypoCorrect)
  {
    var before := AskedForSolution(s, nodes);
    RunThen(s, nodes, [Verify(s)], 0);
    OneMoreOfTwo(Verify(s), 0);
    OnSolution(before.state, nodes, 0);
    e := Run(s, nodes, [Verify(s), 0]);
    AskedFurther(s, before.state, e.state);
  }

  lemma DoubtingSolution(s: CaseState, nodes: NodeMap)
    requires AtMenu(s) && NonNegative(nodes)
    ensures var e := Run(s, nodes, [Verify(s), 2]); e.nodes == nodes && OnlyReturns(s, e.state)
  {
    var before := AskedForSolution(s, nodes);
    RunThen(s, nodes, [Verify(s)], 2);
    OneMoreOfTwo(Verify(s), 2);
    OnSolution(before.state, nodes, 2);
    AskedFurther(s, before.state, Run(s, nodes, [Verify(s), 2]).state);
  }

  lemma DoubtingOthers(s: CaseState, nodes: NodeMap)
    requires AtMenu(s) && NonNegative(nodes)
    ensures var e := Run(s, nodes, [Verify(s), 0, 2]); e.nodes == nodes && OnlyReturns(s, e.state)
  {
    var before := AskedForOthers(s, nodes);
    RunThen(s, nodes, [Verify(s), 0], 2);
    OneMoreOfThree(Verify(s), 0, 2);
    OnOthers(before.state, nodes, 2);
    AskedFurther(s, before.state, Run(s, nodes, [Verify(s), 0, 2]).state);
  }

  /** Not knowing whether the solution is correct, or any other hypothesis, leads back to the menu,
      and nothing has changed. */
  lemma DoubtLeadsBack(s: CaseState, nodes: NodeMap)
    requires AtMenu(s) && NonNegative(nodes)
    ensures var one, other := Run(s, nodes, [Verify(s), 2]), Run(s, nodes, [Verify(s), 0, 2]);
            one.nodes == nodes && OnlyReturns(s, one.state) && other.nodes == nodes && OnlyReturns(s, other.state)
  {
    DoubtingSolution(s, nodes);
    DoubtingOthers(s, nodes);
  }

  /** Denying the solution and all other hypotheses of the case busts it: it asks to be deleted. */
  lemma DenyingAllBusts(s: CaseState, nodes: NodeMap)
    requires AtMenu(s) && NonNegative(nodes)
    ensures var e := Run(s, nodes, [Verify(s), 0, 0]);
            e.nodes == nodes && OnlyAsks(s.(busts := true), e.state, ShouldThisCaseBeDeleted, 2)
  {
    var before := AskedForOthers(s, nodes);
    RunThen(s, nodes, [Verify(s), 0], 0);
    OneMoreOfThree(Verify(s), 0, 0);
    OnOthers(before.state, nodes, 0);
    AskedFurther(s.(busts := true), before.state.(busts := true), Run(s, nodes, [Verify(s), 0, 0]).state);
  }

  /** The solution a case offers can be confirmed from any menu. */
  lemma SolutionCanBeConfirmed(s: CaseState, nodes: NodeMap)
    requires AtMenu(s) && NonNegative(nodes)
    ensures IsVerifiedWith(Run(s, nodes, [Verify(s), 1]).state, s.inference.mapp)
  {
    var before := AskedForSolution(s, nodes);
    RunThen(s, nodes, [Verify(s)], 1);
    OneMoreOfTwo(Verify(s), 1);
    OnYes(before.state, nodes);
  }

  /** The list offered has one answer for each hypothesis of the case. */
  lemma ListIsOffered(s: CaseState, nodes: NodeMap) returns (e: RunEnd)
    requires AtMenu(s) && NonNegative(nodes)
    ensures e == Run(s, nodes, [Verify(s), 0, 1]) && e.nodes == nodes
    ensures OnlyAsks(s, e.state, UserVerifyCorrectHypoByChoosing, |s.inference.hypos|)
    ensures AskedAbout(e.state, UserVerifyCorrectHypoByChoosing)
  {
    var before := AskedForOthers(s, nodes);
    RunThen(s, nodes, [Verify(s), 0], 1);
    OneMoreOfThree(Verify(s), 0, 1);
    OnOthers(before.state, nodes, 1);
    e := Run(s, nodes, [Verify(s), 0, 1]);
    AskedFurther(s, before.state, e.state);
  }

  /** Whichever hypothesis of the case the user knows to be true can be confirmed from any menu. */
  lemma EveryHypoCanBeConfirmed(s: CaseState, nodes: NodeMap, i: nat)
    requires AtMenu(s) && NonNegative(nodes) && i < |s.inference.hypos|
    ensures IsVerifiedWith(Run(s, nodes, [Verify(s), 0, 1, i]).state, s.inference.hypos[i].id)
  {
    var before := ListIsOffered(s, nodes);
    RunThen(s, nodes, [Verify(s), 0, 1], i);
    OneMoreOfFour(Verify(s), 0, 1, i);
    OnChoice(before.state, nodes, i);
  }

  // ----- Once verified -----

  /** The user is asked whether the fault is fixed, now or later on; when it is the case goes, and on
      the user's word it goes before that. */
  lemma FaultIsAskedFor(s: CaseState, nodes: NodeMap, notFixed: nat)
    requires Sound(s) && s.verified && s.prompt.waiting && NonNegative(nodes)
    requires s.prompt.handler == IsFaultFixed && (notFixed == 0 || notFixed == 2)
    ensures Step(s, nodes, 1).reply == KitFaultFixedDestroyAndTellGui
    ensures var later := Run(s, nodes, [notFixed]).state;
            && OnlyAsks(s, later, CaseVerifiedAndLearned, 3)
            && Step(later, nodes, 2).reply == KitCaseDroppedDestroyAndTellGui
            && OnlyAsks(s, Step(later, nodes, 1).state, IsFaultFixed, 3)
            && (s.hasDiagnostics ==> OnlyAsks(s, Step(later, nodes, 0).state, IsFaultFixed, 3))
  {
    RunOfOne(s, nodes, notFixed);
    StepIs(s, nodes, 1);
    StepIs(s, nodes, notFixed);
    var later := Run(s, nodes, [notFixed]).state;
    StepIs(later, nodes, 2);
    StepIs(later, nodes, 1);
    StepIs(later, nodes, 0);
  }

  // ----- Evidence -----

  /** Asking for evidence puts the next item up, or finds that there is none left. */
  lemma AskedForEvidence(s: CaseState, nodes: NodeMap)
    requires AtMenu(s) && s.prompt.handler == TopMenuCaseInProcess && NonNegative(nodes)
    ensures var o := Step(s, nodes, 1);
            && o.nodes == nodes
            && if s.evidence.queue == [] then OnlyAsks(s.(spent := true), o.state, CaseSpentOut, 3)
               else OnlyAsks(s.(evidence := o.state.evidence), o.state, EvaluatePromptedEvidenceQuery, 3)
                    && o.state.evidence.up == s.evidence.queue[0]
  {
    StepIs(s, nodes, 1);
  }

  /** After an answer about it: at 100% the solution is reported, and otherwise the case goes on as
      long as any item is left in the queue. */
  lemma AnswerLeadsOn(s: CaseState, nodes: NodeMap, answer: nat)
    requires Sound(s) && IsAsking(s) && s.prompt.waiting && NonNegative(nodes) && answer <= 2
    ensures var t := Step(s, nodes, answer).state;
            && t.spent == (s.evidence.queue == []) && !t.busts
            && t.prompt == if t.inference.mappAt100pct then Prompt(MappAt100Percent, 3, 2, true)
                           else if s.evidence.queue == [] then Prompt(CaseSpentOut, 3, 2, true)
                           else Prompt(TopMenuCaseInProcess, 4, 3, true)
  {
    StepIs(s, nodes, answer);
    EveryStepIsGood(s, nodes, answer);
  }

  // ----- Leaving -----

  /** A case left alone is to be found at its menu again; one on a rule without diagnostics only asks
      to be deleted. */
  lemma LeftAlone(s: CaseState, nodes: NodeMap)
    requires AtMenu(s) && NonNegative(nodes)
    ensures var o := Step(s, nodes, 0);
            && o.nodes == nodes && o.reply == CaseIdledByUserRegenGui
            && (s.hasDiagnostics ==> OnlyReturns(s.(inference := o.state.inference), o.state))
            && (!s.hasDiagnostics ==> OnlyAsks(s, o.state, ShouldThisCaseBeDeleted, 2))
  {
    StepIs(s, nodes, 0);
  }

  /** A case left to be deleted asks for it again, when it is bust or its rule has no diagnostics. */
  lemma StillToBeDeleted(s: CaseState, nodes: NodeMap)
    requires AskedAbout(s, ShouldThisCaseBeDeleted) && NonNegative(nodes)
    requires !s.hasDiagnostics || (s.busts && !s.spent)
    ensures OnlyAsks(s, Step(s, nodes, 0).state, ShouldThisCaseBeDeleted, 2)
  {
    StepIs(s, nodes, 0);
  }

  /** From any menu the case can be dropped, and so can one that asks to be deleted. */
  lemma CanBeDropped(s: CaseState, nodes: NodeMap)
    requires Sound(s) && NonNegative(nodes) && s.prompt.waiting
    ensures s.prompt.handler == TopMenuCaseInProcess ==> Step(s, nodes, 3).reply == KitCaseDroppedDestroyAndTellGui
    ensures s.prompt.handler == CaseSpentOut || s.prompt.handler == MappAt100Percent ==>
              Step(s, nodes, 2).reply == KitCaseDroppedDestroyAndTellGui
    ensures s.prompt.handler == ShouldThisCaseBeDeleted ==>
              Step(s, nodes, 1).reply == KitCaseDroppedDestroyAndTellGui
  {
    if s.prompt.handler == TopMenuCaseInProcess {
      StepIs(s, nodes, 3);
    } else if s.prompt.handler == CaseSpentOut || s.prompt.handler == MappAt100Percent {
      StepIs(s, nodes, 2);
    } else if s.prompt.handler == ShouldThisCaseBeDeleted {
      StepIs(s, nodes, 1);
    }
  }
}
