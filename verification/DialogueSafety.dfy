/** What holds of every dialogue a user can have with a case: each answer keeps the case
    sound, so nothing below is a promise about one kind of run only. */
module DialogueSafety {
  import opened Nodes
  import opened Tallies
  import opened OccurrenceTable
  import opened Bayes
  import opened Dialogue

  // ----- Updating probabilities -----

  /** Once there is a candidate, the scan cannot lose it. */
  lemma {:induction false} ScanStaysInside(ids: seq<nat>, counts: seq<int>, probs: seq<int>,
                                           mapp: nat, at100: bool, upTo: nat)
    requires |ids| == |counts| == |probs| && upTo <= |ids| && mapp in ids
    ensures var s := Scanned(ids, counts, probs, mapp, at100, upTo);
            !s.threw && s.mapp in ids && (at100 ==> s.at100 && s.mapp == mapp)
  {
    if upTo > 0 {
      ScanStaysInside(ids, counts, probs, mapp, at100, upTo - 1);
    }
  }

  lemma {:induction false} WithProbsKeepsTallies(hypos: seq<HypoTally>, noEvidence: bool, total: int)
    requires total > 0
    ensures AliveCount(WithProbs(hypos, noEvidence, total)) == AliveCount(hypos)
    ensures SumAccum(WithProbs(hypos, noEvidence, total)) == SumAccum(hypos)
    ensures SumPriors(WithProbs(hypos, noEvidence, total)) == SumPriors(hypos)
  {
    if hypos != [] {
      WithProbsKeepsTallies(hypos[..|hypos| - 1], noEvidence, total);
      assert WithProbs(hypos, noEvidence, total)[..|hypos| - 1] == WithProbs(hypos[..|hypos| - 1], noEvidence, total);
    }
  }

  lemma WithProbsSound(hypos: seq<HypoTally>, noEvidence: bool, total: int)
    requires total > 0 && TalliesSound(hypos)
    ensures TalliesSound(WithProbs(hypos, noEvidence, total))
    ensures HypoIds(WithProbs(hypos, noEvidence, total)) == HypoIds(hypos)
  {
    var r := WithProbs(hypos, noEvidence, total);
    WithProbsKeepsTallies(hypos, noEvidence, total);
    forall i, j | 0 <= i < |r| && 0 <= j < |r| && i != j && r[i].status == STATUS_LIKELY
      ensures !Alive(r[j])
    {
      assert hypos[i].status == STATUS_LIKELY && !Alive(hypos[j]);
    }
  }

  lemma WithProbsPriors(f: Inference, total: int, mapp: nat, at100: bool)
    requires total > 0 && PriorsSound(f) && mapp in HypoIds(f.hypos)
    ensures PriorsSound(f.(hypos := WithProbs(f.hypos, f.noEvidence, total), mapp := mapp, mappAt100pct := at100))
  {
    WithProbsKeepsTallies(f.hypos, f.noEvidence, total);
    assert HypoIds(WithProbs(f.hypos, f.noEvidence, total)) == HypoIds(f.hypos);
  }

  lemma WithProbsInference(f: Inference, total: int, mapp: nat, at100: bool)
    requires total > 0 && InferenceSound(f) && mapp in HypoIds(f.hypos)
    ensures InferenceSound(f.(hypos := WithProbs(f.hypos, f.noEvidence, total), mapp := mapp, mappAt100pct := at100))
    ensures HypoIds(WithProbs(f.hypos, f.noEvidence, total)) == HypoIds(f.hypos)
  {
    WithProbsKeepsTallies(f.hypos, f.noEvidence, total);
    WithProbsSound(f.hypos, f.noEvidence, total);
    WithProbsPriors(f, total, mapp, at100);
  }

  lemma UpdatedSound(f: Inference, frozen: bool)
    requires InferenceSound(f)
    ensures Divisor(f) > 0 && !ScanOf(f).threw
    ensures var g := Updated(f, frozen);
            && InferenceSound(g) && HypoIds(g.hypos) == HypoIds(f.hypos) && g.sumPrior == f.sumPrior
            && (f.mappAt100pct ==> g.mappAt100pct && g.mapp == f.mapp)
  {
    ScanStaysInside(HypoIds(f.hypos), Counts(f), PerMilles(Counts(f), Divisor(f)), f.mapp, f.mappAt100pct, |f.hypos|);
    WithProbsInference(f, Divisor(f), ScanOf(f).mapp, ScanOf(f).at100);
  }

  lemma InferredSound(s: CaseState, nodes: NodeMap, value: nat)
    requires Sound(s) && NonNegative(nodes) && IsAsking(s) && value < NUM_ROWS
    ensures var g := Inferred(s, nodes, value);
            && InferenceSound(g) && HypoIds(g.hypos) == HypoIds(s.inference.hypos) && g.sumPrior == s.inference.sumPrior
            && (s.inference.mappAt100pct ==> g.mappAt100pct)
  {
    var hypos := s.inference.hypos;
    var trues := TruesAt(hypos, nodes, s.rule, s.evidence.up, value);
    var falses := FalsesAt(hypos, nodes, s.rule, s.evidence.up, value);
    CountsFromNodes(hypos, nodes, s.rule, s.evidence.up, value);
    EvidenceAppliedSound(s.inference, trues, falses);
    UpdatedSound(EvidenceApplied(s.inference, trues, falses), s.spent || s.busts);
  }

  // ----- Moving evidence items about -----

  /** A definite answer evaluates the item up, which was not evaluated before, and no other. */
  lemma EvaluatedSound(e: Evidence, value: nat)
    requires EvidenceSound(e, true) && value < ROW_UNEVALUATED
    ensures EvidIndex(e.evids, e.up) < |e.evids|
    ensures e.evids[EvidIndex(e.evids, e.up)].status == ROW_UNEVALUATED
    ensures Evaluated(e, value) == e.(evids := e.evids[EvidIndex(e.evids, e.up) := EvidTally(e.up, value)])
    ensures EvidIds(Evaluated(e, value).evids) == EvidIds(e.evids)
    ensures EvidenceSound(Evaluated(e, value), false)
  {
    EvidUpIsIndexed(e);
    var i := EvidIndex(e.evids, e.up);
    var after := Evaluated(e, value);
    assert EvidIds(after.evids) == EvidIds(e.evids);
    forall j | 0 <= j < |e.evids| && j != i
      ensures e.evids[j].id != e.up
    {
      assert EvidIds(e.evids)[j] != EvidIds(e.evids)[i];
    }
  }

  lemma NextUpSound(e: Evidence)
    requires EvidenceSound(e, false) && e.queue != []
    ensures EvidenceSound(NextUp(e), true)
  {
    assert forall q :: q in e.queue <==> q == e.queue[0] || q in e.queue[1..];
  }

  lemma RolledBackSound(e: Evidence)
    requires EvidenceSound(e, true)
    ensures EvidenceSound(RolledBack(e), false)
  {
    assert forall q :: q in RolledBack(e).queue <==> q in e.queue || q == e.up;
  }

  // ----- One answer -----

  /** What an answer may not change, and the lesson a verified case holds fast. */
  predicate SameCase(s: CaseState, t: CaseState) {
    && t.rule == s.rule && t.hasDiagnostics == s.hasDiagnostics && t.numPrior == s.numPrior
    && HypoIds(t.inference.hypos) == HypoIds(s.inference.hypos)
    && t.inference.sumPrior == s.inference.sumPrior
    && EvidIds(t.evidence.evids) == EvidIds(s.evidence.evids)
    && (s.verified ==> t.verified && t.evidence.evids == s.evidence.evids && t.trueHypo == s.trueHypo)
  }

  /** A step that may teach the knowledge base the case's lesson, and nothing else. */
  ghost predicate TeachesOnlyItsLesson(s: CaseState, nodes: NodeMap, o: Outcome) {
    && (s.verified || !o.state.verified ==> SameCounts(o.nodes, nodes))
    && (!s.verified && o.state.verified ==> WellFormed(Lesson(o.state)) && o.nodes == Taught(nodes, Lesson(o.state)))
  }

  /** A step as the theorems below need it. */
  ghost predicate GoodStep(s: CaseState, nodes: NodeMap, o: Outcome) {
    && Sound(o.state) && SameCase(s, o.state)
    && TeachesOnlyItsLesson(s, nodes, o)
    && (AsksToDestroy(o.reply) <==> !o.state.prompt.waiting)
  }

  /** Only the prompt and the flags changed. */
  lemma GoodPromptChange(s: CaseState, nodes: NodeMap, t: CaseState, reply: Reply)
    requires Sound(s) && t == s.(prompt := t.prompt, busts := t.busts, spent := t.spent)
    requires PromptSound(t.prompt, t.numPrior) && IsAsking(t) == IsAsking(s)
    requires FlagsSound(t.prompt.handler, t.hasDiagnostics, |t.evidence.queue|, t.inference.mappAt100pct,
                        t.busts, t.spent, t.verified)
    requires AsksToDestroy(reply) <==> !t.prompt.waiting
    ensures GoodStep(s, nodes, Outcome(t, nodes, reply))
  {
  }

  lemma GoodAnswered(s: CaseState, nodes: NodeMap, e: Evidence, f: Inference, after: NodeMap)
    requires Sound(s) && IsAsking(s)
    requires EvidenceSound(e, false) && EvidIds(e.evids) == EvidIds(s.evidence.evids)
    requires InferenceSound(f) && HypoIds(f.hypos) == HypoIds(s.inference.hypos) && f.sumPrior == s.inference.sumPrior
    requires SameCounts(after, nodes)
    ensures GoodStep(s, nodes, Outcome(AfterEvidence(s.(evidence := e, inference := f)), after, None))
  {
  }

  lemma GoodEvidence(s: CaseState, nodes: NodeMap, answer: nat)
    requires Sound(s) && NonNegative(nodes) && IsAsking(s) && answer < ROW_UNEVALUATED
    ensures GoodStep(s, nodes, OnEvaluatePromptedEvidenceQuery(s, nodes, answer))
  {
    InferredSound(s, nodes, answer);
    EvaluatedSound(s.evidence, answer);
    GoodAnswered(s, nodes, Evaluated(s.evidence, answer), Inferred(s, nodes, answer),
                 Touched(nodes, NodesVisited(s.inference.hypos, s.rule, s.evidence.up)));
  }

  lemma GoodSkip(s: CaseState, nodes: NodeMap)
    requires Sound(s) && IsAsking(s)
    ensures GoodStep(s, nodes, Settled(Outcome(AfterEvidence(s), nodes, CaseEvidSkippedRollQueue)))
  {
    RolledBackSound(s.evidence);
  }

  lemma GoodAsk(s: CaseState, nodes: NodeMap)
    requires Sound(s) && s.prompt.handler == TopMenuCaseInProcess && s.evidence.queue != []
    ensures GoodStep(s, nodes, OnTopMenuCaseInProcess(s, nodes, 1))
  {
    NextUpSound(s.evidence);
  }

  lemma GoodTopMenu(s: CaseState, nodes: NodeMap, answer: nat)
    requires Sound(s) && s.prompt.handler == TopMenuCaseInProcess && !s.prompt.waiting && 1 <= answer <= 3
    ensures GoodStep(s, nodes, OnTopMenuCaseInProcess(s, nodes, answer))
  {
    if answer == 1 && s.evidence.queue != [] {
      GoodAsk(s, nodes);
    } else {
      var o := OnTopMenuCaseInProcess(s, nodes, answer);
      GoodPromptChange(s, nodes, o.state, o.reply);
    }
  }

  lemma JudgedSound(f: Inference, trueHypo: nat)
    requires PriorsSound(f)
    ensures HypoIds(Judged(f.hypos, trueHypo, |f.hypos|)) == HypoIds(f.hypos)
    ensures PriorsSound(f.(hypos := Judged(f.hypos, trueHypo, |f.hypos|)))
  {
    var judged := Judged(f.hypos, trueHypo, |f.hypos|);
    assert HypoIds(judged) == HypoIds(f.hypos);
    SumPriorsDependsOnPriors(f.hypos, judged);
  }

  lemma GoodVerified(s: CaseState, nodes: NodeMap, trueHypo: nat)
    requires Sound(s) && trueHypo in HypoIds(s.inference.hypos) && !s.verified && !(s.busts && !s.spent) && !IsAsking(s)
    ensures GoodStep(s, nodes, OnVerified(s, nodes, trueHypo))
  {
    var o := OnVerified(s, nodes, trueHypo);
    JudgedSound(s.inference, trueHypo);
    LessonWellFormed(s.(trueHypo := trueHypo), IsAsking(s));
    assert Lesson(o.state) == Lesson(s.(trueHypo := trueHypo));
  }

  lemma GoodRegenerated(s: CaseState, nodes: NodeMap, reply: Reply)
    requires Sound(s) && !IsAsking(s) && !AsksToDestroy(reply)
    ensures GoodStep(s, nodes, Outcome(Regenerated(s), nodes, reply))
  {
    var t := Regenerated(s);
    if s.verified || !s.hasDiagnostics {
      GoodPromptChange(s, nodes, t, reply);
    } else {
      UpdatedSound(s.inference, s.spent || s.busts);
    }
  }

  lemma GoodIsMapp(s: CaseState, nodes: NodeMap, answer: nat)
    requires Sound(s) && s.prompt.handler == IsMappHypoCorrect
    ensures GoodStep(s, nodes, OnIsMappHypoCorrect(s, nodes, answer))
  {
    if answer == 1 {
      GoodVerified(s, nodes, s.inference.mapp);
    } else {
      var o := OnIsMappHypoCorrect(s, nodes, answer);
      GoodPromptChange(s, nodes, o.state, o.reply);
    }
  }

  lemma GoodIsAny(s: CaseState, nodes: NodeMap, answer: nat)
    requires Sound(s) && s.prompt.handler == IsAnyCaseHypoCorrect
    ensures GoodStep(s, nodes, OnIsAnyCaseHypoCorrect(s, nodes, answer))
  {
    var o := OnIsAnyCaseHypoCorrect(s, nodes, answer);
    GoodPromptChange(s, nodes, o.state, o.reply);
  }

  lemma GoodChoice(s: CaseState, nodes: NodeMap, answer: nat)
    requires Sound(s) && s.prompt.handler == UserVerifyCorrectHypoByChoosing && answer <= s.prompt.answerMax
    ensures GoodStep(s, nodes, OnUserVerifyCorrectHypoByChoosing(s, nodes, answer))
  {
    assert HypoIds(s.inference.hypos)[answer] == s.inference.hypos[answer].id;
    GoodVerified(s, nodes, s.inference.hypos[answer].id);
  }

  lemma GoodVerifyMenu(s: CaseState, nodes: NodeMap, answer: nat)
    requires Sound(s) && !s.prompt.waiting && 1 <= answer <= 2
    requires s.prompt.handler == CaseSpentOut || s.prompt.handler == MappAt100Percent
    ensures GoodStep(s, nodes, OnVerifyMenu(s, nodes, answer))
  {
    var o := OnVerifyMenu(s, nodes, answer);
    GoodPromptChange(s, nodes, o.state, o.reply);
  }

  lemma GoodLearnedMenu(s: CaseState, nodes: NodeMap, answer: nat)
    requires Sound(s) && !s.prompt.waiting && 1 <= answer <= 2 && s.prompt.handler == CaseVerifiedAndLearned
    ensures GoodStep(s, nodes, OnCaseVerifiedAndLearned(s, nodes, answer))
  {
    var o := OnCaseVerifiedAndLearned(s, nodes, answer);
    GoodPromptChange(s, nodes, o.state, o.reply);
  }

  lemma GoodFixed(s: CaseState, nodes: NodeMap, answer: nat)
    requires Sound(s) && !s.prompt.waiting && s.prompt.handler == IsFaultFixed
    ensures GoodStep(s, nodes, OnIsFaultFixed(s, nodes, answer))
  {
    var o := OnIsFaultFixed(s, nodes, answer);
    GoodPromptChange(s, nodes, o.state, o.reply);
    GoodTouch(s, nodes, o);
  }

  /** Creating missing tables is no part of what a step is judged by either. */
  lemma GoodTouch(s: CaseState, nodes: NodeMap, o: Outcome)
    requires GoodStep(s, nodes, o.(nodes := nodes)) && SameCounts(o.nodes, nodes)
    requires s.verified || !o.state.verified
    ensures GoodStep(s, nodes, o)
  {
  }

  lemma GoodDelete(s: CaseState, nodes: NodeMap)
    requires Sound(s) && !s.prompt.waiting && s.prompt.handler == ShouldThisCaseBeDeleted
    ensures GoodStep(s, nodes, OnShouldThisCaseBeDeleted(s, nodes, 1))
  {
    var o := OnShouldThisCaseBeDeleted(s, nodes, 1);
    GoodPromptChange(s, nodes, o.state, o.reply);
  }

  lemma BusyIsSound(s: CaseState)
    requires Sound(s)
    ensures Sound(Busy(s))
  {
  }

  /** Being busy with the answer is no part of what a step is judged by. */
  lemma GoodFromBusy(s: CaseState, nodes: NodeMap, o: Outcome)
    requires GoodStep(Busy(s), nodes, o)
    ensures GoodStep(s, nodes, o)
  {
  }

  predicate OffersToLeave(h: Handler) {
    || h == TopMenuCaseInProcess || h == CaseSpentOut || h == MappAt100Percent
    || h == CaseVerifiedAndLearned || h == ShouldThisCaseBeDeleted
  }

  /** The outcome on a busy case, before it is settled. */
  lemma GoodAction(s: CaseState, nodes: NodeMap, answer: nat)
    requires Sound(s) && NonNegative(nodes) && answer <= s.prompt.answerMax && !s.prompt.waiting
    requires !(IsAsking(s) && answer == 2) && !(OffersToLeave(s.prompt.handler) && answer == 0)
    ensures GoodStep(s, nodes, OnAnswer(s, nodes, answer))
  {
    match s.prompt.handler {
      case EvaluatePromptedEvidenceQuery => GoodEvidence(s, nodes, answer);
      case TopMenuCaseInProcess => GoodTopMenu(s, nodes, answer);
      case CaseSpentOut => GoodVerifyMenu(s, nodes, answer);
      case MappAt100Percent => GoodVerifyMenu(s, nodes, answer);
      case CaseVerifiedAndLearned => GoodLearnedMenu(s, nodes, answer);
      case ShouldThisCaseBeDeleted => GoodDelete(s, nodes);
      case IsMappHypoCorrect => GoodIsMapp(s, nodes, answer);
      case IsAnyCaseHypoCorrect => GoodIsAny(s, nodes, answer);
      case UserVerifyCorrectHypoByChoosing => GoodChoice(s, nodes, answer);
      case IsFaultFixed => GoodFixed(s, nodes, answer);
    }
  }

  /** Only skipping an evidence item and leaving a case idle need settling. */
  lemma WhatIsSettled(s: CaseState, nodes: NodeMap, answer: nat)
    requires Sound(s) && NonNegative(nodes) && answer <= s.prompt.answerMax
    ensures OnAnswer(s, nodes, answer).reply == CaseEvidSkippedRollQueue <==> IsAsking(s) && answer == 2
    ensures OnAnswer(s, nodes, answer).reply == CaseIdledByUserRegenGui <==>
              OffersToLeave(s.prompt.handler) && answer == 0
  {
  }

  /** A step is the handler's action on the busy case, settled in two cases only. */
  lemma StepIs(s: CaseState, nodes: NodeMap, answer: nat)
    requires Sound(s) && NonNegative(nodes) && Accepts(s, answer)
    ensures Sound(Busy(s))
    ensures Step(s, nodes, answer)
         == if IsAsking(s) && answer == 2 then Settled(Outcome(AfterEvidence(Busy(s)), nodes, CaseEvidSkippedRollQueue))
            else if OffersToLeave(s.prompt.handler) && answer == 0
              then Outcome(Regenerated(Busy(s)), nodes, CaseIdledByUserRegenGui)
            else OnAnswer(Busy(s), nodes, answer)
  {
    BusyIsSound(s);
    WhatIsSettled(Busy(s), nodes, answer);
    IdledIsUnchanged(Busy(s), nodes, answer);
  }

  lemma AcceptedStepIsGood(s: CaseState, nodes: NodeMap, answer: nat)
    requires Sound(s) && NonNegative(nodes) && Accepts(s, answer)
    ensures GoodStep(s, nodes, Step(s, nodes, answer))
  {
    var b, o := Busy(s), Step(s, nodes, answer);
    StepIs(s, nodes, answer);
    if IsAsking(s) && answer == 2 {
      GoodSkip(b, nodes);
    } else if OffersToLeave(s.prompt.handler) && answer == 0 {
      GoodRegenerated(b, nodes, o.reply);
    } else {
      GoodAction(b, nodes, answer);
    }
    GoodFromBusy(s, nodes, o);
  }

  /** Every answer, allowed or not, leaves the case sound; it is accepted iff it is one of
      the options of the current handler and the case is waiting; a rejected one changes
      nothing, and an accepted one is a good step. */
  lemma EveryStepIsGood(s: CaseState, nodes: NodeMap, answer: nat)
    requires Sound(s) && NonNegative(nodes)
    ensures Accepts(s, answer) <==> answer < OptionsOf(s.prompt.handler, s.numPrior) && s.prompt.waiting
    ensures var o := Step(s, nodes, answer);
            if Accepts(s, answer) then GoodStep(s, nodes, o)
            else o.state == s && o.nodes == nodes && !AsksToDestroy(o.reply)
  {
    if Accepts(s, answer) {
      AcceptedStepIsGood(s, nodes, answer);
    }
  }

  lemma StepKeepsNonNegative(s: CaseState, nodes: NodeMap, o: Outcome)
    requires NonNegative(nodes) && (TeachesOnlyItsLesson(s, nodes, o) || o.nodes == nodes)
    ensures NonNegative(o.nodes)
  {
    if TeachesOnlyItsLesson(s, nodes, o) {
      if !s.verified && o.state.verified {
        TaughtNonNegative(nodes, Lesson(o.state));
      } else {
        SameCountsNonNegative(o.nodes, nodes);
      }
    }
  }

  // ----- Whole dialogues -----

  datatype RunEnd = RunEnd(state: CaseState, nodes: NodeMap)

  /** A dialogue: any answers whatever, one after another. */
  ghost function Run(s: CaseState, nodes: NodeMap, answers: seq<nat>): (e: RunEnd)
    requires Sound(s) && NonNegative(nodes)
    ensures Sound(e.state) && NonNegative(e.nodes)
  {
    if answers == [] then RunEnd(s, nodes)
    else
      var before := Run(s, nodes, answers[..|answers| - 1]);
      var o := Step(before.state, before.nodes, answers[|answers| - 1]);
      EveryStepIsGood(before.state, before.nodes, answers[|answers| - 1]);
      StepKeepsNonNegative(before.state, before.nodes, o);
      RunEnd(o.state, o.nodes)
  }

  // ----- A case teaches at most once -----

  lemma TaughtSameCounts(a: NodeMap, b: NodeMap, t: Teaching)
    requires WellFormed(t) && SameCounts(a, b)
    ensures SameCounts(Taught(a, t), Taught(b, t))
  {
    forall k
      ensures At(Taught(a, t), k) == At(Taught(b, t), k)
    {
      assert At(a, k) == At(b, k);
    }
  }

  lemma LessonFollowsCase(s: CaseState, t: CaseState)
    requires SameCase(s, t) && s.verified
    ensures Lesson(s) == Lesson(t)
  {
  }

  lemma StepTeaches(s: CaseState, nodes: NodeMap, answer: nat)
    requires Sound(s) && NonNegative(nodes)
    ensures var o := Step(s, nodes, answer);
            && SameCase(s, o.state)
            && (s.verified || !o.state.verified ==> SameCounts(o.nodes, nodes))
            && (!s.verified && o.state.verified ==>
                  WellFormed(Lesson(o.state)) && o.nodes == Taught(nodes, Lesson(o.state)))
  {
    EveryStepIsGood(s, nodes, answer);
  }

  /** Over any dialogue the knowledge base gains exactly one lesson if the case gets
      verified in it, and nothing otherwise: one count at each (case hypothesis, case
      evidence) node, in the row of that evidence item's final status, true for the
      verified hypothesis and false for the others; every other cell is left alone. */
  lemma {:induction false} DialogueTeachesAtMostOnce(s: CaseState, nodes: NodeMap, answers: seq<nat>)
    requires Sound(s) && NonNegative(nodes)
    ensures var e := Run(s, nodes, answers);
            && SameCase(s, e.state)
            && (s.verified || !e.state.verified ==> SameCounts(e.nodes, nodes))
            && (!s.verified && e.state.verified ==>
                  WellFormed(Lesson(e.state)) && SameCounts(e.nodes, Taught(nodes, Lesson(e.state))))
  {
    if answers != [] {
      var front, last := answers[..|answers| - 1], answers[|answers| - 1];
      DialogueTeachesAtMostOnce(s, nodes, front);
      var before := Run(s, nodes, front);
      StepTeaches(before.state, before.nodes, last);
      var after := Step(before.state, before.nodes, last).state;
      if !s.verified && after.verified {
        if before.state.verified {
          LessonFollowsCase(before.state, after);
        } else {
          TaughtSameCounts(before.nodes, nodes, Lesson(after));
        }
      }
    }
  }

  /** So a dialogue keeps every discrepancy of every rule's tables: a table is consistent
      after it exactly when it was before, whichever hypothesis the user verified and
      whatever else was answered. */
  lemma DialogueKeepsTablesConsistent(s: CaseState, nodes: NodeMap, answers: seq<nat>,
                                      rule: nat, hypos: seq<nat>, evid: nat)
    requires Sound(s) && NonNegative(nodes) && Distinct(hypos)
    requires s.rule == rule ==> Range(HypoIds(s.inference.hypos)) == Range(hypos)
    ensures Consistent(Run(s, nodes, answers).nodes, rule, hypos, evid) <==> Consistent(nodes, rule, hypos, evid)
  {
    DialogueTeachesAtMostOnce(s, nodes, answers);
    var e := Run(s, nodes, answers);
    if !s.verified && e.state.verified {
      var taught := Taught(nodes, Lesson(e.state));
      SameDiscrepancies(e.nodes, taught, rule, hypos, evid);
      forall h, v | h in hypos && 0 <= v < NUM_ROWS
        ensures Discrepancy(taught, rule, hypos, h, evid, v) == Discrepancy(nodes, rule, hypos, h, evid, v)
      {
        TeachingKeepsDiscrepancy(nodes, Lesson(e.state), rule, hypos, h, evid, v);
      }
    } else {
      SameDiscrepancies(e.nodes, nodes, rule, hypos, evid);
    }
  }
}
