/** The dialogue by which a user works a diagnostic case, as a state machine: one step for
    each answer, over the case's own state and the tables of the knowledge base. */
module Dialogue {
  import opened Nodes
  import opened Tallies
  import opened OccurrenceTable
  import opened Bayes

  datatype Handler =
    | ShouldThisCaseBeDeleted
    | EvaluatePromptedEvidenceQuery
    | CaseSpentOut
    | TopMenuCaseInProcess
    | MappAt100Percent
    | CaseVerifiedAndLearned
    | IsMappHypoCorrect
    | IsAnyCaseHypoCorrect
    | UserVerifyCorrectHypoByChoosing
    | IsFaultFixed

  datatype Reply =
    | None
    | CaseAllEvidsSpentNone
    | CaseEvidSkippedRollQueue
    | CaseIdledByUserRegenGui
    | CaseSolnVerifiedUnmaskRule
    | KitCaseDroppedDestroyAndTellGui
    | KitFaultFixedDestroyAndTellGui
    | KitAnswerNotAllowedTellGui
    | KitCaseUserAccessClash

  /** What the user is being asked, and the range of answers allowed. */
  datatype Prompt = Prompt(handler: Handler, numOptions: nat, answerMax: nat, waiting: bool)

  /** The evidence items, those not yet evaluated in turn, and the one now up. */
  datatype Evidence = Evidence(evids: seq<EvidTally>, queue: seq<nat>, up: nat)

  /** The tallies and registers of the inference. */
  datatype Inference = Inference(
    hypos: seq<HypoTally>, sumPrior: int, sumAccum: int, numAlive: int, noEvidence: bool, mapp: nat, mappAt100pct: bool)

  datatype CaseState = CaseState(
    rule: nat, hasDiagnostics: bool, numPrior: nat,
    prompt: Prompt, evidence: Evidence, inference: Inference,
    trueHypo: nat, busts: bool, spent: bool, verified: bool)

  // ----- Options -----

  const OPTIONS_NO_YES: nat := 2
  const OPTIONS_NO_YES_DNK: nat := 3
  const OPTIONS_TOP_MENU: nat := 4
  const OPTIONS_MENU: nat := 3

  /** Presenting a prompt: its handler, its options, and the answers they allow. */
  function Asking(handler: Handler, numOptions: nat): Prompt {
    Prompt(handler, numOptions, if numOptions > 0 then numOptions - 1 else 0, true)
  }

  /** The menu a case in process returns to. */
  function MenuPrompt(spent: bool): Prompt {
    if spent then Asking(CaseSpentOut, OPTIONS_MENU) else Asking(TopMenuCaseInProcess, OPTIONS_TOP_MENU)
  }

  // ----- Evidence -----

  function EvidIndex(evids: seq<EvidTally>, id: nat): (i: nat)
    ensures i <= |evids|
    ensures i < |evids| ==> evids[i].id == id
    ensures i == |evids| ==> forall j :: 0 <= j < |evids| ==> evids[j].id != id
  {
    if evids == [] then 0 else if evids[0].id == id then 0 else 1 + EvidIndex(evids[1..], id)
  }

  function StatusMap(evids: seq<EvidTally>): map<nat, nat> {
    map e | e in EvidIds(evids) :: if EvidIndex(evids, e) < |evids| then evids[EvidIndex(evids, e)].status else 0
  }

  /** The item up given its value. */
  function Evaluated(e: Evidence, value: nat): Evidence
    requires EvidIndex(e.evids, e.up) < |e.evids|
  {
    var i := EvidIndex(e.evids, e.up);
    e.(evids := e.evids[i := e.evids[i].(status := value)])
  }

  /** The next item in turn put up. */
  function NextUp(e: Evidence): Evidence
    requires e.queue != []
  {
    e.(up := e.queue[0], queue := e.queue[1..])
  }

  /** The item up sent to the back of the queue. */
  function RolledBack(e: Evidence): Evidence {
    e.(queue := e.queue + [e.up])
  }

  // ----- Inference -----

  function TruesAt(hypos: seq<HypoTally>, nodes: NodeMap, rule: nat, evid: nat, value: nat): (r: seq<int>)
    requires value < NUM_ROWS
    ensures |r| == |hypos|
  {
    seq(|hypos|, i requires 0 <= i < |hypos| => At(nodes, NodeKey(rule, hypos[i].id, evid)).trues[value])
  }

  function FalsesAt(hypos: seq<HypoTally>, nodes: NodeMap, rule: nat, evid: nat, value: nat): (r: seq<int>)
    requires value < NUM_ROWS
    ensures |r| == |hypos|
  {
    seq(|hypos|, i requires 0 <= i < |hypos| => At(nodes, NodeKey(rule, hypos[i].id, evid)).falses[value])
  }

  function EvidenceApplied(f: Inference, trues: seq<int>, falses: seq<int>): Inference
    requires |f.hypos| == |trues| == |falses|
  {
    var p := Applied(f.hypos, trues, falses, f.numAlive, f.mapp, f.mappAt100pct);
    Inference(p.hypos, f.sumPrior, p.sumAccum, p.numAlive, false, p.mapp, p.mappAt100pct)
  }

  function KeysOfHypo(rule: nat, hypo: nat, evids: seq<nat>): set<NodeKey> {
    set e | e in evids :: NodeKey(rule, hypo, e)
  }

  /** The nodes the cursor is panned to on the way. */
  function NodesVisited(hypos: seq<HypoTally>, rule: nat, evid: nat): set<NodeKey> {
    set i | 0 <= i < |hypos| && Alive(hypos[i]) :: NodeKey(rule, hypos[i].id, evid)
  }

  function Counts(f: Inference): (r: seq<int>)
    ensures |r| == |f.hypos|
  {
    seq(|f.hypos|, i requires 0 <= i < |f.hypos| =>
      if f.noEvidence then f.hypos[i].priorCount else f.hypos[i].accumPost)
  }

  function Divisor(f: Inference): int {
    if f.noEvidence then f.sumPrior else f.sumAccum
  }

  function WithProbs(hypos: seq<HypoTally>, noEvidence: bool, total: int): (r: seq<HypoTally>)
    requires total > 0
    ensures |r| == |hypos|
    ensures forall i :: 0 <= i < |r| ==>
      r[i] == if noEvidence then hypos[i].(priorProb := PerMille(hypos[i].priorCount, total))
              else hypos[i].(postProb := PerMille(hypos[i].accumPost, total))
  {
    seq(|hypos|, i requires 0 <= i < |hypos| =>
      if noEvidence then hypos[i].(priorProb := PerMille(hypos[i].priorCount, total))
      else hypos[i].(postProb := PerMille(hypos[i].accumPost, total)))
  }

  function ScanOf(f: Inference): Scan
    requires Divisor(f) > 0
  {
    Scanned(HypoIds(f.hypos), Counts(f), PerMilles(Counts(f), Divisor(f)), f.mapp, f.mappAt100pct, |f.hypos|)
  }

  /** Probabilities and the most probable hypothesis brought up to date; `frozen` when
      the case is spent or bust. */
  function Updated(f: Inference, frozen: bool): Inference
    requires frozen || Divisor(f) > 0
  {
    if frozen then f
    else f.(hypos := WithProbs(f.hypos, f.noEvidence, Divisor(f)),
            mapp := ScanOf(f).mapp, mappAt100pct := ScanOf(f).at100)
  }

  // ----- Learning -----

  function Lesson(s: CaseState): Teaching {
    Teaching(s.rule, Range(HypoIds(s.inference.hypos)), StatusMap(s.evidence.evids), s.trueHypo)
  }

  function Judged(hypos: seq<HypoTally>, trueHypo: nat, upTo: nat): (r: seq<HypoTally>)
    requires upTo <= |hypos|
    ensures |r| == |hypos|
    ensures forall i :: 0 <= i < |r| ==>
      r[i] == if i >= upTo then hypos[i]
              else hypos[i].(status := if hypos[i].id == trueHypo then STATUS_LIKELY else STATUS_DEAD)
  {
    seq(|hypos|, i requires 0 <= i < |hypos| =>
      if i >= upTo then hypos[i]
      else hypos[i].(status := if hypos[i].id == trueHypo then STATUS_LIKELY else STATUS_DEAD))
  }

  // ----- What every answer keeps -----

  function OptionsOf(h: Handler, numPrior: nat): nat {
    match h
    case ShouldThisCaseBeDeleted => OPTIONS_NO_YES
    case TopMenuCaseInProcess => OPTIONS_TOP_MENU
    case CaseSpentOut => OPTIONS_MENU
    case MappAt100Percent => OPTIONS_MENU
    case CaseVerifiedAndLearned => OPTIONS_MENU
    case UserVerifyCorrectHypoByChoosing => numPrior
    case _ => OPTIONS_NO_YES_DNK
  }

  /** Answers are offered exactly as the current handler expects them. */
  predicate PromptSound(p: Prompt, numPrior: nat) {
    p.numOptions == OptionsOf(p.handler, numPrior) && p.numOptions > 0 && p.answerMax == p.numOptions - 1
  }

  /** Which handler can be current under which flags. */
  predicate FlagsSound(h: Handler, hasDiagnostics: bool, numQueued: nat, mappAt100pct: bool,
                       busts: bool, spent: bool, verified: bool) {
    && (spent ==> h != TopMenuCaseInProcess && h != EvaluatePromptedEvidenceQuery && numQueued <= 1)
    && (h == CaseSpentOut ==> spent)
    && (busts && !spent ==> h == ShouldThisCaseBeDeleted)
    && (verified ==> h == IsFaultFixed || h == CaseVerifiedAndLearned
                     || (!hasDiagnostics && h == ShouldThisCaseBeDeleted))
    && (h == IsFaultFixed || h == CaseVerifiedAndLearned ==> verified)
    && (h == MappAt100Percent ==> mappAt100pct)
  }

  /** Each evidence item is in exactly one place: evaluated, queued once, or up. */
  ghost predicate EvidenceSound(e: Evidence, asking: bool) {
    && Distinct(EvidIds(e.evids)) && Distinct(e.queue)
    && (forall q :: q in e.queue ==> q in EvidIds(e.evids))
    && (forall i :: 0 <= i < |e.evids| ==>
          && e.evids[i].status < NUM_ROWS
          && (e.evids[i].status == ROW_UNEVALUATED <==> e.evids[i].id in e.queue || (asking && e.evids[i].id == e.up)))
    && (asking ==> e.up !in e.queue && e.up in EvidIds(e.evids))
  }

  /** The case's hypotheses and their priors, whatever has been inferred. */
  ghost predicate PriorsSound(f: Inference) {
    && Distinct(HypoIds(f.hypos)) && f.mapp in HypoIds(f.hypos)
    && (forall i :: 0 <= i < |f.hypos| ==> 0 <= f.hypos[i].priorCount && f.hypos[i].id > 0)
    && f.sumPrior == SumPriors(f.hypos) && f.sumPrior > 0
  }

  /** An inference that can go on: no division by zero, some hypothesis alive. */
  ghost predicate InferenceSound(f: Inference) {
    && PriorsSound(f)
    && TalliesSound(f.hypos) && f.numAlive >= AliveCount(f.hypos)
    && (!f.noEvidence ==> f.sumAccum >= 1)
    && (f.noEvidence ==> forall i :: 0 <= i < |f.hypos| ==> f.hypos[i].accumPost == 0)
  }

  predicate IsAsking(s: CaseState) {
    s.prompt.handler == EvaluatePromptedEvidenceQuery
  }

  ghost predicate Sound(s: CaseState) {
    && PromptSound(s.prompt, s.numPrior) && s.numPrior == |s.inference.hypos|
    && FlagsSound(s.prompt.handler, s.hasDiagnostics, |s.evidence.queue|, s.inference.mappAt100pct,
                  s.busts, s.spent, s.verified)
    && EvidenceSound(s.evidence, IsAsking(s))
    && PriorsSound(s.inference)
    && (if s.verified then s.trueHypo in HypoIds(s.inference.hypos) else InferenceSound(s.inference))
  }

  // ----- One answer -----

  datatype Outcome = Outcome(state: CaseState, nodes: NodeMap, reply: Reply)

  function OnShouldThisCaseBeDeleted(s: CaseState, nodes: NodeMap, answer: nat): Outcome {
    if answer == 0 then Outcome(s, nodes, CaseIdledByUserRegenGui)
    else if answer == 1 then Outcome(s, nodes, KitCaseDroppedDestroyAndTellGui)
    else Outcome(s, nodes, None)
  }

  function AfterEvidence(s: CaseState): CaseState {
    var spent := s.evidence.queue == [];
    s.(busts := s.inference.numAlive == 0, spent := spent,
       prompt := if spent && !s.inference.mappAt100pct then Asking(CaseSpentOut, OPTIONS_MENU)
                 else if s.inference.mappAt100pct then Asking(MappAt100Percent, OPTIONS_MENU)
                 else Asking(TopMenuCaseInProcess, OPTIONS_TOP_MENU))
  }

  /** The inference after a definite answer about the item up. */
  function Inferred(s: CaseState, nodes: NodeMap, value: nat): Inference
    requires Sound(s) && NonNegative(nodes) && IsAsking(s) && value < NUM_ROWS
  {
    var hypos := s.inference.hypos;
    var trues := TruesAt(hypos, nodes, s.rule, s.evidence.up, value);
    var falses := FalsesAt(hypos, nodes, s.rule, s.evidence.up, value);
    CountsFromNodes(hypos, nodes, s.rule, s.evidence.up, value);
    EvidenceAppliedSound(s.inference, trues, falses);
    Updated(EvidenceApplied(s.inference, trues, falses), s.spent || s.busts)
  }

  function OnEvaluatePromptedEvidenceQuery(s: CaseState, nodes: NodeMap, answer: nat): Outcome
    requires Sound(s) && NonNegative(nodes) && IsAsking(s)
  {
    if s.spent then Outcome(s, nodes, CaseAllEvidsSpentNone)
    else if answer == 0 || answer == 1 then
      EvidUpIsIndexed(s.evidence);
      Outcome(AfterEvidence(s.(evidence := Evaluated(s.evidence, answer), inference := Inferred(s, nodes, answer))),
              Touched(nodes, NodesVisited(s.inference.hypos, s.rule, s.evidence.up)), None)
    else if answer == 2 then Outcome(AfterEvidence(s), nodes, CaseEvidSkippedRollQueue)
    else Outcome(AfterEvidence(s), nodes, None)
  }

  /** The two menus that offer only to leave, to verify, or to delete. */
  function OnVerifyMenu(s: CaseState, nodes: NodeMap, answer: nat): Outcome {
    if answer == 0 then Outcome(s, nodes, CaseIdledByUserRegenGui)
    else if answer == 1 then Outcome(s.(prompt := Asking(IsMappHypoCorrect, OPTIONS_NO_YES_DNK)), nodes, None)
    else if answer == 2 then Outcome(s, nodes, KitCaseDroppedDestroyAndTellGui)
    else Outcome(s, nodes, None)
  }

  function OnTopMenuCaseInProcess(s: CaseState, nodes: NodeMap, answer: nat): Outcome {
    if answer == 0 then Outcome(s, nodes, CaseIdledByUserRegenGui)
    else if answer == 1 then
      if s.evidence.queue == [] then
        Outcome(s.(spent := true, prompt := Asking(CaseSpentOut, OPTIONS_MENU)), nodes, None)
      else
        Outcome(s.(spent := false, evidence := NextUp(s.evidence),
                   prompt := Asking(EvaluatePromptedEvidenceQuery, OPTIONS_NO_YES_DNK)), nodes, None)
    else if answer == 2 then Outcome(s.(prompt := Asking(IsMappHypoCorrect, OPTIONS_NO_YES_DNK)), nodes, None)
    else if answer == 3 then Outcome(s, nodes, KitCaseDroppedDestroyAndTellGui)
    else Outcome(s, nodes, None)
  }

  function OnCaseVerifiedAndLearned(s: CaseState, nodes: NodeMap, answer: nat): Outcome {
    if answer == 0 then Outcome(s, nodes, CaseIdledByUserRegenGui)
    else if answer == 1 then Outcome(s.(prompt := Asking(IsFaultFixed, OPTIONS_NO_YES_DNK)), nodes, None)
    else if answer == 2 then Outcome(s, nodes, KitCaseDroppedDestroyAndTellGui)
    else Outcome(s, nodes, None)
  }

  /** The user says which hypothesis is true; the knowledge base is taught it. */
  function OnVerified(s: CaseState, nodes: NodeMap, trueHypo: nat): Outcome
    requires Sound(s) && trueHypo in HypoIds(s.inference.hypos)
  {
    var t := s.(trueHypo := trueHypo);
    LessonWellFormed(t, IsAsking(s));
    var hypos := s.inference.hypos;
    Outcome(t.(inference := s.inference.(hypos := Judged(hypos, trueHypo, |hypos|)), verified := true,
               prompt := Asking(IsFaultFixed, OPTIONS_NO_YES_DNK)),
            Taught(nodes, Lesson(t)), CaseSolnVerifiedUnmaskRule)
  }

  function OnIsMappHypoCorrect(s: CaseState, nodes: NodeMap, answer: nat): Outcome
    requires Sound(s)
  {
    if answer == 0 then Outcome(s.(prompt := Asking(IsAnyCaseHypoCorrect, OPTIONS_NO_YES_DNK)), nodes, None)
    else if answer == 1 then OnVerified(s, nodes, s.inference.mapp)
    else Outcome(s.(prompt := MenuPrompt(s.spent)), nodes, None)
  }

  function OnIsAnyCaseHypoCorrect(s: CaseState, nodes: NodeMap, answer: nat): Outcome {
    if answer == 0 then
      Outcome(s.(busts := true, prompt := Asking(ShouldThisCaseBeDeleted, OPTIONS_NO_YES)), nodes, None)
    else if answer == 1 then
      Outcome(s.(prompt := Asking(UserVerifyCorrectHypoByChoosing, s.numPrior)), nodes, None)
    else
      Outcome(s.(prompt := MenuPrompt(s.spent)), nodes, None)
  }

  /** A fixed fault is to lower the counts of its hypothesis, but that is not in effect yet:
      its nodes are read and written back as they were. */
  function OnIsFaultFixed(s: CaseState, nodes: NodeMap, answer: nat): Outcome {
    if answer == 1 then
      Outcome(s.(prompt := s.prompt.(waiting := false)),
              if s.verified then Touched(nodes, KeysOfHypo(s.rule, s.trueHypo, EvidIds(s.evidence.evids))) else nodes,
              KitFaultFixedDestroyAndTellGui)
    else Outcome(s.(prompt := Asking(CaseVerifiedAndLearned, OPTIONS_MENU)), nodes, None)
  }

  function OnUserVerifyCorrectHypoByChoosing(s: CaseState, nodes: NodeMap, answer: nat): Outcome
    requires Sound(s) && answer < |s.inference.hypos|
  {
    assert HypoIds(s.inference.hypos)[answer] == s.inference.hypos[answer].id;
    OnVerified(s, nodes, s.inference.hypos[answer].id)
  }

  /** The action for an answer in range: what the current handler does. */
  function OnAnswer(s: CaseState, nodes: NodeMap, answer: nat): Outcome
    requires Sound(s) && NonNegative(nodes) && answer <= s.prompt.answerMax
  {
    match s.prompt.handler
    case ShouldThisCaseBeDeleted => OnShouldThisCaseBeDeleted(s, nodes, answer)
    case EvaluatePromptedEvidenceQuery => OnEvaluatePromptedEvidenceQuery(s, nodes, answer)
    case CaseSpentOut => OnVerifyMenu(s, nodes, answer)
    case TopMenuCaseInProcess => OnTopMenuCaseInProcess(s, nodes, answer)
    case MappAt100Percent => OnVerifyMenu(s, nodes, answer)
    case CaseVerifiedAndLearned => OnCaseVerifiedAndLearned(s, nodes, answer)
    case IsMappHypoCorrect => OnIsMappHypoCorrect(s, nodes, answer)
    case IsAnyCaseHypoCorrect => OnIsAnyCaseHypoCorrect(s, nodes, answer)
    case UserVerifyCorrectHypoByChoosing => OnUserVerifyCorrectHypoByChoosing(s, nodes, answer)
    case IsFaultFixed => OnIsFaultFixed(s, nodes, answer)
  }

  /** The prompt regenerated from the case as it stands. */
  function Regenerated(s: CaseState): CaseState
    requires !s.verified ==> InferenceSound(s.inference)
  {
    if !s.hasDiagnostics then s.(prompt := Asking(ShouldThisCaseBeDeleted, OPTIONS_NO_YES))
    else if s.verified then s.(prompt := Asking(IsFaultFixed, OPTIONS_NO_YES_DNK))
    else if !s.spent && s.busts then s.(prompt := Asking(ShouldThisCaseBeDeleted, OPTIONS_NO_YES))
    else s.(inference := Updated(s.inference, s.spent || s.busts), prompt := MenuPrompt(s.spent))
  }

  /** What the case does about its handler's reply before passing it on. */
  function Settled(o: Outcome): Outcome
    requires o.reply == CaseIdledByUserRegenGui && !o.state.verified ==> InferenceSound(o.state.inference)
  {
    match o.reply
    case CaseEvidSkippedRollQueue => o.(state := o.state.(evidence := RolledBack(o.state.evidence)))
    case CaseIdledByUserRegenGui => o.(state := Regenerated(o.state))
    case _ => o
  }

  function Busy(s: CaseState): CaseState {
    s.(prompt := s.prompt.(waiting := false))
  }

  predicate Accepts(s: CaseState, answer: nat) {
    answer <= s.prompt.answerMax && s.prompt.waiting
  }

  /** One answer from the user, allowed or not. */
  function Step(s: CaseState, nodes: NodeMap, answer: nat): Outcome
    requires Sound(s) && NonNegative(nodes)
  {
    if answer > s.prompt.answerMax then Outcome(s, nodes, KitAnswerNotAllowedTellGui)
    else if !s.prompt.waiting then Outcome(s, nodes, KitCaseUserAccessClash)
    else
      IdledIsUnchanged(Busy(s), nodes, answer);
      Settled(OnAnswer(Busy(s), nodes, answer))
  }

  predicate AsksToDestroy(r: Reply) {
    r == KitCaseDroppedDestroyAndTellGui || r == KitFaultFixedDestroyAndTellGui
  }

  // ----- Lemmas the step itself rests on -----

  lemma SumPriorsDependsOnPriors(a: seq<HypoTally>, b: seq<HypoTally>)
    requires |a| == |b| && forall i :: 0 <= i < |a| ==> a[i].priorCount == b[i].priorCount
    ensures SumPriors(a) == SumPriors(b)
  {
    if a != [] {
      SumPriorsDependsOnPriors(a[..|a| - 1], b[..|b| - 1]);
    }
  }

  lemma CountsFromNodes(hypos: seq<HypoTally>, nodes: NodeMap, rule: nat, evid: nat, value: nat)
    requires NonNegative(nodes) && value < NUM_ROWS
    ensures CountsSound(hypos, TruesAt(hypos, nodes, rule, evid, value), FalsesAt(hypos, nodes, rule, evid, value))
  {
    forall i | 0 <= i < |hypos|
      ensures 0 <= TruesAt(hypos, nodes, rule, evid, value)[i] && 0 <= FalsesAt(hypos, nodes, rule, evid, value)[i]
    {
      assert NonNegativeNode(At(nodes, NodeKey(rule, hypos[i].id, evid)));
    }
  }

  lemma AppliedKeepsIdentity(hypos: seq<HypoTally>, trues: seq<int>, falses: seq<int>,
                             numAlive: int, mapp: nat, mappAt100pct: bool)
    requires |hypos| == |trues| == |falses|
    ensures var p := Applied(hypos, trues, falses, numAlive, mapp, mappAt100pct);
            && HypoIds(p.hypos) == HypoIds(hypos)
            && (forall i :: 0 <= i < |hypos| ==> p.hypos[i].priorCount == hypos[i].priorCount)
            && (p.mapp == mapp || p.mapp in HypoIds(hypos))
            && (mappAt100pct ==> p.mappAt100pct)
  {
    var d := FirstDecisive(hypos, trues, 0);
    if !IsNovel(hypos, trues) && d < |hypos| {
      assert HypoIds(hypos)[d] == hypos[d].id;
    }
  }

  /** The inference after one definite answer, before the probabilities are updated. */
  lemma EvidenceAppliedSound(f: Inference, trues: seq<int>, falses: seq<int>)
    requires InferenceSound(f) && CountsSound(f.hypos, trues, falses)
    ensures var g := EvidenceApplied(f, trues, falses);
            && InferenceSound(g) && HypoIds(g.hypos) == HypoIds(f.hypos) && g.sumPrior == f.sumPrior
            && !g.noEvidence && Divisor(g) > 0
            && (f.mappAt100pct ==> g.mappAt100pct)
  {
    EvidenceLeavesAHypothesis(f.hypos, trues, falses, f.numAlive, f.mapp, f.mappAt100pct);
    AppliedKeepsIdentity(f.hypos, trues, falses, f.numAlive, f.mapp, f.mappAt100pct);
    var g := EvidenceApplied(f, trues, falses);
    SumPriorsDependsOnPriors(f.hypos, g.hypos);
    forall i | 0 <= i < |g.hypos|
      ensures g.hypos[i].id > 0
    {
      assert HypoIds(g.hypos)[i] == HypoIds(f.hypos)[i];
    }
  }

  lemma EvidUpIsIndexed(e: Evidence)
    requires e.up in EvidIds(e.evids)
    ensures EvidIndex(e.evids, e.up) < |e.evids|
  {
    var j :| 0 <= j < |e.evids| && EvidIds(e.evids)[j] == e.up;
    assert e.evids[j].id == e.up;
  }

  lemma LessonWellFormed(s: CaseState, asking: bool)
    requires EvidenceSound(s.evidence, asking)
    requires s.trueHypo in HypoIds(s.inference.hypos)
    ensures WellFormed(Lesson(s))
  {
    var evids := s.evidence.evids;
    forall e | e in StatusMap(evids)
      ensures StatusMap(evids)[e] < NUM_ROWS
    {
      var i := EvidIndex(evids, e);
      if i < |evids| {
        assert evids[i].status < NUM_ROWS;
      }
    }
  }

  /** Only an untouched case asks to be regenerated. */
  lemma IdledIsUnchanged(s: CaseState, nodes: NodeMap, answer: nat)
    requires Sound(s) && NonNegative(nodes) && answer <= s.prompt.answerMax
    ensures OnAnswer(s, nodes, answer).reply == CaseIdledByUserRegenGui ==> OnAnswer(s, nodes, answer).state == s
  {
  }
}
