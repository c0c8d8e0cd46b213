/** Two runs of the program from its first day on - a design, verified cases, a new case and
    the answers to it - in which the case misleads: one goes on offering a solution it has
    ruled out, another gives two faults a probability past certainty each. */
module DialogueRuns {
  import opened Nodes
  import opened Tallies
  import opened OccurrenceTable
  import opened Bayes
  import opened Dialogue
  import opened DialogueSafety
  import opened MostProbable
  import opened CaseCreation

  // ----- A rule with three hypotheses -----

  const RULE: nat := 1
  const HYPOS: seq<nat> := [1, 2, 3]

  /** Item `e` speaks for the first hypothesis; the experts take its opposite to speak against. */
  function Speaks(e: nat): Association {
    Association(1, e, true, true)
  }

  /** The other two have an item each of their own, without which they could not be looked up. */
  const OTHERS: seq<Association> := [Association(2, 901, true, true), Association(3, 902, true, true)]

  /** The first `n` items. */
  function Spoken(n: nat): (r: seq<Association>)
    ensures |r| == n && forall i :: 0 <= i < n ==> r[i] == Speaks(i + 1)
  {
    seq(n, i requires 0 <= i < n => Speaks(i + 1))
  }

  /** The design: hypothesis by hypothesis, as it is built. */
  function Designed(n: nat): seq<Association> {
    Spoken(n) + OTHERS
  }

  function Items(n: nat): (r: seq<nat>)
    ensures |r| == n + 2 && (forall i :: 0 <= i < n ==> r[i] == i + 1) && r[n] == 901 && r[n + 1] == 902
  {
    seq(n, i => i + 1) + [901, 902]
  }

  /** On the value "false" the item tells against the first hypothesis alone, and on "true" for
      it alone. */
  ghost predicate ReadsAsDesigned(nodes: NodeMap, e: nat) {
    && At(nodes, NodeKey(RULE, 1, e)).trues[..2] == [0, 1] && At(nodes, NodeKey(RULE, 1, e)).falses[..2] == [2, 0]
    && At(nodes, NodeKey(RULE, 2, e)).trues[..2] == [1, 0] && At(nodes, NodeKey(RULE, 2, e)).falses[..2] == [1, 1]
    && At(nodes, NodeKey(RULE, 3, e)).trues[..2] == [1, 0] && At(nodes, NodeKey(RULE, 3, e)).falses[..2] == [1, 1]
  }

  lemma DesignReads(nodes: NodeMap, e: nat)
    ensures ReadsAsDesigned(Initialized(nodes, RULE, HYPOS, Speaks(e)), e)
  {
    var after := Initialized(nodes, RULE, HYPOS, Speaks(e));
    assert HYPOS[0] == 1 && HYPOS[1] == 2 && HYPOS[2] == 3;
    forall h | h in HYPOS
      ensures At(after, NodeKey(RULE, h, e)) == DesignNode(3, Speaks(e), h)
    {
      assert NodeKey(RULE, h, e) in KeysAt(RULE, Range(HYPOS), e);
    }
  }

  lemma {:induction false} SpokenReads(n: nat, e: nat)
    requires 1 <= e <= n
    ensures ReadsAsDesigned(Built(map[], RULE, HYPOS, Spoken(n)), e)
  {
    var front := Spoken(n - 1);
    assert Spoken(n)[..n - 1] == front;
    if e == n {
      DesignReads(Built(map[], RULE, HYPOS, front), e);
    } else {
      SpokenReads(n - 1, e);
    }
  }

  lemma ReadsElsewhere(nodes: NodeMap, a: Association, e: nat)
    requires ReadsAsDesigned(nodes, e) && a.evid != e
    ensures ReadsAsDesigned(Initialized(nodes, RULE, HYPOS, a), e)
  {
    var after := Initialized(nodes, RULE, HYPOS, a);
    assert forall h :: At(after, NodeKey(RULE, h, e)) == At(nodes, NodeKey(RULE, h, e));
  }

  /** An item reads the same however others are designed after it. */
  lemma BuiltReads(n: nat, e: nat)
    requires 1 <= e <= n <= MAX_HYPOS
    ensures ReadsAsDesigned(Built(map[], RULE, HYPOS, Designed(n)), e)
  {
    SpokenReads(n, e);
    var first := Spoken(n) + [OTHERS[0]];
    assert first[..n] == Spoken(n);
    assert Designed(n)[..n + 1] == first && Designed(n)[n + 1] == OTHERS[1];
    ReadsElsewhere(Built(map[], RULE, HYPOS, Spoken(n)), OTHERS[0], e);
    ReadsElsewhere(Built(map[], RULE, HYPOS, first), OTHERS[1], e);
  }

  lemma DesignedAt(n: nat, i: nat)
    requires i < n + 2
    ensures Designed(n)[i] in Designed(n) && Designed(n)[i].evid == Items(n)[i]
    ensures Designed(n)[i].nominal == if i < n then 1 else if i == n then 2 else 3
  {
  }

  /** Every item is named. */
  lemma ItemsAreNamed(n: nat)
    ensures AllNamed(Designed(n), Range(Items(n))) && KnownBy(Designed(n)).evids == Range(Items(n))
  {
    forall e | e in Range(Items(n))
      ensures exists a :: a in Designed(n) && a.evid == e
    {
      var i: nat :| i < n + 2 && Items(n)[i] == e;
      DesignedAt(n, i);
    }
    forall a | a in Designed(n)
      ensures a.evid in Range(Items(n))
    {
      var i: nat :| i < n + 2 && Designed(n)[i] == a;
      DesignedAt(n, i);
    }
  }

  /** And so is every hypothesis. */
  lemma HyposAreNamed(n: nat)
    requires n > 0
    ensures KnownBy(Designed(n)).hypos == Range(HYPOS)
  {
    DesignedAt(n, 0);
    DesignedAt(n, n);
    DesignedAt(n, n + 1);
    assert HYPOS[0] == 1 && HYPOS[1] == 2 && HYPOS[2] == 3;
    assert forall h :: h in HYPOS <==> h == 1 || h == 2 || h == 3;
    forall a | a in Designed(n)
      ensures a.nominal in HYPOS
    {
      var i: nat :| i < n + 2 && Designed(n)[i] == a;
      DesignedAt(n, i);
    }
  }

  lemma ItemsAreDistinct(n: nat)
    requires n <= MAX_HYPOS
    ensures Distinct(Items(n)) && Items(n) != []
  {
  }

  /** A knowledge base in which the first `n` items read as designed. */
  ghost predicate Reads(nodes: NodeMap, n: nat) {
    NonNegative(nodes) && forall e :: 1 <= e <= n ==> ReadsAsDesigned(nodes, e)
  }

  lemma ReadsTheSame(a: NodeMap, b: NodeMap, n: nat)
    requires SameCounts(a, b) && NonNegative(a) && Reads(b, n)
    ensures Reads(a, n)
  {
    forall e | 1 <= e <= n
      ensures ReadsAsDesigned(a, e)
    {
      assert forall h :: At(a, NodeKey(RULE, h, e)) == At(b, NodeKey(RULE, h, e));
      assert ReadsAsDesigned(b, e);
    }
  }

  // ----- One round of asking and answering -----

  /** A case at its menu with evidence left to ask for. */
  ghost predicate MayAsk(s: CaseState) {
    && Sound(s) && !s.verified
    && s.prompt.handler == TopMenuCaseInProcess && s.prompt.waiting && s.evidence.queue != []
  }

  /** And on the rule. */
  ghost predicate AtMenu(s: CaseState) {
    MayAsk(s) && s.rule == RULE && HypoIds(s.inference.hypos) == HYPOS
  }

  /** The inference after the next item has been given a value. */
  function InferredNext(s: CaseState, nodes: NodeMap, value: nat): Inference
    requires value < NUM_ROWS && s.evidence.queue != []
  {
    var f, e := s.inference, s.evidence.queue[0];
    EvidenceApplied(f, TruesAt(f.hypos, nodes, s.rule, e, value), FalsesAt(f.hypos, nodes, s.rule, e, value))
  }

  lemma Asks(s: CaseState, nodes: NodeMap)
    requires MayAsk(s) && NonNegative(nodes)
    ensures Step(s, nodes, 1)
         == Outcome(s.(spent := false, evidence := NextUp(s.evidence),
                       prompt := Asking(EvaluatePromptedEvidenceQuery, OPTIONS_NO_YES_DNK)), nodes, None)
    ensures Sound(Step(s, nodes, 1).state)
  {
    StepIs(s, nodes, 1);
    EveryStepIsGood(s, nodes, 1);
  }

  lemma Answers(s: CaseState, nodes: NodeMap, value: nat)
    requires Sound(s) && NonNegative(nodes) && IsAsking(s) && s.prompt.waiting && value < ROW_UNEVALUATED
    ensures var o := Step(s, nodes, value);
            && Sound(o.state) && NonNegative(o.nodes) && SameCase(s, o.state)
            && o.state.verified == s.verified && (!s.verified ==> SameCounts(o.nodes, nodes))
            && o.state.inference == Inferred(s, nodes, value) && o.state.evidence.queue == s.evidence.queue
            && o.state.spent == (s.evidence.queue == []) && o.state.prompt == AfterEvidence(o.state).prompt
  {
    StepIs(s, nodes, value);
    EveryStepIsGood(s, nodes, value);
    StepKeepsNonNegative(s, nodes, Step(s, nodes, value));
    BusyInfers(s, nodes, value);
  }

  lemma BusyInfers(s: CaseState, nodes: NodeMap, value: nat)
    requires Sound(s) && NonNegative(nodes) && IsAsking(s) && value < NUM_ROWS
    ensures Sound(Busy(s)) && Inferred(Busy(s), nodes, value) == Inferred(s, nodes, value)
  {
    BusyIsSound(s);
  }

  lemma RunOnce(s: CaseState, nodes: NodeMap, answers: seq<nat>, a: nat)
    requires Sound(s) && NonNegative(nodes)
    ensures var before := Run(s, nodes, answers);
            var o := Step(before.state, before.nodes, a);
            Run(s, nodes, answers + [a]) == RunEnd(o.state, o.nodes)
  {
    assert (answers + [a])[..|answers|] == answers;
  }

  /** The case and the knowledge base once the next item has been given a value. */
  ghost predicate RoundLeaves(s: CaseState, nodes: NodeMap, value: nat, after: RunEnd)
    requires value < NUM_ROWS && s.evidence.queue != []
  {
    && Sound(after.state) && NonNegative(after.nodes) && SameCounts(after.nodes, nodes)
    && !after.state.verified && after.state.rule == RULE && HypoIds(after.state.inference.hypos) == HYPOS
    && InferenceSound(InferredNext(s, nodes, value))
    && after.state.inference == Updated(InferredNext(s, nodes, value), false)
    && after.state.evidence.queue == s.evidence.queue[1..]
    && after.state.prompt == AfterEvidence(after.state).prompt
  }

  /** The same, stated so that it need be opened only where it is used: to say that every `e`
      that is `after` has the property is to say that `after` has it, but the solver unfolds
      that only where the property is named of it. */
  ghost predicate RoundTaken(s: CaseState, nodes: NodeMap, value: nat, after: RunEnd)
    requires value < NUM_ROWS && s.evidence.queue != []
  {
    forall e {:trigger RoundLeaves(s, nodes, value, e)} :: e == after ==> RoundLeaves(s, nodes, value, e)
  }

  lemma RoundInfers(s: CaseState, nodes: NodeMap, value: nat, after: RunEnd)
    requires value < NUM_ROWS && s.evidence.queue != [] && RoundTaken(s, nodes, value, after)
    ensures InferenceSound(InferredNext(s, nodes, value))
    ensures after.state.inference == Updated(InferredNext(s, nodes, value), false)
  {
    assert RoundLeaves(s, nodes, value, after);
  }

  lemma Round(s: CaseState, nodes: NodeMap, value: nat)
    requires AtMenu(s) && NonNegative(nodes) && value < ROW_UNEVALUATED
    ensures var asked := Step(s, nodes, 1);
            && Sound(asked.state) && NonNegative(asked.nodes)
            && var o := Step(asked.state, asked.nodes, value);
               RoundTaken(s, nodes, value, RunEnd(o.state, o.nodes))
  {
    Asks(s, nodes);
    var asked := Step(s, nodes, 1).state;
    Answers(asked, nodes, value);
    InferredIsUpdated(asked, nodes, value);
  }

  /** True of all answers: it is named where `LeadsTo` is to be unfolded. */
  predicate Given(answers: seq<nat>) {
    true
  }

  /** The answers lead to `e`, stated so that those who only pass it on need not open the run. */
  ghost predicate LeadsTo(s: CaseState, nodes: NodeMap, answers: seq<nat>, e: RunEnd)
    requires Sound(s) && NonNegative(nodes)
  {
    forall given {:trigger Given(given)} :: given == answers ==> Run(s, nodes, given) == e
  }

  lemma RunLeadsTo(s: CaseState, nodes: NodeMap, answers: seq<nat>, e: RunEnd)
    requires Sound(s) && NonNegative(nodes)
    ensures LeadsTo(s, nodes, answers, e) <==> Run(s, nodes, answers) == e
  {
    assert Given(answers);
  }

  /** The next item asked for, and given a definite value, in the course of a run. */
  lemma RunOfRound(s: CaseState, nodes: NodeMap, answers: seq<nat>, e: RunEnd, value: nat) returns (after: RunEnd)
    requires Sound(s) && NonNegative(nodes) && value < ROW_UNEVALUATED
    requires LeadsTo(s, nodes, answers, e) && AtMenu(e.state) && NonNegative(e.nodes)
    ensures LeadsTo(s, nodes, answers + [1] + [value], after) && RoundTaken(e.state, e.nodes, value, after)
  {
    RunLeadsTo(s, nodes, answers, e);
    Round(e.state, e.nodes, value);
    RunOnce(s, nodes, answers, 1);
    RunOnce(s, nodes, answers + [1], value);
    after := Run(s, nodes, answers + [1] + [value]);
  }

  // ----- What the rounds infer -----

  /** After so many items found false: the first hypothesis ruled out, the others tied. */
  ghost predicate Tied(f: Inference, k: nat) {
    && |f.hypos| == 3 && HypoIds(f.hypos) == HYPOS && !f.mappAt100pct && f.noEvidence == (k == 0)
    && f.hypos[1].status == STATUS_OPEN && f.hypos[2].status == STATUS_OPEN
    && f.hypos[1].accumPost == f.hypos[2].accumPost == k && f.hypos[0].accumPost == 0
    && f.hypos[0].status == (if k == 0 then STATUS_OPEN else STATUS_DEAD)
    && (k > 0 ==> f.sumAccum == 2 * k)
  }

  lemma WeightOfThree(hypos: seq<HypoTally>, trues: seq<int>)
    requires |hypos| == |trues| == 3
    ensures Weight(hypos, trues, 3) == (if Alive(hypos[0]) then trues[0] else 0)
            + (if Alive(hypos[1]) then trues[1] else 0) + (if Alive(hypos[2]) then trues[2] else 0)
  {
    assert Weight(hypos, trues, 1) == if Alive(hypos[0]) then trues[0] else 0;
    assert Weight(hypos, trues, 2) == Weight(hypos, trues, 1) + if Alive(hypos[1]) then trues[1] else 0;
  }

  lemma SumsOfThree(hypos: seq<HypoTally>)
    requires |hypos| == 3
    ensures SumAccum(hypos) == hypos[0].accumPost + hypos[1].accumPost + hypos[2].accumPost
    ensures AliveCount(hypos) == (if Alive(hypos[0]) then 1 else 0) + (if Alive(hypos[1]) then 1 else 0)
                                 + (if Alive(hypos[2]) then 1 else 0)
  {
    var one, two := hypos[..1], hypos[..2];
    assert two[..1] == one && one == [hypos[0]];
    assert SumAccum(one[..0]) == 0 && AliveCount(one[..0]) == 0;
    assert SumAccum(one) == hypos[0].accumPost;
    assert AliveCount(one) == if Alive(hypos[0]) then 1 else 0;
    assert SumAccum(two) == SumAccum(one) + hypos[1].accumPost;
    assert AliveCount(two) == AliveCount(one) + if Alive(hypos[1]) then 1 else 0;
  }

  /** Told against the first hypothesis alone. */
  lemma FoundFalse(f: Inference)
    requires |f.hypos| == 3 && Alive(f.hypos[1]) && Alive(f.hypos[2])
    ensures var p := EvidenceApplied(f, [0, 1, 1], [2, 1, 1]);
            && !IsNovel(f.hypos, [0, 1, 1]) && FirstDecisive(f.hypos, [0, 1, 1], 0) == 3
            && p.hypos == Pass(f.hypos, [0, 1, 1], [2, 1, 1], 3) && p.sumAccum == SumAccum(p.hypos)
            && p.mapp == f.mapp && p.mappAt100pct == f.mappAt100pct
  {
    WeightOfThree(f.hypos, [0, 1, 1]);
  }

  /** A quotient pinned between two multiples of its divisor. */
  lemma QuotientIs(count: int, total: int, q: int)
    requires 0 <= count <= total && total > 0
    requires total * q <= 1000 * count < total * (q + 1)
    ensures PerMille(count, total) == q
  {
    var p := PerMille(count, total);
    PerMilleBounds(count, total);
    assert total * (p + 1) == total * p + total;
    LessByMul(total, q, p + 1);
    LessByMul(total, p, q + 1);
  }

  lemma Half(k: nat)
    requires k > 0
    ensures PerMille(k, 2 * k) == 500
  {
    QuotientIs(k, 2 * k, 500);
  }

  lemma TiedStaysBelow(p: Inference, k: nat)
    requires InferenceSound(p) && k > 0 && Tied(p, k)
    ensures Tied(Updated(p, false), k)
  {
    UpdatedByScan(p);
    UpdatedSound(p, false);
    SumsOfThree(p.hypos);
    AccumsAddUp(p.hypos);
    Half(k);
    PerMilleBounds(0, 2 * k);
    var accums := Accums(p.hypos);
    assert forall i :: 0 <= i < 3 ==> PerMilles(accums, p.sumAccum)[i] <= 500;
    assert Counts(p) == accums;
    ScanFindsMaximalCount(HypoIds(p.hypos), accums, p.sumAccum, p.mapp);
  }

  lemma NoTies(f: Inference, k: nat)
    requires InferenceSound(f) && Tied(f, k)
    ensures var p := EvidenceApplied(f, [0, 1, 1], [2, 1, 1]);
            InferenceSound(p) ==> Tied(p, k + 1)
  {
    FoundFalse(f);
    var p := EvidenceApplied(f, [0, 1, 1], [2, 1, 1]);
    assert HypoIds(p.hypos) == HypoIds(f.hypos);
    SumsOfThree(p.hypos);
  }

  /** Told for the first hypothesis, which has been ruled out, alone: a novel value. */
  lemma YesIsNovel(f: Inference, k: nat)
    requires InferenceSound(f) && Tied(f, k) && k > 0
    ensures var p := EvidenceApplied(f, [1, 0, 0], [0, 1, 1]);
            p.sumAccum == 2 && p.hypos[1].accumPost == p.hypos[2].accumPost == k + 1
  {
    WeightOfThree(f.hypos, [1, 0, 0]);
    SumsOfThree(f.hypos);
  }

  lemma ReadOff(s: CaseState, nodes: NodeMap, e: nat)
    requires HypoIds(s.inference.hypos) == HYPOS && s.rule == RULE && ReadsAsDesigned(nodes, e)
    ensures TruesAt(s.inference.hypos, nodes, RULE, e, 0) == [0, 1, 1]
    ensures FalsesAt(s.inference.hypos, nodes, RULE, e, 0) == [2, 1, 1]
    ensures TruesAt(s.inference.hypos, nodes, RULE, e, 1) == [1, 0, 0]
    ensures FalsesAt(s.inference.hypos, nodes, RULE, e, 1) == [0, 1, 1]
  {
    var hypos := s.inference.hypos;
    assert |hypos| == 3 && hypos[0].id == HypoIds(hypos)[0] && hypos[1].id == HypoIds(hypos)[1]
        && hypos[2].id == HypoIds(hypos)[2];
    RowsOf(At(nodes, NodeKey(RULE, 1, e)));
    RowsOf(At(nodes, NodeKey(RULE, 2, e)));
    RowsOf(At(nodes, NodeKey(RULE, 3, e)));
  }

  lemma RowsOf(n: Knode)
    ensures n.trues[..2][0] == n.trues[0] && n.trues[..2][1] == n.trues[1]
    ensures n.falses[..2][0] == n.falses[0] && n.falses[..2][1] == n.falses[1]
  {
  }

  // ----- A run to more than certainty -----

  /** So many items asked for, each found false. */
  function Noes(k: nat): seq<nat> {
    if k == 0 then [] else Noes(k - 1) + [1] + [0]
  }

  function FreshTallies(a: nat, b: nat, c: nat): seq<HypoTally> {
    [NewHypo(1, a), NewHypo(2, b), NewHypo(3, c)]
  }

  /** What is on file after a design and a history is what the case begins on. */
  ghost predicate IsOnFile(hypos: seq<HypoTally>, nodes: NodeMap, evids: seq<nat>) {
    forall i :: 0 <= i < |hypos| ==> hypos[i].priorCount == PriorCount(nodes, RULE, hypos[i].id, evids)
  }

  lemma ThreeAreFresh(a: nat, b: nat, c: nat, evids: seq<nat>)
    requires Distinct(evids)
    ensures Fresh(FreshTallies(a, b, c), evids, a + b + c) && HypoIds(FreshTallies(a, b, c)) == HYPOS
  {
    var hypos := FreshTallies(a, b, c);
    assert HypoIds(hypos) == HYPOS;
    assert hypos[..2] == [hypos[0], hypos[1]] && hypos[..2][..1] == [hypos[0]] && [hypos[0]][..0] == [];
    assert SumPriors([hypos[0]]) == a;
    assert SumPriors([hypos[0], hypos[1]]) == a + b by {
      assert [hypos[0], hypos[1]][..1] == [hypos[0]];
    }
  }

  lemma DesignIsSpoken(n: nat)
    ensures IsDesign(map[], RULE, HYPOS, Designed(n))
  {
    assert HYPOS[0] == 1 && HYPOS[1] == 2 && HYPOS[2] == 3;
    assert forall a :: a in Designed(n) <==> a in Spoken(n) || a in OTHERS;
  }

  lemma DesignIsInOrder(n: nat)
    requires n <= MAX_HYPOS
    ensures Reads(Built(map[], RULE, HYPOS, Designed(n)), n)
  {
    DesignIsSpoken(n);
    DesignNonNegative(map[], RULE, HYPOS, Designed(n));
    forall e | 1 <= e <= n
      ensures ReadsAsDesigned(Built(map[], RULE, HYPOS, Designed(n)), e)
    {
      BuiltReads(n, e);
    }
  }

  ghost predicate NothingInferred(f: Inference) {
    && f.noEvidence && |f.hypos| == 3
    && forall i :: 0 <= i < 3 ==> f.hypos[i].status == STATUS_OPEN && f.hypos[i].accumPost == 0
  }

  /** The case just created. */
  lemma BegunAtMenu(a: nat, b: nat, c: nat, evids: seq<nat>) returns (s: CaseState)
    requires 0 < a + b + c <= 1000 * a && Distinct(evids) && evids != []
    ensures Fresh(FreshTallies(a, b, c), evids, a + b + c)
    ensures Begun(RULE, true, FreshTallies(a, b, c), evids, a + b + c) == Created(s)
    ensures AtMenu(s) && s.evidence.queue == evids && NothingInferred(s.inference)
    ensures HasMaximalCount(HYPOS, [a, b, c], s.inference.mapp)
    ensures s.inference.mappAt100pct <==> SomePastCutOff(PerMilles([a, b, c], a + b + c))
  {
    var hypos := FreshTallies(a, b, c);
    ThreeAreFresh(a, b, c, evids);
    CreatedIff(Known(Range(HYPOS), Range(evids)), RULE, true, hypos, evids, a + b + c);
    CreatedSound(RULE, true, hypos, evids, a + b + c);
    s := Begun(RULE, true, hypos, evids, a + b + c).state;
    assert Priors(hypos) == [a, b, c];
  }

  lemma ThirdIsSmall(n: nat)
    requires n > 0
    ensures PerMille(n, 3 * n) <= CUT_OFF
  {
    QuotientIs(n, 3 * n, 333);
  }

  /** Where the run stands after `k` of `n` items. */
  ghost predicate StandsAt(e: RunEnd, n: nat, k: nat)
    requires k <= n
  {
    Reads(e.nodes, n) && e.state.evidence.queue == Items(n)[k..] && AtMenu(e.state) && Tied(e.state.inference, k)
  }

  lemma NoMakesTied(s: CaseState, nodes: NodeMap, k: nat)
    requires s.rule == RULE && HypoIds(s.inference.hypos) == HYPOS && InferenceSound(s.inference)
    requires s.evidence.queue != [] && ReadsAsDesigned(nodes, s.evidence.queue[0]) && Tied(s.inference, k)
    requires InferenceSound(InferredNext(s, nodes, 0))
    ensures Tied(Updated(InferredNext(s, nodes, 0), false), k + 1)
  {
    ReadOff(s, nodes, s.evidence.queue[0]);
    NoTies(s.inference, k);
    TiedStaysBelow(InferredNext(s, nodes, 0), k + 1);
  }

  lemma QueueOfItems(n: nat, k: nat)
    requires k < n
    ensures Items(n)[k..] != [] && Items(n)[k..][0] == k + 1 && Items(n)[k..][1..] == Items(n)[k + 1..]
  {
  }

  lemma BackAtMenu(s: CaseState)
    requires Sound(s) && !s.verified && s.rule == RULE && HypoIds(s.inference.hypos) == HYPOS
    requires s.prompt == AfterEvidence(s).prompt && s.evidence.queue != [] && !s.inference.mappAt100pct
    ensures AtMenu(s)
  {
  }

  lemma OneMoreNo(e: RunEnd, n: nat, k: nat, after: RunEnd)
    requires k + 1 < n && StandsAt(e, n, k) && RoundTaken(e.state, e.nodes, 0, after)
    ensures StandsAt(after, n, k + 1)
  {
    assert RoundLeaves(e.state, e.nodes, 0, after);
    QueueOfItems(n, k);
    QueueOfItems(n, k + 1);
    NoMakesTied(e.state, e.nodes, k);
    BackAtMenu(after.state);
    ReadsTheSame(after.nodes, e.nodes, n);
  }

  lemma {:induction false} NoesRun(s: CaseState, nodes: NodeMap, n: nat, k: nat) returns (e: RunEnd)
    requires k < n && StandsAt(RunEnd(s, nodes), n, 0)
    ensures StandsAt(e, n, k) && LeadsTo(s, nodes, Noes(k), e)
  {
    if k == 0 {
      e := RunEnd(s, nodes);
      RunLeadsTo(s, nodes, [], e);
    } else {
      var before := NoesRun(s, nodes, n, k - 1);
      e := RunOfRound(s, nodes, Noes(k - 1), before, 0);
      OneMoreNo(before, n, k - 1, e);
    }
  }

  lemma LastYes(e: RunEnd, n: nat, after: RunEnd)
    requires n >= 2 && StandsAt(e, n, n - 1) && RoundTaken(e.state, e.nodes, 1, after)
    ensures var f := after.state.inference;
            |f.hypos| == 3 && f.hypos[1].postProb == f.hypos[2].postProb == PerMille(n, 2)
  {
    LastItemIsUp(e, n);
    YesLeavesTooMuch(e.state, e.nodes, n - 1, after);
  }

  lemma LastItemIsUp(e: RunEnd, n: nat)
    requires n >= 2 && StandsAt(e, n, n - 1)
    ensures var s := e.state;
            && s.rule == RULE && HypoIds(s.inference.hypos) == HYPOS && InferenceSound(s.inference)
            && s.evidence.queue != [] && ReadsAsDesigned(e.nodes, s.evidence.queue[0]) && Tied(s.inference, n - 1)
  {
    QueueOfItems(n, n - 1);
  }

  lemma YesLeavesTooMuch(s: CaseState, nodes: NodeMap, k: nat, after: RunEnd)
    requires k > 0 && s.rule == RULE && HypoIds(s.inference.hypos) == HYPOS && InferenceSound(s.inference)
    requires s.evidence.queue != [] && ReadsAsDesigned(nodes, s.evidence.queue[0]) && Tied(s.inference, k)
    requires RoundTaken(s, nodes, 1, after)
    ensures var f := after.state.inference;
            |f.hypos| == 3 && f.hypos[1].postProb == f.hypos[2].postProb == PerMille(k + 1, 2)
  {
    RoundInfers(s, nodes, 1, after);
    YesMakesTooMuch(s, nodes, k);
  }

  lemma YesMakesTooMuch(s: CaseState, nodes: NodeMap, k: nat)
    requires k > 0 && s.rule == RULE && HypoIds(s.inference.hypos) == HYPOS && InferenceSound(s.inference)
    requires s.evidence.queue != [] && ReadsAsDesigned(nodes, s.evidence.queue[0]) && Tied(s.inference, k)
    requires InferenceSound(InferredNext(s, nodes, 1))
    ensures var f := Updated(InferredNext(s, nodes, 1), false);
            |f.hypos| == 3 && f.hypos[1].postProb == f.hypos[2].postProb == PerMille(k + 1, 2)
  {
    ReadOff(s, nodes, s.evidence.queue[0]);
    YesIsNovel(s.inference, k);
    PosteriorsOver(InferredNext(s, nodes, 1));
  }

  lemma PosteriorsOver(p: Inference)
    requires InferenceSound(p) && !p.noEvidence && |p.hypos| == 3
    ensures var f := Updated(p, false);
            && |f.hypos| == 3 && f.hypos[1].postProb == PerMille(p.hypos[1].accumPost, p.sumAccum)
            && f.hypos[2].postProb == PerMille(p.hypos[2].accumPost, p.sumAccum)
  {
  }

  ghost predicate OnRule(history: seq<Teaching>, n: nat) {
    forall t :: t in history && t.rule == RULE ==> t.hypos == Range(HYPOS) && Range(Items(n)) <= t.status.Keys
  }

  /** The priors counted over the items: one for the design and one for each case explained. */
  lemma PriorOnFile(n: nat, history: seq<Teaching>, hypo: nat)
    requires n > 0 && AllWellFormed(history) && OnRule(history, n) && hypo in HYPOS
    ensures PriorCount(TaughtAll(Built(map[], RULE, HYPOS, Designed(n)), history), RULE, hypo, Items(n))
         == (n + 2) * (1 + TimesTrue(history, RULE, hypo))
  {
    ItemsAreNamed(n);
    PriorOnDesign(map[], RULE, HYPOS, Designed(n), history, hypo, Items(n));
  }

  lemma ScaledOnFile(n: nat, history: seq<Teaching>, hypos: seq<HypoTally>)
    requires n > 0 && AllWellFormed(history) && OnRule(history, n)
    requires HypoIds(hypos) == HYPOS && ScaledPriors(hypos, history, RULE, n + 2)
    ensures IsOnFile(hypos, TaughtAll(Built(map[], RULE, HYPOS, Designed(n)), history), Items(n))
  {
    var nodes := TaughtAll(Built(map[], RULE, HYPOS, Designed(n)), history);
    forall i | 0 <= i < |hypos|
      ensures hypos[i].priorCount == PriorCount(nodes, RULE, hypos[i].id, Items(n))
    {
      var id := HypoIds(hypos)[i];
      assert hypos[i].id == id && hypos[i].priorCount == (n + 2) * (1 + TimesTrue(history, RULE, id));
      PriorOnFile(n, history, id);
    }
  }

  lemma ThreeOnFile(n: nat, history: seq<Teaching>, a: nat, b: nat, c: nat)
    requires n > 0 && AllWellFormed(history) && OnRule(history, n)
    requires a == (n + 2) * (1 + TimesTrue(history, RULE, 1))
    requires b == (n + 2) * (1 + TimesTrue(history, RULE, 2))
    requires c == (n + 2) * (1 + TimesTrue(history, RULE, 3))
    ensures IsOnFile(FreshTallies(a, b, c), TaughtAll(Built(map[], RULE, HYPOS, Designed(n)), history), Items(n))
  {
    assert HypoIds(FreshTallies(a, b, c)) == HYPOS;
    ScaledOnFile(n, history, FreshTallies(a, b, c));
  }

  /** The second and third hypotheses each reported with a probability of `n` times 50%. */
  predicate BothAt(f: Inference, n: nat) {
    |f.hypos| == 3 && f.hypos[1].postProb == f.hypos[2].postProb == 500 * n
  }

  lemma RunToTooMuch(s: CaseState, nodes: NodeMap, n: nat) returns (e: RunEnd)
    requires 2 <= n <= MAX_HYPOS && Reads(nodes, n)
    requires AtMenu(s) && Tied(s.inference, 0) && s.evidence.queue == Items(n)
    ensures LeadsTo(s, nodes, Noes(n - 1) + [1] + [1], e) && BothAt(e.state.inference, n)
  {
    assert Items(n)[0..] == Items(n);
    var before := NoesRun(s, nodes, n, n - 1);
    e := RunOfRound(s, nodes, Noes(n - 1), before, 1);
    LastYes(before, n, e);
    HalfOfMany(n);
  }

  /** True of all tallies: it is named where `BeginsWith` is to be unfolded. */
  predicate Supplied(hypos: seq<HypoTally>) {
    true
  }

  /** The case that begins on a design and a history with the priors given, stated, too, so that
      those who only pass it on need not open it. */
  ghost predicate BeginsWith(s: CaseState, n: nat, history: seq<Teaching>, a: nat, b: nat, c: nat)
    requires AllWellFormed(history)
  {
    forall hypos {:trigger Supplied(hypos)} :: hypos == FreshTallies(a, b, c) ==>
      && Fresh(hypos, Items(n), a + b + c)
      && IsOnFile(hypos, TaughtAll(Built(map[], RULE, HYPOS, Designed(n)), history), Items(n))
      && Started(KnownBy(Designed(n)), RULE, true, hypos, Items(n), a + b + c) == Created(s)
  }

  lemma BeginsMeans(s: CaseState, n: nat, history: seq<Teaching>, a: nat, b: nat, c: nat)
    requires AllWellFormed(history)
    ensures BeginsWith(s, n, history, a, b, c) <==>
              && Fresh(FreshTallies(a, b, c), Items(n), a + b + c)
              && IsOnFile(FreshTallies(a, b, c), TaughtAll(Built(map[], RULE, HYPOS, Designed(n)), history), Items(n))
              && Started(KnownBy(Designed(n)), RULE, true, FreshTallies(a, b, c), Items(n), a + b + c) == Created(s)
  {
    assert Supplied(FreshTallies(a, b, c));
  }

  lemma UntaughtOnFile(n: nat)
    requires n > 0
    ensures IsOnFile(FreshTallies(n + 2, n + 2, n + 2), TaughtAll(Built(map[], RULE, HYPOS, Designed(n)), []), Items(n))
  {
    assert forall h :: TimesTrue([], RULE, h) == 0;
    ThreeOnFile(n, [], n + 2, n + 2, n + 2);
  }

  lemma NoThirdPastCutOff(n: nat)
    requires n > 0
    ensures !SomePastCutOff(PerMilles([n, n, n], 3 * n))
  {
    ThirdIsSmall(n);
    assert forall i :: 0 <= i < 3 ==> [n, n, n][i] == n;
  }

  lemma BeginsOnFile(n: nat, history: seq<Teaching>, a: nat, b: nat, c: nat) returns (s: CaseState)
    requires 0 < n <= MAX_HYPOS && 0 < a + b + c <= 1000 * a && AllWellFormed(history)
    requires IsOnFile(FreshTallies(a, b, c), TaughtAll(Built(map[], RULE, HYPOS, Designed(n)), history), Items(n))
    ensures BeginsWith(s, n, history, a, b, c)
    ensures AtMenu(s) && s.evidence.queue == Items(n) && NothingInferred(s.inference)
    ensures HasMaximalCount(HYPOS, [a, b, c], s.inference.mapp)
    ensures s.inference.mappAt100pct <==> SomePastCutOff(PerMilles([a, b, c], a + b + c))
  {
    ItemsAreDistinct(n);
    s := BegunAtMenu(a, b, c, Items(n));
    ItemsAreNamed(n);
    HyposAreNamed(n);
    BeginsMeans(s, n, history, a, b, c);
  }

  lemma NothingIsTied(f: Inference)
    requires NothingInferred(f) && HypoIds(f.hypos) == HYPOS && !f.mappAt100pct
    ensures Tied(f, 0)
  {
  }

  lemma BeginsUntaught(n: nat) returns (s: CaseState)
    requires 0 < n <= MAX_HYPOS
    ensures BeginsWith(s, n, [], n + 2, n + 2, n + 2)
    ensures AtMenu(s) && Tied(s.inference, 0) && s.evidence.queue == Items(n)
  {
    UntaughtOnFile(n);
    NoThirdPastCutOff(n + 2);
    s := BeginsOnFile(n, [], n + 2, n + 2, n + 2);
    NothingIsTied(s.inference);
  }

  lemma HalfOfMany(n: nat)
    requires n <= MAX_HYPOS
    ensures PerMille(n, 2) == 500 * n
  {
  }

  /** Posteriors are no probabilities where a novel value comes after others.  On a rule never
      taught anything, with `n` items that speak for the first of its three hypotheses and one
      for each of the others, a user finds all of those n but the last false and the last true:
      the two other hypotheses are then each reported with a probability of n times 50%. */
  lemma PosteriorsCanExceedOne(n: nat) returns (s: CaseState, e: RunEnd)
    requires 2 <= n <= MAX_HYPOS
    ensures BeginsWith(s, n, [], n + 2, n + 2, n + 2)
    ensures Sound(s) && NonNegative(Built(map[], RULE, HYPOS, Designed(n)))
    ensures LeadsTo(s, Built(map[], RULE, HYPOS, Designed(n)), Noes(n - 1) + [1] + [1], e)
    ensures BothAt(e.state.inference, n)
  {
    DesignIsInOrder(n);
    s := BeginsUntaught(n);
    e := RunToTooMuch(s, Built(map[], RULE, HYPOS, Designed(n)), n);
  }

  // ----- A run to a dead solution -----

  /** A verified case of the rule in which no item was evaluated. */
  function Unasked(trueHypo: nat): Teaching {
    Teaching(RULE, Range(HYPOS), map[1 := ROW_UNEVALUATED, 901 := ROW_UNEVALUATED, 902 := ROW_UNEVALUATED], trueHypo)
  }

  /** Of 997 cases 994 had the first hypothesis for a cause, two the second, one the third. */
  function Past(n: nat): (history: seq<Teaching>)
    ensures |history| == n
    ensures forall i :: 0 <= i < n ==> history[i] == Unasked(if i < 994 then 1 else if i < 996 then 2 else 3)
  {
    seq(n, i => Unasked(if i < 994 then 1 else if i < 996 then 2 else 3))
  }

  lemma {:induction false} PastCounts(n: nat)
    requires n <= 997
    ensures TimesTrue(Past(n), RULE, 1) == (if n < 994 then n else 994)
    ensures TimesTrue(Past(n), RULE, 2) == (if n < 994 then 0 else if n < 996 then n - 994 else 2)
    ensures TimesTrue(Past(n), RULE, 3) == (if n < 996 then 0 else n - 996)
  {
    if n > 0 {
      PastCounts(n - 1);
      assert Past(n)[..n - 1] == Past(n - 1);
    }
  }

  lemma PastIsOnRule(n: nat)
    ensures AllWellFormed(Past(n)) && OnRule(Past(n), 1)
  {
    assert HYPOS[0] == 1 && HYPOS[1] == 2 && HYPOS[2] == 3;
    forall i | 0 <= i < n
      ensures WellFormed(Past(n)[i])
    {
      assert Past(n)[i].trueHypo in HYPOS;
    }
    assert Items(1) == [1, 901, 902] && Range(Items(1)) == {1, 901, 902};
  }

  /** Counts of cases that left the item unevaluated are in a row of their own. */
  lemma UnaskedReads(nodes: NodeMap, h: nat)
    requires h in HYPOS && Reads(nodes, 1)
    ensures WellFormed(Unasked(h)) && Reads(Taught(nodes, Unasked(h)), 1)
  {
    var after := Taught(nodes, Unasked(h));
    assert HYPOS[0] == 1 && HYPOS[1] == 2 && HYPOS[2] == 3;
    TaughtNonNegative(nodes, Unasked(h));
    forall g | g in HYPOS
      ensures At(after, NodeKey(RULE, g, 1)).trues[..2] == At(nodes, NodeKey(RULE, g, 1)).trues[..2]
      ensures At(after, NodeKey(RULE, g, 1)).falses[..2] == At(nodes, NodeKey(RULE, g, 1)).falses[..2]
    {
      assert NodeKey(RULE, g, 1) in CaseKeys(Unasked(h));
    }
    assert ReadsAsDesigned(nodes, 1);
  }

  lemma {:induction false} PastReads(nodes: NodeMap, n: nat)
    requires Reads(nodes, 1)
    ensures AllWellFormed(Past(n)) && Reads(TaughtAll(nodes, Past(n)), 1)
  {
    PastIsOnRule(n);
    if n > 0 {
      PastReads(nodes, n - 1);
      assert Past(n)[..n - 1] == Past(n - 1);
      var last := Past(n)[n - 1].trueHypo;
      assert last == HYPOS[0] || last == HYPOS[1] || last == HYPOS[2];
      UnaskedReads(TaughtAll(nodes, Past(n - 1)), last);
    }
  }

  /** The case begun: its first hypothesis at 99.5%. */
  ghost predicate NearlySolved(s: CaseState) {
    && AtMenu(s) && s.evidence.queue == [1, 901, 902] && s.inference.mappAt100pct && s.inference.mapp == 1
    && forall h :: h in s.inference.hypos ==> h.status == STATUS_OPEN && h.accumPost == 0
  }

  lemma MostIsFirst(id: nat)
    requires HasMaximalCount(HYPOS, [2985, 9, 6], id)
    ensures id == 1 && SomePastCutOff(PerMilles([2985, 9, 6], 3000))
  {
    assert [2985, 9, 6][0] == 2985;
    assert PerMilles([2985, 9, 6], 3000)[0] == PerMille(2985, 3000) == 995;
  }

  /** The item found false: the one at 99.5% is ruled out, and the others are tied. */
  lemma NoKillsSolution(s: CaseState, nodes: NodeMap, after: RunEnd)
    requires NearlySolved(s) && Reads(nodes, 1) && RoundTaken(s, nodes, 0, after)
    ensures after.state.inference.mapp == 1 && !IsAliveIn(after.state.inference.hypos, 1)
    ensures after.state.prompt == Asking(MappAt100Percent, OPTIONS_MENU)
  {
    var p := InferredNext(s, nodes, 0);
    assert RoundLeaves(s, nodes, 0, after);
    assert ReadsAsDesigned(nodes, 1);
    ReadOff(s, nodes, 1);
    FoundFalse(s.inference);
    UpdatedSound(p, false);
    var hypos := after.state.inference.hypos;
    assert HypoIds(hypos)[0] == 1;
    AliveById(hypos, 0);
  }

  /** A case goes on offering what it has ruled out.  On a rule with an item that speaks for each
      of its three hypotheses, taught by 997 cases that left them all unevaluated, 994 of these
      explained by the first hypothesis, a user finds its item false: the hypothesis is ruled
      out, and is still what the case has to offer, at 100%. */
  lemma SolutionCanDie() returns (s: CaseState, e: RunEnd)
    ensures AllWellFormed(Past(997)) && BeginsWith(s, 1, Past(997), 2985, 9, 6)
    ensures Sound(s) && NonNegative(TaughtAll(Built(map[], RULE, HYPOS, Designed(1)), Past(997)))
    ensures LeadsTo(s, TaughtAll(Built(map[], RULE, HYPOS, Designed(1)), Past(997)), [] + [1] + [0], e)
    ensures e.state.prompt == Asking(MappAt100Percent, OPTIONS_MENU)
    ensures !IsAliveIn(e.state.inference.hypos, e.state.inference.mapp)
  {
    var nodes := TaughtByPast(997);
    s := BeginsTaught(997);
    RunLeadsTo(s, nodes, [], RunEnd(s, nodes));
    e := RunOfRound(s, nodes, [], RunEnd(s, nodes), 0);
    NoKillsSolution(s, nodes, e);
  }

  lemma TaughtByPast(n: nat) returns (nodes: NodeMap)
    ensures AllWellFormed(Past(n)) && nodes == TaughtAll(Built(map[], RULE, HYPOS, Designed(1)), Past(n))
    ensures Reads(nodes, 1)
  {
    DesignIsInOrder(1);
    PastReads(Built(map[], RULE, HYPOS, Designed(1)), n);
    nodes := TaughtAll(Built(map[], RULE, HYPOS, Designed(1)), Past(n));
  }

  lemma BeginsTaught(n: nat) returns (s: CaseState)
    requires n == 997
    ensures AllWellFormed(Past(n)) && BeginsWith(s, 1, Past(n), 2985, 9, 6) && NearlySolved(s)
  {
    PastIsOnRule(n);
    PastCounts(n);
    ThreeOnFile(1, Past(n), 2985, 9, 6);
    s := BeginsOnFile(1, Past(n), 2985, 9, 6);
    MostIsFirst(s.inference.mapp);
    assert Items(1) == [1, 901, 902];
  }
}
