/** A run from the first day on in which a fault is reported as certain because its probability
    does not fit the type it is kept in. */
module CertaintyRun {
  import opened Nodes
  import opened Tallies
  import opened OccurrenceTable
  import opened Bayes
  import opened Dialogue
  import opened DialogueSafety
  import opened MostProbable
  import opened CaseCreation
  import opened DialogueRuns

  // ----- A rule with one hypothesis and two items -----

  const LONE: seq<nat> := [1]
  const LONE_ITEMS: seq<nat> := [1, 2]
  const LONE_DESIGN: seq<Association> := [Association(1, 1, true, true), Association(1, 2, true, true)]

  /** A verified case in which the first item was found true and the second was not evaluated. */
  function Solved(): Teaching {
    Teaching(RULE, {1}, map[1 := ROW_TRUE, 2 := ROW_UNEVALUATED], 1)
  }

  function SolvedOften(n: nat): (history: seq<Teaching>)
    ensures |history| == n && forall i :: 0 <= i < n ==> history[i] == Solved()
  {
    seq(n, i => Solved())
  }

  /** The first item has been true so often, and the second never been false. */
  ghost predicate ReadsLone(nodes: NodeMap, n: nat) {
    && NonNegative(nodes)
    && At(nodes, NodeKey(RULE, 1, 1)).trues[1] == n + 1 && At(nodes, NodeKey(RULE, 1, 1)).falses[1] == 0
    && At(nodes, NodeKey(RULE, 1, 2)).trues[0] == 0 && At(nodes, NodeKey(RULE, 1, 2)).falses[0] == 0
  }

  lemma LoneDesignReads()
    ensures ReadsLone(Built(map[], RULE, LONE, LONE_DESIGN), 0)
  {
    var first := [LONE_DESIGN[0]];
    assert LONE[0] == 1 && Range(LONE) == {1};
    assert LONE_DESIGN[..1] == first && first[..0] == [];
    assert Built(map[], RULE, LONE, LONE_DESIGN)
        == Initialized(Initialized(map[], RULE, LONE, LONE_DESIGN[0]), RULE, LONE, LONE_DESIGN[1]) by {
      assert Built(map[], RULE, LONE, first) == Initialized(Built(map[], RULE, LONE, []), RULE, LONE, first[0]);
    }
    assert forall e :: KeysAt(RULE, {1}, e) == {NodeKey(RULE, 1, e)};
  }

  lemma {:induction false} SolvedReads(nodes: NodeMap, n: nat)
    requires ReadsLone(nodes, 0)
    ensures AllWellFormed(SolvedOften(n)) && ReadsLone(TaughtAll(nodes, SolvedOften(n)), n)
    ensures TimesTrue(SolvedOften(n), RULE, 1) == n
  {
    if n > 0 {
      SolvedReads(nodes, n - 1);
      assert SolvedOften(n)[..n - 1] == SolvedOften(n - 1);
      var before := TaughtAll(nodes, SolvedOften(n - 1));
      TaughtNonNegative(before, Solved());
      assert NodeKey(RULE, 1, 1) in CaseKeys(Solved()) && NodeKey(RULE, 1, 2) in CaseKeys(Solved());
    }
  }

  /** The knowledge base after so many verified cases. */
  function LoneNodes(n: nat): NodeMap {
    TaughtAll(Built(map[], RULE, LONE, LONE_DESIGN), SolvedOften(n))
  }

  // ----- The case -----

  lemma LonePrior(n: nat)
    ensures AllWellFormed(SolvedOften(n)) && ReadsLone(LoneNodes(n), n)
    ensures PriorCount(LoneNodes(n), RULE, 1, LONE_ITEMS) == LonePriorOf(n)
  {
    LoneDesignReads();
    SolvedReads(Built(map[], RULE, LONE, LONE_DESIGN), n);
    assert LONE[0] == 1 && Range(LONE) == {1} && Range(LONE_ITEMS) == {1, 2};
    forall e | e in Range(LONE_ITEMS)
      ensures exists a :: a in LONE_DESIGN && a.evid == e
    {
      assert LONE_DESIGN[e - 1] in LONE_DESIGN && LONE_DESIGN[e - 1].evid == e;
    }
    PriorOnDesign(map[], RULE, LONE, LONE_DESIGN, SolvedOften(n), 1, LONE_ITEMS);
  }

  function LonePriorOf(n: nat): (p: nat)
    ensures p > 0
  {
    2 * (1 + n)
  }

  /** The case that begins on what is then on file. */
  ghost predicate BeginsLone(s: CaseState, n: nat) {
    forall hypos: seq<HypoTally> {:trigger Supplied(hypos)} :: hypos == [NewHypo(1, LonePriorOf(n))] ==>
      && Fresh(hypos, LONE_ITEMS, LonePriorOf(n))
      && AllWellFormed(SolvedOften(n)) && IsOnFile(hypos, LoneNodes(n), LONE_ITEMS)
      && Started(KnownBy(LONE_DESIGN), RULE, true, hypos, LONE_ITEMS, LonePriorOf(n)) == Created(s)
  }

  lemma LoneIsFresh(p: nat)
    ensures Fresh([NewHypo(1, p)], LONE_ITEMS, p) && HypoIds([NewHypo(1, p)]) == LONE
    ensures AllKnown(KnownBy(LONE_DESIGN), [NewHypo(1, p)], LONE_ITEMS)
  {
    var hypos := [NewHypo(1, p)];
    assert hypos[..0] == [] && HypoIds(hypos) == [1];
    assert LONE_DESIGN[0] in LONE_DESIGN && LONE_DESIGN[1] in LONE_DESIGN;
    assert Range(LONE_ITEMS) == {1, 2};
  }

  lemma LoneBegun(p: nat) returns (s: CaseState)
    requires p > 0
    ensures Started(KnownBy(LONE_DESIGN), RULE, true, [NewHypo(1, p)], LONE_ITEMS, p) == Created(s)
    ensures MayAsk(s) && !s.spent && s.rule == RULE && s.evidence.queue == LONE_ITEMS && IsLone(s.inference, 0)
  {
    var hypos := [NewHypo(1, p)];
    LoneIsFresh(p);
    CreatedIff(KnownBy(LONE_DESIGN), RULE, true, hypos, LONE_ITEMS, p);
    s := Begun(RULE, true, hypos, LONE_ITEMS, p).state;
    assert HypoIds(s.inference.hypos)[0] == 1;
  }

  lemma LoneOnFile(n: nat)
    ensures AllWellFormed(SolvedOften(n))
    ensures IsOnFile([NewHypo(1, LonePriorOf(n))], LoneNodes(n), LONE_ITEMS)
  {
    LonePrior(n);
  }

  lemma LoneBegins(n: nat) returns (s: CaseState)
    ensures BeginsLone(s, n)
    ensures MayAsk(s) && !s.spent && s.rule == RULE && s.evidence.queue == LONE_ITEMS && IsLone(s.inference, 0)
  {
    s := LoneBegun(LonePriorOf(n));
    LoneIsFresh(LonePriorOf(n));
    LoneOnFile(n);
  }

  /** Its one hypothesis alive with so many counts. */
  ghost predicate IsLone(f: Inference, k: nat) {
    InferenceSound(f) && |f.hypos| == 1 && f.hypos[0].id == 1 && Alive(f.hypos[0]) && f.hypos[0].accumPost == k
  }

  lemma LoneReads(s: CaseState, nodes: NodeMap, n: nat, k: nat)
    requires IsLone(s.inference, k) && s.rule == RULE && ReadsLone(nodes, n)
    ensures TruesAt(s.inference.hypos, nodes, RULE, 1, 1) == [n + 1]
    ensures FalsesAt(s.inference.hypos, nodes, RULE, 1, 1) == [0]
    ensures TruesAt(s.inference.hypos, nodes, RULE, 2, 0) == [0]
    ensures FalsesAt(s.inference.hypos, nodes, RULE, 2, 0) == [0]
  {
  }

  lemma LoneWeight(hypos: seq<HypoTally>, c: int)
    requires |hypos| == 1 && Alive(hypos[0])
    ensures Weight(hypos, [c], 1) == c
  {
    assert Weight(hypos, [c], 0) == 0;
  }

  /** A value it explains every time makes it certain. */
  lemma TrueIsDecisive(f: Inference, n: nat)
    requires IsLone(f, 0)
    ensures var p := EvidenceApplied(f, [n + 1], [0]);
            InferenceSound(p) ==> IsLone(Updated(p, false), n + 1) && Updated(p, false).mappAt100pct
  {
    LoneWeight(f.hypos, n + 1);
    assert IsDecisive(f.hypos, [n + 1], 0);
    var p := EvidenceApplied(f, [n + 1], [0]);
    if InferenceSound(p) {
      UpdatedByScan(p);
      UpdatedSound(p, false);
      var g := Updated(p, false);
      assert HypoIds(g.hypos)[0] == 1 && Accums(g.hypos)[0] == n + 1;
      assert AliveCount(g.hypos[..0]) == 0;
    }
  }

  /** A novel one adds one count, and divides by one. */
  lemma NovelToLone(f: Inference, k: nat)
    requires IsLone(f, k)
    ensures var p := EvidenceApplied(f, [0], [0]);
            InferenceSound(p) ==> PostProbs(Updated(p, false).hypos) == [PerMille(k + 1, 1)]
  {
    LoneWeight(f.hypos, 0);
    assert IsNovel(f.hypos, [0]);
    assert AliveCount(f.hypos[..0]) == 0 && AliveCount(f.hypos) == 1;
    var p := EvidenceApplied(f, [0], [0]);
    if InferenceSound(p) {
      assert Accums(p.hypos) == [k + 1] && p.sumAccum == 1;
      UpdatedByScan(p);
    }
  }

  // ----- The run -----

  /** Where the run stands between two answers. */
  ghost predicate Stands(e: RunEnd, n: nat, k: nat, handler: Handler, queue: seq<nat>) {
    && Sound(e.state) && !e.state.verified && e.state.rule == RULE && e.state.prompt.waiting
    && e.state.prompt.handler == handler && e.state.evidence.queue == queue
    && !e.state.spent && IsLone(e.state.inference, k) && ReadsLone(e.nodes, n)
  }

  lemma Onward(s: CaseState, nodes: NodeMap, answers: seq<nat>, e: RunEnd, a: nat) returns (after: RunEnd)
    requires Sound(s) && NonNegative(nodes) && LeadsTo(s, nodes, answers, e) && Sound(e.state) && NonNegative(e.nodes)
    ensures LeadsTo(s, nodes, answers + [a], after)
    ensures after == RunEnd(Step(e.state, e.nodes, a).state, Step(e.state, e.nodes, a).nodes)
  {
    RunLeadsTo(s, nodes, answers, e);
    RunOnce(s, nodes, answers, a);
    after := RunEnd(Step(e.state, e.nodes, a).state, Step(e.state, e.nodes, a).nodes);
    RunLeadsTo(s, nodes, answers + [a], after);
  }

  lemma AsksNext(e: RunEnd, n: nat, k: nat, queue: seq<nat>)
    requires queue != [] && Stands(e, n, k, TopMenuCaseInProcess, queue)
    ensures var o := Step(e.state, e.nodes, 1);
            && Stands(RunEnd(o.state, o.nodes), n, k, EvaluatePromptedEvidenceQuery, queue[1..])
            && o.state.evidence.up == queue[0]
  {
    Asks(e.state, e.nodes);
  }

  lemma FindsTrue(e: RunEnd, n: nat)
    requires Stands(e, n, 0, EvaluatePromptedEvidenceQuery, [2]) && e.state.evidence.up == 1
    ensures var o := Step(e.state, e.nodes, 1);
            Stands(RunEnd(o.state, o.nodes), n, n + 1, MappAt100Percent, [2])
  {
    var s := e.state;
    Answers(s, e.nodes, 1);
    InferredIsUpdated(s, e.nodes, 1);
    LoneReads(s, e.nodes, n, 0);
    TrueIsDecisive(s.inference, n);
    var o := Step(s, e.nodes, 1);
    assert forall k :: At(o.nodes, k) == At(e.nodes, k);
  }

  lemma DoubtsIt(e: RunEnd, n: nat, k: nat, queue: seq<nat>)
    requires Stands(e, n, k, MappAt100Percent, queue)
    ensures var o := Step(e.state, e.nodes, 1);
            Stands(RunEnd(o.state, o.nodes), n, k, IsMappHypoCorrect, queue)
  {
    StepIs(e.state, e.nodes, 1);
    EveryStepIsGood(e.state, e.nodes, 1);
  }

  lemma BacksOut(e: RunEnd, n: nat, k: nat, queue: seq<nat>)
    requires Stands(e, n, k, IsMappHypoCorrect, queue)
    ensures var o := Step(e.state, e.nodes, 2);
            Stands(RunEnd(o.state, o.nodes), n, k, TopMenuCaseInProcess, queue)
  {
    StepIs(e.state, e.nodes, 2);
    EveryStepIsGood(e.state, e.nodes, 2);
  }

  lemma FindsNovel(e: RunEnd, n: nat, k: nat)
    requires Stands(e, n, k, EvaluatePromptedEvidenceQuery, []) && e.state.evidence.up == 2
    ensures PostProbs(Step(e.state, e.nodes, 0).state.inference.hypos) == [PerMille(k + 1, 1)]
  {
    var s := e.state;
    Answers(s, e.nodes, 0);
    InferredIsUpdated(s, e.nodes, 0);
    LoneReads(s, e.nodes, n, k);
    NovelToLone(s.inference, k);
  }

  /** The first item asked for and found true. */
  lemma SolvesAgain(s: CaseState, nodes: NodeMap, n: nat) returns (e: RunEnd)
    requires Stands(RunEnd(s, nodes), n, 0, TopMenuCaseInProcess, LONE_ITEMS)
    ensures LeadsTo(s, nodes, [] + [1] + [1], e) && Stands(e, n, n + 1, MappAt100Percent, [2])
  {
    var start := RunEnd(s, nodes);
    RunLeadsTo(s, nodes, [], start);
    AsksNext(start, n, 0, LONE_ITEMS);
    assert LONE_ITEMS[1..] == [2];
    e := Onward(s, nodes, [], start, 1);
    FindsTrue(e, n);
    e := Onward(s, nodes, [] + [1], e, 1);
  }

  /** The solution neither confirmed nor rejected, and the second item asked for. */
  lemma AsksOn(s: CaseState, nodes: NodeMap, answers: seq<nat>, before: RunEnd, n: nat, k: nat) returns (e: RunEnd)
    requires Sound(s) && NonNegative(nodes) && LeadsTo(s, nodes, answers, before)
    requires Stands(before, n, k, MappAt100Percent, [2])
    ensures LeadsTo(s, nodes, answers + [1] + [2] + [1], e)
    ensures Stands(e, n, k, EvaluatePromptedEvidenceQuery, []) && e.state.evidence.up == 2
  {
    DoubtsIt(before, n, k, [2]);
    e := Onward(s, nodes, answers, before, 1);
    BacksOut(e, n, k, [2]);
    e := Onward(s, nodes, answers + [1], e, 2);
    AsksNext(e, n, k, [2]);
    assert [2][1..] == [];
    e := Onward(s, nodes, answers + [1] + [2], e, 1);
  }

  /** Of the rule's one hypothesis two items speak.  So many cases have been verified in which the
      first was true and the second not evaluated; in the next the first is true again, and the
      second found false, which it never was: the hypothesis is reported with all its counts over
      one, in 16 bits. */
  lemma CountsOverOne(n: nat) returns (s: CaseState, e: RunEnd)
    ensures BeginsLone(s, n) && AllWellFormed(SolvedOften(n))
    ensures Sound(s) && NonNegative(LoneNodes(n))
    ensures LeadsTo(s, LoneNodes(n), [] + [1] + [1] + [1] + [2] + [1] + [0], e)
    ensures PostProbs(e.state.inference.hypos) == [PerMille(n + 2, 1)]
  {
    s := LoneBegins(n);
    LonePrior(n);
    var solved := SolvesAgain(s, LoneNodes(n), n);
    var asked := AsksOn(s, LoneNodes(n), [] + [1] + [1], solved, n, n + 1);
    FindsNovel(asked, n, n + 1);
    e := Onward(s, LoneNodes(n), [] + [1] + [1] + [1] + [2] + [1], asked, 0);
  }

  /** After 8191 cases its 819300% come out as 100%. */
  lemma TooMuchIsReportedCertain() returns (s: CaseState, e: RunEnd)
    ensures BeginsLone(s, 8191) && AllWellFormed(SolvedOften(8191))
    ensures Sound(s) && NonNegative(LoneNodes(8191))
    ensures LeadsTo(s, LoneNodes(8191), [] + [1] + [1] + [1] + [2] + [1] + [0], e)
    ensures PostProbs(e.state.inference.hypos) == [1000]
  {
    s, e := CountsOverOne(8191);
    assert PerMille(8193, 1) == 1000;
  }
}
