/** A diagnostic case as an object: its tallies, registers and flags are updated in place,
    and the tables it reads and teaches belong to the knowledge base object.  Each method
    is proved to do what its step of the dialogue says. */
module Cases {
  import opened Nodes
  import opened Tallies
  import opened OccurrenceTable
  import opened Bayes
  import opened Dialogue
  import opened DialogueSafety
  import opened CaseCreation
  import opened GroupNames
  import opened KnowBase
  import opened Rules
  import KnowledgeLife

  datatype Fault = NoFault | IdNotNamed | DividedByZero | LookUpFailed

  // ----- Tables touched and taught, node by node -----

  lemma TouchedMore(nodes: NodeMap, keys: set<NodeKey>, key: NodeKey)
    ensures Touched(Touched(nodes, keys), {key}) == Touched(nodes, keys + {key})
  {
  }

  lemma TouchedNone(nodes: NodeMap)
    ensures Touched(nodes, {}) == nodes
  {
  }

  lemma NodesVisitedOneMore(hypos: seq<HypoTally>, rule: nat, evid: nat, i: nat)
    requires i < |hypos|
    ensures NodesVisited(hypos[..i + 1], rule, evid)
         == NodesVisited(hypos[..i], rule, evid)
            + (if Alive(hypos[i]) then {NodeKey(rule, hypos[i].id, evid)} else {})
    ensures Alive(hypos[i]) ==> NodeKey(rule, hypos[i].id, evid) in NodesVisited(hypos, rule, evid)
  {
    var more, some := hypos[..i + 1], hypos[..i];
    forall k | k in NodesVisited(more, rule, evid)
      ensures k in NodesVisited(some, rule, evid) || (Alive(hypos[i]) && k == NodeKey(rule, hypos[i].id, evid))
    {
      var j :| 0 <= j < |more| && Alive(more[j]) && k == NodeKey(rule, more[j].id, evid);
      assert j < i ==> some[j] == more[j];
    }
    forall k | k in NodesVisited(some, rule, evid)
      ensures k in NodesVisited(more, rule, evid)
    {
      var j :| 0 <= j < |some| && Alive(some[j]) && k == NodeKey(rule, some[j].id, evid);
      assert more[j] == some[j];
    }
    assert more[i] == hypos[i];
  }

  /** The tables after each of the live hypotheses in turn has been visited. */
  ghost predicate AreVisits(nodes: NodeMap, hypos: seq<HypoTally>, rule: nat, evid: nat, visits: seq<NodeMap>) {
    && |visits| == |hypos| + 1
    && forall i {:trigger hypos[..i]} ::
         0 <= i < |visits| ==> visits[i] == Touched(nodes, NodesVisited(hypos[..i], rule, evid))
  }

  ghost function VisitsOf(nodes: NodeMap, hypos: seq<HypoTally>, rule: nat, evid: nat): (visits: seq<NodeMap>)
    ensures AreVisits(nodes, hypos, rule, evid, visits)
  {
    seq(|hypos| + 1, i requires 0 <= i <= |hypos| => Touched(nodes, NodesVisited(hypos[..i], rule, evid)))
  }

  lemma VisitsStartAndEnd(nodes: NodeMap, hypos: seq<HypoTally>, rule: nat, evid: nat, visits: seq<NodeMap>)
    requires AreVisits(nodes, hypos, rule, evid, visits)
    ensures visits[0] == nodes && visits[|hypos|] == Touched(nodes, NodesVisited(hypos, rule, evid))
  {
    TouchedNone(nodes);
    assert NodesVisited(hypos[..0], rule, evid) == {};
    assert hypos[..|hypos|] == hypos;
  }

  lemma NextVisit(nodes: NodeMap, hypos: seq<HypoTally>, rule: nat, evid: nat, visits: seq<NodeMap>, i: nat)
    requires AreVisits(nodes, hypos, rule, evid, visits) && i < |hypos|
    ensures visits[i + 1]
         == if Alive(hypos[i]) then Touched(visits[i], {NodeKey(rule, hypos[i].id, evid)}) else visits[i]
    ensures At(visits[i], NodeKey(rule, hypos[i].id, evid)) == At(nodes, NodeKey(rule, hypos[i].id, evid))
  {
    NodesVisitedOneMore(hypos, rule, evid, i);
    TouchedMore(nodes, NodesVisited(hypos[..i], rule, evid), NodeKey(rule, hypos[i].id, evid));
  }

  ghost predicate DeadHaveNothing(hypos: seq<HypoTally>) {
    forall i :: 0 <= i < |hypos| && !Alive(hypos[i]) ==> hypos[i].accumPost == 0
  }

  /** The walk of the live hypotheses, from `p0`, after those before `i`: none was decisive. */
  ghost predicate Scored(hypos: seq<HypoTally>, trues: seq<int>, falses: seq<int>, p0: Posterior, i: nat, p: Posterior)
    requires |hypos| == |trues| == |falses| && i <= |hypos|
  {
    && p.hypos == Pass(hypos, trues, falses, i)
    && p.sumAccum == SumAccum(p.hypos[..i])
    && p.numAlive == p0.numAlive - NumKilled(hypos, trues, falses, i)
    && p.mapp == p0.mapp && p.mappAt100pct == p0.mappAt100pct
    && forall k: nat :: k < i ==> !IsDecisive(hypos, trues, k)
  }

  lemma NothingScored(hypos: seq<HypoTally>, trues: seq<int>, falses: seq<int>, p0: Posterior)
    requires |hypos| == |trues| == |falses| && p0.hypos == hypos && p0.sumAccum == 0
    ensures Scored(hypos, trues, falses, p0, 0, p0)
  {
  }

  lemma ScoredSoFar(hypos: seq<HypoTally>, trues: seq<int>, falses: seq<int>, p0: Posterior, i: nat, p: Posterior)
    requires |hypos| == |trues| == |falses| && i < |hypos| && Scored(hypos, trues, falses, p0, i, p)
    ensures |p.hypos| == |hypos| && p.hypos[i] == hypos[i] && HypoIds(p.hypos) == HypoIds(hypos)
  {
  }

  lemma ScoredOneMore(hypos: seq<HypoTally>, trues: seq<int>, falses: seq<int>, p0: Posterior, i: nat,
                      p: Posterior, q: Posterior)
    requires |hypos| == |trues| == |falses| && i < |hypos| == |p.hypos| && Scored(hypos, trues, falses, p0, i, p)
    requires DeadHaveNothing(hypos) && !IsDecisive(hypos, trues, i)
    requires q.hypos == p.hypos[i := Weighed(hypos[i], trues[i], falses[i])]
    requires q.sumAccum == p.sumAccum + q.hypos[i].accumPost
    requires q.numAlive == p.numAlive - (if Kills(hypos[i], trues[i], falses[i]) then 1 else 0)
    requires q.mapp == p.mapp && q.mappAt100pct == p.mappAt100pct
    ensures Scored(hypos, trues, falses, p0, i + 1, q) && HypoIds(q.hypos) == HypoIds(hypos)
  {
    assert q.hypos == Pass(hypos, trues, falses, i + 1);
    assert q.hypos[..i + 1][..i] == p.hypos[..i];
  }

  lemma ScoredCrowned(hypos: seq<HypoTally>, trues: seq<int>, falses: seq<int>, p0: Posterior, d: nat, p: Posterior)
    requires |hypos| == |trues| == |falses| && d < |hypos| && Scored(hypos, trues, falses, p0, d, p)
    requires IsDecisive(hypos, trues, d)
    ensures Applied(hypos, trues, falses, p0.numAlive, p0.mapp, p0.mappAt100pct)
         == var crowned := Crowned(p.hypos, d, trues[d], |hypos|);
            Posterior(crowned, crowned[d].accumPost, p.numAlive, hypos[d].id, true)
  {
    assert FirstDecisive(hypos, trues, 0) == d;
  }

  lemma ScoredAll(hypos: seq<HypoTally>, trues: seq<int>, falses: seq<int>, p0: Posterior, p: Posterior)
    requires |hypos| == |trues| == |falses| && Scored(hypos, trues, falses, p0, |hypos|, p)
    requires !IsNovel(hypos, trues)
    ensures Applied(hypos, trues, falses, p0.numAlive, p0.mapp, p0.mappAt100pct) == p
  {
    assert p.hypos[..|hypos|] == p.hypos;
    assert FirstDecisive(hypos, trues, 0) == |hypos|;
  }

  ghost predicate CountsOnFile(nodes: NodeMap, key: NodeKey, row: nat, countTrue: int, countFalse: int)
    requires row < NUM_ROWS
  {
    key in nodes && countTrue == nodes[key].trues[row] && countFalse == nodes[key].falses[row]
  }

  ghost predicate AllCountsOnFile(nodes: NodeMap, hypos: seq<HypoTally>, rule: nat, evid: nat, row: nat,
                                  trues: seq<int>, falses: seq<int>)
    requires row < NUM_ROWS && |hypos| == |trues| == |falses|
  {
    forall i :: 0 <= i < |hypos| && Alive(hypos[i]) ==>
      CountsOnFile(nodes, NodeKey(rule, hypos[i].id, evid), row, trues[i], falses[i])
  }

  lemma CountsTouched(nodes: NodeMap, hypos: seq<HypoTally>, rule: nat, evid: nat, row: nat)
    requires row < NUM_ROWS
    ensures AllCountsOnFile(Touched(nodes, NodesVisited(hypos, rule, evid)), hypos, rule, evid, row,
                            TruesAt(hypos, nodes, rule, evid, row), FalsesAt(hypos, nodes, rule, evid, row))
  {
    var after := Touched(nodes, NodesVisited(hypos, rule, evid));
    forall i | 0 <= i < |hypos| && Alive(hypos[i])
      ensures CountsOnFile(after, NodeKey(rule, hypos[i].id, evid), row,
                           TruesAt(hypos, nodes, rule, evid, row)[i], FalsesAt(hypos, nodes, rule, evid, row)[i])
    {
      assert At(after, NodeKey(rule, hypos[i].id, evid)) == At(nodes, NodeKey(rule, hypos[i].id, evid));
    }
  }

  function CountsOf(hypos: seq<HypoTally>, noEvidence: bool): (r: seq<int>)
    ensures |r| == |hypos|
  {
    seq(|hypos|, i requires 0 <= i < |hypos| => if noEvidence then hypos[i].priorCount else hypos[i].accumPost)
  }

  /** The tallies before `upTo` with their probabilities. */
  function RatedUpTo(f: Inference, upTo: nat): (r: seq<HypoTally>)
    requires Divisor(f) > 0 && upTo <= |f.hypos|
    ensures |r| == |f.hypos|
  {
    WithProbs(f.hypos, f.noEvidence, Divisor(f))[..upTo] + f.hypos[upTo..]
  }

  /** The scan of them. */
  function ScanUpTo(f: Inference, upTo: nat): Scan
    requires Divisor(f) > 0 && upTo <= |f.hypos|
  {
    Scanned(HypoIds(f.hypos), Counts(f), PerMilles(Counts(f), Divisor(f)), f.mapp, f.mappAt100pct, upTo)
  }

  /** The tallies and the registers of the scan, after some of the hypotheses. */
  datatype Walked = Walked(hypos: seq<HypoTally>, scan: Scan)

  ghost predicate IsWalk(f: Inference, walk: seq<Walked>)
    requires Divisor(f) > 0
  {
    && |walk| == |f.hypos| + 1
    && forall i {:trigger RatedUpTo(f, i)} {:trigger ScanUpTo(f, i)} ::
         0 <= i < |walk| ==> walk[i] == Walked(RatedUpTo(f, i), ScanUpTo(f, i))
  }

  ghost function WalkOf(f: Inference): (walk: seq<Walked>)
    requires Divisor(f) > 0
    ensures IsWalk(f, walk)
  {
    seq(|f.hypos| + 1, i requires 0 <= i <= |f.hypos| => Walked(RatedUpTo(f, i), ScanUpTo(f, i)))
  }

  lemma WalkStarts(f: Inference, walk: seq<Walked>)
    requires Divisor(f) > 0 && IsWalk(f, walk)
    ensures walk[0] == Walked(f.hypos, Scan(f.mapp, 0, f.mappAt100pct, false))
  {
    RatedAll(f);
    assert walk[0].scan == ScanUpTo(f, 0);
  }

  /** No step loses a hypothesis; a failed look-up ends the walk. */
  lemma WalkSteps(f: Inference, walk: seq<Walked>, i: nat)
    requires Divisor(f) > 0 && IsWalk(f, walk) && i < |f.hypos|
    ensures |walk[i + 1].hypos| == |f.hypos|
    ensures walk[i + 1].scan.threw ==> walk[|f.hypos|].scan.threw
  {
    assert walk[i + 1] == Walked(RatedUpTo(f, i + 1), ScanUpTo(f, i + 1));
    assert walk[|f.hypos|].scan == ScanUpTo(f, |f.hypos|);
    if walk[i + 1].scan.threw {
      ThrewStays(HypoIds(f.hypos), Counts(f), PerMilles(Counts(f), Divisor(f)), f.mapp, f.mappAt100pct,
                 i + 1, |f.hypos|);
    }
  }

  lemma RatedOneMore(f: Inference, i: nat)
    requires Divisor(f) > 0 && i < |f.hypos|
    ensures var some := RatedUpTo(f, i);
            && RatedUpTo(f, i + 1) == some[i := WithProbs(some, f.noEvidence, Divisor(f))[i]]
            && HypoIds(some) == HypoIds(f.hypos) && CountsOf(some, f.noEvidence) == Counts(f)
  {
    RatedElements(f, i);
    RatedElements(f, i + 1);
  }

  lemma RatedElements(f: Inference, i: nat)
    requires Divisor(f) > 0 && i <= |f.hypos|
    ensures forall j :: 0 <= j < |f.hypos| ==>
              RatedUpTo(f, i)[j] == if j < i then WithProbs(f.hypos, f.noEvidence, Divisor(f))[j] else f.hypos[j]
  {
  }

  lemma RatedAll(f: Inference)
    requires Divisor(f) > 0
    ensures RatedUpTo(f, 0) == f.hypos
    ensures RatedUpTo(f, |f.hypos|) == WithProbs(f.hypos, f.noEvidence, Divisor(f))
  {
  }

  ghost predicate Teachable(keys: set<NodeKey>, status: map<nat, nat>) {
    forall k :: k in keys ==> k.evid in status && status[k.evid] < NUM_ROWS
  }

  /** One count added at each of the given nodes. */
  function BumpedAt(nodes: NodeMap, keys: set<NodeKey>, status: map<nat, nat>, trueHypo: nat): NodeMap
    requires Teachable(keys, status)
  {
    map k | k in nodes.Keys + keys ::
      if k in keys then Bumped(At(nodes, k), status[k.evid], k.hypo == trueHypo) else nodes[k]
  }

  lemma BumpedNowhere(nodes: NodeMap, status: map<nat, nat>, trueHypo: nat)
    ensures BumpedAt(nodes, {}, status, trueHypo) == nodes
  {
  }

  lemma BumpedOnceMore(nodes: NodeMap, keys: set<NodeKey>, status: map<nat, nat>, trueHypo: nat, key: NodeKey)
    requires Teachable(keys + {key}, status) && key !in keys
    ensures Teachable(keys, status)
    ensures var before := BumpedAt(nodes, keys, status, trueHypo);
            BumpedAt(nodes, keys + {key}, status, trueHypo)
            == before[key := Bumped(At(before, key), status[key.evid], key.hypo == trueHypo)]
  {
    assert forall k :: k in keys ==> k in keys + {key};
  }

  predicate RowsKnown(status: map<nat, nat>) {
    forall e :: e in status ==> status[e] < NUM_ROWS
  }

  function KeysOfCase(rule: nat, hypos: seq<nat>, evids: seq<nat>): set<NodeKey> {
    set h, e | h in hypos && e in evids :: NodeKey(rule, h, e)
  }

  lemma KeysOfHypoOneMore(rule: nat, hypo: nat, evids: seq<nat>, i: nat)
    requires Distinct(evids) && i < |evids|
    ensures KeysOfHypo(rule, hypo, evids[..i + 1])
         == KeysOfHypo(rule, hypo, evids[..i]) + {NodeKey(rule, hypo, evids[i])}
    ensures NodeKey(rule, hypo, evids[i]) !in KeysOfHypo(rule, hypo, evids[..i])
  {
    assert evids[..i + 1] == evids[..i] + [evids[i]];
  }

  ghost predicate Apart(keys: set<NodeKey>, hypo: nat, status: map<nat, nat>) {
    forall k :: k in keys ==> k.hypo != hypo && k.evid in status
  }

  lemma TeachesOneMore(nodes: NodeMap, keys: set<NodeKey>, status: map<nat, nat>, trueHypo: nat,
                       rule: nat, hypo: nat, evids: seq<nat>, i: nat)
    requires Distinct(evids) && i < |evids| && evids[i] in status && RowsKnown(status) && Apart(keys, hypo, status)
    requires Teachable(keys + KeysOfHypo(rule, hypo, evids[..i]), status)
    ensures var more := keys + KeysOfHypo(rule, hypo, evids[..i + 1]);
            var before := BumpedAt(nodes, keys + KeysOfHypo(rule, hypo, evids[..i]), status, trueHypo);
            var key := NodeKey(rule, hypo, evids[i]);
            && Teachable(more, status)
            && BumpedAt(nodes, more, status, trueHypo)
            == before[key := Bumped(At(before, key), status[evids[i]], hypo == trueHypo)]
  {
    var some, key := keys + KeysOfHypo(rule, hypo, evids[..i]), NodeKey(rule, hypo, evids[i]);
    KeysOfHypoOneMore(rule, hypo, evids, i);
    assert keys + KeysOfHypo(rule, hypo, evids[..i + 1]) == some + {key};
    BumpedOnceMore(nodes, some, status, trueHypo, key);
  }

  lemma KeysOfCaseOneMore(rule: nat, hypos: seq<nat>, evids: seq<nat>, i: nat)
    requires Distinct(hypos) && i < |hypos|
    ensures KeysOfCase(rule, hypos[..i + 1], evids)
         == KeysOfCase(rule, hypos[..i], evids) + KeysOfHypo(rule, hypos[i], evids)
    ensures forall status: map<nat, nat> :: Range(evids) <= status.Keys ==>
              Apart(KeysOfCase(rule, hypos[..i], evids), hypos[i], status)
  {
    assert hypos[..i + 1] == hypos[..i] + [hypos[i]];
  }

  lemma BumpedAtIsTaught(nodes: NodeMap, t: Teaching)
    requires WellFormed(t)
    ensures Teachable(CaseKeys(t), t.status) && BumpedAt(nodes, CaseKeys(t), t.status, t.trueHypo) == Taught(nodes, t)
  {
  }

  lemma StatusOf(evids: seq<EvidTally>, j: nat)
    requires Distinct(EvidIds(evids)) && j < |evids|
    ensures evids[j].id in StatusMap(evids) && StatusMap(evids)[evids[j].id] == evids[j].status
  {
    var i, ids := EvidIndex(evids, evids[j].id), EvidIds(evids);
    assert ids[i] == ids[j] == evids[j].id;
  }

  lemma {:induction false} ThrewStays(ids: seq<nat>, counts: seq<int>, probs: seq<int>, mapp: nat, at100: bool,
                                      i: nat, upTo: nat)
    requires |ids| == |counts| == |probs| && i <= upTo <= |ids|
    requires Scanned(ids, counts, probs, mapp, at100, i).threw
    ensures Scanned(ids, counts, probs, mapp, at100, upTo).threw
  {
    if i < upTo {
      ThrewStays(ids, counts, probs, mapp, at100, i, upTo - 1);
    }
  }

  /** The evidence up, having the given value, carries the inference to `p`. */
  ghost predicate AppliesTo(s: CaseState, nodes: NodeMap, value: nat, p: Inference) {
    forall trues, falses {:trigger EvidenceApplied(s.inference, trues, falses)} ::
      && value < NUM_ROWS
      && trues == TruesAt(s.inference.hypos, nodes, s.rule, s.evidence.up, value)
      && falses == FalsesAt(s.inference.hypos, nodes, s.rule, s.evidence.up, value)
      ==> p == EvidenceApplied(s.inference, trues, falses)
  }

  ghost predicate UpdatesTo(p: Inference, g: Inference) {
    p.hypos != [] && Divisor(p) > 0 && !ScanOf(p).threw && g == Updated(p, false)
  }

  /** An answer as the inference sees it: the evidence applied, then the update. */
  lemma InferredInTwoSteps(s: CaseState, nodes: NodeMap, value: nat) returns (p: Inference)
    requires Sound(s) && NonNegative(nodes) && IsAsking(s) && value < ROW_UNEVALUATED
    ensures DeadHaveNothing(s.inference.hypos) && s.evidence.up in EvidIds(s.evidence.evids)
    ensures !s.spent && !s.busts
    ensures AppliesTo(s, nodes, value, p) && UpdatesTo(p, Inferred(s, nodes, value))
  {
    var f := s.inference;
    var trues := TruesAt(f.hypos, nodes, s.rule, s.evidence.up, value);
    var falses := FalsesAt(f.hypos, nodes, s.rule, s.evidence.up, value);
    p := EvidenceApplied(f, trues, falses);
    CountsFromNodes(f.hypos, nodes, s.rule, s.evidence.up, value);
    EvidenceAppliedSound(f, trues, falses);
    UpdatedSound(p, false);
  }

  /** The outcome of a hypothesis found true, with its lesson. */
  function VerifiedWith(s: CaseState, nodes: NodeMap, trueHypo: nat, lesson: Teaching): Outcome
    requires WellFormed(lesson)
  {
    var hypos := Judged(s.inference.hypos, trueHypo, |s.inference.hypos|);
    Outcome(s.(trueHypo := trueHypo, inference := s.inference.(hypos := hypos), verified := true,
               prompt := Asking(IsFaultFixed, OPTIONS_NO_YES_DNK)),
            Taught(nodes, lesson), CaseSolnVerifiedUnmaskRule)
  }

  lemma VerifiedLesson(s: CaseState, nodes: NodeMap, trueHypo: nat) returns (lesson: Teaching)
    requires Sound(s) && trueHypo in HypoIds(s.inference.hypos)
    ensures Distinct(HypoIds(s.inference.hypos)) && Distinct(EvidIds(s.evidence.evids))
    ensures trueHypo > 0 && WellFormed(lesson)
    ensures lesson == Teaching(s.rule, Range(HypoIds(s.inference.hypos)), StatusMap(s.evidence.evids), trueHypo)
    ensures OnVerified(s, nodes, trueHypo) == VerifiedWith(s, nodes, trueHypo, lesson)
  {
    var i := IndexOf(HypoIds(s.inference.hypos), trueHypo);
    assert s.inference.hypos[i].id == trueHypo;
    LessonWellFormed(s.(trueHypo := trueHypo), IsAsking(s));
    lesson := Lesson(s.(trueHypo := trueHypo));
  }

  /** The handler's action on an answer has the outcome `o`. */
  ghost predicate ActsTo(s: CaseState, nodes: NodeMap, answer: nat, o: Outcome) {
    forall a: nat {:trigger OnAnswer(s, nodes, a)} ::
      Sound(s) && NonNegative(nodes) && a <= s.prompt.answerMax && a == answer ==> o == OnAnswer(s, nodes, a)
  }

  lemma StepActs(s: CaseState, nodes: NodeMap, answer: nat) returns (o: Outcome)
    requires Sound(s) && NonNegative(nodes) && Accepts(s, answer)
    ensures ActsTo(Busy(s), nodes, answer, o)
    ensures o.reply == CaseIdledByUserRegenGui && !o.state.verified ==> InferenceSound(o.state.inference)
    ensures Step(s, nodes, answer) == Settled(o)
  {
    IdledIsUnchanged(Busy(s), nodes, answer);
    o := OnAnswer(Busy(s), nodes, answer);
  }

  /** The answer carries a sound case to `o`: stated of every `t` that is `s`, so that the step
      is unfolded only where it is named. */
  ghost predicate StepsTo(s: CaseState, nodes: NodeMap, answer: nat, o: Outcome) {
    forall t {:trigger Step(t, nodes, answer)} ::
      t == s && Sound(t) && NonNegative(nodes) ==> o == Step(t, nodes, answer)
  }

  // ----- The tallies a case starts from -----

  /** The hypotheses and evidence items on file for a rule, with their priors. */
  ghost predicate CountedOnFile(kbase: KnowledgeBase, rule: nat, hypos: seq<HypoTally>, evids: seq<nat>)
    reads kbase
  {
    && Range(HypoIds(hypos)) == HyposOfRule(kbase.file.nodes, rule)
    && Range(evids) == EvidsOfRule(kbase.file.nodes, rule)
    && PriorsCounted(kbase.file.nodes, kbase.mimicBase, rule, hypos)
  }

  function FaultOf(c: Creation): Fault {
    match c
    case Created(_) => NoFault
    case NotNamed => IdNotNamed
    case DividesByZero => DividedByZero
    case LookUpFails => LookUpFailed
  }

  lemma {:induction false} PriorCountNonNegative(nodes: NodeMap, rule: nat, hypo: nat, evids: seq<nat>)
    requires NonNegative(nodes)
    ensures PriorCount(nodes, rule, hypo, evids) >= 0
  {
    if evids != [] {
      PriorCountNonNegative(nodes, rule, hypo, evids[..|evids| - 1]);
      assert NonNegativeNode(At(nodes, NodeKey(rule, hypo, evids[|evids| - 1])));
    }
  }

  lemma {:induction false} SumPriorsNonNegative(hypos: seq<HypoTally>)
    requires forall i :: 0 <= i < |hypos| ==> hypos[i].priorCount >= 0
    ensures SumPriors(hypos) >= 0
  {
    if hypos != [] {
      SumPriorsNonNegative(hypos[..|hypos| - 1]);
    }
  }

  lemma TalliesFresh(kbase: KnowledgeBase, rule: nat, hypos: seq<HypoTally>, evids: seq<nat>, sumPrior: int)
    requires kbase.Sound() && CountedOnFile(kbase, rule, hypos, evids)
    requires Distinct(HypoIds(hypos)) && Distinct(evids) && sumPrior == SumPriors(hypos)
    ensures Fresh(hypos, evids, sumPrior) && sumPrior >= 0
  {
    forall i | 0 <= i < |hypos|
      ensures hypos[i].priorCount >= 0 && hypos[i].id > 0
    {
      var id := hypos[i].id;
      PriorCountNonNegative(kbase.file.nodes, rule, id, kbase.mimicBase[rule][id]);
      SlotIsNamed(kbase.file, kbase.mimicBase, rule, id);
    }
    SumPriorsNonNegative(hypos);
  }

  lemma TalliesNamed(kbase: KnowledgeBase, rule: nat, hypos: seq<HypoTally>, evids: seq<nat>)
    requires kbase.Sound() && CountedOnFile(kbase, rule, hypos, evids) && hypos != []
    ensures IsId(rule) && ValidIds(HypoIds(hypos)) && ValidIds(evids)
  {
    forall i | 0 <= i < |hypos|
      ensures IsId(rule) && IsId(HypoIds(hypos)[i])
    {
      SlotIsNamed(kbase.file, kbase.mimicBase, rule, hypos[i].id);
    }
    assert IsId(HypoIds(hypos)[0]);
    forall i | 0 <= i < |evids|
      ensures IsId(evids[i])
    {
      assert evids[i] in EvidsOfRule(kbase.file.nodes, rule);
      var k :| k in kbase.file.nodes && k.rule == rule && k.evid == evids[i];
      assert k == NodeKey(rule, k.hypo, k.evid) && (HypoOnFile(kbase.file, rule, k.hypo) || true);
    }
  }

  // ----- The object -----

  class Case {
    const kbase: KnowledgeBase
    const rule: Rule
    const caseRuleUai: nat
    const ruleHasDiagnostics: bool
    const timeTrapped: int
    const numHyposPrior: nat
    const sumPriorCountsTrueOfAllCaseHypos: int
    ghost const caseHypos: seq<nat>

    var handler: Handler
    var numOptions: nat
    var answerMax: nat
    var waitingOnUserToAnswer: bool
    var answer: nat

    var hypoTally: seq<HypoTally>
    var evidTally: seq<EvidTally>
    var evidsUnevaluated: seq<nat>
    var uaiEvidUp: nat
    var uaiMappHypo: nat
    var uaiTrueHypo: nat
    var sumJointPostCounts: int
    var numHyposAlive: int

    var noEvidenceEvaluated: bool
    var caseBustsKbase: bool
    var mappAt100pct: bool
    var caseSpentKbase: bool
    var caseVerifiedAndLearned: bool

    /** A case on the tallies the knowledge base supplied, nothing inferred yet. */
    constructor (kbase: KnowledgeBase, rule: Rule, timeTrapped: int,
                 hypos: seq<HypoTally>, evids: seq<nat>, sumPrior: int)
      ensures State() == Opened(rule.ruleUai, rule.hasDiagnostics, hypos, evids, sumPrior)
      ensures this.kbase == kbase && this.rule == rule && this.timeTrapped == timeTrapped
      ensures caseHypos == HypoIds(hypos)
    {
      this.kbase, this.rule, this.timeTrapped := kbase, rule, timeTrapped;
      caseHypos := HypoIds(hypos);
      caseRuleUai, ruleHasDiagnostics := rule.ruleUai, rule.hasDiagnostics;
      numHyposPrior, sumPriorCountsTrueOfAllCaseHypos := |hypos|, sumPrior;
      handler, numOptions, answerMax := TopMenuCaseInProcess, OPTIONS_TOP_MENU, OPTIONS_TOP_MENU - 1;
      waitingOnUserToAnswer, answer := true, 0;
      hypoTally := hypos;
      evidTally := seq(|evids|, i requires 0 <= i < |evids| => EvidTally(evids[i], ROW_UNEVALUATED));
      evidsUnevaluated := evids;
      uaiEvidUp, uaiMappHypo, uaiTrueHypo := 0, 0, 0;
      sumJointPostCounts, numHyposAlive := 0, |hypos|;
      noEvidenceEvaluated, caseBustsKbase, mappAt100pct := true, false, false;
      caseSpentKbase, caseVerifiedAndLearned := false, false;
    }

    function PromptNow(): Prompt
      reads this
    {
      Prompt(handler, numOptions, answerMax, waitingOnUserToAnswer)
    }

    function EvidenceNow(): Evidence
      reads this
    {
      Evidence(evidTally, evidsUnevaluated, uaiEvidUp)
    }

    function InferenceNow(): Inference
      reads this
    {
      Inference(hypoTally, sumPriorCountsTrueOfAllCaseHypos, sumJointPostCounts, numHyposAlive,
                noEvidenceEvaluated, uaiMappHypo, mappAt100pct)
    }

    function PosteriorNow(): Posterior
      reads this
    {
      Posterior(hypoTally, sumJointPostCounts, numHyposAlive, uaiMappHypo, mappAt100pct)
    }

    function State(): CaseState
      reads this
    {
      CaseState(caseRuleUai, ruleHasDiagnostics, numHyposPrior, PromptNow(), EvidenceNow(), InferenceNow(),
                uaiTrueHypo, caseBustsKbase, caseSpentKbase, caseVerifiedAndLearned)
    }

    /** Every node the case may pan to has a name on file, and is of a hypothesis it began with. */
    ghost predicate NodesNamed()
      reads this
    {
      && IsId(caseRuleUai) && ValidIds(HypoIds(hypoTally)) && ValidIds(EvidIds(evidTally))
      && HypoIds(hypoTally) == caseHypos
    }

    /** Each of those has a table on file: whatever empty groups there are, they are elsewhere. */
    ghost predicate Served()
      reads kbase
    {
      kbase.Serves(caseRuleUai, caseHypos)
    }

    /** And all else about the knowledge base but its tables is as it was. */
    ghost predicate Serving(layout: Layout)
      reads kbase
    {
      Served() && kbase.LayoutNow() == layout
    }

    ghost predicate Valid()
      reads this, kbase
    {
      Sound(State()) && NodesNamed() && Served()
    }

    /** The same, stated so that those who only pass a case along need not look into it: of
        every `s` that is the state, and unfolded where it is named. */
    ghost predicate IsSound()
      reads this, kbase
    {
      forall s {:trigger Sound(s)} :: s == State() ==> Sound(s) && NodesNamed() && Served()
    }

    lemma SoundMeans()
      ensures IsSound() <==> Valid()
    {
      assert Sound(State()) || !Sound(State());
    }

    /** What others do to the tables does not matter to the case. */
    twostate lemma StaysSound()
      requires old(IsSound()) && unchanged(this) && kbase.InOrder()
      requires old(kbase.file.nodes).Keys <= kbase.file.nodes.Keys
      ensures IsSound()
    {
      assert Sound(old(State()));
      kbase.OrderMeans();
      assert old(Served());
      assert Indexed(old(kbase.file), old(kbase.mimicBase));
      kbase.ServesOn(old(kbase.file), caseRuleUai, caseHypos);
    }

    // ----- Reading and teaching one node -----

    method ReadNode(hypo: nat, evid: nat)
      requires Served() && hypo in caseHypos && IsId(caseRuleUai) && IsId(hypo) && IsId(evid)
      modifies kbase
      ensures Serving(old(kbase.LayoutNow())) && kbase.Aligned()
      ensures kbase.cursorAtActiveNode && kbase.Cursor() == NodeKey(caseRuleUai, hypo, evid)
      ensures kbase.nodeImage == At(old(kbase.file.nodes), NodeKey(caseRuleUai, hypo, evid))
      ensures kbase.file.nodes == Touched(old(kbase.file.nodes), {NodeKey(caseRuleUai, hypo, evid)})
    {
      kbase.ServesMeans(caseRuleUai, caseHypos);
      InhabitedIsFree(kbase.file, caseRuleUai, hypo);
      var _ := kbase.PanCursorToNodeAt(caseRuleUai, hypo, evid);
      kbase.ServesOn(old(kbase.file), caseRuleUai, caseHypos);
      var _ := kbase.ReadCursorToImage();
      assert At(kbase.file.nodes, kbase.Cursor()) == At(old(kbase.file.nodes), kbase.Cursor());
    }

    method TeachNode(hypo: nat, evid: nat, row: nat, isTrue: bool)
      requires Served() && hypo in caseHypos && IsId(caseRuleUai) && IsId(hypo) && IsId(evid) && row < NUM_ROWS
      modifies kbase
      ensures Serving(old(kbase.LayoutNow()))
      ensures var key := NodeKey(caseRuleUai, hypo, evid);
              kbase.file.nodes == old(kbase.file.nodes)[key := Bumped(At(old(kbase.file.nodes), key), row, isTrue)]
    {
      ghost var key := NodeKey(caseRuleUai, hypo, evid);
      ReadNode(hypo, evid);
      assert NonNegativeNode(kbase.nodeImage);
      if isTrue {
        kbase.IncrementHypoTrueForEvid(row);
      } else {
        kbase.IncrementHypoFalseForEvid(row);
      }
      OverwrittenWhereTouched(old(kbase.file.nodes), key, kbase.nodeImage);
      kbase.ServesMeans(caseRuleUai, caseHypos);
      ghost var before := kbase.file;
      var _ := kbase.WriteImageToCursor();
      kbase.ServesOn(before, caseRuleUai, caseHypos);
    }

    // ----- Applying an evaluated evidence item -----

    /** Prior counts of the value given, joint to any live hypothesis being true. */
    method WeighEvidence(evidValue: nat, ghost trues: seq<int>) returns (weight: int)
      requires Served() && NodesNamed() && IsId(uaiEvidUp) && evidValue < NUM_ROWS
      requires trues == TruesAt(hypoTally, kbase.file.nodes, caseRuleUai, uaiEvidUp, evidValue)
      modifies kbase
      ensures Serving(old(kbase.LayoutNow()))
      ensures weight == Weight(hypoTally, trues, |hypoTally|)
      ensures kbase.file.nodes == Touched(old(kbase.file.nodes), NodesVisited(hypoTally, caseRuleUai, uaiEvidUp))
    {
      ghost var nodes := kbase.file.nodes;
      ghost var visits := VisitsOf(nodes, hypoTally, caseRuleUai, uaiEvidUp);
      VisitsStartAndEnd(nodes, hypoTally, caseRuleUai, uaiEvidUp, visits);
      weight := 0;
      for i := 0 to |hypoTally|
        invariant Serving(old(kbase.LayoutNow()))
        invariant weight == Weight(hypoTally, trues, i)
        invariant kbase.file.nodes == visits[i]
      {
        weight := WeighNext(i, evidValue, weight, trues, nodes, visits);
      }
    }

    method WeighNext(i: nat, evidValue: nat, weight: int, ghost trues: seq<int>, ghost nodes: NodeMap,
                     ghost visits: seq<NodeMap>)
      returns (more: int)
      requires Served() && NodesNamed() && IsId(uaiEvidUp) && evidValue < NUM_ROWS && i < |hypoTally|
      requires trues == TruesAt(hypoTally, nodes, caseRuleUai, uaiEvidUp, evidValue)
      requires AreVisits(nodes, hypoTally, caseRuleUai, uaiEvidUp, visits) && kbase.file.nodes == visits[i]
      modifies kbase
      ensures Serving(old(kbase.LayoutNow())) && kbase.file.nodes == visits[i + 1]
      ensures more == weight + if Alive(hypoTally[i]) then trues[i] else 0
    {
      NextVisit(nodes, hypoTally, caseRuleUai, uaiEvidUp, visits, i);
      more := weight;
      if hypoTally[i].status != STATUS_DEAD {
        var count := ReadTrueCount(i, evidValue);
        more := weight + count;
      }
    }

    method ReadTrueCount(i: nat, evidValue: nat) returns (count: int)
      requires Served() && NodesNamed() && IsId(uaiEvidUp) && evidValue < NUM_ROWS && i < |hypoTally|
      modifies kbase
      ensures Serving(old(kbase.LayoutNow()))
      ensures var key := NodeKey(caseRuleUai, hypoTally[i].id, uaiEvidUp);
              && count == At(old(kbase.file.nodes), key).trues[evidValue]
              && kbase.file.nodes == Touched(old(kbase.file.nodes), {key})
    {
      assert IsId(HypoIds(hypoTally)[i]);
      ReadNode(hypoTally[i].id, uaiEvidUp);
      count := kbase.PriorCountsHypoTrueWhenEvid(evidValue);
    }

    /** A value never met before: one count to each live hypothesis, and to the register. */
    method SpreadNovelEvidence(ghost trues: seq<int>, ghost falses: seq<int>)
      requires sumJointPostCounts == 0
      requires |trues| == |falses| == |hypoTally| && IsNovel(hypoTally, trues)
      modifies this`hypoTally, this`sumJointPostCounts
      ensures PosteriorNow() == Applied(old(hypoTally), trues, falses, numHyposAlive, uaiMappHypo, mappAt100pct)
    {
      ghost var hypos := hypoTally;
      for i := 0 to |hypoTally|
        invariant hypoTally == NovelPass(hypos, i)
        invariant sumJointPostCounts == AliveCount(hypos[..i])
      {
        assert hypos[..i + 1][..i] == hypos[..i];
        if hypoTally[i].status != STATUS_DEAD {
          var h := hypoTally[i];
          hypoTally := hypoTally[i := h.(accumPost := h.accumPost + 1)];
          sumJointPostCounts := sumJointPostCounts + 1;
        }
      }
      assert hypos[..|hypos|] == hypos;
    }

    /** The hypothesis at `i` is the likely one: all others still open are killed. */
    method Crown(i: nat, count: int)
      requires i < |hypoTally|
      modifies this`hypoTally, this`sumJointPostCounts, this`uaiMappHypo, this`mappAt100pct
      ensures hypoTally == Crowned(old(hypoTally), i, count, |old(hypoTally)|)
      ensures sumJointPostCounts == hypoTally[i].accumPost
      ensures uaiMappHypo == old(hypoTally)[i].id && mappAt100pct
    {
      ghost var hypos := hypoTally;
      var h := hypoTally[i];
      uaiMappHypo := h.id;
      mappAt100pct := true;
      hypoTally := hypoTally[i := h.(status := STATUS_LIKELY, accumPost := h.accumPost + count)];
      for j := 0 to |hypoTally|
        invariant hypoTally == Crowned(hypos, i, count, j)
        modifies this`hypoTally
      {
        if hypoTally[j].status == STATUS_OPEN {
          hypoTally := hypoTally[j := Killed(hypoTally[j])];
        }
      }
      sumJointPostCounts := hypoTally[i].accumPost;
    }

    /** One live hypothesis killed, found decisive, or given its counts. */
    method WeighHypo(i: nat, evidValue: nat, weight: int, ghost countTrue: int, ghost countFalse: int)
      returns (isDecisive: bool)
      requires Served() && NodesNamed() && IsId(uaiEvidUp) && evidValue < NUM_ROWS
      requires i < |hypoTally| && Alive(hypoTally[i])
      requires CountsOnFile(kbase.file.nodes, NodeKey(caseRuleUai, hypoTally[i].id, uaiEvidUp), evidValue,
                            countTrue, countFalse)
      modifies kbase, this`hypoTally, this`sumJointPostCounts, this`numHyposAlive, this`uaiMappHypo, this`mappAt100pct
      ensures Serving(old(kbase.LayoutNow())) && kbase.file.nodes == old(kbase.file.nodes)
      ensures isDecisive <==> countTrue > 0 && countTrue == weight
      ensures var hypos := old(hypoTally);
              if isDecisive then
                && hypoTally == Crowned(hypos, i, countTrue, |hypos|)
                && sumJointPostCounts == hypoTally[i].accumPost && numHyposAlive == old(numHyposAlive)
                && uaiMappHypo == hypos[i].id && mappAt100pct
              else
                && hypoTally == hypos[i := Weighed(hypos[i], countTrue, countFalse)]
                && sumJointPostCounts == old(sumJointPostCounts) + hypoTally[i].accumPost
                && numHyposAlive == old(numHyposAlive) - (if Kills(hypos[i], countTrue, countFalse) then 1 else 0)
                && uaiMappHypo == old(uaiMappHypo) && mappAt100pct == old(mappAt100pct)
    {
      var h := hypoTally[i];
      assert IsId(HypoIds(hypoTally)[i]);
      TouchedOne(kbase.file.nodes, NodeKey(caseRuleUai, h.id, uaiEvidUp));
      ReadNode(h.id, uaiEvidUp);
      var count := kbase.PriorCountsHypoTrueWhenEvid(evidValue);
      isDecisive := false;
      if count == 0 && kbase.HasHypoEverBeenFalseWhenEvid(evidValue) {
        hypoTally := hypoTally[i := Killed(h)];
        numHyposAlive := numHyposAlive - 1;
      } else if count > 0 && count == weight {
        isDecisive := true;
        Crown(i, count);
      } else {
        hypoTally := hypoTally[i := h.(accumPost := h.accumPost + count)];
        sumJointPostCounts := sumJointPostCounts + hypoTally[i].accumPost;
      }
    }

    /** The walk that kills, crowns or weighs each live hypothesis. */
    method WeighHypos(evidValue: nat, weight: int, ghost trues: seq<int>, ghost falses: seq<int>)
      requires Served() && NodesNamed() && IsId(uaiEvidUp) && evidValue < NUM_ROWS
      requires |trues| == |falses| == |hypoTally|
      requires AllCountsOnFile(kbase.file.nodes, hypoTally, caseRuleUai, uaiEvidUp, evidValue, trues, falses)
      requires weight == Weight(hypoTally, trues, |hypoTally|) && weight != 0
      requires sumJointPostCounts == 0 && DeadHaveNothing(hypoTally)
      modifies kbase, this`hypoTally, this`sumJointPostCounts, this`numHyposAlive, this`uaiMappHypo, this`mappAt100pct
      ensures Serving(old(kbase.LayoutNow())) && kbase.file.nodes == old(kbase.file.nodes)
      ensures PosteriorNow()
           == Applied(old(hypoTally), trues, falses, old(numHyposAlive), old(uaiMappHypo), old(mappAt100pct))
      ensures TalliesSound(old(hypoTally)) && CountsSound(old(hypoTally), trues, falses) ==>
                CountsAdded(old(hypoTally), trues, hypoTally)
    {
      if TalliesSound(hypoTally) && CountsSound(hypoTally, trues, falses) {
        AppliedAddsCounts(hypoTally, trues, falses, numHyposAlive, uaiMappHypo, mappAt100pct);
      }
      ghost var hypos, p0 := hypoTally, PosteriorNow();
      NothingScored(hypos, trues, falses, p0);
      for i := 0 to |hypoTally|
        invariant Serving(old(kbase.LayoutNow())) && kbase.file.nodes == old(kbase.file.nodes)
        invariant NodesNamed() && |hypoTally| == |hypos|
        invariant Scored(hypos, trues, falses, p0, i, PosteriorNow())
      {
        var isDecisive := ScoreNext(i, evidValue, weight, hypos, trues, falses, p0);
        if isDecisive {
          return;
        }
      }
      ScoredAll(hypos, trues, falses, p0, PosteriorNow());
    }

    /** The walk carried one hypothesis further; a decisive one ends it. */
    method ScoreNext(i: nat, evidValue: nat, weight: int, ghost hypos: seq<HypoTally>, ghost trues: seq<int>,
                     ghost falses: seq<int>, ghost p0: Posterior)
      returns (isDecisive: bool)
      requires Served() && NodesNamed() && IsId(uaiEvidUp) && evidValue < NUM_ROWS
      requires |trues| == |falses| == |hypos| && i < |hypos| && DeadHaveNothing(hypos)
      requires AllCountsOnFile(kbase.file.nodes, hypos, caseRuleUai, uaiEvidUp, evidValue, trues, falses)
      requires weight == Weight(hypos, trues, |hypos|) && weight != 0
      requires Scored(hypos, trues, falses, p0, i, PosteriorNow())
      modifies kbase, this`hypoTally, this`sumJointPostCounts, this`numHyposAlive, this`uaiMappHypo, this`mappAt100pct
      ensures Serving(old(kbase.LayoutNow())) && kbase.file.nodes == old(kbase.file.nodes)
      ensures isDecisive ==>
                PosteriorNow() == Applied(hypos, trues, falses, p0.numAlive, p0.mapp, p0.mappAt100pct)
      ensures !isDecisive ==> NodesNamed() && Scored(hypos, trues, falses, p0, i + 1, PosteriorNow())
    {
      ghost var p := PosteriorNow();
      ScoredSoFar(hypos, trues, falses, p0, i, p);
      isDecisive := false;
      if hypoTally[i].status != STATUS_DEAD {
        isDecisive := WeighHypo(i, evidValue, weight, trues[i], falses[i]);
      }
      if isDecisive {
        ScoredCrowned(hypos, trues, falses, p0, i, p);
      } else {
        ScoredOneMore(hypos, trues, falses, p0, i, p, PosteriorNow());
      }
    }

    method RecordEvidence(evidValue: nat)
      requires uaiEvidUp in EvidIds(evidTally)
      modifies this`evidTally, this`noEvidenceEvaluated, this`sumJointPostCounts
      ensures EvidIndex(old(evidTally), uaiEvidUp) < |old(evidTally)|
      ensures EvidenceNow() == Evaluated(old(EvidenceNow()), evidValue)
      ensures evidTally
           == old(evidTally)[EvidIndex(old(evidTally), uaiEvidUp) := EvidTally(uaiEvidUp, evidValue)]
      ensures EvidIds(evidTally) == EvidIds(old(evidTally))
      ensures !noEvidenceEvaluated && sumJointPostCounts == 0
    {
      EvidUpIsIndexed(EvidenceNow());
      var up := EvidIndex(evidTally, uaiEvidUp);
      sumJointPostCounts := 0;
      evidTally := evidTally[up := evidTally[up].(status := evidValue)];
      noEvidenceEvaluated := false;
      assert EvidIds(evidTally) == EvidIds(old(evidTally));
    }

    /** The evidence weighed over all live hypotheses, then each of them against it. */
    method WeighThenScore(evidValue: nat, ghost trues: seq<int>, ghost falses: seq<int>)
      requires Served() && NodesNamed() && IsId(uaiEvidUp) && evidValue < NUM_ROWS
      requires trues == TruesAt(hypoTally, kbase.file.nodes, caseRuleUai, uaiEvidUp, evidValue)
      requires falses == FalsesAt(hypoTally, kbase.file.nodes, caseRuleUai, uaiEvidUp, evidValue)
      requires sumJointPostCounts == 0 && DeadHaveNothing(hypoTally)
      modifies kbase, this`hypoTally, this`sumJointPostCounts, this`numHyposAlive, this`uaiMappHypo, this`mappAt100pct
      ensures Serving(old(kbase.LayoutNow()))
      ensures PosteriorNow()
           == Applied(old(hypoTally), trues, falses, old(numHyposAlive), old(uaiMappHypo), old(mappAt100pct))
      ensures kbase.file.nodes == Touched(old(kbase.file.nodes), NodesVisited(old(hypoTally), caseRuleUai, uaiEvidUp))
    {
      ghost var nodes := kbase.file.nodes;
      var weight := WeighEvidence(evidValue, trues);
      CountsTouched(nodes, hypoTally, caseRuleUai, uaiEvidUp, evidValue);
      if weight == 0 {
        SpreadNovelEvidence(trues, falses);
      } else {
        WeighHypos(evidValue, weight, trues, falses);
      }
    }

    /** What a definite answer does to the tallies and registers. */
    method ApplyBayesGivenEvidUpIs(evidValue: nat)
      requires Served() && NodesNamed() && evidValue < NUM_ROWS
      requires DeadHaveNothing(hypoTally) && uaiEvidUp in EvidIds(evidTally)
      modifies kbase, this`hypoTally, this`evidTally, this`sumJointPostCounts, this`numHyposAlive, this`uaiMappHypo,
        this`mappAt100pct, this`noEvidenceEvaluated
      ensures Serving(old(kbase.LayoutNow()))
      ensures InferenceNow() == EvidenceApplied(old(InferenceNow()),
                TruesAt(old(hypoTally), old(kbase.file.nodes), caseRuleUai, uaiEvidUp, evidValue),
                FalsesAt(old(hypoTally), old(kbase.file.nodes), caseRuleUai, uaiEvidUp, evidValue))
      ensures kbase.file.nodes == Touched(old(kbase.file.nodes), NodesVisited(old(hypoTally), caseRuleUai, uaiEvidUp))
      ensures EvidIndex(old(evidTally), uaiEvidUp) < |old(evidTally)|
      ensures EvidenceNow() == Evaluated(old(EvidenceNow()), evidValue)
      ensures evidTally
           == old(evidTally)[EvidIndex(old(evidTally), uaiEvidUp) := EvidTally(uaiEvidUp, evidValue)]
      ensures TalliesSound(old(hypoTally)) && NonNegative(old(kbase.file.nodes)) ==>
                CountsAdded(old(hypoTally),
                  TruesAt(old(hypoTally), old(kbase.file.nodes), caseRuleUai, uaiEvidUp, evidValue), hypoTally)
    {
      ghost var hypos, nodes := hypoTally, kbase.file.nodes;
      ghost var trues := TruesAt(hypoTally, kbase.file.nodes, caseRuleUai, uaiEvidUp, evidValue);
      ghost var falses := FalsesAt(hypoTally, kbase.file.nodes, caseRuleUai, uaiEvidUp, evidValue);
      assert IsId(EvidIds(evidTally)[IndexOf(EvidIds(evidTally), uaiEvidUp)]);
      RecordEvidence(evidValue);
      WeighThenScore(evidValue, trues, falses);
      if TalliesSound(hypos) && NonNegative(nodes) {
        CountsFromNodes(hypos, nodes, caseRuleUai, uaiEvidUp, evidValue);
        AppliedAddsCounts(hypos, trues, falses, old(numHyposAlive), old(uaiMappHypo), old(mappAt100pct));
      }
    }

    // ----- Updating the probabilities -----

    /** One hypothesis given its probability and held against the best so far; the look-up
        of the candidate held fails if there is none. */
    method RateHypo(i: nat, divisor: int, best: int, ghost ids: seq<nat>, ghost counts: seq<int>, ghost probs: seq<int>)
      returns (newBest: int, threw: bool)
      requires i < |hypoTally| == |ids| == |counts| == |probs| && divisor > 0
      requires ids == HypoIds(hypoTally) && counts == CountsOf(hypoTally, noEvidenceEvaluated)
      requires probs[i] == PerMille(counts[i], divisor)
      modifies this`hypoTally, this`uaiMappHypo, this`mappAt100pct
      ensures hypoTally == old(hypoTally)[i := WithProbs(old(hypoTally), noEvidenceEvaluated, divisor)[i]]
      ensures Scan(uaiMappHypo, newBest, mappAt100pct, threw)
           == ScanStep(Scan(old(uaiMappHypo), best, old(mappAt100pct), false), ids, counts, probs, i)
    {
      var h := hypoTally[i];
      var count := if noEvidenceEvaluated then h.priorCount else h.accumPost;
      var prob := PerMille(count, divisor);
      hypoTally := hypoTally[i := if noEvidenceEvaluated then h.(priorProb := prob) else h.(postProb := prob)];
      newBest, threw := best, false;
      if !mappAt100pct {
        if prob >= newBest {
          if prob > newBest {
            newBest := prob;
            uaiMappHypo := h.id;
          } else {
            assert HypoIds(hypoTally) == HypoIds(old(hypoTally));
            var held := IndexOf(HypoIds(hypoTally), uaiMappHypo);
            if held == |hypoTally| {
              threw := true;
              return;
            }
            var heldCount := if noEvidenceEvaluated then hypoTally[held].priorCount else hypoTally[held].accumPost;
            uaiMappHypo := if count > heldCount then h.id else uaiMappHypo;
          }
        }
        mappAt100pct := newBest > CUT_OFF;
      }
    }

    /** Probabilities and the most probable hypothesis, in one walk of the tallies. */
    method UpdateBayesProbabilities() returns (fault: Fault)
      requires Divisor(InferenceNow()) >= 0
      modifies this`hypoTally, this`uaiMappHypo, this`mappAt100pct
      ensures caseSpentKbase || caseBustsKbase || old(hypoTally) == [] ==>
                fault == NoFault && InferenceNow() == old(InferenceNow())
      ensures !(caseSpentKbase || caseBustsKbase) && old(hypoTally) != [] ==>
                if old(Divisor(InferenceNow())) == 0 then fault == DividedByZero
                else if ScanOf(old(InferenceNow())).threw then fault == LookUpFailed
                else fault == NoFault && InferenceNow() == Updated(old(InferenceNow()), false)
    {
      if caseSpentKbase || caseBustsKbase {
        return NoFault;
      }
      var divisor := if noEvidenceEvaluated then sumPriorCountsTrueOfAllCaseHypos else sumJointPostCounts;
      if hypoTally != [] {
        if divisor == 0 {
          return DividedByZero;
        }
        ghost var f := InferenceNow();
        ghost var walk := WalkOf(f);
        RatedAll(f);
        var threw := RateHypos(divisor, f, walk);
        if threw {
          return LookUpFailed;
        }
      }
      fault := NoFault;
    }

    /** The walk carried one hypothesis further. */
    method RateNext(i: nat, divisor: int, best: int, ghost f: Inference, ghost walk: seq<Walked>)
      returns (newBest: int, threw: bool)
      requires i < |f.hypos| && divisor == Divisor(f) > 0 && noEvidenceEvaluated == f.noEvidence && IsWalk(f, walk)
      requires Walked(hypoTally, Scan(uaiMappHypo, best, mappAt100pct, false)) == walk[i]
      modifies this`hypoTally, this`uaiMappHypo, this`mappAt100pct
      ensures Walked(hypoTally, Scan(uaiMappHypo, newBest, mappAt100pct, threw)) == walk[i + 1]
    {
      assert walk[i] == Walked(RatedUpTo(f, i), ScanUpTo(f, i));
      assert walk[i + 1] == Walked(RatedUpTo(f, i + 1), ScanUpTo(f, i + 1));
      RatedOneMore(f, i);
      newBest, threw := RateHypo(i, divisor, best, HypoIds(f.hypos), Counts(f), PerMilles(Counts(f), divisor));
    }

    method RateHypos(divisor: int, ghost f: Inference, ghost walk: seq<Walked>) returns (threw: bool)
      requires f == InferenceNow() && divisor == Divisor(f) > 0 && IsWalk(f, walk)
      modifies this`hypoTally, this`uaiMappHypo, this`mappAt100pct
      ensures threw == walk[|f.hypos|].scan.threw
      ensures !threw ==> hypoTally == walk[|f.hypos|].hypos && uaiMappHypo == walk[|f.hypos|].scan.mapp
                         && mappAt100pct == walk[|f.hypos|].scan.at100
    {
      var best := 0;
      WalkStarts(f, walk);
      for i := 0 to |hypoTally|
        invariant noEvidenceEvaluated == f.noEvidence && |hypoTally| == |f.hypos|
        invariant Walked(hypoTally, Scan(uaiMappHypo, best, mappAt100pct, false)) == walk[i]
      {
        WalkSteps(f, walk, i);
        best, threw := RateNext(i, divisor, best, f, walk);
        if threw {
          return;
        }
      }
      threw := false;
    }

    // ----- Learning -----

    /** One hypothesis taught its part of the lesson: a count at each of the case's evidence items. */
    method TeachHypo(hypo: nat, ghost nodes: NodeMap, ghost keys: set<NodeKey>, ghost status: map<nat, nat>)
      requires Served() && NodesNamed() && hypo in caseHypos && IsId(hypo)
      requires Distinct(EvidIds(evidTally)) && status == StatusMap(evidTally) && RowsKnown(status)
      requires Apart(keys, hypo, status) && kbase.file.nodes == BumpedAt(nodes, keys, status, uaiTrueHypo)
      modifies kbase
      ensures Serving(old(kbase.LayoutNow()))
      ensures Teachable(keys + KeysOfHypo(caseRuleUai, hypo, EvidIds(evidTally)), status)
      ensures kbase.file.nodes
           == BumpedAt(nodes, keys + KeysOfHypo(caseRuleUai, hypo, EvidIds(evidTally)), status, uaiTrueHypo)
    {
      ghost var ids := EvidIds(evidTally);
      assert keys + KeysOfHypo(caseRuleUai, hypo, ids[..0]) == keys;
      for i := 0 to |evidTally|
        invariant Serving(old(kbase.LayoutNow()))
        invariant Teachable(keys + KeysOfHypo(caseRuleUai, hypo, ids[..i]), status)
        invariant kbase.file.nodes
               == BumpedAt(nodes, keys + KeysOfHypo(caseRuleUai, hypo, ids[..i]), status, uaiTrueHypo)
      {
        StatusOf(evidTally, i);
        assert IsId(ids[i]);
        TeachesOneMore(nodes, keys, status, uaiTrueHypo, caseRuleUai, hypo, ids, i);
        TeachNode(hypo, evidTally[i].id, evidTally[i].status, hypo == uaiTrueHypo);
      }
      assert ids[..|ids|] == ids;
    }

    /** The lesson of a verified case: the verified hypothesis true, every other false. */
    method LearnFromUserVerifyingSoln(ghost lesson: Teaching)
      requires Served() && NodesNamed()
      requires Distinct(HypoIds(hypoTally)) && Distinct(EvidIds(evidTally))
      requires lesson == Teaching(caseRuleUai, Range(HypoIds(hypoTally)), StatusMap(evidTally), uaiTrueHypo)
      requires uaiTrueHypo != 0 ==> WellFormed(lesson)
      modifies kbase, this`hypoTally, this`caseVerifiedAndLearned
      ensures Serving(old(kbase.LayoutNow()))
      ensures uaiTrueHypo == 0 ==> unchanged(this) && unchanged(kbase)
      ensures uaiTrueHypo != 0 ==>
                && caseVerifiedAndLearned && hypoTally == Judged(old(hypoTally), uaiTrueHypo, |old(hypoTally)|)
                && kbase.file.nodes == Taught(old(kbase.file.nodes), lesson)
    {
      if uaiTrueHypo != 0 {
        ghost var hypos, ids, nodes := hypoTally, HypoIds(hypoTally), kbase.file.nodes;
        ghost var status, evids := StatusMap(evidTally), EvidIds(evidTally);
        ghost var keys: set<NodeKey> := {};
        BumpedNowhere(nodes, status, uaiTrueHypo);
        assert KeysOfCase(caseRuleUai, ids[..0], evids) == {};
        for i := 0 to |hypoTally|
          invariant Serving(old(kbase.LayoutNow())) && NodesNamed()
          invariant evidTally == old(evidTally) && uaiTrueHypo == old(uaiTrueHypo)
          invariant hypoTally == Judged(hypos, uaiTrueHypo, i)
          invariant keys == KeysOfCase(caseRuleUai, ids[..i], evids)
          invariant kbase.file.nodes == BumpedAt(nodes, keys, status, uaiTrueHypo)
        {
          var h := hypoTally[i];
          hypoTally := hypoTally[i := h.(status := if h.id == uaiTrueHypo then STATUS_LIKELY else STATUS_DEAD)];
          assert HypoIds(hypoTally) == ids;
          assert IsId(ids[i]);
          KeysOfCaseOneMore(caseRuleUai, ids, evids, i);
          TeachHypo(h.id, nodes, keys, status);
          keys := keys + KeysOfHypo(caseRuleUai, h.id, evids);
        }
        assert ids[..|ids|] == ids;
        BumpedAtIsTaught(nodes, lesson);
        assert keys == CaseKeys(lesson);
        caseVerifiedAndLearned := true;
      }
    }

    /** The table at a node written back as it was read. */
    method RewriteNode(hypo: nat, evid: nat)
      requires Served() && hypo in caseHypos && IsId(caseRuleUai) && IsId(hypo) && IsId(evid)
      modifies kbase
      ensures Serving(old(kbase.LayoutNow()))
      ensures kbase.file.nodes == Touched(old(kbase.file.nodes), {NodeKey(caseRuleUai, hypo, evid)})
    {
      ReadNode(hypo, evid);
      assert NonNegativeNode(kbase.nodeImage);
      kbase.ServesMeans(caseRuleUai, caseHypos);
      ghost var before := kbase.file;
      var _ := kbase.WriteImageToCursor();
      kbase.ServesOn(before, caseRuleUai, caseHypos);
    }

    /** What is learned of a fixed fault is to lower the counts of its hypothesis, by a
        method that leaves the image as it is for now. */
    method LearnFaultHasBeenFixed()
      requires Served() && NodesNamed() && Distinct(EvidIds(evidTally))
      requires caseVerifiedAndLearned ==> uaiTrueHypo in HypoIds(hypoTally)
      modifies kbase
      ensures Serving(old(kbase.LayoutNow()))
      ensures kbase.file.nodes
           == if caseVerifiedAndLearned
              then Touched(old(kbase.file.nodes), KeysOfHypo(caseRuleUai, uaiTrueHypo, EvidIds(evidTally)))
              else old(kbase.file.nodes)
    {
      if caseVerifiedAndLearned {
        ghost var nodes, ids := kbase.file.nodes, EvidIds(evidTally);
        TouchedNone(nodes);
        assert KeysOfHypo(caseRuleUai, uaiTrueHypo, ids[..0]) == {};
        assert IsId(caseHypos[IndexOf(caseHypos, uaiTrueHypo)]);
        for i := 0 to |evidTally|
          invariant Serving(old(kbase.LayoutNow()))
          invariant kbase.file.nodes == Touched(nodes, KeysOfHypo(caseRuleUai, uaiTrueHypo, ids[..i]))
        {
          assert IsId(ids[i]);
          KeysOfHypoOneMore(caseRuleUai, uaiTrueHypo, ids, i);
          TouchedMore(nodes, KeysOfHypo(caseRuleUai, uaiTrueHypo, ids[..i]),
                      NodeKey(caseRuleUai, uaiTrueHypo, evidTally[i].id));
          RewriteNode(uaiTrueHypo, evidTally[i].id);
        }
        assert ids[..|ids|] == ids;
      }
    }

    // ----- Prompting -----

    method SetAnswerMinMax(numChoices: nat)
      modifies this`answerMax
      ensures answerMax == if numChoices > 0 then numChoices - 1 else 0
    {
      answerMax := if numChoices > 0 then numChoices - 1 else 0;
    }

    method Present(next: Handler, numChoices: nat)
      modifies this`handler, this`numOptions, this`answerMax, this`waitingOnUserToAnswer
      ensures PromptNow() == Asking(next, numChoices)
    {
      handler, numOptions := next, numChoices;
      SetAnswerMinMax(numChoices);
      waitingOnUserToAnswer := true;
    }

    method PresentMenu()
      modifies this`handler, this`numOptions, this`answerMax, this`waitingOnUserToAnswer
      ensures PromptNow() == MenuPrompt(caseSpentKbase)
    {
      if caseSpentKbase {
        Present(CaseSpentOut, OPTIONS_MENU);
      } else {
        Present(TopMenuCaseInProcess, OPTIONS_TOP_MENU);
      }
    }

    // ----- What each handler does about an answer -----

    method ActOnShouldThisCaseBeDeleted() returns (reply: Reply)
      ensures Outcome(State(), kbase.file.nodes, reply)
           == OnShouldThisCaseBeDeleted(State(), kbase.file.nodes, answer)
    {
      reply := None;
      match answer {
        case 0 => reply := CaseIdledByUserRegenGui;
        case 1 => reply := KitCaseDroppedDestroyAndTellGui;
        case _ =>
      }
    }

    /** A definite answer: the tallies brought to `p`. */
    method Apply(evidValue: nat, ghost before: CaseState, ghost nodes: NodeMap, ghost p: Inference)
      requires Served() && NodesNamed() && before == State() && nodes == kbase.file.nodes
      requires DeadHaveNothing(hypoTally) && uaiEvidUp in EvidIds(evidTally) && evidValue < NUM_ROWS
      requires AppliesTo(before, nodes, evidValue, p)
      modifies kbase, this`hypoTally, this`evidTally, this`sumJointPostCounts, this`numHyposAlive, this`uaiMappHypo,
        this`mappAt100pct, this`noEvidenceEvaluated
      ensures Serving(old(kbase.LayoutNow()))
      ensures EvidIndex(before.evidence.evids, before.evidence.up) < |before.evidence.evids|
      ensures EvidenceNow() == Evaluated(before.evidence, evidValue) && InferenceNow() == p
      ensures kbase.file.nodes
           == Touched(nodes, NodesVisited(before.inference.hypos, before.rule, before.evidence.up))
    {
      ApplyBayesGivenEvidUpIs(evidValue);
    }

    /** And then the probabilities to `g`. */
    method ApplyThenUpdate(evidValue: nat, ghost before: CaseState, ghost nodes: NodeMap,
                           ghost p: Inference, ghost g: Inference)
      requires Served() && NodesNamed() && before == State() && nodes == kbase.file.nodes
      requires DeadHaveNothing(hypoTally) && uaiEvidUp in EvidIds(evidTally) && evidValue < NUM_ROWS
      requires !caseSpentKbase && !caseBustsKbase
      requires AppliesTo(before, nodes, evidValue, p) && UpdatesTo(p, g)
      modifies kbase, this`hypoTally, this`evidTally, this`sumJointPostCounts, this`numHyposAlive, this`uaiMappHypo,
        this`mappAt100pct, this`noEvidenceEvaluated
      ensures Serving(old(kbase.LayoutNow()))
      ensures EvidIndex(before.evidence.evids, before.evidence.up) < |before.evidence.evids|
      ensures EvidenceNow() == Evaluated(before.evidence, evidValue) && InferenceNow() == g
      ensures kbase.file.nodes
           == Touched(nodes, NodesVisited(before.inference.hypos, before.rule, before.evidence.up))
    {
      Apply(evidValue, before, nodes, p);
      var _ := UpdateBayesProbabilities();
    }

    method Evaluate(evidValue: nat, ghost before: CaseState, ghost nodes: NodeMap)
      requires Served() && NodesNamed() && before == State() && nodes == kbase.file.nodes
      requires Sound(before) && IsAsking(before) && evidValue < ROW_UNEVALUATED
      modifies kbase, this`hypoTally, this`evidTally, this`sumJointPostCounts, this`numHyposAlive, this`uaiMappHypo,
        this`mappAt100pct, this`noEvidenceEvaluated
      ensures Serving(old(kbase.LayoutNow()))
      ensures EvidIndex(before.evidence.evids, before.evidence.up) < |before.evidence.evids|
      ensures State() == before.(evidence := Evaluated(before.evidence, evidValue),
                                 inference := Inferred(before, nodes, evidValue))
      ensures kbase.file.nodes
           == Touched(nodes, NodesVisited(before.inference.hypos, before.rule, before.evidence.up))
    {
      ghost var p := InferredInTwoSteps(before, nodes, evidValue);
      ApplyThenUpdate(evidValue, before, nodes, p, Inferred(before, nodes, evidValue));
    }

    method FinishEvidence()
      modifies this`caseBustsKbase, this`caseSpentKbase,
        this`handler, this`numOptions, this`answerMax, this`waitingOnUserToAnswer
      ensures State() == AfterEvidence(old(State()))
    {
      caseBustsKbase := numHyposAlive == 0;
      caseSpentKbase := evidsUnevaluated == [];
      if caseSpentKbase && !mappAt100pct {
        Present(CaseSpentOut, OPTIONS_MENU);
      } else if mappAt100pct {
        Present(MappAt100Percent, OPTIONS_MENU);
      } else {
        Present(TopMenuCaseInProcess, OPTIONS_TOP_MENU);
      }
    }

    method AnswerDefinitely(evidValue: nat)
      requires Valid() && IsAsking(State()) && evidValue < ROW_UNEVALUATED
      modifies kbase, this`hypoTally, this`evidTally, this`sumJointPostCounts, this`numHyposAlive, this`uaiMappHypo,
        this`mappAt100pct, this`noEvidenceEvaluated, this`caseBustsKbase, this`caseSpentKbase,
        this`handler, this`numOptions, this`answerMax, this`waitingOnUserToAnswer
      ensures Serving(old(kbase.LayoutNow()))
      ensures Outcome(State(), kbase.file.nodes, None)
           == OnEvaluatePromptedEvidenceQuery(old(State()), old(kbase.file.nodes), evidValue)
    {
      Evaluate(evidValue, State(), kbase.file.nodes);
      FinishEvidence();
    }

    method ActOnEvaluatePromptedEvidenceQuery() returns (reply: Reply)
      requires Valid() && IsAsking(State())
      modifies kbase, this`hypoTally, this`evidTally, this`sumJointPostCounts, this`numHyposAlive, this`uaiMappHypo,
        this`mappAt100pct, this`noEvidenceEvaluated, this`caseBustsKbase, this`caseSpentKbase,
        this`handler, this`numOptions, this`answerMax, this`waitingOnUserToAnswer
      ensures Serving(old(kbase.LayoutNow()))
      ensures Outcome(State(), kbase.file.nodes, reply)
           == OnEvaluatePromptedEvidenceQuery(old(State()), old(kbase.file.nodes), answer)
      ensures answer <= 1 && !old(caseSpentKbase) ==>
                var up := EvidIndex(old(evidTally), uaiEvidUp);
                up < |old(evidTally)| && evidTally == old(evidTally)[up := EvidTally(uaiEvidUp, answer)]
    {
      if caseSpentKbase {
        return CaseAllEvidsSpentNone;
      }
      reply := None;
      if answer == 0 || answer == 1 {
        EvaluatedSound(EvidenceNow(), answer);
        AnswerDefinitely(answer);
      } else {
        if answer == 2 {
          reply := CaseEvidSkippedRollQueue;
        }
        FinishEvidence();
      }
    }

    method ActOnVerifyMenu() returns (reply: Reply)
      modifies this`handler, this`numOptions, this`answerMax, this`waitingOnUserToAnswer
      ensures Outcome(State(), kbase.file.nodes, reply) == OnVerifyMenu(old(State()), kbase.file.nodes, answer)
    {
      reply := None;
      match answer {
        case 0 => reply := CaseIdledByUserRegenGui;
        case 1 => Present(IsMappHypoCorrect, OPTIONS_NO_YES_DNK);
        case 2 => reply := KitCaseDroppedDestroyAndTellGui;
        case _ =>
      }
    }

    method ActOnTopMenuCaseInProcess() returns (reply: Reply)
      modifies this`handler, this`numOptions, this`answerMax, this`waitingOnUserToAnswer,
        this`caseSpentKbase, this`uaiEvidUp, this`evidsUnevaluated
      ensures Outcome(State(), kbase.file.nodes, reply)
           == OnTopMenuCaseInProcess(old(State()), kbase.file.nodes, answer)
    {
      reply := None;
      match answer {
        case 0 => reply := CaseIdledByUserRegenGui;
        case 1 =>
          caseSpentKbase := evidsUnevaluated == [];
          if caseSpentKbase {
            Present(CaseSpentOut, OPTIONS_MENU);
          } else {
            uaiEvidUp := evidsUnevaluated[0];
            evidsUnevaluated := evidsUnevaluated[1..];
            Present(EvaluatePromptedEvidenceQuery, OPTIONS_NO_YES_DNK);
          }
        case 2 => Present(IsMappHypoCorrect, OPTIONS_NO_YES_DNK);
        case 3 => reply := KitCaseDroppedDestroyAndTellGui;
        case _ =>
      }
    }

    method ActOnCaseVerifiedAndLearned() returns (reply: Reply)
      modifies this`handler, this`numOptions, this`answerMax, this`waitingOnUserToAnswer
      ensures Outcome(State(), kbase.file.nodes, reply)
           == OnCaseVerifiedAndLearned(old(State()), kbase.file.nodes, answer)
    {
      reply := None;
      match answer {
        case 0 => reply := CaseIdledByUserRegenGui;
        case 1 => Present(IsFaultFixed, OPTIONS_NO_YES_DNK);
        case 2 => reply := KitCaseDroppedDestroyAndTellGui;
        case _ =>
      }
    }

    /** The user's word that a hypothesis is true, learned. */
    method Verify(trueHypo: nat) returns (reply: Reply)
      requires Valid() && trueHypo in HypoIds(hypoTally)
      modifies kbase, this`uaiTrueHypo, this`hypoTally, this`caseVerifiedAndLearned,
        this`handler, this`numOptions, this`answerMax, this`waitingOnUserToAnswer
      ensures Serving(old(kbase.LayoutNow()))
      ensures Outcome(State(), kbase.file.nodes, reply) == OnVerified(old(State()), old(kbase.file.nodes), trueHypo)
    {
      ghost var lesson := VerifiedLesson(State(), kbase.file.nodes, trueHypo);
      reply := LearnAndAsk(trueHypo, lesson);
    }

    method LearnAndAsk(trueHypo: nat, ghost lesson: Teaching) returns (reply: Reply)
      requires Served() && NodesNamed()
      requires Distinct(HypoIds(hypoTally)) && Distinct(EvidIds(evidTally)) && trueHypo > 0 && WellFormed(lesson)
      requires lesson == Teaching(caseRuleUai, Range(HypoIds(hypoTally)), StatusMap(evidTally), trueHypo)
      modifies kbase, this`uaiTrueHypo, this`hypoTally, this`caseVerifiedAndLearned,
        this`handler, this`numOptions, this`answerMax, this`waitingOnUserToAnswer
      ensures Serving(old(kbase.LayoutNow()))
      ensures Outcome(State(), kbase.file.nodes, reply)
           == VerifiedWith(old(State()), old(kbase.file.nodes), trueHypo, lesson)
    {
      LearnThat(trueHypo, lesson);
      Present(IsFaultFixed, OPTIONS_NO_YES_DNK);
      reply := CaseSolnVerifiedUnmaskRule;
    }

    method LearnThat(trueHypo: nat, ghost lesson: Teaching)
      requires Served() && NodesNamed()
      requires Distinct(HypoIds(hypoTally)) && Distinct(EvidIds(evidTally)) && trueHypo > 0 && WellFormed(lesson)
      requires lesson == Teaching(caseRuleUai, Range(HypoIds(hypoTally)), StatusMap(evidTally), trueHypo)
      modifies kbase, this`uaiTrueHypo, this`hypoTally, this`caseVerifiedAndLearned
      ensures Serving(old(kbase.LayoutNow()))
      ensures uaiTrueHypo == trueHypo && caseVerifiedAndLearned
      ensures hypoTally == Judged(old(hypoTally), trueHypo, |old(hypoTally)|)
      ensures kbase.file.nodes == Taught(old(kbase.file.nodes), lesson)
    {
      uaiTrueHypo := trueHypo;
      LearnFromUserVerifyingSoln(lesson);
    }

    method ActOnIsMappHypoCorrect() returns (reply: Reply)
      requires Valid()
      modifies kbase, this`uaiTrueHypo, this`hypoTally, this`caseVerifiedAndLearned,
        this`handler, this`numOptions, this`answerMax, this`waitingOnUserToAnswer
      ensures Serving(old(kbase.LayoutNow()))
      ensures Outcome(State(), kbase.file.nodes, reply)
           == OnIsMappHypoCorrect(old(State()), old(kbase.file.nodes), answer)
      ensures answer == 1 ==> caseVerifiedAndLearned && uaiTrueHypo == old(uaiMappHypo)
    {
      reply := None;
      match answer {
        case 0 => Present(IsAnyCaseHypoCorrect, OPTIONS_NO_YES_DNK);
        case 1 => reply := Verify(uaiMappHypo);
        case _ => PresentMenu();
      }
    }

    method ActOnIsAnyCaseHypoCorrect() returns (reply: Reply)
      modifies this`caseBustsKbase, this`handler, this`numOptions, this`answerMax, this`waitingOnUserToAnswer
      ensures Outcome(State(), kbase.file.nodes, reply)
           == OnIsAnyCaseHypoCorrect(old(State()), kbase.file.nodes, answer)
    {
      reply := None;
      match answer {
        case 0 =>
          caseBustsKbase := true;
          Present(ShouldThisCaseBeDeleted, OPTIONS_NO_YES);
        case 1 => Present(UserVerifyCorrectHypoByChoosing, numHyposPrior);
        case _ => PresentMenu();
      }
    }

    method ActOnIsFaultFixed() returns (reply: Reply)
      requires Valid()
      modifies kbase, this`handler, this`numOptions, this`answerMax, this`waitingOnUserToAnswer
      ensures Serving(old(kbase.LayoutNow()))
      ensures Outcome(State(), kbase.file.nodes, reply)
           == OnIsFaultFixed(old(State()), old(kbase.file.nodes), answer)
    {
      if answer == 1 {
        LearnFaultHasBeenFixed();
        waitingOnUserToAnswer := false;
        reply := KitFaultFixedDestroyAndTellGui;
      } else {
        Present(CaseVerifiedAndLearned, OPTIONS_MENU);
        reply := None;
      }
    }

    method ActOnUserVerifyCorrectHypoByChoosing() returns (reply: Reply)
      requires Valid() && answer < |hypoTally|
      modifies kbase, this`uaiTrueHypo, this`hypoTally, this`caseVerifiedAndLearned,
        this`handler, this`numOptions, this`answerMax, this`waitingOnUserToAnswer
      ensures Serving(old(kbase.LayoutNow()))
      ensures Outcome(State(), kbase.file.nodes, reply)
           == OnUserVerifyCorrectHypoByChoosing(old(State()), old(kbase.file.nodes), answer)
      ensures caseVerifiedAndLearned && uaiTrueHypo == old(hypoTally)[answer].id
    {
      assert HypoIds(hypoTally)[answer] == hypoTally[answer].id;
      reply := Verify(hypoTally[answer].id);
    }

    /** Updating an inference that can go on cannot fail. */
    method UpdateOnceMore()
      requires InferenceSound(InferenceNow())
      modifies this`hypoTally, this`uaiMappHypo, this`mappAt100pct
      ensures InferenceNow() == Updated(old(InferenceNow()), caseSpentKbase || caseBustsKbase)
    {
      UpdatedSound(InferenceNow(), false);
      var _ := UpdateBayesProbabilities();
    }

    /** The prompt regenerated from the case as it stands. */
    method RegenGuiFieldsPerCaseAsIs()
      requires !caseVerifiedAndLearned ==> InferenceSound(InferenceNow())
      modifies this`hypoTally, this`uaiMappHypo, this`mappAt100pct,
        this`handler, this`numOptions, this`answerMax, this`waitingOnUserToAnswer
      ensures State() == Regenerated(old(State()))
    {
      if ruleHasDiagnostics {
        if caseVerifiedAndLearned {
          Present(IsFaultFixed, OPTIONS_NO_YES_DNK);
        } else if caseSpentKbase {
          UpdateOnceMore();
          Present(CaseSpentOut, OPTIONS_MENU);
        } else if caseBustsKbase {
          Present(ShouldThisCaseBeDeleted, OPTIONS_NO_YES);
        } else {
          UpdateOnceMore();
          Present(TopMenuCaseInProcess, OPTIONS_TOP_MENU);
        }
      } else {
        Present(ShouldThisCaseBeDeleted, OPTIONS_NO_YES);
      }
    }

    /** What the current handler does about the answer. */
    method ActOnAnswer(ghost o: Outcome)
      returns (reply: Reply)
      requires Valid() && answer <= answerMax && ActsTo(State(), kbase.file.nodes, answer, o)
      modifies kbase, this
      ensures Serving(old(kbase.LayoutNow())) && Outcome(State(), kbase.file.nodes, reply) == o
    {
      ghost var s, nodes, a := State(), kbase.file.nodes, answer;
      match handler {
        case ShouldThisCaseBeDeleted => reply := ActOnShouldThisCaseBeDeleted();
        case EvaluatePromptedEvidenceQuery => reply := ActOnEvaluatePromptedEvidenceQuery();
        case CaseSpentOut => reply := ActOnVerifyMenu();
        case TopMenuCaseInProcess => reply := ActOnTopMenuCaseInProcess();
        case MappAt100Percent => reply := ActOnVerifyMenu();
        case CaseVerifiedAndLearned => reply := ActOnCaseVerifiedAndLearned();
        case IsMappHypoCorrect => reply := ActOnIsMappHypoCorrect();
        case IsAnyCaseHypoCorrect => reply := ActOnIsAnyCaseHypoCorrect();
        case UserVerifyCorrectHypoByChoosing => reply := ActOnUserVerifyCorrectHypoByChoosing();
        case IsFaultFixed => reply := ActOnIsFaultFixed();
      }
      assert OnAnswer(s, nodes, a) == o;
    }

    /** What the case itself does about the reply. */
    method Settle(reply: Reply)
      requires reply == CaseIdledByUserRegenGui && !caseVerifiedAndLearned ==> InferenceSound(InferenceNow())
      modifies this
      ensures Outcome(State(), kbase.file.nodes, reply) == Settled(Outcome(old(State()), kbase.file.nodes, reply))
    {
      match reply {
        case CaseEvidSkippedRollQueue => evidsUnevaluated := evidsUnevaluated + [uaiEvidUp];
        case CaseIdledByUserRegenGui => RegenGuiFieldsPerCaseAsIs();
        case _ =>
      }
    }

    method Accept(answerGuiSent: nat, ghost o: Outcome) returns (reply: Reply)
      requires Valid() && answerGuiSent <= answerMax
      requires ActsTo(Busy(State()), kbase.file.nodes, answerGuiSent, o)
      requires o.reply == CaseIdledByUserRegenGui && !o.state.verified ==> InferenceSound(o.state.inference)
      modifies kbase, this
      ensures Serving(old(kbase.LayoutNow())) && Outcome(State(), kbase.file.nodes, reply) == Settled(o)
    {
      BusyIsSound(State());
      answer := answerGuiSent;
      waitingOnUserToAnswer := false;
      assert State() == Busy(old(State()));
      reply := ActOnAnswer(o);
      Settle(reply);
    }

    /** An answer from the user, checked and acted on: one step of the dialogue. */
    method CheckAnswerValidThenSet(answerGuiSent: nat) returns (reply: Reply)
      requires Valid()
      modifies kbase, this
      ensures Valid() && Serving(old(kbase.LayoutNow()))
      ensures Outcome(State(), kbase.file.nodes, reply)
           == Step(old(State()), old(kbase.file.nodes), answerGuiSent)
    {
      ghost var before, nodes := State(), kbase.file.nodes;
      EveryStepIsGood(before, nodes, answerGuiSent);
      if answerGuiSent > answerMax {
        return KitAnswerNotAllowedTellGui;
      }
      if !waitingOnUserToAnswer {
        return KitCaseUserAccessClash;
      }
      ghost var o := StepActs(before, nodes, answerGuiSent);
      reply := Accept(answerGuiSent, o);
      assert SameCase(before, State());
    }

    /** The same, for those who only pass the answer along. */
    method TakeAnswer(answerGuiSent: nat) returns (reply: Reply, ghost o: Outcome)
      requires IsSound()
      modifies kbase, this
      ensures IsSound() && kbase.InOrder()
      ensures kbase.LayoutNow() == old(kbase.LayoutNow()) && old(kbase.file.nodes).Keys <= kbase.file.nodes.Keys
      ensures old(kbase.Agrees()) ==> kbase.Agrees()
      ensures StepsTo(old(State()), old(kbase.file.nodes), answerGuiSent, o)
      ensures o == Outcome(State(), kbase.file.nodes, reply)
    {
      SoundMeans();
      KnowledgeLife.StepGrowsWithin(State(), kbase.file.nodes, answerGuiSent);
      reply := CheckAnswerValidThenSet(answerGuiSent);
      SoundMeans();
      kbase.ServesMeans(caseRuleUai, caseHypos);
      kbase.OrderMeans();
      if old(kbase.Agrees()) {
        kbase.StaysInAgreement();
      }
      o := Outcome(State(), kbase.file.nodes, reply);
    }

    // ----- Coming and going -----

    static method Begin(kbase: KnowledgeBase, rule: Rule, timeTrapped: int,
                        hypos: seq<HypoTally>, evids: seq<nat>, sumPrior: nat)
      returns (c: Case?, fault: Fault)
      ensures fault == FaultOf(Begun(rule.ruleUai, rule.hasDiagnostics, hypos, evids, sumPrior))
      ensures if fault != NoFault then c == null
              else
                && c != null && fresh(c) && c.kbase == kbase && c.rule == rule && c.timeTrapped == timeTrapped
                && c.caseRuleUai == rule.ruleUai && c.caseHypos == HypoIds(hypos)
                && Begun(rule.ruleUai, rule.hasDiagnostics, hypos, evids, sumPrior) == Created(c.State())
    {
      c := new Case(kbase, rule, timeTrapped, hypos, evids, sumPrior);
      fault := c.UpdateBayesProbabilities();
      if fault != NoFault {
        c := null;
      }
    }

    /** A case that has begun on some hypotheses on file is sound. */
    lemma BeginsSound(hypos: seq<HypoTally>, evids: seq<nat>, sumPrior: nat)
      requires Started(kbase.Lookups(), rule.ruleUai, rule.hasDiagnostics, hypos, evids, sumPrior) == Created(State())
      requires hypos != [] && caseRuleUai == rule.ruleUai && caseHypos == HypoIds(hypos)
      requires Fresh(hypos, evids, sumPrior) && kbase.Sound() && CountedOnFile(kbase, rule.ruleUai, hypos, evids)
      ensures Valid() && IsSound() && waitingOnUserToAnswer
    {
      CreatedIff(kbase.Lookups(), rule.ruleUai, rule.hasDiagnostics, hypos, evids, sumPrior);
      TalliesNamed(kbase, rule.ruleUai, hypos, evids);
      forall i | 0 <= i < |caseHypos|
        ensures HypoInhabited(kbase.file, caseRuleUai, caseHypos[i])
      {
        assert caseHypos[i] in Range(HypoIds(hypos));
        InhabitedIsOfRule(kbase.file, caseRuleUai, caseHypos[i]);
      }
      kbase.ServesMeans(caseRuleUai, caseHypos);
      SoundMeans();
    }

    /** A case on a rule that has failed.  It takes the rule if it comes into being; the
        tallies it starts from are whatever the knowledge base has on file for the rule, if it can
        look all of that up. */
    static method Create(kbase: KnowledgeBase, rule: Rule, timeTrapped: int)
      returns (c: Case?, fault: Fault, ghost hypos: seq<HypoTally>, ghost evids: seq<nat>, ghost sumPrior: nat)
      requires kbase.Sound() && rule.Valid() && rule.SayMode() == Auto
      modifies kbase`ruleX, kbase`hypoY, kbase`evidZ, kbase`cursorAtActiveNode, kbase`nodeImage, rule`caseModeOffset
      ensures kbase.Sound() && (fault != IdNotNamed && old(kbase.Aligned()) ==> kbase.Aligned())
      ensures fault == IdNotNamed <==> !RuleKnown(kbase.Lookups(), kbase.file.nodes, rule.ruleUai)
      ensures fault != IdNotNamed ==>
                && Fresh(hypos, evids, sumPrior) && CountedOnFile(kbase, rule.ruleUai, hypos, evids)
                && fault
                == FaultOf(Started(kbase.Lookups(), rule.ruleUai, rule.hasDiagnostics, hypos, evids, sumPrior))
      ensures fault != NoFault ==> c == null && unchanged(rule)
      ensures fault == NoFault ==>
                && c != null && fresh(c) && c.kbase == kbase && c.rule == rule && c.timeTrapped == timeTrapped
                && Started(kbase.Lookups(), rule.ruleUai, rule.hasDiagnostics, hypos, evids, sumPrior)
                == Created(c.State())
                && rule.Valid() && rule.SayMode() == InCase
                && (hypos != [] ==> c.Valid() && c.IsSound() && c.waitingOnUserToAnswer)
    {
      hypos, evids, sumPrior := [], [], 0;
      var caseHypos, caseEvids, sumTrues, threw := kbase.InitializeCaseTallies(rule.ruleUai);
      if threw {
        return null, IdNotNamed, hypos, evids, sumPrior;
      }
      TalliesFresh(kbase, rule.ruleUai, caseHypos, caseEvids, sumTrues);
      hypos, evids, sumPrior := caseHypos, caseEvids, sumTrues;
      c, fault := Begin(kbase, rule, timeTrapped, caseHypos, caseEvids, sumTrues);
      if fault == NoFault {
        if hypos != [] {
          c.BeginsSound(hypos, evids, sumPrior);
        }
        rule.SetCaseModeTo(true);
      }
    }

    /** Whether there is something for the user to diagnose: else the case only notifies. */
    predicate HasHypos() {
      numHyposPrior > 0
    }

    /** The same, for those who only pass the case along. */
    static method CreateSound(kbase: KnowledgeBase, rule: Rule, timeTrapped: int)
      returns (c: Case?, fault: Fault, ghost e: KnowledgeLife.Event, ghost begun: Creation)
      requires kbase.InOrder() && rule.Valid() && rule.SayMode() == Auto
      modifies kbase`ruleX, kbase`hypoY, kbase`evidZ, kbase`cursorAtActiveNode, kbase`nodeImage, rule`caseModeOffset
      ensures kbase.InOrder() && rule.Valid()
      ensures fault == IdNotNamed <==> !RuleKnown(kbase.Lookups(), kbase.file.nodes, rule.ruleUai)
      ensures fault != IdNotNamed && HyposOfRule(kbase.file.nodes, rule.ruleUai) != {} ==>
                && KnowledgeLife.OpensTo(kbase.file.nodes, kbase.Lookups(), rule.ruleUai, e, begun)
                && fault == FaultOf(begun) && (fault == NoFault ==> c != null && begun == Created(c.State()))
      ensures fault != NoFault ==>
                c == null && rule.SayMode() == Auto && HyposOfRule(kbase.file.nodes, rule.ruleUai) != {}
      ensures fault == NoFault ==>
                && c != null && fresh(c) && c.kbase == kbase && c.rule == rule && c.timeTrapped == timeTrapped
                && (c.HasHypos() <==> HyposOfRule(kbase.file.nodes, rule.ruleUai) != {})
                && (c.HasHypos() ==> c.IsSound()) && c.waitingOnUserToAnswer && rule.SayMode() == InCase
    {
      kbase.OrderMeans();
      ghost var hypos, evids, sumPrior;
      c, fault, hypos, evids, sumPrior := Create(kbase, rule, timeTrapped);
      kbase.OrderMeans();
      e := KnowledgeLife.Opens(0, rule.ruleUai, rule.hasDiagnostics, hypos, evids, sumPrior);
      begun := Started(kbase.Lookups(), rule.ruleUai, rule.hasDiagnostics, hypos, evids, sumPrior);
      if fault == IdNotNamed {
        kbase.NothingUnknown(rule.ruleUai);
      } else if hypos == [] {
        assert Range(HypoIds(hypos)) == {};
      } else {
        assert HypoIds(hypos)[0] in Range(HypoIds(hypos));
        KnowledgeLife.SuppliedIsOnFile(kbase.file, kbase.mimicBase, rule.ruleUai, hypos, evids, sumPrior);
      }
    }

    /** What a case does as it goes: its rule is free to fail again. */
    method Release()
      requires rule.Valid() && rule.SayMode() == InCase
      modifies rule`caseModeOffset
      ensures rule.Valid() && rule.SayMode() == Auto
    {
      rule.SetCaseModeTo(false);
    }
  }
}
