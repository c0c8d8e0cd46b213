/** The life of a knowledge base: experts design it, and from then on cases are opened on what
    is on file and answered in any interleaving.  Whatever the users answer, the tables are
    those of the design taught with the lessons of the cases they verified. */
module KnowledgeLife {
  import opened Nodes
  import opened Tallies
  import opened OccurrenceTable
  import opened Bayes
  import opened Dialogue
  import opened DialogueSafety
  import opened CaseCreation
  import opened KnowBase

  /** The tables, the cases out under their keys, and what can be looked up. */
  datatype World = World(nodes: NodeMap, cases: map<nat, CaseState>, known: Known)

  datatype Event =
    | Opens(key: nat, rule: nat, hasDiagnostics: bool, hypos: seq<HypoTally>, evids: seq<nat>, sumPrior: nat)
    | Answers(key: nat, answer: nat)

  // ----- What is on file for a rule -----

  /** Tallies counted on file: `orders` are those in which the items of each hypothesis are met. */
  ghost predicate CountedIn(nodes: NodeMap, rule: nat, hypos: seq<HypoTally>, orders: seq<seq<nat>>) {
    && |orders| == |hypos|
    && forall i :: 0 <= i < |hypos| ==>
         && Distinct(orders[i]) && Range(orders[i]) == EvidsOf(nodes, rule, hypos[i].id)
         && hypos[i].priorCount == PriorCount(nodes, rule, hypos[i].id, orders[i])
  }

  ghost predicate OnFile(nodes: NodeMap, rule: nat, hypos: seq<HypoTally>, evids: seq<nat>, sumPrior: nat) {
    && Fresh(hypos, evids, sumPrior) && hypos != []
    && Range(HypoIds(hypos)) == HyposOfRule(nodes, rule) && Range(evids) == EvidsOfRule(nodes, rule)
    && exists orders :: CountedIn(nodes, rule, hypos, orders)
  }

  // ----- Events -----

  ghost predicate InOrder(w: World) {
    NonNegative(w.nodes) && forall k :: k in w.cases ==> Sound(w.cases[k])
  }

  /** A case begins on what is on file, as the knowledge base object supplies it. */
  lemma SuppliedIsOnFile(f: KbFile, m: Mimic, rule: nat, hypos: seq<HypoTally>, evids: seq<nat>, sumPrior: nat)
    requires Indexed(f, m) && Fresh(hypos, evids, sumPrior) && hypos != []
    requires PriorsCounted(f.nodes, m, rule, hypos)
    requires Range(HypoIds(hypos)) == HyposOfRule(f.nodes, rule) && Range(evids) == EvidsOfRule(f.nodes, rule)
    ensures OnFile(f.nodes, rule, hypos, evids, sumPrior)
  {
    var orders := seq(|hypos|, i requires 0 <= i < |hypos| =>
      if HasSlot(m, rule, hypos[i].id) then m[rule][hypos[i].id] else []);
    forall i | 0 <= i < |hypos|
      ensures Distinct(orders[i]) && Range(orders[i]) == EvidsOf(f.nodes, rule, hypos[i].id)
    {
      SlotIsInOrder(f, m, rule, hypos[i].id);
    }
    assert CountedIn(f.nodes, rule, hypos, orders);
  }

  lemma SlotIsInOrder(f: KbFile, m: Mimic, rule: nat, hypo: nat)
    requires Indexed(f, m) && HasSlot(m, rule, hypo)
    ensures Distinct(m[rule][hypo]) && Range(m[rule][hypo]) == EvidsOf(f.nodes, rule, hypo)
  {
    forall e: nat
      ensures e in m[rule][hypo] <==> e in EvidsOf(f.nodes, rule, hypo)
    {
      assert Mentions(m, NodeKey(rule, hypo, e)) <==> NodeKey(rule, hypo, e) in f.nodes;
    }
  }

  /** The case at a key answered: it stays out unless it asks to be destroyed. */
  ghost function Answered(w: World, key: nat, answer: nat): World
    requires key in w.cases && Sound(w.cases[key]) && NonNegative(w.nodes)
  {
    var o := Step(w.cases[key], w.nodes, answer);
    World(o.nodes, if AsksToDestroy(o.reply) then w.cases - {key} else w.cases[key := o.state], w.known)
  }

  /** The same case opened, under the key given. */
  function Under(e: Event, key: nat): (f: Event)
    requires e.Opens?
  {
    Opens(key, e.rule, e.hasDiagnostics, e.hypos, e.evids, e.sumPrior)
  }

  /** What opening a case on what is on file for the rule comes to. */
  ghost predicate OpensTo(nodes: NodeMap, known: Known, rule: nat, e: Event, c: Creation) {
    && e.Opens? && e.rule == rule && OnFile(nodes, rule, e.hypos, e.evids, e.sumPrior)
    && c == Started(known, rule, e.hasDiagnostics, e.hypos, e.evids, e.sumPrior)
  }

  /** A world out of order may go on in any way. */
  ghost predicate Next(w: World, e: Event, after: World) {
    match e
    case Opens(key, rule, hasDiagnostics, hypos, evids, sumPrior) =>
      && key !in w.cases && OnFile(w.nodes, rule, hypos, evids, sumPrior)
      && var c := Started(w.known, rule, hasDiagnostics, hypos, evids, sumPrior);
         after == if c.Created? then w.(cases := w.cases[key := c.state]) else w
    case Answers(key, answer) =>
      if key !in w.cases then after == w
      else Sound(w.cases[key]) && NonNegative(w.nodes) ==> after == Answered(w, key, answer)
  }

  /** The event leads to `after`, stated so that those who only pass that on need not look into
      it: of every `w` that is `after`, and unfolded where `Next` is named of it. */
  ghost predicate LeadsTo(before: World, e: Event, after: World) {
    forall w {:trigger Next(before, e, w)} :: w == after ==> Next(before, e, w)
  }

  lemma LeadsToMeans(before: World, e: Event, after: World)
    ensures LeadsTo(before, e, after) <==> Next(before, e, after)
  {
    assert Next(before, e, after) || !Next(before, e, after);
  }

  /** A world with what others have out on the same knowledge base, under keys of their own. */
  function Beside(w: World, others: map<nat, CaseState>): World {
    w.(cases := w.cases + others)
  }

  lemma CasesBeside(cases: map<nat, CaseState>, others: map<nat, CaseState>, key: nat, s: CaseState)
    requires key !in others
    ensures (cases + others) - {key} == (cases - {key}) + others
    ensures (cases + others)[key := s] == cases[key := s] + others
    ensures key in cases + others <==> key in cases
    ensures key in cases ==> (cases + others)[key] == cases[key]
  {
  }

  lemma AnsweredBeside(w: World, key: nat, answer: nat, others: map<nat, CaseState>)
    requires key in w.cases && Sound(w.cases[key]) && NonNegative(w.nodes) && key !in others
    ensures key in Beside(w, others).cases && Beside(w, others).cases[key] == w.cases[key]
    ensures Answered(Beside(w, others), key, answer) == Beside(Answered(w, key, answer), others)
  {
    CasesBeside(w.cases, others, key, Step(w.cases[key], w.nodes, answer).state);
  }

  /** Their cases make no difference: an event in a part of the world is one in the whole. */
  lemma NextBeside(w: World, e: Event, after: World, others: map<nat, CaseState>)
    requires Next(w, e, after) && e.key !in others
    ensures Next(Beside(w, others), e, Beside(after, others))
  {
    match e {
      case Opens(key, rule, hasDiagnostics, hypos, evids, sumPrior) =>
        var c := Started(w.known, rule, hasDiagnostics, hypos, evids, sumPrior);
        if c.Created? {
          CasesBeside(w.cases, others, key, c.state);
        }
      case Answers(key, answer) =>
        if key in w.cases && Sound(w.cases[key]) && NonNegative(w.nodes) {
          AnsweredBeside(w, key, answer, others);
        }
    }
  }

  /** The lesson, if any, that an event teaches. */
  ghost function LessonOf(w: World, e: Event): seq<Teaching> {
    match e
    case Opens(_, _, _, _, _, _) => []
    case Answers(key, answer) =>
      if key in w.cases && Sound(w.cases[key]) && NonNegative(w.nodes) then
        var t := Step(w.cases[key], w.nodes, answer).state;
        if !w.cases[key].verified && t.verified then [Lesson(t)] else []
      else []
  }

  ghost predicate IsRun(states: seq<World>, events: seq<Event>) {
    && |states| == |events| + 1
    && forall i :: 0 <= i < |events| ==> Next(states[i], events[i], states[i + 1])
  }

  /** The lessons of the cases verified in the first `n` events. */
  ghost function History(states: seq<World>, events: seq<Event>, n: nat): seq<Teaching>
    requires n <= |events| && n < |states|
  {
    if n == 0 then [] else History(states, events, n - 1) + LessonOf(states[n - 1], events[n - 1])
  }

  // ----- The tables are the design and the lessons -----

  lemma OpeningKeeps(w: World, e: Event, after: World)
    requires InOrder(w) && e.Opens? && Next(w, e, after)
    ensures InOrder(after) && after.nodes == w.nodes && after.known == w.known
  {
    CreatedIff(w.known, e.rule, e.hasDiagnostics, e.hypos, e.evids, e.sumPrior);
  }

  lemma AnsweringKeeps(w: World, e: Event, after: World)
    requires InOrder(w) && e.Answers? && Next(w, e, after)
    ensures InOrder(after) && after.known == w.known
    ensures LessonOf(w, e) == [] ==> SameCounts(after.nodes, w.nodes)
    ensures LessonOf(w, e) != [] ==>
              && LessonOf(w, e) == [LessonOf(w, e)[0]] && WellFormed(LessonOf(w, e)[0])
              && after.nodes == Taught(w.nodes, LessonOf(w, e)[0])
  {
    if e.key in w.cases {
      var s := w.cases[e.key];
      var o := Step(s, w.nodes, e.answer);
      EveryStepIsGood(s, w.nodes, e.answer);
      StepTeaches(s, w.nodes, e.answer);
      StepKeepsNonNegative(s, w.nodes, o);
    }
  }

  lemma LessonTeaches(w: World, after: World, nodes: NodeMap, history: seq<Teaching>, t: Teaching)
    requires AllWellFormed(history) && WellFormed(t) && SameCounts(w.nodes, TaughtAll(nodes, history))
    requires after.nodes == Taught(w.nodes, t)
    ensures AllWellFormed(history + [t]) && SameCounts(after.nodes, TaughtAll(nodes, history + [t]))
  {
    assert (history + [t])[..|history|] == history;
    TaughtSameCounts(w.nodes, TaughtAll(nodes, history), t);
  }

  lemma EventTeaches(w: World, e: Event, after: World, nodes: NodeMap, history: seq<Teaching>)
    requires InOrder(w) && Next(w, e, after)
    requires AllWellFormed(history) && SameCounts(w.nodes, TaughtAll(nodes, history))
    ensures InOrder(after) && after.known == w.known && AllWellFormed(history + LessonOf(w, e))
    ensures SameCounts(after.nodes, TaughtAll(nodes, history + LessonOf(w, e)))
  {
    var lesson := LessonOf(w, e);
    if e.Opens? {
      OpeningKeeps(w, e, after);
    } else {
      AnsweringKeeps(w, e, after);
    }
    if lesson == [] {
      assert history + lesson == history;
      SameCountsThrough(after.nodes, w.nodes, TaughtAll(nodes, history));
    } else {
      LessonTeaches(w, after, nodes, history, lesson[0]);
    }
  }

  lemma SameCountsThrough(a: NodeMap, b: NodeMap, c: NodeMap)
    requires SameCounts(a, b) && SameCounts(b, c)
    ensures SameCounts(a, c)
  {
    forall k
      ensures At(a, k) == At(c, k)
    {
      assert At(a, k) == At(b, k);
    }
  }

  /** Over every interleaving of cases opened and answered, every case stays sound, and the
      tables hold the counts they held at first, taught with the lessons of the cases
      verified - and nothing else. */
  lemma {:induction false} TablesAreTaughtByLessons(states: seq<World>, events: seq<Event>, n: nat)
    requires IsRun(states, events) && n <= |events| && InOrder(states[0])
    ensures InOrder(states[n]) && states[n].known == states[0].known && AllWellFormed(History(states, events, n))
    ensures SameCounts(states[n].nodes, TaughtAll(states[0].nodes, History(states, events, n)))
  {
    if n > 0 {
      TablesAreTaughtByLessons(states, events, n - 1);
      EventTeaches(states[n - 1], events[n - 1], states[n], states[0].nodes, History(states, events, n - 1));
    }
  }

  // ----- A case stays within its own nodes -----

  /** No table is lost, and those gained are at hypotheses and items of the case. */
  ghost predicate GrowsWithin(nodes: NodeMap, after: NodeMap, s: CaseState) {
    && (forall k :: k in nodes ==> k in after)
    && (forall k :: k in after && k !in nodes ==>
          k.rule == s.rule && k.hypo in HypoIds(s.inference.hypos) && k.evid in EvidIds(s.evidence.evids))
  }

  lemma VisitsGrowWithin(nodes: NodeMap, s: CaseState)
    requires s.evidence.up in EvidIds(s.evidence.evids)
    ensures GrowsWithin(nodes, Touched(nodes, NodesVisited(s.inference.hypos, s.rule, s.evidence.up)), s)
  {
    var hypos, visited := s.inference.hypos, NodesVisited(s.inference.hypos, s.rule, s.evidence.up);
    forall k | k in visited
      ensures k.rule == s.rule && k.hypo in HypoIds(hypos) && k.evid == s.evidence.up
    {
      var i :| 0 <= i < |hypos| && Alive(hypos[i]) && k == NodeKey(s.rule, hypos[i].id, s.evidence.up);
      assert HypoIds(hypos)[i] == k.hypo;
    }
  }

  lemma LessonGrowsWithin(nodes: NodeMap, s: CaseState, trueHypo: nat)
    requires Sound(s) && trueHypo in HypoIds(s.inference.hypos)
    ensures GrowsWithin(nodes, OnVerified(s, nodes, trueHypo).nodes, s)
  {
    var t := s.(trueHypo := trueHypo);
    LessonWellFormed(t, IsAsking(s));
    assert OnVerified(s, nodes, trueHypo).nodes == Taught(nodes, Lesson(t));
    forall k | k in CaseKeys(Lesson(t))
      ensures k.rule == s.rule && k.hypo in HypoIds(s.inference.hypos) && k.evid in EvidIds(s.evidence.evids)
    {
    }
  }

  lemma FixGrowsWithin(nodes: NodeMap, s: CaseState, answer: nat)
    requires Sound(s) && (s.verified ==> s.trueHypo in HypoIds(s.inference.hypos))
    ensures GrowsWithin(nodes, OnIsFaultFixed(s, nodes, answer).nodes, s)
  {
  }

  lemma ActionGrowsWithin(s: CaseState, nodes: NodeMap, answer: nat)
    requires Sound(s) && NonNegative(nodes) && answer <= s.prompt.answerMax
    ensures GrowsWithin(nodes, OnAnswer(s, nodes, answer).nodes, s)
  {
    match s.prompt.handler {
      case EvaluatePromptedEvidenceQuery => VisitsGrowWithin(nodes, s);
      case IsMappHypoCorrect => LessonGrowsWithin(nodes, s, s.inference.mapp);
      case UserVerifyCorrectHypoByChoosing =>
        assert HypoIds(s.inference.hypos)[answer] == s.inference.hypos[answer].id;
        LessonGrowsWithin(nodes, s, s.inference.hypos[answer].id);
      case IsFaultFixed => FixGrowsWithin(nodes, s, answer);
      case _ =>
    }
  }

  lemma StepGrowsWithin(s: CaseState, nodes: NodeMap, answer: nat)
    requires Sound(s) && NonNegative(nodes)
    ensures GrowsWithin(nodes, Step(s, nodes, answer).nodes, s)
  {
    if Accepts(s, answer) {
      IdledIsUnchanged(Busy(s), nodes, answer);
      ActionGrowsWithin(Busy(s), nodes, answer);
    }
  }

  // ----- A rule's nodes are its hypotheses by its items -----

  /** The rule has a table for each of its hypotheses at each of its items, and no others. */
  ghost predicate Covers(nodes: NodeMap, rule: nat, hypos: set<nat>, evids: set<nat>) {
    forall h: nat, e: nat {:trigger NodeKey(rule, h, e)} :: NodeKey(rule, h, e) in nodes <==> h in hypos && e in evids
  }

  predicate CaseCovers(s: CaseState, hypos: set<nat>, evids: set<nat>) {
    Range(HypoIds(s.inference.hypos)) == hypos && Range(EvidIds(s.evidence.evids)) == evids
  }

  /** And so has every case on it. */
  ghost predicate CoveredBy(w: World, rule: nat, hypos: set<nat>, evids: set<nat>) {
    && Covers(w.nodes, rule, hypos, evids)
    && forall k :: k in w.cases && w.cases[k].rule == rule ==> CaseCovers(w.cases[k], hypos, evids)
  }

  lemma CoverHasHypos(nodes: NodeMap, rule: nat, hypos: set<nat>, evids: set<nat>, e0: nat)
    requires Covers(nodes, rule, hypos, evids) && e0 in evids
    ensures HyposOfRule(nodes, rule) == hypos
  {
    forall h
      ensures h in HyposOfRule(nodes, rule) <==> h in hypos
    {
      assert h in hypos ==> NodeKey(rule, h, e0) in nodes;
      if h in HyposOfRule(nodes, rule) {
        var k :| k in nodes && k.rule == rule && k.hypo == h;
        assert k == NodeKey(rule, h, k.evid);
      }
    }
  }

  lemma CoverHasEvids(nodes: NodeMap, rule: nat, hypos: set<nat>, evids: set<nat>, h0: nat)
    requires Covers(nodes, rule, hypos, evids) && h0 in hypos
    ensures EvidsOfRule(nodes, rule) == evids && EvidsOf(nodes, rule, h0) == evids
  {
    forall e
      ensures e in EvidsOfRule(nodes, rule) <==> e in evids
      ensures e in EvidsOf(nodes, rule, h0) <==> e in evids
    {
      assert NodeKey(rule, h0, e) in nodes <==> e in evids;
      if e in EvidsOfRule(nodes, rule) {
        var k :| k in nodes && k.rule == rule && k.evid == e;
        assert k == NodeKey(rule, k.hypo, e);
      }
    }
  }

  lemma CoverIsOnFile(nodes: NodeMap, rule: nat, hypos: set<nat>, evids: set<nat>)
    requires Covers(nodes, rule, hypos, evids) && hypos != {} && evids != {}
    ensures HyposOfRule(nodes, rule) == hypos && EvidsOfRule(nodes, rule) == evids
    ensures forall h :: h in hypos ==> EvidsOf(nodes, rule, h) == evids
  {
    var e0 :| e0 in evids;
    var h0 :| h0 in hypos;
    CoverHasHypos(nodes, rule, hypos, evids, e0);
    CoverHasEvids(nodes, rule, hypos, evids, h0);
    forall h | h in hypos
      ensures EvidsOf(nodes, rule, h) == evids
    {
      CoverHasEvids(nodes, rule, hypos, evids, h);
    }
  }

  lemma GrowthKeepsCover(nodes: NodeMap, after: NodeMap, s: CaseState, rule: nat, hypos: set<nat>, evids: set<nat>)
    requires Covers(nodes, rule, hypos, evids) && GrowsWithin(nodes, after, s)
    requires s.rule == rule ==> CaseCovers(s, hypos, evids)
    ensures Covers(after, rule, hypos, evids)
  {
    forall h: nat, e: nat
      ensures NodeKey(rule, h, e) in after <==> h in hypos && e in evids
    {
      assert s.rule == rule ==> (h in HypoIds(s.inference.hypos) <==> h in Range(HypoIds(s.inference.hypos)));
      assert s.rule == rule ==> (e in EvidIds(s.evidence.evids) <==> e in Range(EvidIds(s.evidence.evids)));
    }
  }

  lemma OpeningKeepsCover(w: World, e: Event, after: World, rule: nat, hypos: set<nat>, evids: set<nat>)
    requires e.Opens? && Next(w, e, after) && CoveredBy(w, rule, hypos, evids) && hypos != {} && evids != {}
    ensures CoveredBy(after, rule, hypos, evids)
  {
    CreatedIff(w.known, e.rule, e.hasDiagnostics, e.hypos, e.evids, e.sumPrior);
    CoverIsOnFile(w.nodes, rule, hypos, evids);
  }

  /** The lessons of the rule cover it. */
  ghost predicate LessonsCover(history: seq<Teaching>, rule: nat, hypos: set<nat>, evids: set<nat>) {
    forall t :: t in history && t.rule == rule ==> t.hypos == hypos && t.status.Keys == evids
  }

  lemma LessonCovers(s: CaseState, t: CaseState, rule: nat, hypos: set<nat>, evids: set<nat>)
    requires SameCase(s, t) && (s.rule == rule ==> CaseCovers(s, hypos, evids))
    ensures t.rule == rule ==> CaseCovers(t, hypos, evids)
    ensures LessonsCover([Lesson(t)], rule, hypos, evids)
  {
    assert Lesson(t).status.Keys == Range(EvidIds(t.evidence.evids));
  }

  lemma AnsweringKeepsCover(w: World, e: Event, after: World, rule: nat, hypos: set<nat>, evids: set<nat>)
    requires InOrder(w) && e.Answers? && Next(w, e, after) && CoveredBy(w, rule, hypos, evids)
    ensures CoveredBy(after, rule, hypos, evids)
    ensures LessonsCover(LessonOf(w, e), rule, hypos, evids)
  {
    if e.key in w.cases {
      var s := w.cases[e.key];
      StepTeaches(s, w.nodes, e.answer);
      StepGrowsWithin(s, w.nodes, e.answer);
      GrowthKeepsCover(w.nodes, after.nodes, s, rule, hypos, evids);
      LessonCovers(s, Step(s, w.nodes, e.answer).state, rule, hypos, evids);
    }
  }

  lemma {:induction false} RunKeepsCover(states: seq<World>, events: seq<Event>, n: nat,
                                         rule: nat, hypos: set<nat>, evids: set<nat>)
    requires IsRun(states, events) && n <= |events| && InOrder(states[0])
    requires CoveredBy(states[0], rule, hypos, evids) && hypos != {} && evids != {}
    ensures CoveredBy(states[n], rule, hypos, evids)
    ensures LessonsCover(History(states, events, n), rule, hypos, evids)
  {
    if n > 0 {
      RunKeepsCover(states, events, n - 1, rule, hypos, evids);
      TablesAreTaughtByLessons(states, events, n - 1);
      if events[n - 1].Opens? {
        OpeningKeepsCover(states[n - 1], events[n - 1], states[n], rule, hypos, evids);
      } else {
        AnsweringKeepsCover(states[n - 1], events[n - 1], states[n], rule, hypos, evids);
      }
    }
  }

  // ----- From the first day on -----

  function EvidsNamed(assocs: seq<Association>): set<nat> {
    KnownBy(assocs).evids
  }

  lemma {:induction false} DesignCovers(base: NodeMap, rule: nat, design: seq<nat>, assocs: seq<Association>)
    requires IsDesign(base, rule, design, assocs)
    ensures Covers(Built(base, rule, design, assocs), rule, Range(design), EvidsNamed(assocs))
  {
    if assocs != [] {
      var front, last := assocs[..|assocs| - 1], assocs[|assocs| - 1];
      DesignCovers(base, rule, design, front);
      forall e
        ensures e in EvidsNamed(assocs) <==> e in EvidsNamed(front) || e == last.evid
      {
        if e in EvidsNamed(assocs) {
          var a :| a in assocs && a.evid == e;
          assert a in front || a == last;
        }
        assert last in assocs && forall a :: a in front ==> a in assocs;
      }
      assert forall h: nat, e: nat :: NodeKey(rule, h, e) in KeysAt(rule, Range(design), last.evid) <==>
                                        h in Range(design) && e == last.evid;
    }
  }

  /** The world on the day the design is done. */
  function FirstDay(base: NodeMap, rule: nat, design: seq<nat>, assocs: seq<Association>, known: Known): World {
    World(Built(base, rule, design, assocs), map[], known)
  }

  /** What every later day has kept of it. */
  lemma LifeOfDesign(base: NodeMap, rule: nat, design: seq<nat>, assocs: seq<Association>, known: Known,
                     states: seq<World>, events: seq<Event>, n: nat)
    requires IsDesign(base, rule, design, assocs) && assocs != []
    requires IsRun(states, events) && n <= |events| && states[0] == FirstDay(base, rule, design, assocs, known)
    ensures InOrder(states[n]) && states[n].known == known && AllWellFormed(History(states, events, n))
    ensures SameCounts(states[n].nodes, TaughtAll(Built(base, rule, design, assocs), History(states, events, n)))
    ensures design != [] && Range(design) != {} && EvidsNamed(assocs) != {}
    ensures CoveredBy(states[n], rule, Range(design), EvidsNamed(assocs))
    ensures LessonsCover(History(states, events, n), rule, Range(design), EvidsNamed(assocs))
  {
    DesignNonNegative(base, rule, design, assocs);
    DesignCovers(base, rule, design, assocs);
    assert assocs[0] in assocs && assocs[0].nominal in Range(design) && assocs[0].evid in EvidsNamed(assocs);
    TablesAreTaughtByLessons(states, events, n);
    RunKeepsCover(states, events, n, rule, Range(design), EvidsNamed(assocs));
  }

  lemma ConsistentSinceIff(base: NodeMap, rule: nat, design: seq<nat>, assocs: seq<Association>, known: Known,
                           states: seq<World>, events: seq<Event>, n: nat, evid: nat)
    requires IsDesign(base, rule, design, assocs) && exists a :: a in assocs && a.evid == evid
    requires IsRun(states, events) && n <= |events| && states[0] == FirstDay(base, rule, design, assocs, known)
    ensures Consistent(states[n].nodes, rule, design, evid) <==> LastNaming(assocs, evid).invertible || |design| == 1
  {
    LifeOfDesign(base, rule, design, assocs, known, states, events, n);
    var history := History(states, events, n);
    var taught := TaughtAll(Built(base, rule, design, assocs), history);
    ConsistentForLifeIff(rule, design, assocs, evid, base, history);
    SameDiscrepancies(states[n].nodes, taught, rule, design, evid);
  }

  lemma {:induction false} SamePriorCount(a: NodeMap, b: NodeMap, rule: nat, hypo: nat, order: seq<nat>)
    requires SameCounts(a, b)
    ensures PriorCount(a, rule, hypo, order) == PriorCount(b, rule, hypo, order)
  {
    if order != [] {
      SamePriorCount(a, b, rule, hypo, order[..|order| - 1]);
      assert At(a, NodeKey(rule, hypo, order[|order| - 1])) == At(b, NodeKey(rule, hypo, order[|order| - 1]));
    }
  }

  /** What is on file for the rule has been counted over all its items, whatever the orders. */
  lemma CountedOverItems(nodes: NodeMap, base: NodeMap, rule: nat, design: seq<nat>, assocs: seq<Association>,
                         history: seq<Teaching>, hypos: seq<HypoTally>, orders: seq<seq<nat>>, evids: seq<nat>)
    requires AllWellFormed(history) && SameCounts(nodes, TaughtAll(Built(base, rule, design, assocs), history))
    requires CountedIn(nodes, rule, hypos, orders) && Range(HypoIds(hypos)) == Range(design)
    requires forall h :: h in Range(design) ==> EvidsOf(nodes, rule, h) == Range(evids)
    ensures CountedOnDesign(hypos, base, rule, design, assocs, history, orders) && OrdersOf(orders, evids)
  {
    forall i | 0 <= i < |hypos|
      ensures Distinct(orders[i]) && Range(orders[i]) == Range(evids)
      ensures hypos[i].priorCount
           == PriorCount(TaughtAll(Built(base, rule, design, assocs), history), rule, hypos[i].id, orders[i])
    {
      assert HypoIds(hypos)[i] in Range(HypoIds(hypos));
      SamePriorCount(nodes, TaughtAll(Built(base, rule, design, assocs), history), rule, hypos[i].id, orders[i]);
    }
  }

  lemma NamedByDesign(assocs: seq<Association>, evids: seq<nat>)
    requires assocs != [] && Range(evids) == EvidsNamed(assocs)
    ensures evids != [] && AllNamed(assocs, Range(evids))
  {
    assert assocs[0] in assocs && assocs[0].evid in Range(evids);
    forall e | e in Range(evids)
      ensures exists a :: a in assocs && a.evid == e
    {
      assert e in EvidsNamed(assocs);
    }
  }

  lemma OrdersOnDesign(nodes: NodeMap, base: NodeMap, rule: nat, design: seq<nat>, assocs: seq<Association>,
                       history: seq<Teaching>, hypos: seq<HypoTally>, evids: seq<nat>, sumPrior: nat)
    returns (orders: seq<seq<nat>>)
    requires AllWellFormed(history) && SameCounts(nodes, TaughtAll(Built(base, rule, design, assocs), history))
    requires Covers(nodes, rule, Range(design), EvidsNamed(assocs)) && design != [] && assocs != []
    requires OnFile(nodes, rule, hypos, evids, sumPrior)
    ensures Range(HypoIds(hypos)) == Range(design) && evids != []
    ensures Range(evids) == EvidsNamed(assocs) && AllNamed(assocs, Range(evids))
    ensures CountedOnDesign(hypos, base, rule, design, assocs, history, orders) && OrdersOf(orders, evids)
  {
    assert design[0] in Range(design) && assocs[0] in assocs && assocs[0].evid in EvidsNamed(assocs);
    CoverIsOnFile(nodes, rule, Range(design), EvidsNamed(assocs));
    NamedByDesign(assocs, evids);
    orders :| CountedIn(nodes, rule, hypos, orders);
    CountedOverItems(nodes, base, rule, design, assocs, history, hypos, orders, evids);
  }

  lemma OpensSinceIff(base: NodeMap, rule: nat, design: seq<nat>, assocs: seq<Association>, known: Known,
                      states: seq<World>, events: seq<Event>, n: nat,
                      hasDiagnostics: bool, hypos: seq<HypoTally>, evids: seq<nat>, sumPrior: nat)
    requires IsDesign(base, rule, design, assocs) && assocs != []
    requires IsRun(states, events) && n <= |events| && states[0] == FirstDay(base, rule, design, assocs, known)
    requires OnFile(states[n].nodes, rule, hypos, evids, sumPrior)
    ensures var history := History(states, events, n);
            Started(states[n].known, rule, hasDiagnostics, hypos, evids, sumPrior).Created? <==>
              && Range(design) <= known.hypos && EvidsNamed(assocs) <= known.evids
              && |hypos| + TimesTaught(history, rule) <= 1000 * (1 + TimesTrue(history, rule, hypos[0].id))
  {
    LifeOfDesign(base, rule, design, assocs, known, states, events, n);
    var history := History(states, events, n);
    var orders := OrdersOnDesign(states[n].nodes, base, rule, design, assocs, history, hypos, evids, sumPrior);
    CreatedOnDesignIff(known, rule, hasDiagnostics, hypos, evids, sumPrior, base, design, assocs, history, orders);
  }

  // ----- All rules designed -----

  datatype Design = Design(rule: nat, hypos: seq<nat>, assocs: seq<Association>)

  /** The rules built into a knowledge base one after another. */
  function AllBuilt(base: NodeMap, designs: seq<Design>): NodeMap {
    if designs == [] then base
    else
      var last := designs[|designs| - 1];
      Built(AllBuilt(base, designs[..|designs| - 1]), last.rule, last.hypos, last.assocs)
  }

  /** All that the experts said, of whatever rule: what can be looked up is not kept by rule. */
  function Said(designs: seq<Design>): seq<Association> {
    if designs == [] then [] else Said(designs[..|designs| - 1]) + designs[|designs| - 1].assocs
  }

  lemma {:induction false} SaidOf(designs: seq<Design>, i: nat)
    requires i < |designs|
    ensures EvidsNamed(designs[i].assocs) <= KnownBy(Said(designs)).evids
  {
    var n := |designs| - 1;
    var front := Said(designs[..n]);
    assert forall a :: a in Said(designs) <==> a in front || a in designs[n].assocs;
    if i < n {
      SaidOf(designs[..n], i);
    }
  }

  /** The world on the day all rules are designed. */
  function FirstDayOfAll(base: NodeMap, designs: seq<Design>): World {
    World(AllBuilt(base, designs), map[], KnownBy(Said(designs)))
  }

  /** Designs of different rules, with nothing on file for any of them yet. */
  ghost predicate AreDesigns(base: NodeMap, designs: seq<Design>) {
    && NonNegative(base)
    && (forall i :: 0 <= i < |designs| ==> IsDesign(base, designs[i].rule, designs[i].hypos, designs[i].assocs))
    && forall i, j :: 0 <= i < j < |designs| ==> designs[i].rule != designs[j].rule
  }

  ghost predicate AgreeOn(a: NodeMap, b: NodeMap, rule: nat) {
    forall k: NodeKey :: k.rule == rule ==> (k in a <==> k in b) && (k in a && k in b ==> a[k] == b[k])
  }

  lemma {:induction false} BuiltElsewhere(nodes: NodeMap, d: Design, rule: nat)
    requires rule != d.rule
    ensures AgreeOn(Built(nodes, d.rule, d.hypos, d.assocs), nodes, rule)
    decreases d.assocs
  {
    if d.assocs != [] {
      BuiltElsewhere(nodes, d.(assocs := d.assocs[..|d.assocs| - 1]), rule);
    }
  }

  lemma {:induction false} BuiltAlike(a: NodeMap, b: NodeMap, d: Design)
    requires AgreeOn(a, b, d.rule)
    ensures AgreeOn(Built(a, d.rule, d.hypos, d.assocs), Built(b, d.rule, d.hypos, d.assocs), d.rule)
    decreases d.assocs
  {
    if d.assocs != [] {
      BuiltAlike(a, b, d.(assocs := d.assocs[..|d.assocs| - 1]));
    }
  }

  lemma {:induction false} AllBuiltElsewhere(base: NodeMap, designs: seq<Design>, rule: nat)
    requires forall i :: 0 <= i < |designs| ==> designs[i].rule != rule
    ensures AgreeOn(AllBuilt(base, designs), base, rule)
  {
    if designs != [] {
      AllBuiltElsewhere(base, designs[..|designs| - 1], rule);
      BuiltElsewhere(AllBuilt(base, designs[..|designs| - 1]), designs[|designs| - 1], rule);
    }
  }

  lemma FrontAreDesigns(base: NodeMap, designs: seq<Design>)
    requires AreDesigns(base, designs) && designs != []
    ensures AreDesigns(base, designs[..|designs| - 1])
    ensures forall i :: 0 <= i < |designs| - 1 ==> designs[i].rule != designs[|designs| - 1].rule
  {
  }

  lemma {:induction false} AllBuiltOn(base: NodeMap, designs: seq<Design>, i: nat)
    requires AreDesigns(base, designs) && i < |designs|
    ensures AgreeOn(AllBuilt(base, designs),
                    Built(base, designs[i].rule, designs[i].hypos, designs[i].assocs), designs[i].rule)
  {
    var n, d := |designs| - 1, designs[i];
    FrontAreDesigns(base, designs);
    if i == n {
      AllBuiltElsewhere(base, designs[..n], d.rule);
      BuiltAlike(AllBuilt(base, designs[..n]), base, d);
    } else {
      AllBuiltOn(base, designs[..n], i);
      BuiltElsewhere(AllBuilt(base, designs[..n]), designs[n], d.rule);
    }
  }

  lemma {:induction false} AllBuiltNonNegative(base: NodeMap, designs: seq<Design>)
    requires AreDesigns(base, designs)
    ensures NonNegative(AllBuilt(base, designs))
  {
    if designs != [] {
      var n := |designs| - 1;
      FrontAreDesigns(base, designs);
      AllBuiltNonNegative(base, designs[..n]);
      AllBuiltElsewhere(base, designs[..n], designs[n].rule);
      DesignNonNegative(AllBuilt(base, designs[..n]), designs[n].rule, designs[n].hypos, designs[n].assocs);
    }
  }

  function WithoutRule(nodes: NodeMap, rule: nat): NodeMap {
    map k | k in nodes && k.rule != rule :: nodes[k]
  }

  /** Whatever the order, each rule may be taken for the one built last. */
  lemma AsIfBuiltLast(base: NodeMap, designs: seq<Design>, i: nat)
    requires AreDesigns(base, designs) && i < |designs|
    ensures var d, all := designs[i], AllBuilt(base, designs);
            && IsDesign(WithoutRule(all, d.rule), d.rule, d.hypos, d.assocs)
            && all == Built(WithoutRule(all, d.rule), d.rule, d.hypos, d.assocs)
  {
    var d, all := designs[i], AllBuilt(base, designs);
    var rest := WithoutRule(all, d.rule);
    AllBuiltNonNegative(base, designs);
    AllBuiltOn(base, designs, i);
    BuiltAlike(rest, base, d);
    var again := Built(rest, d.rule, d.hypos, d.assocs);
    forall k: NodeKey
      ensures (k in all <==> k in again) && (k in all && k in again ==> all[k] == again[k])
    {
      if k.rule != d.rule {
        BuiltElsewhere(rest, d, k.rule);
      }
    }
  }

  lemma HyposNamedIff(assocs: seq<Association>, hypos: seq<nat>)
    ensures Range(hypos) <= KnownBy(assocs).hypos
       <==> forall h :: h in hypos ==> exists a :: a in assocs && a.nominal == h
  {
    assert forall h :: h in hypos <==> h in Range(hypos);
  }

  /** From the day the rules are designed on, over every interleaving of cases opened and
      answered on any of them, the tables of an item are consistent iff the association that
      designed it is invertible or its rule has a single hypothesis. */
  lemma ConsistentInEveryRunIff(base: NodeMap, designs: seq<Design>, i: nat, evid: nat,
                                states: seq<World>, events: seq<Event>, n: nat)
    requires AreDesigns(base, designs) && i < |designs|
    requires exists a :: a in designs[i].assocs && a.evid == evid
    requires IsRun(states, events) && n <= |events| && states[0] == FirstDayOfAll(base, designs)
    ensures Consistent(states[n].nodes, designs[i].rule, designs[i].hypos, evid)
       <==> LastNaming(designs[i].assocs, evid).invertible || |designs[i].hypos| == 1
  {
    var d := designs[i];
    AsIfBuiltLast(base, designs, i);
    ConsistentSinceIff(WithoutRule(AllBuilt(base, designs), d.rule), d.rule, d.hypos, d.assocs,
                       KnownBy(Said(designs)), states, events, n, evid);
  }

  /** And a case opened on a rule then comes into being exactly as long as some association, of
      whatever rule, names each of its hypotheses, and of T cases of the rule verified so far its
      first hypothesis has explained enough: with n hypotheses and t of the cases its own, n + T
      may not exceed 1000 * (1 + t). */
  lemma OpensInEveryRunIff(base: NodeMap, designs: seq<Design>, i: nat,
                           states: seq<World>, events: seq<Event>, n: nat,
                           hasDiagnostics: bool, hypos: seq<HypoTally>, evids: seq<nat>, sumPrior: nat)
    requires AreDesigns(base, designs) && i < |designs| && designs[i].assocs != []
    requires IsRun(states, events) && n <= |events| && states[0] == FirstDayOfAll(base, designs)
    requires OnFile(states[n].nodes, designs[i].rule, hypos, evids, sumPrior)
    ensures var rule, history := designs[i].rule, History(states, events, n);
            Started(states[n].known, rule, hasDiagnostics, hypos, evids, sumPrior).Created? <==>
              && (forall h :: h in designs[i].hypos ==> exists a :: a in Said(designs) && a.nominal == h)
              && |hypos| + TimesTaught(history, rule) <= 1000 * (1 + TimesTrue(history, rule, hypos[0].id))
  {
    var d := designs[i];
    AsIfBuiltLast(base, designs, i);
    OpensSinceIff(WithoutRule(AllBuilt(base, designs), d.rule), d.rule, d.hypos, d.assocs, KnownBy(Said(designs)),
                  states, events, n, hasDiagnostics, hypos, evids, sumPrior);
    SaidOf(designs, i);
    HyposNamedIff(Said(designs), d.hypos);
  }

  // ----- A design on which no case opens -----

  /** A hypothesis that no association names keeps cases on its rule from ever opening. */
  lemma NeverOpens(base: NodeMap, designs: seq<Design>, i: nat, states: seq<World>, events: seq<Event>, n: nat,
                   hasDiagnostics: bool, hypos: seq<HypoTally>, evids: seq<nat>, sumPrior: nat, hypo: nat)
    requires AreDesigns(base, designs) && i < |designs| && designs[i].assocs != []
    requires IsRun(states, events) && n <= |events| && states[0] == FirstDayOfAll(base, designs)
    requires OnFile(states[n].nodes, designs[i].rule, hypos, evids, sumPrior)
    requires hypo in designs[i].hypos && forall a :: a in Said(designs) ==> a.nominal != hypo
    ensures !Started(states[n].known, designs[i].rule, hasDiagnostics, hypos, evids, sumPrior).Created?
  {
    OpensInEveryRunIff(base, designs, i, states, events, n, hasDiagnostics, hypos, evids, sumPrior);
  }

  /** Two hypotheses, and one item, which speaks for the first. */
  const HALF_SAID := Design(1, [1, 2], [Association(1, 1, true, true)])

  const HALF_SAID_HYPOS: seq<HypoTally> := [NewHypo(1, 1), NewHypo(2, 1)]

  lemma HalfSaidNodes()
    ensures var nodes := AllBuilt(map[], [HALF_SAID]);
            && (forall k :: k in nodes <==> k == NodeKey(1, 1, 1) || k == NodeKey(1, 2, 1))
            && nodes[NodeKey(1, 1, 1)].trues == [0, 1, 0] && nodes[NodeKey(1, 2, 1)].trues == [1, 0, 0]
  {
    var d, a := HALF_SAID, HALF_SAID.assocs[0];
    assert [d][..0] == [] && d.assocs[..0] == [] && d.hypos[0] == 1 && d.hypos[1] == 2;
    assert AllBuilt(map[], [d]) == Built(AllBuilt(map[], [d][..0]), d.rule, d.hypos, d.assocs);
    assert Built(map[], d.rule, d.hypos, d.assocs) == Initialized(Built(map[], d.rule, d.hypos, d.assocs[..0]),
                                                                  d.rule, d.hypos, a);
    assert forall k :: k in KeysAt(1, Range(d.hypos), 1) <==> k == NodeKey(1, 1, 1) || k == NodeKey(1, 2, 1);
  }

  lemma HalfSaidGroups(nodes: NodeMap)
    requires forall k :: k in nodes <==> k == NodeKey(1, 1, 1) || k == NodeKey(1, 2, 1)
    ensures HyposOfRule(nodes, 1) == {1, 2} && EvidsOfRule(nodes, 1) == {1}
    ensures EvidsOf(nodes, 1, 1) == {1} && EvidsOf(nodes, 1, 2) == {1}
  {
    assert NodeKey(1, 1, 1) in nodes && NodeKey(1, 2, 1) in nodes;
  }

  lemma HalfSaidOnFile()
    ensures Fresh(HALF_SAID_HYPOS, [1], 2) && OnFile(AllBuilt(map[], [HALF_SAID]), 1, HALF_SAID_HYPOS, [1], 2)
  {
    var nodes, hypos := AllBuilt(map[], [HALF_SAID]), HALF_SAID_HYPOS;
    HalfSaidNodes();
    HalfSaidGroups(nodes);
    assert hypos[..1] == [hypos[0]] && [hypos[0]][..0] == [] && SumPriors([hypos[0]]) == 1;
    assert HypoIds(hypos) == [1, 2];
    assert [1][..0] == [];
    assert forall h :: PriorCount(nodes, 1, h, [1]) == ColumnTotal(At(nodes, NodeKey(1, h, 1)).trues);
    assert CountedIn(nodes, 1, hypos, [[1], [1]]);
  }

  lemma HalfSaidIsDesign()
    ensures AreDesigns(map[], [HALF_SAID]) && KnownBy(Said([HALF_SAID])).hypos == {1}
  {
    var d := HALF_SAID;
    assert d.hypos[0] == 1 && d.hypos[1] == 2 && d.assocs[0] in d.assocs;
    assert Said([d]) == Said([d][..0]) + d.assocs;
  }

  lemma NotNamedStopsCase(w: World, rule: nat, hasDiagnostics: bool, hypos: seq<HypoTally>, evids: seq<nat>,
                          sumPrior: nat, i: nat)
    requires i < |hypos| && hypos[i].id !in w.known.hypos
    ensures Started(w.known, rule, hasDiagnostics, hypos, evids, sumPrior) == NotNamed
  {
    assert HypoIds(hypos)[i] in Range(HypoIds(hypos));
  }

  lemma HalfSaidBegins(hasDiagnostics: bool)
    ensures Begun(1, hasDiagnostics, HALF_SAID_HYPOS, [1], 2).Created?
  {
    HalfSaidOnFile();
    assert HypoIds(HALF_SAID_HYPOS) == [1, 2];
    CreatedIff(Known({1, 2}, {1}), 1, hasDiagnostics, HALF_SAID_HYPOS, [1], 2);
  }

  /** Both have a table and a prior, so that a case could begin on them, but the second cannot be
      looked up: none opens. */
  lemma UnnamedHypoStopsCases(w: World, hasDiagnostics: bool)
    requires w == FirstDayOfAll(map[], [HALF_SAID])
    ensures AreDesigns(map[], [HALF_SAID]) && OnFile(w.nodes, 1, HALF_SAID_HYPOS, [1], 2)
    ensures Begun(1, hasDiagnostics, HALF_SAID_HYPOS, [1], 2).Created?
    ensures Started(w.known, 1, hasDiagnostics, HALF_SAID_HYPOS, [1], 2) == NotNamed
  {
    HalfSaidIsDesign();
    HalfSaidOnFile();
    HalfSaidBegins(hasDiagnostics);
    NotNamedStopsCase(w, 1, hasDiagnostics, HALF_SAID_HYPOS, [1], 2, 1);
  }
}
