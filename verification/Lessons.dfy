/** What the knowledge base is taught while any number of cases are out on it: at every event of
    every interleaving, nothing but what the user has said of the one case then verified. */
module Lessons {
  import opened Nodes
  import opened Tallies
  import opened OccurrenceTable
  import opened Bayes
  import opened Dialogue
  import opened DialogueSafety
  import opened DialogueOutcomes
  import opened CaseCreation
  import opened Diagnosis
  import opened KnowledgeLife

  /** What has been found of the case last opened under a key, one event later. */
  ghost function ToldBy(w: World, e: Event, key: nat, before: seq<Finding>): seq<Finding> {
    if e.key != key || (e.Answers? && key !in w.cases) then before
    else if e.Opens? then []
    else before + FoundBy(w.cases[key], e.answer)
  }

  /** And in the first `n` events. */
  ghost function Told(states: seq<World>, events: seq<Event>, key: nat, n: nat): seq<Finding>
    requires n <= |events| && n < |states|
  {
    if n == 0 then [] else ToldBy(states[n - 1], events[n - 1], key, Told(states, events, key, n - 1))
  }

  ghost predicate ToldOf(w: World, states: seq<World>, events: seq<Event>, n: nat)
    requires n <= |events| && n < |states|
  {
    forall key :: key in w.cases ==> Recorded(w.cases[key].evidence.evids, Told(states, events, key, n))
  }

  lemma OpenedTold(w: World, e: Event, after: World)
    requires e.Opens? && Next(w, e, after) && e.key in after.cases
    ensures Recorded(after.cases[e.key].evidence.evids, [])
  {
    BegunRecords(e.rule, e.hasDiagnostics, e.hypos, e.evids, e.sumPrior);
  }

  lemma AnsweredTold(w: World, e: Event, after: World, before: seq<Finding>)
    requires InOrder(w) && e.Answers? && Next(w, e, after) && e.key in w.cases && e.key in after.cases
    requires Recorded(w.cases[e.key].evidence.evids, before)
    ensures Recorded(after.cases[e.key].evidence.evids, before + FoundBy(w.cases[e.key], e.answer))
  {
    StepRecords(w.cases[e.key], w.nodes, e.answer, before);
  }

  lemma CaseTold(w: World, e: Event, after: World, key: nat, before: seq<Finding>)
    requires InOrder(w) && Next(w, e, after) && key in after.cases
    requires key in w.cases ==> Recorded(w.cases[key].evidence.evids, before)
    ensures Recorded(after.cases[key].evidence.evids, ToldBy(w, e, key, before))
  {
    if key == e.key {
      if e.Opens? {
        OpenedTold(w, e, after);
      } else {
        AnsweredTold(w, e, after, before);
      }
    }
  }

  lemma EventTells(states: seq<World>, events: seq<Event>, n: nat)
    requires IsRun(states, events) && 0 < n <= |events| && InOrder(states[n - 1])
    requires ToldOf(states[n - 1], states, events, n - 1)
    ensures ToldOf(states[n], states, events, n)
  {
    var w, e, after := states[n - 1], events[n - 1], states[n];
    forall key | key in after.cases
      ensures Recorded(after.cases[key].evidence.evids, Told(states, events, key, n))
    {
      CaseTold(w, e, after, key, Told(states, events, key, n - 1));
    }
  }

  lemma EventKeepsOrder(w: World, e: Event, after: World)
    requires InOrder(w) && Next(w, e, after)
    ensures InOrder(after)
  {
    if e.Opens? {
      OpeningKeeps(w, e, after);
    } else {
      AnsweringKeeps(w, e, after);
    }
  }

  lemma {:induction false} RunTells(states: seq<World>, events: seq<Event>, n: nat)
    requires IsRun(states, events) && n <= |events| && InOrder(states[0]) && states[0].cases == map[]
    ensures InOrder(states[n]) && ToldOf(states[n], states, events, n)
  {
    if n == 0 {
      assert forall key :: key !in states[0].cases;
    } else {
      RunTells(states, events, n - 1);
      EventKeepsOrder(states[n - 1], events[n - 1], states[n]);
      EventTells(states, events, n);
    }
  }

  /** The tables after an event, cell by cell: a confirmation teaches the hypothesis confirmed, with
      each item of the case in the row of what was found of it; any other event teaches nothing. */
  ghost predicate TeachesWhatIsSaid(w: World, e: Event, after: World, told: seq<Finding>) {
    if e.Answers? && e.key in w.cases && ConfirmedBy(w.cases[e.key], e.answer) != [] then
      var s := w.cases[e.key];
      !s.verified
      && forall k: NodeKey, row: nat | row < 3 ::
           TaughtCell(w.nodes, after.nodes, s.rule, HypoIds(s.inference.hypos), EvidIds(s.evidence.evids),
                      ConfirmedBy(s, e.answer)[0], told, k, row)
    else forall k :: At(after.nodes, k) == At(w.nodes, k)
  }

  lemma ConfirmingTeaches(s: CaseState, nodes: NodeMap, answer: nat, told: seq<Finding>)
    requires Sound(s) && NonNegative(nodes) && Recorded(s.evidence.evids, told) && ConfirmedBy(s, answer) != []
    ensures !s.verified
    ensures forall k: NodeKey, row: nat | row < 3 ::
              TaughtCell(nodes, Step(s, nodes, answer).nodes, s.rule, HypoIds(s.inference.hypos),
                         EvidIds(s.evidence.evids), ConfirmedBy(s, answer)[0], told, k, row)
  {
    if s.verified {
      VerifiedStays(s, nodes, answer);
    }
    var o := Step(s, nodes, answer);
    StepConfirms(s, nodes, answer);
    StepTeaches(s, nodes, answer);
    StepRecords(s, nodes, answer, told);
    assert told + [] == told;
    EveryStepIsGood(s, nodes, answer);
    forall k: NodeKey, row: nat | row < 3
      ensures TaughtCell(nodes, o.nodes, s.rule, HypoIds(s.inference.hypos), EvidIds(s.evidence.evids),
                         ConfirmedBy(s, answer)[0], told, k, row)
    {
      LessonCell(o.state, told, nodes, o.nodes, k, row);
    }
  }

  lemma OtherAnswersTeachNothing(s: CaseState, nodes: NodeMap, answer: nat)
    requires Sound(s) && NonNegative(nodes) && ConfirmedBy(s, answer) == []
    ensures forall k :: At(Step(s, nodes, answer).nodes, k) == At(nodes, k)
  {
    if !s.verified {
      StepConfirms(s, nodes, answer);
    }
    StepTeaches(s, nodes, answer);
  }

  /** At every event of every interleaving, whatever other cases have taught meanwhile: the tables
      are taught what the user has said of the case confirmed, and nothing else. */
  lemma EveryLessonIsWhatWasSaid(states: seq<World>, events: seq<Event>, n: nat)
    requires IsRun(states, events) && n < |events| && InOrder(states[0]) && states[0].cases == map[]
    ensures TeachesWhatIsSaid(states[n], events[n], states[n + 1], Told(states, events, events[n].key, n))
  {
    var w, e := states[n], events[n];
    RunTells(states, events, n);
    assert Next(w, e, states[n + 1]);
    if e.Opens? {
      OpeningKeeps(w, e, states[n + 1]);
    } else if e.key in w.cases {
      if ConfirmedBy(w.cases[e.key], e.answer) != [] {
        ConfirmingTeaches(w.cases[e.key], w.nodes, e.answer, Told(states, events, e.key, n));
      } else {
        OtherAnswersTeachNothing(w.cases[e.key], w.nodes, e.answer);
      }
    }
  }
}
