/** The sets of snapshots of a rule kit, by their numbers: one is saved for each failure of a
    rule in auto mode, and one at most destroyed each time the trap is sprung.  A rule knows
    the number of its latest set only, and keeps it when the set is destroyed. */
module Snapshots {
  import opened Trap

  /** The number of each rule's latest set (0 before its first), those kept, and the next to give. */
  datatype Sets = Sets(latest: map<nat, nat>, kept: set<nat>, next: nat)

  /** A cycle: the rules that failed in auto mode, the rule picked to lose its set (0 for none),
      and the rules on which a case is out. */
  datatype CycleEvent = CycleEvent(failing: set<nat>, picked: nat, inCase: set<nat>)

  /** The numbers given to sets between two states of their source. */
  ghost function Issued(from: nat, upTo: nat): (numbers: set<nat>)
    ensures forall n :: n in numbers <==> from <= n < upTo
    ensures |numbers| == if from <= upTo then upTo - from else 0
  {
    if upTo <= from then {} else Issued(from, upTo - 1) + {upTo - 1}
  }

  lemma IssuedOn(from: nat, between: nat, upTo: nat)
    requires from <= between <= upTo
    ensures Issued(from, between) + Issued(between, upTo) == Issued(from, upTo)
  {
  }

  /** Each rule that has failed is given a new number of its own. */
  ghost predicate Renumbers(before: map<nat, nat>, failing: set<nat>, after: map<nat, nat>, from: nat, upTo: nat) {
    && failing <= before.Keys && after.Keys == before.Keys && upTo == from + |failing|
    && (forall u :: u in before ==> if u in failing then from <= after[u] < upTo else after[u] == before[u])
    && NumbersDiffer(failing, after)
  }

  ghost predicate NumbersDiffer(failing: set<nat>, numbers: map<nat, nat>) {
    forall u, v {:trigger numbers[u], numbers[v]} ::
      u in failing && v in failing && u in numbers && v in numbers && u != v ==> numbers[u] != numbers[v]
  }

  /** A new set for each rule that has failed. */
  ghost predicate Saves(s: Sets, failing: set<nat>, t: Sets) {
    && Renumbers(s.latest, failing, t.latest, s.next, t.next)
    && t.kept == s.kept + Issued(s.next, t.next)
  }

  lemma DiffersOneMore(failing: set<nat>, numbers: map<nat, nat>, upTo: nat, uai: nat)
    requires NumbersDiffer(failing, numbers) && forall u :: u in failing && u in numbers ==> numbers[u] < upTo
    requires uai !in failing
    ensures NumbersDiffer(failing + {uai}, numbers[uai := upTo])
  {
  }

  lemma RenumbersOneMore(before: map<nat, nat>, failing: set<nat>, after: map<nat, nat>, from: nat, upTo: nat, uai: nat)
    requires Renumbers(before, failing, after, from, upTo) && uai in before && uai !in failing
    ensures Renumbers(before, failing + {uai}, after[uai := upTo], from, upTo + 1)
  {
    assert |failing + {uai}| == |failing| + 1;
    DiffersOneMore(failing, after, upTo, uai);
  }

  lemma SavesOneMore(s: Sets, failing: set<nat>, t: Sets, uai: nat)
    requires Saves(s, failing, t) && uai in s.latest && uai !in failing
    ensures Saves(s, failing + {uai}, Sets(t.latest[uai := t.next], t.kept + {t.next}, t.next + 1))
  {
    RenumbersOneMore(s.latest, failing, t.latest, s.next, t.next, uai);
  }

  /** The latest set of the rule picked goes, unless a case is out on the rule. */
  function Wiped(s: Sets, picked: nat, inCase: set<nat>): Sets {
    if picked in s.latest && picked !in inCase then s.(kept := s.kept - {s.latest[picked]}) else s
  }

  /** The cycle before any set of it is destroyed. */
  ghost function AllKept(s: Sets, t: Sets): Sets {
    t.(kept := s.kept + Issued(s.next, t.next))
  }

  ghost predicate Next(s: Sets, e: CycleEvent, t: Sets) {
    Saves(s, e.failing, AllKept(s, t)) && t == Wiped(AllKept(s, t), e.picked, e.inCase)
  }

  lemma NextHas(s: Sets, failing: set<nat>, all: Sets, picked: nat, inCase: set<nat>)
    requires Saves(s, failing, all)
    ensures Next(s, CycleEvent(failing, picked, inCase), Wiped(all, picked, inCase))
  {
    assert AllKept(s, Wiped(all, picked, inCase)) == all;
  }

  /** A set is kept after a cycle if it was before or is new in it, unless it is the latest of the
      rule picked and no case is out on that rule. */
  lemma KeptIff(s: Sets, e: CycleEvent, t: Sets, n: nat)
    requires Next(s, e, t)
    ensures n in t.kept <==>
              && (n in s.kept || s.next <= n < s.next + |e.failing|)
              && !(e.picked in t.latest && t.latest[e.picked] == n && e.picked !in e.inCase)
  {
    assert t.latest == AllKept(s, t).latest && t.next == AllKept(s, t).next;
  }

  predicate IsStep(events: seq<CycleEvent>, n: nat) {
    n < |events|
  }

  ghost predicate IsRun(states: seq<Sets>, events: seq<CycleEvent>) {
    && |states| == |events| + 1
    && forall n: nat {:trigger IsStep(events, n)} :: IsStep(events, n) ==> Next(states[n], events[n], states[n + 1])
  }

  // ----- What is kept for good -----

  /** A set the kit keeps though no rule knows its number any more. */
  predicate IsForgotten(s: Sets, n: nat) {
    n in s.kept && n < s.next && forall u :: u in s.latest ==> s.latest[u] != n
  }

  /** A set superseded by a later one of its rule is never destroyed. */
  lemma {:induction false} ForgottenIsKeptForGood(states: seq<Sets>, events: seq<CycleEvent>, i: nat, j: nat, n: nat)
    requires IsRun(states, events) && i <= j < |states| && IsForgotten(states[i], n)
    ensures IsForgotten(states[j], n)
  {
    if i < j {
      ForgottenIsKeptForGood(states, events, i, j - 1, n);
      assert IsStep(events, j - 1);
      ForgottenStays(states[j - 1], events[j - 1], states[j], n);
    }
  }

  lemma ForgottenStays(s: Sets, e: CycleEvent, t: Sets, n: nat)
    requires Next(s, e, t) && IsForgotten(s, n)
    ensures IsForgotten(t, n)
  {
    assert t.latest == AllKept(s, t).latest;
    forall u | u in t.latest
      ensures t.latest[u] != n
    {
      assert u in e.failing || t.latest[u] == s.latest[u];
    }
  }

  /** Every rule's number has been given, each to one rule, and no set is kept that was not. */
  ghost predicate InOrder(s: Sets) {
    && s.next > 0 && s.kept <= Issued(1, s.next) && (forall u :: u in s.latest ==> s.latest[u] < s.next)
    && (forall u, v :: u in s.latest && v in s.latest && u != v && s.latest[u] != 0 ==> s.latest[u] != s.latest[v])
  }

  lemma NextKeepsOrder(s: Sets, e: CycleEvent, t: Sets)
    requires InOrder(s) && Next(s, e, t)
    ensures InOrder(t)
  {
    assert t.latest == AllKept(s, t).latest && t.next == AllKept(s, t).next;
  }

  ghost predicate Destroys(s: Sets, e: CycleEvent, t: Sets) {
    e.picked in t.latest && e.picked !in e.inCase && t.latest[e.picked] in AllKept(s, t).kept
  }

  ghost function TimesDestroyed(states: seq<Sets>, events: seq<CycleEvent>, n: nat): nat
    requires n <= |events| < |states|
  {
    if n == 0 then 0
    else TimesDestroyed(states, events, n - 1) + if Destroys(states[n - 1], events[n - 1], states[n]) then 1 else 0
  }

  lemma NextCounts(s: Sets, e: CycleEvent, t: Sets)
    requires InOrder(s) && Next(s, e, t)
    ensures |t.kept| == |s.kept| + (t.next - s.next) - if Destroys(s, e, t) then 1 else 0
  {
    var all := AllKept(s, t);
    assert all.kept == s.kept + Issued(s.next, t.next) && s.kept !! Issued(s.next, t.next);
    if Destroys(s, e, t) {
      assert t.kept == all.kept - {t.latest[e.picked]};
    } else {
      assert t.kept == all.kept;
    }
  }

  lemma {:induction false} RunKeepsOrder(states: seq<Sets>, events: seq<CycleEvent>, n: nat)
    requires IsRun(states, events) && n < |states| && InOrder(states[0])
    ensures InOrder(states[n])
  {
    if n > 0 {
      RunKeepsOrder(states, events, n - 1);
      assert IsStep(events, n - 1);
      NextKeepsOrder(states[n - 1], events[n - 1], states[n]);
    }
  }

  /** Of the sets saved in a run, those not destroyed are kept. */
  lemma {:induction false} SetsAreConserved(states: seq<Sets>, events: seq<CycleEvent>, n: nat)
    requires IsRun(states, events) && n < |states| && InOrder(states[0])
    ensures |states[0].kept| + (states[n].next - states[0].next)
         == |states[n].kept| + TimesDestroyed(states, events, n)
  {
    if n > 0 {
      SetsAreConserved(states, events, n - 1);
      StepCounts(states, events, n - 1);
    }
  }

  lemma StepCounts(states: seq<Sets>, events: seq<CycleEvent>, n: nat)
    requires IsRun(states, events) && n < |events| && InOrder(states[0])
    ensures |states[n + 1].kept| == |states[n].kept| + (states[n + 1].next - states[n].next)
                                    - if Destroys(states[n], events[n], states[n + 1]) then 1 else 0
  {
    RunKeepsOrder(states, events, n);
    assert IsStep(events, n);
    NextCounts(states[n], events[n], states[n + 1]);
  }

  // ----- A rule without a set in the way -----

  /** The first rule in the walk that was given a set and has no failure in the span. */
  ghost predicate IsFirstStale(columns: seq<RuleColumn>, span: nat, uai: nat) {
    && SpanFits(columns, span) && UaisSound(columns)
    && exists i :: 0 <= i < |columns| && HasUai(columns[i], uai) && IsStale(columns[i], span)
                   && forall j :: 0 <= j < i ==> !IsStale(columns[j], span)
  }

  lemma FirstStaleIsPicked(columns: seq<RuleColumn>, span: nat, uai: nat)
    requires IsFirstStale(columns, span, uai)
    ensures Sprung(columns, span).uaiToWipe == 0 || Sprung(columns, span).uaiToWipe == uai
  {
    var counts := FailCounts(columns, span);
    var flagged := WithNoSnapshot(columns, counts);
    var i :| 0 <= i < |columns| && HasUai(columns[i], uai) && IsStale(columns[i], span)
             && forall j :: 0 <= j < i ==> !IsStale(columns[j], span);
    assert flagged[i] == 0;
    forall j | 0 <= j < i
      ensures flagged[j] > 0
    {
      assert !IsStale(columns[j], span);
    }
    assert MinElement(flagged) == i;
  }

  /** All the trap picks is the rule, whenever it picks one. */
  ghost predicate PicksFirstStale(e: CycleEvent, columns: seq<RuleColumn>, span: nat, uai: nat) {
    e.picked != 0 ==> IsFirstStale(columns, span, uai) && e.picked == Sprung(columns, span).uaiToWipe
  }

  /** The number is the rule's latest, and its set is gone. */
  predicate IsSpent(s: Sets, uai: nat, n: nat) {
    uai in s.latest && s.latest[uai] == n && n !in s.kept && 0 < n < s.next
  }

  lemma NothingDestroyed(s: Sets, e: CycleEvent, t: Sets, uai: nat)
    requires Next(s, e, t) && 0 !in s.latest && uai in s.latest && IsSpent(s, uai, s.latest[uai])
    requires uai !in e.failing && (e.picked == 0 || e.picked == uai)
    ensures 0 !in t.latest && IsSpent(t, uai, s.latest[uai])
    ensures t.next >= s.next && t.kept == s.kept + Issued(s.next, t.next)
  {
    var all := AllKept(s, t);
    assert t.latest == all.latest && t.next == all.next;
    assert all.latest[uai] == s.latest[uai] && s.latest[uai] !in all.kept;
  }

  /** Since `start` no set has been destroyed, and the rule has no set to lose. */
  ghost predicate Shielded(start: Sets, s: Sets, uai: nat) {
    && 0 !in s.latest && uai in start.latest && IsSpent(s, uai, start.latest[uai])
    && start.next <= s.next && s.kept == start.kept + Issued(start.next, s.next)
  }

  lemma SpentStays(s: Sets, e: CycleEvent, t: Sets, columns: seq<RuleColumn>, span: nat, uai: nat, start: Sets)
    requires Next(s, e, t) && Shielded(start, s, uai)
    requires uai !in e.failing && PicksFirstStale(e, columns, span, uai)
    ensures Shielded(start, t, uai)
  {
    if e.picked != 0 {
      FirstStaleIsPicked(columns, span, uai);
    }
    NothingDestroyed(s, e, t, uai);
    IssuedOn(start.next, s.next, t.next);
  }

  /** A rule given a set once, and then put out of auto mode or never failing again, is picked
      for as long as it is the first such in the walk.  Its set goes at most once: from then on
      no set of any rule is destroyed. */
  lemma {:induction false} SpentRuleShieldsAll(states: seq<Sets>, events: seq<CycleEvent>,
                                               walks: seq<seq<RuleColumn>>, span: nat, uai: nat, n: nat)
    requires IsRun(states, events) && |walks| == |events| && n < |states| && 0 !in states[0].latest
    requires uai in states[0].latest && IsSpent(states[0], uai, states[0].latest[uai])
    requires forall i :: 0 <= i < |events| ==>
               PicksFirstStale(events[i], walks[i], span, uai) && uai !in events[i].failing
    ensures Shielded(states[0], states[n], uai)
  {
    if n > 0 {
      SpentRuleShieldsAll(states, events, walks, span, uai, n - 1);
      assert PicksFirstStale(events[n - 1], walks[n - 1], span, uai) && IsStep(events, n - 1);
      SpentStays(states[n - 1], events[n - 1], states[n], walks[n - 1], span, uai, states[0]);
    }
  }
}
